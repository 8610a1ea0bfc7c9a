/**
 * The spiritual-health page (`espiritual.ts`): the daily practice checklist kept
 * as a map from practice id to checked state, the gratitude journal stored one
 * entry per day under a prefixed key, the list of past entries rebuilt from the
 * storage keys, and the page's goal list (the button-only copy of `Goals`).
 * Today's date is a parameter; the storage is a map from key to stored value.
 */
module Espiritual {
  import opened Text
  import opened Seqs
  import opened Wrappers
  import opened Goals

  const JournalPrefix: string := "gratitudeJournal-"
  const ChecklistPrefix: string := "espiritual-checklist-"
  const GoalsStorageKey: string := "espiritualGoals"
  const GoalVariant: Variant := ButtonOnly

  datatype Practice = Practice(id: string, text: string)

  const SpiritualPractices: seq<Practice> := [
    Practice("gratidao", "Praticar a gratidão (Epicurismo)"),
    Practice("meditacao", "Atenção Plena (Mindfulness)"),
    Practice("proposito", "Reflexão sobre Valores Pessoais"),
    Practice("natureza", "Busca pela Admiração (Awe) na natureza ou na arte")]

  /** On this page a click on a goal's text is not a toggle, yet the unchanged list is saved. */
  lemma TextClickSavesUnchanged(goals: seq<Goal>, goalId: Option<string>)
    ensures AfterAction(goals, goalId, ItemText, GoalVariant) == goals
    ensures Saves(goals, goalId, ItemText, GoalVariant) <==> Target(goals, goalId) >= 0
  {
  }

  // ---- Practice checklist ----

  /** The storage key of a day's checklist. */
  function ChecklistKey(date: string): (k: string)
    ensures StartsWith(k, ChecklistPrefix) && k[|ChecklistPrefix|..] == date
  {
    ChecklistPrefix + date
  }

  /** `!!completedPractices[id]`: a practice missing from the map is not completed. */
  function IsPracticeCompleted(checklist: map<string, bool>, id: string): (b: bool)
    ensures b <==> id in checklist && checklist[id]
    ensures id !in checklist ==> !b
  {
    id in checklist && checklist[id]
  }

  /** What `renderPractices` shows: every practice, in order, with its checked state. */
  function PracticesShown(checklist: map<string, bool>): (r: seq<bool>)
    ensures |r| == |SpiritualPractices|
    ensures forall k :: 0 <= k < |r| ==> (r[k] <==> IsPracticeCompleted(checklist, SpiritualPractices[k].id))
  {
    seq(|SpiritualPractices|, k requires 0 <= k < |SpiritualPractices| => IsPracticeCompleted(checklist, SpiritualPractices[k].id))
  }

  // ---- Gratitude journal ----

  /** `getTodayJournalKey`, for a given day. */
  function JournalKey(date: string): (k: string)
    ensures StartsWith(k, JournalPrefix)
    ensures |k| == |JournalPrefix| + |date| && k[|JournalPrefix|..] == date
  {
    JournalPrefix + date
  }

  /** `s.replace(pattern, replacement)` with a string pattern: only the first occurrence is replaced. */
  function ReplaceFirst(s: string, pattern: string, replacement: string): (r: string)
    ensures StartsWith(s, pattern) ==> r == replacement + s[|pattern|..]
    decreases |s|
  {
    if StartsWith(s, pattern) then replacement + s[|pattern|..]
    else if s == [] then s
    else [s[0]] + ReplaceFirst(s[1..], pattern, replacement)
  }

  /** A string with no occurrence of the pattern is left alone. */
  lemma {:induction false} ReplaceAbsent(s: string, pattern: string, replacement: string)
    requires forall i :: 0 <= i <= |s| ==> !OccursAt(s, pattern, i)
    ensures ReplaceFirst(s, pattern, replacement) == s
    decreases |s|
  {
    assert !OccursAt(s, pattern, 0);
    if s != [] {
      forall i | 0 <= i <= |s[1..]| ensures !OccursAt(s[1..], pattern, i) {
        assert !OccursAt(s, pattern, i + 1);
        if i + |pattern| <= |s[1..]| {
          assert s[1..][i..i + |pattern|] == s[i + 1..i + 1 + |pattern|];
        }
      }
      ReplaceAbsent(s[1..], pattern, replacement);
    }
  }

  /** The date a journal key names: the key with the prefix removed. */
  function DateOfKey(key: string): string {
    ReplaceFirst(key, JournalPrefix, "")
  }

  /** A date goes into a key and comes back out unchanged. */
  lemma DateOfJournalKey(date: string)
    ensures DateOfKey(JournalKey(date)) == date
  {
    assert ("" + JournalKey(date)[|JournalPrefix|..]) == date;
  }

  /** A journal key is rebuilt from the date it names. */
  lemma JournalKeyOfDate(key: string)
    requires StartsWith(key, JournalPrefix)
    ensures JournalKey(DateOfKey(key)) == key
  {
    assert key == key[..|JournalPrefix|] + key[|JournalPrefix|..];
  }

  /** `loadItems(key) || ''`. */
  function ContentOf(storage: map<string, string>, key: string): string {
    if key in storage then storage[key] else ""
  }

  datatype PastEntry = PastEntry(date: string, content: string)

  function IsJournalKey(): string -> bool {
    (key: string) => StartsWith(key, JournalPrefix)
  }

  function EntryOf(storage: map<string, string>, key: string): PastEntry {
    PastEntry(DateOfKey(key), ContentOf(storage, key))
  }

  function EntriesOf(keys: seq<string>, storage: map<string, string>): (r: seq<PastEntry>)
    ensures |r| == |keys|
    ensures forall k :: 0 <= k < |r| ==> r[k] == EntryOf(storage, keys[k])
  {
    seq(|keys|, k requires 0 <= k < |keys| => EntryOf(storage, keys[k]))
  }

  function EntryDate(e: PastEntry): string {
    e.date
  }

  /** The entry was read from a prefixed key among `keys`, whose date the entry carries. */
  predicate FromJournalKey(keys: seq<string>, storage: map<string, string>, e: PastEntry) {
    exists key :: key in keys && StartsWith(key, JournalPrefix) && JournalKey(e.date) == key
               && e.content == ContentOf(storage, key)
  }

  /**
   * `renderPastEntries`: the keys that start with the journal prefix, each read
   * as its date and stored content, the newest date first.
   */
  function PastEntries(keys: seq<string>, storage: map<string, string>): (r: seq<PastEntry>)
    ensures |r| == Count(keys, IsJournalKey())
    ensures SortedBy(r, EntryDate, true)
    ensures forall k :: 0 <= k < |r| ==>
      FromJournalKey(keys, storage, r[k])
    ensures forall key :: key in keys && StartsWith(key, JournalPrefix) ==> EntryOf(storage, key) in r
  {
    var journal := Filter(keys, IsJournalKey());
    var r := SortBy(EntriesOf(journal, storage), EntryDate, true);
    FilterCount(keys, IsJournalKey());
    EntriesFromJournalKeys(keys, journal, storage, r);
    JournalKeysAllListed(keys, journal, storage, r);
    r
  }

  /** Each listed entry comes from a prefixed key. */
  lemma EntriesFromJournalKeys(keys: seq<string>, journal: seq<string>, storage: map<string, string>, r: seq<PastEntry>)
    requires forall k :: 0 <= k < |journal| ==> journal[k] in keys && StartsWith(journal[k], JournalPrefix)
    requires multiset(r) == multiset(EntriesOf(journal, storage))
    ensures forall k :: 0 <= k < |r| ==>
      FromJournalKey(keys, storage, r[k])
  {
    var entries := EntriesOf(journal, storage);
    forall k | 0 <= k < |r|
      ensures FromJournalKey(keys, storage, r[k])
    {
      assert r[k] in multiset(r);
      assert r[k] in entries;
      var j :| 0 <= j < |entries| && entries[j] == r[k];
      var key := journal[j];
      assert r[k] == EntryOf(storage, key);
      JournalKeyOfDate(key);
      assert key in keys && StartsWith(key, JournalPrefix) && JournalKey(r[k].date) == key;
    }
  }

  /** Every prefixed key is listed. */
  lemma JournalKeysAllListed(keys: seq<string>, journal: seq<string>, storage: map<string, string>, r: seq<PastEntry>)
    requires forall k :: 0 <= k < |keys| && IsJournalKey()(keys[k]) ==> keys[k] in journal
    requires multiset(r) == multiset(EntriesOf(journal, storage))
    ensures forall key :: key in keys && StartsWith(key, JournalPrefix) ==> EntryOf(storage, key) in r
  {
    var entries := EntriesOf(journal, storage);
    forall key | key in keys && StartsWith(key, JournalPrefix) ensures EntryOf(storage, key) in r {
      var i :| 0 <= i < |keys| && keys[i] == key;
      assert IsJournalKey()(keys[i]);
      var j :| 0 <= j < |journal| && journal[j] == key;
      assert entries[j] == EntryOf(storage, key);
      assert EntryOf(storage, key) in multiset(r);
    }
  }

  /** The practice and journal state the page writes to storage. */
  class SpiritualStore {
    var checklists: map<string, map<string, bool>>
    var journal: map<string, string>

    constructor (checklists: map<string, map<string, bool>>, journal: map<string, string>)
      ensures this.checklists == checklists && this.journal == journal
    {
      this.checklists := checklists;
      this.journal := journal;
    }

    /** `loadItems(storageKey) || {}` for a day's checklist. */
    function Checklist(date: string): (m: map<string, bool>)
      reads this
      ensures ChecklistKey(date) in checklists ==> m == checklists[ChecklistKey(date)]
      ensures ChecklistKey(date) !in checklists ==> m == map[]
    {
      var key := ChecklistKey(date);
      if key in checklists then checklists[key] else map[]
    }

    /** `loadTodaysEntry`. */
    function EntryFor(date: string): (e: string)
      reads this
      ensures JournalKey(date) in journal ==> e == journal[JournalKey(date)]
      ensures JournalKey(date) !in journal ==> e == ""
    {
      ContentOf(journal, JournalKey(date))
    }

    /**
     * `handlePracticeChange`: a checkbox with a practice id sets that id to the
     * checked state in the day's map (created when absent); no other id and no
     * other day changes.
     */
    method PracticeChange(practiceId: Option<string>, checked: bool, today: string)
      modifies this
      ensures journal == old(journal)
      ensures practiceId.None? || practiceId.value == [] ==> checklists == old(checklists)
      ensures practiceId.Some? && practiceId.value != [] ==>
        && checklists == old(checklists)[ChecklistKey(today) := old(Checklist(today))[practiceId.value := checked]]
        && IsPracticeCompleted(Checklist(today), practiceId.value) == checked
        && forall id :: id != practiceId.value ==>
             IsPracticeCompleted(Checklist(today), id) == IsPracticeCompleted(old(Checklist(today)), id)
    {
      if practiceId.Some? && Truthy(practiceId.value) {
        var storageKey := ChecklistKey(today);
        var completedPractices := Checklist(today);
        completedPractices := completedPractices[practiceId.value := checked];
        checklists := checklists[storageKey := completedPractices];
      }
    }

    /** `saveEntry`: today's entry becomes the trimmed text, and reads back as such. */
    method SaveEntry(text: string, today: string)
      modifies this
      ensures checklists == old(checklists)
      ensures journal == old(journal)[JournalKey(today) := Trim(text)]
      ensures EntryFor(today) == Trim(text)
    {
      var content := Trim(text);
      journal := journal[JournalKey(today) := content];
    }
  }
}
