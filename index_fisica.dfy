/**
 * The physical-health page set up by `initFisicaPage` in `index.tsx`: an
 * exercise protocol with the ids checked off today, and a sleep log trimmed to
 * its last 90 entries. Ids read back with `Number()` are `Option<int>`, `None`
 * standing for `NaN`; new ids are parameters.
 */
module IndexFisica {
  import opened Seqs
  import opened Wrappers

  datatype ProtocolItem = ProtocolItem(id: int, name: string, kind: string, duration: string)

  datatype SleepEntry = SleepEntry(date: string, hours: string, quality: string, notes: string)

  /** Where a click in the protocol table lands. */
  datatype ProtocolClick = CheckboxClick(checked: bool) | DeleteClick | OtherClick

  const MaxSleepEntries: nat := 90

  predicate Distinct(s: seq<int>) {
    forall i, j :: 0 <= i < j < |s| ==> s[i] != s[j]
  }

  function IsNot(id: int): int -> bool {
    (x: int) => x != id
  }

  function ItemIsNot(id: int): ProtocolItem -> bool {
    (item: ProtocolItem) => item.id != id
  }

  /** Removing an id keeps the other ids, in order, and no copy of it. */
  lemma {:induction false} RemoveId(s: seq<int>, id: int)
    requires Distinct(s)
    ensures Distinct(Filter(s, IsNot(id)))
    ensures id !in Filter(s, IsNot(id))
    ensures forall x :: x != id ==> (x in Filter(s, IsNot(id)) <==> x in s)
  {
    if s != [] {
      var tail := s[1..];
      assert forall i :: 0 <= i < |tail| ==> tail[i] == s[i + 1];
      assert Distinct(tail);
      RemoveId(tail, id);
      var rest := Filter(tail, IsNot(id));
      if s[0] != id {
        assert Filter(s, IsNot(id)) == [s[0]] + rest;
        assert s[0] !in tail;
      } else {
        assert Filter(s, IsNot(id)) == rest;
      }
    }
  }

  /** `sleepLog.slice(length - 90)` once the log is longer than 90. */
  function KeepLast(log: seq<SleepEntry>): (r: seq<SleepEntry>)
    ensures |r| == if |log| > MaxSleepEntries then MaxSleepEntries else |log|
    ensures r == log[|log| - |r|..]
  {
    if |log| > MaxSleepEntries then log[|log| - MaxSleepEntries..] else log
  }

  class FisicaPage {
    var protocolItems: seq<ProtocolItem>
    var completedItems: seq<int>
    var sleepLog: seq<SleepEntry>

    /** The three lists as loaded; the sleep log may arrive longer than the bound. */
    constructor (protocol: Option<seq<ProtocolItem>>, completed: Option<seq<int>>, sleep: Option<seq<SleepEntry>>)
      ensures protocolItems == (if protocol.Some? then protocol.value else [])
      ensures completedItems == (if completed.Some? then completed.value else [])
      ensures sleepLog == (if sleep.Some? then sleep.value else [])
    {
      protocolItems := if protocol.Some? then protocol.value else [];
      completedItems := if completed.Some? then completed.value else [];
      sleepLog := if sleep.Some? then sleep.value else [];
    }

    /**
     * A click in the protocol table: checking adds the id unless present,
     * unchecking removes it, deleting removes the exercise and its check; a click
     * without a numeric id does nothing.
     */
    method ProtocolClickAt(click: ProtocolClick, id: Option<int>)
      modifies this`protocolItems, this`completedItems
      ensures Distinct(old(completedItems)) ==> Distinct(completedItems)
      ensures id.None? || click.OtherClick? ==>
        protocolItems == old(protocolItems) && completedItems == old(completedItems)
      ensures id.Some? && click.CheckboxClick? && click.checked ==>
        protocolItems == old(protocolItems)
        && completedItems == if id.value in old(completedItems) then old(completedItems) else old(completedItems) + [id.value]
      ensures id.Some? && click.CheckboxClick? && !click.checked ==>
        protocolItems == old(protocolItems) && completedItems == Filter(old(completedItems), IsNot(id.value))
      ensures id.Some? && click.DeleteClick? ==>
        protocolItems == Filter(old(protocolItems), ItemIsNot(id.value))
        && completedItems == Filter(old(completedItems), IsNot(id.value))
      ensures id.Some? && !click.OtherClick? ==> (id.value in completedItems <==> click.CheckboxClick? && click.checked)
    {
      if id.None? {
        return;
      }
      var i := id.value;
      match click {
        case CheckboxClick(checked) =>
          if checked {
            if i !in completedItems {
              completedItems := completedItems + [i];
            }
          } else {
            if Distinct(completedItems) { RemoveId(completedItems, i); }
            completedItems := Filter(completedItems, IsNot(i));
          }
        case DeleteClick =>
          protocolItems := Filter(protocolItems, ItemIsNot(i));
          if Distinct(completedItems) { RemoveId(completedItems, i); }
          completedItems := Filter(completedItems, IsNot(i));
        case OtherClick =>
      }
    }

    /** The exercise form appends an item as typed, without any check. */
    method AddExercise(newId: int, name: string, kind: string, duration: string)
      modifies this`protocolItems
      ensures protocolItems == old(protocolItems) + [ProtocolItem(newId, name, kind, duration)]
    {
      protocolItems := protocolItems + [ProtocolItem(newId, name, kind, duration)];
    }

    /** The sleep form pushes the entry and keeps the last 90. */
    method AddSleepEntry(entry: SleepEntry)
      modifies this`sleepLog
      ensures sleepLog == KeepLast(old(sleepLog) + [entry])
      ensures |sleepLog| <= MaxSleepEntries && sleepLog[|sleepLog| - 1] == entry
    {
      sleepLog := sleepLog + [entry];
      if |sleepLog| > MaxSleepEntries {
        sleepLog := sleepLog[|sleepLog| - MaxSleepEntries..];
      }
    }
  }

  /** After a push the newest entry is last and the older ones keep their order. */
  lemma KeepLastAfterPush(log: seq<SleepEntry>, entry: SleepEntry)
    requires |log| <= MaxSleepEntries
    ensures var r := KeepLast(log + [entry]);
      |r| <= MaxSleepEntries && r[|r| - 1] == entry
      && r[..|r| - 1] == log[|log| + 1 - |r|..]
  {
  }
}
