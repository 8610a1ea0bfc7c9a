/**
 * The physical-health page (`fisica.ts`): the exercise protocol with its
 * per-day completion map, and the sleep and biomarker logs, each kept with one
 * entry per date in ascending date order. Numbers read with `parseFloat` and
 * `parseInt` are `Option`s, `None` standing for `NaN`; today's date and new ids
 * are parameters.
 */
module Fisica {
  import opened Text
  import opened Seqs
  import opened Wrappers

  const ExerciseKey: string := "fisicaExercises"
  const SleepKey: string := "fisicaSleepLogs"
  const BiomarkerKey: string := "fisicaBiomarkers"
  const ExerciseStatusPrefix: string := "fisicaExerciseStatus-"

  datatype Exercise = Exercise(id: string, name: string, kind: string, duration: string)

  datatype SleepLog = SleepLog(date: string, hours: real, quality: int, notes: string)

  datatype Biomarkers = Biomarkers(date: string, vo2max: Option<real>, gripStrength: Option<real>, restingHR: Option<int>)

  function ExerciseIdIsNot(id: string): Exercise -> bool {
    (ex: Exercise) => ex.id != id
  }

  /** The key of a day's completion map. */
  function StatusKey(date: string): (k: string)
    ensures StartsWith(k, ExerciseStatusPrefix) && k[|ExerciseStatusPrefix|..] == date
  {
    ExerciseStatusPrefix + date
  }

  /** `dailyStatus[ex.id] || false`. */
  function IsExerciseDone(dailyStatus: map<string, bool>, id: string): (b: bool)
    ensures b <==> id in dailyStatus && dailyStatus[id]
  {
    if id in dailyStatus then dailyStatus[id] else false
  }

  /** `parseFloat(x) || undefined`: a zero reads as absent, like a value that is not a number. */
  function RealOrAbsent(v: Option<real>): (r: Option<real>)
    ensures r.None? <==> v.None? || v.value == 0.0
    ensures r.Some? ==> r == v
  {
    if v.Some? && v.value != 0.0 then v else None
  }

  /** `parseInt(x, 10) || undefined`. */
  function IntOrAbsent(v: Option<int>): (r: Option<int>)
    ensures r.None? <==> v.None? || v.value == 0
    ensures r.Some? ==> r == v
  {
    if v.Some? && v.value != 0 then v else None
  }

  /** The entries whose date differs from `date`. */
  function DateIsNot<T>(dateOf: T -> string, date: string): T -> bool {
    (x: T) => dateOf(x) != date
  }

  function DateIs<T>(dateOf: T -> string, date: string): T -> bool {
    (x: T) => dateOf(x) == date
  }

  /**
   * The log update of both forms: drop the entries of the new entry's date, push
   * the new entry, sort ascending by date.
   */
  function Upsert<T(==)>(log: seq<T>, entry: T, dateOf: T -> string): (r: seq<T>)
    ensures SortedBy(r, dateOf, false)
    ensures multiset(r) == multiset(Filter(log, DateIsNot(dateOf, dateOf(entry)))) + multiset{entry}
    ensures |r| <= |log| + 1
  {
    var kept := Filter(log, DateIsNot(dateOf, dateOf(entry)));
    SortBy(kept + [entry], dateOf, false)
  }

  /** After an update, the new entry is the only one of its date and every other date keeps its entries. */
  lemma {:induction false} UpsertSingleEntry<T>(log: seq<T>, entry: T, dateOf: T -> string)
    ensures Count(Upsert(log, entry, dateOf), DateIs(dateOf, dateOf(entry))) == 1
    ensures entry in Upsert(log, entry, dateOf)
    ensures forall x :: x in Upsert(log, entry, dateOf) && dateOf(x) == dateOf(entry) ==> x == entry
    ensures forall d :: d != dateOf(entry) ==>
      Count(Upsert(log, entry, dateOf), DateIs(dateOf, d)) == Count(log, DateIs(dateOf, d))
  {
    var date := dateOf(entry);
    var kept := Filter(log, DateIsNot(dateOf, date));
    var r := Upsert(log, entry, dateOf);
    CountMultiset(r, kept + [entry], DateIs(dateOf, date));
    CountAppend(kept, [entry], DateIs(dateOf, date));
    assert [entry][1..] == [];
    CountZero(kept, DateIs(dateOf, date));
    assert entry in multiset(r);
    forall x | x in r && dateOf(x) == date ensures x == entry {
      assert x in multiset(r);
    }
    forall d | d != date ensures Count(r, DateIs(dateOf, d)) == Count(log, DateIs(dateOf, d)) {
      CountMultiset(r, kept + [entry], DateIs(dateOf, d));
      CountAppend(kept, [entry], DateIs(dateOf, d));
      CountFilterOther(log, dateOf, date, d);
    }
  }

  /** Dropping the entries of one date leaves the count of any other date alone. */
  lemma {:induction false} CountFilterOther<T>(log: seq<T>, dateOf: T -> string, date: string, d: string)
    requires d != date
    ensures Count(Filter(log, DateIsNot(dateOf, date)), DateIs(dateOf, d)) == Count(log, DateIs(dateOf, d))
  {
    if log != [] {
      CountFilterOther(log[1..], dateOf, date, d);
    }
  }

  function SleepDate(s: SleepLog): string {
    s.date
  }

  function BiomarkerDate(b: Biomarkers): string {
    b.date
  }

  /** The page's state and the day-completion maps it stores. */
  class FisicaPage {
    var exercises: seq<Exercise>
    var sleepLogs: seq<SleepLog>
    var performanceBiomarkers: seq<Biomarkers>
    var statusByDay: map<string, map<string, bool>>

    /** `showFisicaPage`: each list is loaded, or starts empty. */
    constructor (exercises: Option<seq<Exercise>>, sleepLogs: Option<seq<SleepLog>>,
                 biomarkers: Option<seq<Biomarkers>>, statusByDay: map<string, map<string, bool>>)
      ensures this.exercises == (if exercises.Some? then exercises.value else [])
      ensures this.sleepLogs == (if sleepLogs.Some? then sleepLogs.value else [])
      ensures performanceBiomarkers == (if biomarkers.Some? then biomarkers.value else [])
      ensures this.statusByDay == statusByDay
    {
      this.exercises := if exercises.Some? then exercises.value else [];
      this.sleepLogs := if sleepLogs.Some? then sleepLogs.value else [];
      performanceBiomarkers := if biomarkers.Some? then biomarkers.value else [];
      this.statusByDay := statusByDay;
    }

    /** `loadItems(statusKey) || {}`. */
    function DailyStatus(today: string): map<string, bool>
      reads this
    {
      var key := StatusKey(today);
      if key in statusByDay then statusByDay[key] else map[]
    }

    /** `handleAddExercise`: appended only when the trimmed name and duration are both non-empty. */
    method AddExercise(name: string, kind: string, duration: string, newId: string)
      modifies this`exercises
      ensures Trim(name) == [] || Trim(duration) == [] ==> exercises == old(exercises)
      ensures Trim(name) != [] && Trim(duration) != [] ==>
        exercises == old(exercises) + [Exercise(newId, Trim(name), kind, Trim(duration))]
    {
      var newExercise := Exercise(newId, Trim(name), kind, Trim(duration));
      if Truthy(newExercise.name) && Truthy(newExercise.duration) {
        exercises := exercises + [newExercise];
      }
    }

    /**
     * `handleExerciseListClick` on a row with an id: the delete button removes
     * every exercise with that id; the checkbox sets the id's state in today's
     * map and leaves the other ids alone.
     */
    method DeleteExercise(rowId: Option<string>)
      modifies this`exercises
      ensures rowId.None? || rowId.value == [] ==> exercises == old(exercises)
      ensures rowId.Some? && rowId.value != [] ==>
        && exercises == Filter(old(exercises), ExerciseIdIsNot(rowId.value))
        && (forall k :: 0 <= k < |exercises| ==> exercises[k].id != rowId.value)
        && (forall k :: 0 <= k < |old(exercises)| && old(exercises)[k].id != rowId.value ==> old(exercises)[k] in exercises)
    {
      if rowId.None? || !Truthy(rowId.value) {
        return;
      }
      var id := rowId.value;
      exercises := Filter(exercises, ExerciseIdIsNot(id));
    }

    method SetExerciseStatus(rowId: Option<string>, checked: bool, today: string)
      modifies this`statusByDay
      ensures rowId.None? || rowId.value == [] ==> statusByDay == old(statusByDay)
      ensures rowId.Some? && rowId.value != [] ==>
        && statusByDay == old(statusByDay)[StatusKey(today) := old(DailyStatus(today))[rowId.value := checked]]
        && IsExerciseDone(DailyStatus(today), rowId.value) == checked
        && forall id :: id != rowId.value ==> IsExerciseDone(DailyStatus(today), id) == IsExerciseDone(old(DailyStatus(today)), id)
    {
      if rowId.None? || !Truthy(rowId.value) {
        return;
      }
      var statusKey := StatusKey(today);
      var dailyStatus := DailyStatus(today);
      dailyStatus := dailyStatus[rowId.value := checked];
      statusByDay := statusByDay[statusKey := dailyStatus];
    }

    /** `handleAddSleepLog`: saved only with a date and numeric hours and quality; returns whether it was. */
    method AddSleepLog(date: string, hours: Option<real>, quality: Option<int>, notes: string) returns (saved: bool)
      modifies this`sleepLogs
      ensures saved <==> date != [] && hours.Some? && quality.Some?
      ensures !saved ==> sleepLogs == old(sleepLogs)
      ensures saved ==> sleepLogs == Upsert(old(sleepLogs), SleepLog(date, hours.value, quality.value, notes), SleepDate)
      ensures saved ==> SortedBy(sleepLogs, SleepDate, false)
    {
      if Truthy(date) && hours.Some? && quality.Some? {
        var newLog := SleepLog(date, hours.value, quality.value, notes);
        sleepLogs := Filter(sleepLogs, DateIsNot(SleepDate, date));
        sleepLogs := sleepLogs + [newLog];
        sleepLogs := SortBy(sleepLogs, SleepDate, false);
        return true;
      }
      return false;
    }

    /**
     * `handleSaveBiomarkers`: without a date only a warning; otherwise the day's
     * record, zeros and non-numbers stored as absent, replaces any earlier one.
     */
    method SaveBiomarkers(date: string, vo2max: Option<real>, gripStrength: Option<real>, restingHR: Option<int>) returns (saved: bool)
      modifies this`performanceBiomarkers
      ensures saved <==> date != []
      ensures !saved ==> performanceBiomarkers == old(performanceBiomarkers)
      ensures saved ==> performanceBiomarkers == Upsert(old(performanceBiomarkers),
        Biomarkers(date, RealOrAbsent(vo2max), RealOrAbsent(gripStrength), IntOrAbsent(restingHR)), BiomarkerDate)
    {
      var v := RealOrAbsent(vo2max);
      var g := RealOrAbsent(gripStrength);
      var hr := IntOrAbsent(restingHR);
      if !Truthy(date) {
        return false;
      }
      var newBiomarkers := Biomarkers(date, v, g, hr);
      performanceBiomarkers := Filter(performanceBiomarkers, DateIsNot(BiomarkerDate, date));
      performanceBiomarkers := performanceBiomarkers + [newBiomarkers];
      performanceBiomarkers := SortBy(performanceBiomarkers, BiomarkerDate, false);
      return true;
    }
  }
}
