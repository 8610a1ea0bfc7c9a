/**
 * The preventive-health indicator cards of `index.tsx`: the zone lookup that
 * names a reading's status, the advice line chosen from the zone's colour
 * class, the global history log capped at 50 entries, newest first, and the
 * update button that stores a reading and logs it. A value read with
 * `parseFloat` is `Option<real>`, `None` standing for `NaN`; the timestamp is a
 * parameter.
 */
module IndexIndicators {
  import opened Wrappers

  datatype Zone = Zone(min: real, max: real, labelText: string, colorClass: string)

  predicate InZone(z: Zone, v: real) {
    z.min <= v <= z.max
  }

  /** `zones.find(z => value >= z.min && value <= z.max)`, written as a loop-free recursion. */
  function FindZone(zones: seq<Zone>, v: real): (r: Option<nat>)
    ensures r.None? <==> forall k :: 0 <= k < |zones| ==> !InZone(zones[k], v)
    ensures r.Some? ==> r.value < |zones| && InZone(zones[r.value], v)
    ensures r.Some? ==> forall k :: 0 <= k < r.value ==> !InZone(zones[k], v)
  {
    if zones == [] then None
    else if InZone(zones[0], v) then Some(0)
    else
      var r := FindZone(zones[1..], v);
      if r.None? then None else Some(r.value + 1)
  }

  const Undefined: string := "Indefinido"
  const CheckClass: string := "status-check"

  /** The status text: the label of the first zone holding the value, or `Indefinido`. */
  function StatusText(zones: seq<Zone>, v: real): (s: string)
    ensures (forall k :: 0 <= k < |zones| ==> !InZone(zones[k], v)) ==> s == Undefined
    ensures forall k :: 0 <= k < |zones| && InZone(zones[k], v) && (forall j :: 0 <= j < k ==> !InZone(zones[j], v))
              ==> s == zones[k].labelText
  {
    var i := FindZone(zones, v);
    if i.None? then Undefined else zones[i.value].labelText
  }

  /** The class the card shows, `status-check` when no zone holds the value. */
  function StatusClass(zones: seq<Zone>, v: real): (c: string)
    ensures (forall k :: 0 <= k < |zones| ==> !InZone(zones[k], v)) ==> c == CheckClass
    ensures forall i :: 0 <= i < |zones| && InZone(zones[i], v) && (forall k :: 0 <= k < i ==> !InZone(zones[k], v)) ==>
      c == zones[i].colorClass
  {
    var i := FindZone(zones, v);
    assert i.Some? ==> forall j :: 0 <= j < |zones| && InZone(zones[j], v) && (forall k :: 0 <= k < j ==> !InZone(zones[k], v)) ==>
      j == i.value;
    if i.None? then CheckClass else zones[i.value].colorClass
  }

  /** When two zones both hold the value, the earlier one names the status. */
  lemma OverlapResolvesToEarlier(zones: seq<Zone>, v: real, i: nat, j: nat)
    requires i < j < |zones| && InZone(zones[i], v) && InZone(zones[j], v)
    requires forall k :: 0 <= k < i ==> !InZone(zones[k], v)
    ensures StatusText(zones, v) == zones[i].labelText
    ensures FindZone(zones, v) != Some(j)
  {
  }

  datatype Advice = KeepHabits | SeeDoctor | AskProfessional

  /** The suggestion line, chosen from the status class. */
  function AdviceFor(statusClass: string): (a: Advice)
    ensures a == KeepHabits <==> statusClass == "status-ok"
    ensures a == SeeDoctor <==> statusClass == "status-warning" || statusClass == "status-overdue"
  {
    if statusClass == "status-ok" then KeepHabits
    else if statusClass == "status-warning" || statusClass == "status-overdue" then SeeDoctor
    else AskProfessional
  }

  /** A value outside every zone always gets the most cautious advice. */
  lemma UndefinedGetsProfessional(zones: seq<Zone>, v: real)
    requires forall k :: 0 <= k < |zones| ==> !InZone(zones[k], v)
    ensures AdviceFor(StatusClass(zones, v)) == AskProfessional
  {
  }

  datatype Entry = Entry(timestamp: int, indicatorId: string, value: real, date: string, status: string)

  const MaxHistory: nat := 50

  /**
   * The history after `unshift` and at most one `pop`: the new entry first, then
   * the old entries, the oldest dropped once the log holds more than 50.
   */
  function Logged(history: seq<Entry>, e: Entry): (r: seq<Entry>)
    ensures |r| >= 1 && r[0] == e
    ensures |r| == if |history| >= MaxHistory then |history| else |history| + 1
    ensures r[1..] == history[..|r| - 1]
    ensures |history| <= MaxHistory ==> |r| <= MaxHistory
  {
    var h := [e] + history;
    if |h| > MaxHistory then h[..|h| - 1] else h
  }

  /** Logging never drops more than the last entry: a log at the cap stays at the cap. */
  lemma {:induction false} LoggedTwice(history: seq<Entry>, e1: Entry, e2: Entry)
    requires |history| <= MaxHistory
    ensures var r := Logged(Logged(history, e1), e2);
      r[0] == e2 && r[1] == e1 && |r| <= MaxHistory && r[2..] == history[..|r| - 2]
  {
    var r1 := Logged(history, e1);
    var r := Logged(r1, e2);
    assert r[1..] == r1[..|r| - 1];
    assert r[2..] == r1[1..][..|r| - 2];
  }

  /** The last stored reading of an indicator. */
  datatype Reading = Reading(value: real, date: string)

  class IndicatorStore {
    var indicatorData: map<string, Reading>
    var indicatorHistory: seq<Entry>

    predicate Valid()
      reads this
    {
      |indicatorHistory| <= MaxHistory
    }

    constructor ()
      ensures Valid() && indicatorData == map[] && indicatorHistory == []
    {
      indicatorData := map[];
      indicatorHistory := [];
    }

    /**
     * `loadAllIndicatorData`: each stored value (`None` when the key is missing
     * or empty) replaces the one in memory; a stored history is taken as it is,
     * even past 50 entries.
     */
    method LoadAll(storedData: Option<map<string, Reading>>, storedHistory: Option<seq<Entry>>)
      modifies this
      ensures indicatorData == if storedData.Some? then storedData.value else old(indicatorData)
      ensures indicatorHistory == if storedHistory.Some? then storedHistory.value else old(indicatorHistory)
      ensures storedHistory.Some? && |storedHistory.value| <= MaxHistory ==> Valid()
      ensures storedHistory.None? ==> (Valid() <==> old(Valid()))
    {
      if storedData.Some? {
        indicatorData := storedData.value;
      }
      if storedHistory.Some? {
        indicatorHistory := storedHistory.value;
      }
    }

    /** `logIndicatorEntry`. */
    method LogIndicatorEntry(indicatorId: string, value: real, date: string, status: string, timestamp: int)
      modifies this`indicatorHistory
      ensures old(Valid()) ==> Valid()
      ensures indicatorHistory == Logged(old(indicatorHistory), Entry(timestamp, indicatorId, value, date, status))
    {
      var newEntry := Entry(timestamp, indicatorId, value, date, status);
      indicatorHistory := [newEntry] + indicatorHistory;
      if |indicatorHistory| > MaxHistory {
        indicatorHistory := indicatorHistory[..|indicatorHistory| - 1];
      }
    }

    /**
     * The update button: a number and a date store the reading, log it with the
     * status of its zone and report success; anything else only warns.
     */
    method Update(indicatorId: string, zones: seq<Zone>, value: Option<real>, date: string, timestamp: int) returns (saved: bool)
      modifies this
      ensures old(Valid()) ==> Valid()
      ensures saved <==> value.Some? && date != []
      ensures !saved ==> indicatorData == old(indicatorData) && indicatorHistory == old(indicatorHistory)
      ensures saved ==>
        && indicatorData == old(indicatorData)[indicatorId := Reading(value.value, date)]
        && indicatorHistory == Logged(old(indicatorHistory), Entry(timestamp, indicatorId, value.value, date, StatusText(zones, value.value)))
    {
      if value.Some? && date != [] {
        indicatorData := indicatorData[indicatorId := Reading(value.value, date)];
        var status := StatusText(zones, value.value);
        LogIndicatorEntry(indicatorId, value.value, date, status, timestamp);
        return true;
      }
      return false;
    }
  }
}
