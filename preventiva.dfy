/**
 * The preventive-health page (`preventiva.ts`): the zone scan that interprets
 * an indicator reading, the per-indicator latest reading and history that the
 * update button writes, the merged history table, and the page's goal list.
 * A reading parsed with `parseFloat` is `Option<real>`, `None` standing for
 * `NaN` (and for the `null` of a card that was never filled in).
 */
module Preventiva {
  import opened Text
  import opened Seqs
  import opened Wrappers
  import opened Goals

  const GoalsStorageKey: string := "preventivaGoals"
  const GoalVariant: Variant := ButtonOnly

  /** On this page a click on a goal's text is not a toggle, yet the unchanged list is saved. */
  lemma TextClickSavesUnchanged(goals: seq<Goal>, goalId: Option<string>)
    ensures AfterAction(goals, goalId, ItemText, GoalVariant) == goals
    ensures Saves(goals, goalId, ItemText, GoalVariant) <==> Target(goals, goalId) >= 0
  {
  }

  /** One zone of an indicator: readings up to `upTo` get its status, tip and colour. */
  datatype PZone = PZone(upTo: real, color: string, status: string, tip: string)

  datatype Interpretation = Interpretation(status: string, suggestion: string, color: string)

  const NotAvailable: Interpretation := Interpretation("N/A", "Insira um valor.", "#ccc")

  function FromZone(z: PZone): Interpretation {
    Interpretation(z.status, z.tip, z.color)
  }

  /** The zone list in the order the scan visits it: reversed for a `reversed` indicator. */
  function ScanOrder(zones: seq<PZone>, reversed: bool): (r: seq<PZone>)
    ensures |r| == |zones|
    ensures forall k :: 0 <= k < |r| ==> r[k] == if reversed then zones[|zones| - 1 - k] else zones[k]
  {
    if reversed then seq(|zones|, k requires 0 <= k < |zones| => zones[|zones| - 1 - k]) else zones
  }

  /** The scan's test: `value >= to` when reversed, `value <= to` otherwise. */
  predicate Hits(z: PZone, v: real, reversed: bool) {
    if reversed then v >= z.upTo else v <= z.upTo
  }

  function HitsAt(v: real, reversed: bool): PZone -> bool {
    (z: PZone) => Hits(z, v, reversed)
  }

  /** The position the scan returns, or -1 when no zone is hit. */
  function ScanHit(v: real, zones: seq<PZone>, reversed: bool): (i: int)
    ensures -1 <= i < |zones|
  {
    FindIndex(ScanOrder(zones, reversed), HitsAt(v, reversed))
  }

  /** In a forward scan the hit is the first zone whose bound the value does not exceed. */
  lemma ForwardHit(v: real, zones: seq<PZone>)
    ensures var i := ScanHit(v, zones, false);
      && (i == -1 <==> forall j :: 0 <= j < |zones| ==> v > zones[j].upTo)
      && (i >= 0 ==> v <= zones[i].upTo && forall j :: 0 <= j < i ==> v > zones[j].upTo)
  {
  }

  /** In a reversed scan the hit at position `i` is zone `n - 1 - i`: the last zone whose bound the value reaches. */
  lemma ReversedHit(v: real, zones: seq<PZone>)
    ensures var i := ScanHit(v, zones, true);
      var n := |zones|;
      && (i == -1 <==> forall j :: 0 <= j < n ==> v < zones[j].upTo)
      && (i >= 0 ==> v >= zones[n - 1 - i].upTo && forall j :: n - 1 - i < j < n ==> v < zones[j].upTo)
  {
    var s := ScanOrder(zones, true);
    var n := |zones|;
    var i := ScanHit(v, zones, true);
    if i == -1 {
      forall j | 0 <= j < n ensures v < zones[j].upTo {
        assert s[n - 1 - j] == zones[j];
        assert !HitsAt(v, true)(s[n - 1 - j]);
      }
    } else {
      assert s[i] == zones[n - 1 - i];
      forall j | n - 1 - i < j < n ensures v < zones[j].upTo {
        assert s[n - 1 - j] == zones[j];
        assert !HitsAt(v, true)(s[n - 1 - j]);
      }
    }
  }

  /**
   * The zone `getInterpretation` picks for a value, as an index into the zone
   * list: forward, the first zone whose bound the value does not exceed, else the
   * last zone; reversed, the last zone whose bound the value reaches, else the
   * first zone.
   */
  function ChosenZone(v: real, zones: seq<PZone>, reversed: bool): (k: nat)
    requires |zones| > 0
    ensures k < |zones|
    ensures !reversed ==>
      || (v <= zones[k].upTo && forall j :: 0 <= j < k ==> v > zones[j].upTo)
      || (k == |zones| - 1 && forall j :: 0 <= j < |zones| ==> v > zones[j].upTo)
    ensures reversed ==>
      || (v >= zones[k].upTo && forall j :: k < j < |zones| ==> v < zones[j].upTo)
      || (k == 0 && forall j :: 0 <= j < |zones| ==> v < zones[j].upTo)
  {
    var i := ScanHit(v, zones, reversed);
    if reversed then
      ReversedHit(v, zones);
      if i == -1 then 0 else |zones| - 1 - i
    else
      ForwardHit(v, zones);
      if i == -1 then |zones| - 1 else i
  }

  /**
   * `getInterpretation` as written: `N/A` without a value, otherwise the chosen
   * zone. Without a value the zones are never looked at; with one, the zone list
   * must not be empty for the fallback to read a last zone.
   */
  function Interpret(value: Option<real>, zones: seq<PZone>, reversed: bool): (r: Interpretation)
    requires value.None? || |zones| > 0
    ensures value.None? ==> r == NotAvailable
    ensures value.Some? ==> r == FromZone(zones[ChosenZone(value.value, zones, reversed)])
  {
    if value.None? then NotAvailable
    else
      var s := ScanOrder(zones, reversed);
      var i := ScanHit(value.value, zones, reversed);
      if i == -1 then FromZone(s[|s| - 1]) else FromZone(s[i])
  }

  /** The loop of `getInterpretation`, which returns from inside the `for`. */
  method GetInterpretation(value: Option<real>, zones: seq<PZone>, reversed: bool) returns (r: Interpretation)
    requires value.None? || |zones| > 0
    ensures r == Interpret(value, zones, reversed)
  {
    if value.None? {
      return NotAvailable;
    }
    var v := value.value;
    var sortedZones := ScanOrder(zones, reversed);
    var i := 0;
    while i < |sortedZones|
      invariant 0 <= i <= |sortedZones|
      invariant forall k :: 0 <= k < i ==> !HitsAt(v, reversed)(sortedZones[k])
    {
      if (if reversed then v >= sortedZones[i].upTo else v <= sortedZones[i].upTo) {
        assert HitsAt(v, reversed)(sortedZones[i]);
        assert ScanHit(v, zones, reversed) == i;
        return FromZone(sortedZones[i]);
      }
      i := i + 1;
    }
    assert ScanHit(v, zones, reversed) == -1;
    return FromZone(sortedZones[|sortedZones| - 1]);
  }

  /**
   * Zone `k` is drawn on the card's bar from the previous zone's bound to its own:
   * the reading lies in that segment.
   */
  predicate InBarSegment(zones: seq<PZone>, k: int, v: real)
    requires 0 <= k < |zones|
  {
    (k == 0 || zones[k - 1].upTo < v) && v <= zones[k].upTo
  }

  predicate Ascending(zones: seq<PZone>) {
    forall i, j :: 0 <= i < j < |zones| ==> zones[i].upTo < zones[j].upTo
  }

  /**
   * For ascending zones, the reversed scan as written picks the zone BELOW the
   * segment that holds the reading, whenever that segment is not the first one and
   * the reading is not its bound.
   */
  lemma ReversedPicksZoneBelow(zones: seq<PZone>, k: int, v: real)
    requires Ascending(zones) && 0 < k < |zones| && InBarSegment(zones, k, v) && v < zones[k].upTo
    ensures Interpret(Some(v), zones, true) == FromZone(zones[k - 1])
  {
    var c := ChosenZone(v, zones, true);
    assert v > zones[k - 1].upTo;
    assert c < k;
  }

  /** The interpretation the bar shows: the zone whose segment holds the reading, whatever the flag. */
  function IntendedInterpretation(value: Option<real>, zones: seq<PZone>, reversed: bool): (r: Interpretation)
    requires value.None? || |zones| > 0
    ensures value.None? ==> r == NotAvailable
    ensures value.Some? && Ascending(zones) ==>
      forall k :: 0 <= k < |zones| && InBarSegment(zones, k, value.value) ==> r == FromZone(zones[k])
    ensures value.Some? && (forall k :: 0 <= k < |zones| ==> value.value > zones[k].upTo) ==> r == FromZone(zones[|zones| - 1])
  {
    if value.Some? && Ascending(zones) then
      SegmentIsFirstHit(value.value, zones);
      Interpret(value, zones, false)
    else Interpret(value, zones, false)
  }

  /** In ascending zones, the zone whose segment holds the reading is the first one whose bound the reading does not exceed. */
  lemma SegmentIsFirstHit(v: real, zones: seq<PZone>)
    requires Ascending(zones)
    ensures forall k :: 0 <= k < |zones| && InBarSegment(zones, k, v) ==> forall j :: 0 <= j < k ==> v > zones[j].upTo
  {
    forall k, j | 0 <= k < |zones| && InBarSegment(zones, k, v) && 0 <= j < k ensures v > zones[j].upTo {
      assert zones[j].upTo <= zones[k - 1].upTo;
    }
  }

  /** The HDL zones of the configuration table (`reversed: true`). */
  const HdlZones: seq<PZone> := [
    PZone(39.0, "#e74a3b", "Alerta", "Baixo"),
    PZone(59.0, "#f6c23e", "Atenção", "Normal"),
    PZone(100.0, "#1cc88a", "Ótimo", "Ótimo")]

  /** The lean-mass zones of the configuration table (`reversed: true`). */
  const LeanMassZones: seq<PZone> := [
    PZone(49.0, "#e74a3b", "Alerta", "Baixa"),
    PZone(80.0, "#1cc88a", "Normal", "Normal"),
    PZone(90.0, "#1cc88a", "Ótimo", "Elevada")]

  /** An HDL of 45 lies in the `Normal` segment (40 to 59) but is reported as `Alerta`/`Baixo`. */
  lemma HdlFortyFiveMisread()
    ensures InBarSegment(HdlZones, 1, 45.0)
    ensures Interpret(Some(45.0), HdlZones, true) == Interpretation("Alerta", "Baixo", "#e74a3b")
    ensures IntendedInterpretation(Some(45.0), HdlZones, true) == Interpretation("Atenção", "Normal", "#f6c23e")
  {
    assert Ascending(HdlZones);
    ReversedPicksZoneBelow(HdlZones, 1, 45.0);
  }

  /** A lean mass of 60 kg lies in the `Normal` segment but is reported as `Alerta`/`Baixa`. */
  lemma LeanMassSixtyMisread()
    ensures InBarSegment(LeanMassZones, 1, 60.0)
    ensures Interpret(Some(60.0), LeanMassZones, true).status == "Alerta"
    ensures IntendedInterpretation(Some(60.0), LeanMassZones, true).status == "Normal"
  {
    assert Ascending(LeanMassZones);
    ReversedPicksZoneBelow(LeanMassZones, 1, 60.0);
  }

  // ---- Indicator readings and history ----

  datatype Reading = Reading(value: real, date: string)

  /** `loadItems(history key) || []`. */
  function HistoryOf(histories: map<string, seq<Reading>>, id: string): (h: seq<Reading>)
    ensures id in histories ==> h == histories[id]
    ensures id !in histories ==> h == []
  {
    if id in histories then histories[id] else []
  }

  class IndicatorStore {
    var latest: map<string, Reading>
    var histories: map<string, seq<Reading>>

    constructor (latest: map<string, Reading>, histories: map<string, seq<Reading>>)
      ensures this.latest == latest && this.histories == histories
    {
      this.latest := latest;
      this.histories := histories;
    }

    /**
     * `updateIndicator`: a number and a non-empty date replace the latest
     * reading and are pushed onto the end of that indicator's history;
     * otherwise nothing is stored.
     */
    method UpdateIndicator(indicatorId: string, value: Option<real>, date: string) returns (saved: bool)
      modifies this
      ensures saved <==> value.Some? && date != []
      ensures !saved ==> latest == old(latest) && histories == old(histories)
      ensures saved ==>
        && latest == old(latest)[indicatorId := Reading(value.value, date)]
        && histories == old(histories)[indicatorId := HistoryOf(old(histories), indicatorId) + [Reading(value.value, date)]]
        && |HistoryOf(histories, indicatorId)| == |HistoryOf(old(histories), indicatorId)| + 1
        && forall id :: id != indicatorId ==> HistoryOf(histories, id) == HistoryOf(old(histories), id)
    {
      if value.None? || !Truthy(date) {
        return false;
      }
      var data := Reading(value.value, date);
      latest := latest[indicatorId := data];
      var history := HistoryOf(histories, indicatorId);
      history := history + [data];
      histories := histories[indicatorId := history];
      return true;
    }
  }

  /** An indicator of the configuration table, as the history page needs it. */
  datatype IndicatorInfo = IndicatorInfo(id: string, name: string)

  datatype HistoryRow = HistoryRow(indicatorId: string, indicatorName: string, value: real, date: string)

  function RowsOf(info: IndicatorInfo, readings: seq<Reading>): (r: seq<HistoryRow>)
    ensures |r| == |readings|
    ensures forall k :: 0 <= k < |r| ==> r[k] == HistoryRow(info.id, info.name, readings[k].value, readings[k].date)
  {
    seq(|readings|, k requires 0 <= k < |readings| => HistoryRow(info.id, info.name, readings[k].value, readings[k].date))
  }

  /** How many readings the indicators hold together. */
  function RowCount(configs: seq<IndicatorInfo>, histories: map<string, seq<Reading>>): nat {
    if configs == [] then 0
    else |HistoryOf(histories, configs[0].id)| + RowCount(configs[1..], histories)
  }

  /**
   * Every history, indicator after indicator in table order, tagged with its
   * indicator; `MergedAt` and `StartStep` say where each indicator's rows sit.
   */
  function Merged(configs: seq<IndicatorInfo>, histories: map<string, seq<Reading>>): (r: seq<HistoryRow>)
    ensures |r| == RowCount(configs, histories)
  {
    if configs == [] then []
    else
      var head := RowsOf(configs[0], HistoryOf(histories, configs[0].id));
      var rest := Merged(configs[1..], histories);
      head + rest
  }

  /** How many rows the indicators before indicator `c` contribute. */
  function Start(configs: seq<IndicatorInfo>, histories: map<string, seq<Reading>>, c: nat): nat
    requires c <= |configs|
  {
    if c == 0 then 0 else |HistoryOf(histories, configs[0].id)| + Start(configs[1..], histories, c - 1)
  }

  /** The blocks of consecutive indicators follow one another, and the last one ends the list. */
  lemma {:induction false} StartStep(configs: seq<IndicatorInfo>, histories: map<string, seq<Reading>>, c: nat)
    requires c <= |configs|
    ensures c < |configs| ==> Start(configs, histories, c + 1) == Start(configs, histories, c) + |HistoryOf(histories, configs[c].id)|
    ensures c == |configs| ==> Start(configs, histories, c) == |Merged(configs, histories)|
  {
    if c > 0 {
      StartStep(configs[1..], histories, c - 1);
      assert c < |configs| ==> configs[c] == configs[1..][c - 1];
    }
  }

  lemma MergedCons(configs: seq<IndicatorInfo>, histories: map<string, seq<Reading>>)
    requires configs != []
    ensures Merged(configs, histories) == RowsOf(configs[0], HistoryOf(histories, configs[0].id)) + Merged(configs[1..], histories)
  {
  }

  lemma IndexAfter<T>(a: seq<T>, b: seq<T>, i: int)
    requires 0 <= i < |b|
    ensures (a + b)[|a| + i] == b[i]
  {
  }

  /**
   * The `k`-th reading of indicator `c` sits right after the rows of the
   * indicators before it, tagged with that indicator. With `StartStep` the
   * blocks follow one another in table order and cover the list, so every
   * reading appears once and nothing else does.
   */
  lemma {:induction false} MergedAt(configs: seq<IndicatorInfo>, histories: map<string, seq<Reading>>, c: nat, k: int)
    requires c < |configs| && 0 <= k < |HistoryOf(histories, configs[c].id)|
    ensures var i := Start(configs, histories, c) + k;
      var reading := HistoryOf(histories, configs[c].id)[k];
      && i < |Merged(configs, histories)|
      && Merged(configs, histories)[i] == HistoryRow(configs[c].id, configs[c].name, reading.value, reading.date)
  {
    var head := RowsOf(configs[0], HistoryOf(histories, configs[0].id));
    var rest := Merged(configs[1..], histories);
    MergedCons(configs, histories);
    if c == 0 {
      assert (head + rest)[k] == head[k];
    } else {
      MergedAt(configs[1..], histories, c - 1, k);
      assert configs[c] == configs[1..][c - 1];
      var start' := Start(configs[1..], histories, c - 1);
      IndexAfter(head, rest, start' + k);
    }
  }

  /** Every reading of every indicator appears in the merged history. */
  lemma MergedHoldsReading(configs: seq<IndicatorInfo>, histories: map<string, seq<Reading>>, c: nat, k: int)
    requires c < |configs| && 0 <= k < |HistoryOf(histories, configs[c].id)|
    ensures RowsOf(configs[c], HistoryOf(histories, configs[c].id))[k] in Merged(configs, histories)
  {
    MergedAt(configs, histories, c, k);
  }

  function RowDate(row: HistoryRow): string {
    row.date
  }

  const MaxHistoryRows: nat := 50

  /**
   * Rows sorted newest first (by the order of ISO date strings) and cut to
   * fifty: a sub-multiset of the rows, all of them when there are at most
   * fifty, and no row left out is newer than a row kept.
   */
  function NewestFirst(all: seq<HistoryRow>): (r: seq<HistoryRow>)
    ensures |r| == (if |all| <= MaxHistoryRows then |all| else MaxHistoryRows)
    ensures SortedBy(r, RowDate, true)
    ensures forall k :: 0 <= k < |r| ==> r[k] in all
    ensures multiset(r) <= multiset(all)
    ensures |all| <= MaxHistoryRows ==> multiset(r) == multiset(all)
    ensures forall e, k :: e in all && e !in r && 0 <= k < |r| ==> StrLe(e.date, r[k].date)
  {
    var sorted := SortBy(all, RowDate, true);
    var r := Take(sorted, MaxHistoryRows);
    PrefixOfSorted(sorted, all, |r|, RowDate, true);
    assert r == sorted[..|r|];
    forall e, k | e in all && e !in r && 0 <= k < |r| ensures StrLe(e.date, r[k].date) {
      assert r[k] == sorted[k];
      assert InOrder(true, RowDate(sorted[k]), RowDate(e));
    }
    r
  }

  /** `renderHistoryPage`: the fifty newest rows of every indicator's history. */
  function HistoryPage(configs: seq<IndicatorInfo>, histories: map<string, seq<Reading>>): (r: seq<HistoryRow>)
    ensures var all := Merged(configs, histories);
      && |r| == (if |all| <= MaxHistoryRows then |all| else MaxHistoryRows)
      && SortedBy(r, RowDate, true)
      && (forall k :: 0 <= k < |r| ==> r[k] in all)
      && multiset(r) <= multiset(all)
      && (|all| <= MaxHistoryRows ==> multiset(r) == multiset(all))
      && (forall e, k :: e in all && e !in r && 0 <= k < |r| ==> StrLe(e.date, r[k].date))
  {
    NewestFirst(Merged(configs, histories))
  }
}
