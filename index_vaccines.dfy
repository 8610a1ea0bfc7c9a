/**
 * The vaccination table of `index.tsx`: `calculateNextDose` and the status
 * branches of `updateVaccineStatus`. The calendar is left abstract: whether a
 * date string parses is a parameter, the next dose is named by the shift it
 * applies to the last dose, and whether that date lies before today is a
 * parameter too. `0` stands for an absent interval and `""` for absent dose text.
 */
module IndexVaccines {
  import opened Wrappers

  datatype VaccineInfo = VaccineInfo(
    requiresScheme: bool,
    isAnnual: bool,
    intervalYears: nat,
    intervalMonths: nat,
    doseInfo: string)

  /** What `calculateNextDose` returns. */
  datatype NextDose =
    | Dash
    | InvalidDate
    | NoInterval
    | ShiftYears(years: nat)
    | ShiftMonths(months: nat)

  predicate IsDate(d: NextDose) {
    d.ShiftYears? || d.ShiftMonths?
  }

  function CalculateNextDose(lastDose: string, parses: bool, intervalYears: nat, intervalMonths: nat, isAnnual: bool): (r: NextDose)
    ensures r == Dash <==> lastDose == []
    ensures r == InvalidDate <==> lastDose != [] && !parses
    ensures lastDose != [] && parses ==>
      && (isAnnual ==> r == ShiftYears(1))
      && (!isAnnual && intervalYears > 0 ==> r == ShiftYears(intervalYears))
      && (!isAnnual && intervalYears == 0 && intervalMonths > 0 ==> r == ShiftMonths(intervalMonths))
      && (r == NoInterval <==> !isAnnual && intervalYears == 0 && intervalMonths == 0)
  {
    if lastDose == [] then Dash
    else if !parses then InvalidDate
    else if isAnnual then ShiftYears(1)
    else if intervalYears > 0 then ShiftYears(intervalYears)
    else if intervalMonths > 0 then ShiftMonths(intervalMonths)
    else NoInterval
  }

  datatype Status = Pending | Check | SchemeInProgress | Overdue | UpToDate

  /** The next-dose cell: a dash, the invalid-date text, the scheme text or the computed result. */
  datatype NextCell = DashCell | InvalidCell | SchemeCell(text: string) | DoseCell(dose: NextDose)

  datatype Row = Row(next: NextCell, status: Status)

  /** `vaccine.doseInfo || "Consultar esquema"`. */
  function SchemeText(info: VaccineInfo): (t: string)
    ensures t != []
    ensures info.doseInfo != [] ==> t == info.doseInfo
    ensures info.doseInfo == [] ==> t == "Consultar esquema"
  {
    if info.doseInfo != [] then info.doseInfo else "Consultar esquema"
  }

  predicate NoSchedule(info: VaccineInfo) {
    !info.isAnnual && info.intervalYears == 0 && info.intervalMonths == 0
  }

  /**
   * The row `updateVaccineStatus` leaves behind. `nextBeforeToday` is the
   * comparison of the computed next dose with today.
   */
  function VaccineRow(info: VaccineInfo, lastDose: string, parses: bool, nextBeforeToday: bool): (r: Row)
    ensures lastDose == [] ==> (r.status == Check <==> info.requiresScheme)
    ensures lastDose == [] ==> (r.status == Pending <==> !info.requiresScheme)
    ensures r.status == Check <==> lastDose == [] && info.requiresScheme
    ensures r.status == SchemeInProgress <==> lastDose != [] && parses && info.requiresScheme && NoSchedule(info)
    ensures r.status == Overdue <==> lastDose != [] && parses && !NoSchedule(info) && nextBeforeToday
    ensures r.status == UpToDate <==> lastDose != [] && parses && !NoSchedule(info) && !nextBeforeToday
    ensures lastDose != [] && !parses ==> r == Row(InvalidCell, Pending)
  {
    if lastDose != [] then
      if !parses then Row(InvalidCell, Pending)
      else if info.requiresScheme && NoSchedule(info) then Row(SchemeCell(SchemeText(info)), SchemeInProgress)
      else
        var next := CalculateNextDose(lastDose, parses, info.intervalYears, info.intervalMonths, info.isAnnual);
        if IsDate(next) then Row(DoseCell(next), if nextBeforeToday then Overdue else UpToDate)
        else Row(DoseCell(next), Pending)
    else if info.requiresScheme then Row(SchemeCell(SchemeText(info)), Check)
    else Row(DashCell, Pending)
  }

  /** A vaccine with no schedule and no scheme stays pending with "Intervalo não definido". */
  lemma UnscheduledStaysPending(info: VaccineInfo, lastDose: string)
    requires lastDose != [] && NoSchedule(info) && !info.requiresScheme
    ensures VaccineRow(info, lastDose, true, false) == Row(DoseCell(NoInterval), Pending)
    ensures VaccineRow(info, lastDose, true, true) == Row(DoseCell(NoInterval), Pending)
  {
  }

  class VaccineTracker {
    var vaccineData: map<string, string>

    /** The stored dates, or an empty map. */
    constructor (stored: Option<map<string, string>>)
      ensures vaccineData == if stored.Some? then stored.value else map[]
    {
      vaccineData := if stored.Some? then stored.value else map[];
    }

    /**
     * `updateVaccineStatus` for one table row: an empty or unknown id leaves
     * everything as it was; a known one records the typed date and yields its row.
     */
    method UpdateVaccineStatus(vaccineId: string, infoMap: map<string, VaccineInfo>, lastDose: string, parses: bool, nextBeforeToday: bool)
      returns (row: Option<Row>)
      modifies this
      ensures vaccineId == [] || vaccineId !in infoMap ==> row.None? && vaccineData == old(vaccineData)
      ensures vaccineId != [] && vaccineId in infoMap ==>
        && vaccineData == old(vaccineData)[vaccineId := lastDose]
        && row == Some(VaccineRow(infoMap[vaccineId], lastDose, parses, nextBeforeToday))
    {
      if vaccineId == [] || vaccineId !in infoMap {
        return None;
      }
      vaccineData := vaccineData[vaccineId := lastDose];
      return Some(VaccineRow(infoMap[vaccineId], lastDose, parses, nextBeforeToday));
    }
  }
}
