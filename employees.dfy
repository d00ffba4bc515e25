/** One row of the employee table, and the three columns the dashboard derives
    from it: Age, Status and HQ. */
module Employees {
  import opened Optional
  import opened Dates

  /** A row as loaded from the semicolon-separated file with its three date
      columns parsed day-first. `termdate` is `None` when the cell was blank or
      did not parse: `errors='coerce'` turns both into NaT. */
  datatype Record = Record(
    employeeId: string,
    firstName: string,
    lastName: string,
    department: string,
    jobTitle: string,
    gender: string,
    birthdate: Date,
    hiredate: Date,
    termdate: Option<Date>,
    city: string,
    state: string,
    educationLevel: string,
    performanceRating: string,
    salary: int)

  datatype Status = Active | Terminated {
    function Label(): string {
      match this
      case Active => "Active"
      case Terminated => "Terminated"
    }
  }

  datatype Site = HQ | Branch {
    function Label(): string {
      match this
      case HQ => "HQ"
      case Branch => "Branch"
    }
  }

  /** The city whose employees count as headquarters staff. */
  const HqCity: string := "New York City"

  /** A row after enrichment: the loaded columns plus Age, Status and HQ. */
  datatype Row = Row(rec: Record, age: int, status: Status, hq: Site)

  /** `x / y` rounded toward zero, as `astype(int)` truncates a float. */
  function TruncDiv(x: int, y: int): int
    requires y > 0
  {
    if x >= 0 then x / y else -((-x) / y)
  }

  /** Whole years in `days` days of 365.25 days each (365.25 == 1461 / 4),
      truncated toward zero. */
  function YearsIn(days: int): (years: int)
    ensures days >= 0 ==> 0 <= years && 1461 * years <= 4 * days < 1461 * (years + 1)
    ensures days < 0 ==> years <= 0 && 1461 * (years - 1) < 4 * days <= 1461 * years
  {
    TruncDiv(4 * days, 1461)
  }

  /** The Age column: days from the birthdate to `today`, over 365.25, as an int. */
  function AgeYears(birthdate: Date, today: Date): int {
    YearsIn(DayDiff(birthdate, today))
  }

  /** The Status column: Terminated exactly when the termination date parsed. */
  function StatusOf(termdate: Option<Date>): (s: Status)
    ensures s == Terminated <==> termdate.Some?
    ensures s == Active <==> termdate.None?
  {
    if termdate.None? then Active else Terminated
  }

  /** The HQ column: HQ exactly when the city is the headquarters city. */
  function SiteOf(city: string): (s: Site)
    ensures s == HQ <==> city == HqCity
    ensures s == Branch <==> city != HqCity
  {
    if city == HqCity then HQ else Branch
  }

  function EnrichRow(rec: Record, today: Date): Row {
    Row(rec, AgeYears(rec.birthdate, today), StatusOf(rec.termdate), SiteOf(rec.city))
  }

  /** The table after the three column assignments: one enriched row per loaded row. */
  function EnrichAll(recs: seq<Record>, today: Date): seq<Row> {
    seq(|recs|, i requires 0 <= i < |recs| => EnrichRow(recs[i], today))
  }

  /** Status and HQ agree with the loaded columns of the same row. */
  ghost predicate Consistent(t: seq<Row>) {
    forall i :: 0 <= i < |t| ==> t[i].status == StatusOf(t[i].rec.termdate) && t[i].hq == SiteOf(t[i].rec.city)
  }

  /** Enrichment keeps the row count, the order and every loaded column, and adds
      columns that agree with their sources. */
  lemma EnrichAllSpec(recs: seq<Record>, today: Date)
    ensures |EnrichAll(recs, today)| == |recs|
    ensures forall i :: 0 <= i < |recs| ==>
      var r := EnrichAll(recs, today)[i];
      && r.rec == recs[i]
      && r.age == AgeYears(recs[i].birthdate, today)
      && (r.status == Terminated <==> recs[i].termdate.Some?)
      && (r.hq == HQ <==> recs[i].city == HqCity)
    ensures Consistent(EnrichAll(recs, today))
  {
  }

  /** An older birthdate never gives a smaller age. */
  lemma AgeMonotone(b1: Date, b2: Date, today: Date)
    requires Ordinal(b1) <= Ordinal(b2)
    ensures AgeYears(b1, today) >= AgeYears(b2, today)
  {
  }

  /** A birthdate up to 365 days in the future gives age 0, not -1: the
      conversion truncates toward zero rather than flooring. */
  lemma FutureBirthdateTruncates(birthdate: Date, today: Date)
    requires Ordinal(today) < Ordinal(birthdate) <= Ordinal(today) + 365
    ensures AgeYears(birthdate, today) == 0
  {
  }

  /** A birthdate that is exactly 4 * 365.25 days back gives age 4, and one day
      less gives 3: whole years of 365.25 days, not calendar birthdays. */
  lemma AgeCountsQuarterDays(birthdate: Date, today: Date)
    requires DayDiff(birthdate, today) == 1461 || DayDiff(birthdate, today) == 1460
    ensures AgeYears(birthdate, today) == (if DayDiff(birthdate, today) == 1461 then 4 else 3)
  {
  }
}
