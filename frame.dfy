/** The in-memory table: loaded once, then given its derived columns by
    assignment, one column at a time. */
module DataFrame {
  import opened Dates
  import opened Employees

  /** The data frame: the loaded columns as one record per row, and the three
      derived columns, each empty until it is assigned. */
  class Frame {
    var records: seq<Record>
    var ages: seq<int>
    var statuses: seq<Status>
    var sites: seq<Site>

    /** Every derived column has been assigned and has one value per row. */
    predicate Enriched()
      reads this
    {
      |ages| == |records| && |statuses| == |records| && |sites| == |records|
    }

    /** The frame as a table of enriched rows, in row order. */
    function Table(): seq<Row>
      reads this
      requires Enriched()
    {
      var recs := records;
      var ageColumn := ages;
      var statusColumn := statuses;
      var hqColumn := sites;
      seq(|recs|, i requires 0 <= i < |recs| => Row(recs[i], ageColumn[i], statusColumn[i], hqColumn[i]))
    }

    /** The parsed file, before any column is derived. */
    constructor Load(recs: seq<Record>)
      ensures records == recs && ages == [] && statuses == [] && sites == []
    {
      records := recs;
      ages, statuses, sites := [], [], [];
    }

    /** Fills the Age column in one vectorised step: for every row, the whole
        years of 365.25 days from its birthdate to `today`. */
    method AssignAge(today: Date)
      modifies this
      ensures records == old(records) && statuses == old(statuses) && sites == old(sites)
      ensures |ages| == |records|
      ensures forall i :: 0 <= i < |records| ==> ages[i] == AgeYears(records[i].birthdate, today)
    {
      var recs := records;
      ages := seq(|recs|, i requires 0 <= i < |recs| => AgeYears(recs[i].birthdate, today));
    }

    /** Fills the Status column by applying the termination rule to each row in turn. */
    method AssignStatus()
      modifies this
      ensures records == old(records) && ages == old(ages) && sites == old(sites)
      ensures |statuses| == |records|
      ensures forall i :: 0 <= i < |records| ==> statuses[i] == StatusOf(records[i].termdate)
    {
      var column: seq<Status> := [];
      var i := 0;
      while i < |records|
        invariant 0 <= i <= |records|
        invariant |column| == i
        invariant forall j :: 0 <= j < i ==> column[j] == StatusOf(records[j].termdate)
      {
        column := column + [StatusOf(records[i].termdate)];
        i := i + 1;
      }
      statuses := column;
    }

    /** Fills the HQ column by applying the headquarters rule to each row in turn. */
    method AssignHQ()
      modifies this
      ensures records == old(records) && ages == old(ages) && statuses == old(statuses)
      ensures |sites| == |records|
      ensures forall i :: 0 <= i < |records| ==> sites[i] == SiteOf(records[i].city)
    {
      var column: seq<Site> := [];
      var i := 0;
      while i < |records|
        invariant 0 <= i <= |records|
        invariant |column| == i
        invariant forall j :: 0 <= j < i ==> column[j] == SiteOf(records[j].city)
      {
        column := column + [SiteOf(records[i].city)];
        i := i + 1;
      }
      sites := column;
    }
  }

  /** The start-up sequence: load, then assign Age, Status and HQ in turn. The
      result is the enriched table, so every property proved of `EnrichAll`
      holds of it. */
  method LoadAndEnrich(recs: seq<Record>, today: Date) returns (f: Frame)
    ensures fresh(f)
    ensures f.Enriched() && f.records == recs
    ensures f.Table() == EnrichAll(recs, today)
  {
    f := new Frame.Load(recs);
    f.AssignAge(today);
    f.AssignStatus();
    f.AssignHQ();
  }
}
