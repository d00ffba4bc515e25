/** The Overview tab's figures: the three KPI cards, hires and terminations
    per year, employees per department, HQ against branches, and employees
    per (State, City). All are computed from the enriched table. */
module Overview {
  import opened Employees
  import opened Counting
  import opened Ordering

  /** The first card: every row of the table is a hire. */
  function TotalHired(t: seq<Row>): nat {
    |t|
  }

  /** The second card: rows whose Status reads "Active". */
  function ActiveCount(t: seq<Row>): (n: nat)
    ensures n <= |t|
  {
    if t == [] then 0
    else ActiveCount(t[..|t| - 1]) + (if t[|t| - 1].status.Label() == "Active" then 1 else 0)
  }

  /** The third card: the hires that are not active. */
  function TerminatedCount(t: seq<Row>): nat {
    TotalHired(t) - ActiveCount(t)
  }

  /** Rows whose termination date parsed. */
  function WithTermdate(t: seq<Row>): (n: nat)
    ensures n <= |t|
  {
    if t == [] then 0
    else WithTermdate(t[..|t| - 1]) + (if t[|t| - 1].rec.termdate.Some? then 1 else 0)
  }

  /** The hire year of each row, in row order. */
  function HireYears(t: seq<Row>): seq<int> {
    seq(|t|, i requires 0 <= i < |t| => t[i].rec.hiredate.year)
  }

  /** The termination years of the rows that have a termination date, in row
      order; rows without one are dropped. */
  function TermYears(t: seq<Row>): seq<int> {
    if t == [] then []
    else
      TermYears(t[..|t| - 1]) +
      match t[|t| - 1].rec.termdate
      case Some(d) => [d.year]
      case None => []
  }

  /** The three cards: every row is active or terminated, and the terminated
      card counts exactly the rows with a termination date, which are also
      the rows behind the terminations chart. */
  lemma {:induction false} KpiSpec(t: seq<Row>)
    requires Consistent(t)
    ensures ActiveCount(t) + TerminatedCount(t) == TotalHired(t)
    ensures TerminatedCount(t) == WithTermdate(t)
    ensures |TermYears(t)| == WithTermdate(t)
  {
    if t != [] {
      KpiSpec(t[..|t| - 1]);
    }
  }

  /** Every parsed termination year appears among the years counted. */
  lemma {:induction false} TermYearsHasRow(t: seq<Row>, i: nat)
    requires i < |t| && t[i].rec.termdate.Some?
    ensures t[i].rec.termdate.value.year in TermYears(t)
  {
    if i < |t| - 1 {
      TermYearsHasRow(t[..|t| - 1], i);
    }
  }

  /** Hires per year, years ascending. */
  function HiresByYear(t: seq<Row>): seq<Entry<int>> {
    SortBy(ValueCounts(HireYears(t)), ByIntKey)
  }

  /** Terminations per year, years ascending. */
  function TermsByYear(t: seq<Row>): seq<Entry<int>> {
    SortBy(ValueCounts(TermYears(t)), ByIntKey)
  }

  /** One entry per distinct hire year, with the number of rows hired that
      year, years strictly ascending, counts adding up to the row count. */
  lemma HiresByYearSpec(t: seq<Row>)
    ensures CountsOf(HiresByYear(t), HireYears(t))
    ensures Total(HiresByYear(t)) == TotalHired(t)
    ensures forall i, j :: 0 <= i < j < |HiresByYear(t)| ==> HiresByYear(t)[i].key < HiresByYear(t)[j].key
  {
    ValueCountsByIndexSpec(HireYears(t));
  }

  /** One entry per distinct termination year, years strictly ascending,
      counts adding up to the terminated card. */
  lemma TermsByYearSpec(t: seq<Row>)
    requires Consistent(t)
    ensures CountsOf(TermsByYear(t), TermYears(t))
    ensures Total(TermsByYear(t)) == TerminatedCount(t)
    ensures forall i, j :: 0 <= i < j < |TermsByYear(t)| ==> TermsByYear(t)[i].key < TermsByYear(t)[j].key
  {
    ValueCountsByIndexSpec(TermYears(t));
    KpiSpec(t);
  }

  /** A row terminated in some year puts that year on the terminations chart. */
  lemma TerminationIsCharted(t: seq<Row>, i: nat)
    requires i < |t| && t[i].rec.termdate.Some?
    ensures t[i].rec.termdate.value.year in Keys(TermsByYear(t))
  {
    TermYearsHasRow(t, i);
    ValueCountsByIndexSpec(TermYears(t));
  }

  function Departments(t: seq<Row>): seq<string> {
    seq(|t|, i requires 0 <= i < |t| => t[i].rec.department)
  }

  /** Head count per department, largest first. */
  function DeptCounts(t: seq<Row>): seq<Entry<string>> {
    ValueCounts(Departments(t))
  }

  /** One entry per department present, with its head count (at least one),
      largest first, adding up to the row count. */
  lemma DeptCountsSpec(t: seq<Row>)
    ensures CountsOf(DeptCounts(t), Departments(t))
    ensures Total(DeptCounts(t)) == TotalHired(t)
    ensures forall i, j :: 0 <= i < j < |DeptCounts(t)| ==> DeptCounts(t)[i].count >= DeptCounts(t)[j].count
  {
    ValueCountsSpec(Departments(t));
  }

  /** The HQ column as the strings it holds. */
  function HqLabels(t: seq<Row>): seq<string> {
    seq(|t|, i requires 0 <= i < |t| => t[i].hq.Label())
  }

  /** Head count at headquarters and at the branches, largest first. */
  function HqBranch(t: seq<Row>): seq<Entry<string>> {
    ValueCounts(HqLabels(t))
  }

  /** Entries keyed "HQ" or "Branch" only, largest first, adding up to the
      row count; a row counts under "HQ" exactly when its city is the
      headquarters city. */
  lemma HqBranchSpec(t: seq<Row>)
    requires Consistent(t)
    ensures CountsOf(HqBranch(t), HqLabels(t))
    ensures Total(HqBranch(t)) == TotalHired(t)
    ensures forall i, j :: 0 <= i < j < |HqBranch(t)| ==> HqBranch(t)[i].count >= HqBranch(t)[j].count
    ensures forall e :: e in HqBranch(t) ==> e.key == "HQ" || e.key == "Branch"
    ensures forall i :: 0 <= i < |t| ==> (HqLabels(t)[i] == "HQ" <==> t[i].rec.city == HqCity)
  {
    var r := HqBranch(t);
    ValueCountsSpec(HqLabels(t));
    forall e | e in r
      ensures e.key == "HQ" || e.key == "Branch"
    {
      assert e.key in HqLabels(t);
    }
  }

  /** The (State, City) key of each row. */
  function StateCities(t: seq<Row>): seq<(string, string)> {
    seq(|t|, i requires 0 <= i < |t| => (t[i].rec.state, t[i].rec.city))
  }

  /** Head count per (State, City) pair present, in key order. */
  function CityState(t: seq<Row>): seq<Entry<(string, string)>> {
    GroupSizes(StateCities(t), ByPairKey)
  }

  /** One entry per (State, City) pair present, with its head count, pairs in
      strictly ascending order, adding up to the row count. */
  lemma CityStateSpec(t: seq<Row>)
    ensures CountsOf(CityState(t), StateCities(t))
    ensures Total(CityState(t)) == TotalHired(t)
    ensures forall i, j :: 0 <= i < j < |CityState(t)| ==>
      PairLe(CityState(t)[i].key, CityState(t)[j].key) && CityState(t)[i].key != CityState(t)[j].key
  {
    ByPairKeyIsPreorder();
    GroupSizesSpec(StateCities(t), ByPairKey);
  }

  /** A table with no rows shows 0 on every card and empty charts. */
  lemma EmptyOverview()
    ensures TotalHired([]) == 0 && ActiveCount([]) == 0 && TerminatedCount([]) == 0
    ensures HiresByYear([]) == [] && TermsByYear([]) == []
    ensures DeptCounts([]) == [] && HqBranch([]) == [] && CityState([]) == []
  {
    assert HireYears([]) == [];
    assert Departments([]) == [] && HqLabels([]) == [] && StateCities([]) == [];
  }
}
