/** The Demographics tab's figures: employees per gender, per age group, per
    education level, and per (Education Level, Performance Rating). */
module Demographics {
  import opened Optional
  import opened Employees
  import opened Counting
  import opened Ordering

  function Genders(t: seq<Row>): seq<string> {
    seq(|t|, i requires 0 <= i < |t| => t[i].rec.gender)
  }

  /** Head count per gender, largest first. */
  function GenderCounts(t: seq<Row>): seq<Entry<string>> {
    ValueCounts(Genders(t))
  }

  /** One entry per gender present, with its head count, largest first,
      adding up to the row count. */
  lemma GenderCountsSpec(t: seq<Row>)
    ensures CountsOf(GenderCounts(t), Genders(t))
    ensures Total(GenderCounts(t)) == |t|
    ensures forall i, j :: 0 <= i < j < |GenderCounts(t)| ==> GenderCounts(t)[i].count >= GenderCounts(t)[j].count
  {
    ValueCountsSpec(Genders(t));
  }

  /** The bin edges passed to `pd.cut`. */
  const AgeEdges: seq<int> := [0, 25, 35, 45, 55, 65, 100]

  /** The bin labels passed to `pd.cut`, one per pair of adjacent edges. */
  const AgeLabels: seq<string> := ["<25", "25-34", "35-44", "45-54", "55-64", "65+"]

  /** Bin `i` of `pd.cut` with its default `right=True`: the interval
      (AgeEdges[i], AgeEdges[i + 1]], open on the left and closed on the right. */
  predicate InAgeBin(i: nat, age: int)
    requires i < 6
  {
    AgeEdges[i] < age <= AgeEdges[i + 1]
  }

  /** The bin an age falls in; None (NaN) outside (0, 100]. */
  function AgeBin(age: int): (b: Option<nat>)
    ensures b.Some? ==> b.value < 6 && InAgeBin(b.value, age)
    ensures b.None? <==> age <= 0 || 100 < age
  {
    if age <= 0 || 100 < age then None
    else if age <= 25 then Some(0)
    else if age <= 35 then Some(1)
    else if age <= 45 then Some(2)
    else if age <= 55 then Some(3)
    else if age <= 65 then Some(4)
    else Some(5)
  }

  /** The bins are disjoint, so an age lies in at most one of them. */
  lemma AgeBinsDisjoint(i: nat, j: nat, age: int)
    requires i < 6 && j < 6
    requires InAgeBin(i, age) && InAgeBin(j, age)
    ensures i == j
  {
  }

  /** Right-closed edges: 25 is in "<25", 35 in "25-34", 100 in "65+", and
      0 and 101 in no bin. */
  lemma AgeBinEdges()
    ensures AgeBin(25) == Some(0) && AgeLabels[0] == "<25"
    ensures AgeBin(26) == Some(1) && AgeBin(35) == Some(1) && AgeLabels[1] == "25-34"
    ensures AgeBin(100) == Some(5) && AgeLabels[5] == "65+"
    ensures AgeBin(0) == None && AgeBin(101) == None
  {
  }

  /** Rows whose Age falls in bin `i`. */
  function BinCount(t: seq<Row>, i: nat): nat {
    if t == [] then 0
    else BinCount(t[..|t| - 1], i) + (if AgeBin(t[|t| - 1].age) == Some(i) then 1 else 0)
  }

  /** Rows whose Age lies in (0, 100], the range the bins cover. */
  function InRangeCount(t: seq<Row>): nat {
    if t == [] then 0
    else InRangeCount(t[..|t| - 1]) + (if 0 < t[|t| - 1].age <= 100 then 1 else 0)
  }

  /** Head count per age group, in bin order. Counting a binned column keeps
      every bin, including the bins no row falls in. */
  function AgeCounts(t: seq<Row>): seq<Entry<string>> {
    seq(6, i requires 0 <= i < 6 => Entry(AgeLabels[i], BinCount(t, i)))
  }

  lemma {:induction false} BinCountsAddUp(t: seq<Row>)
    ensures BinCount(t, 0) + BinCount(t, 1) + BinCount(t, 2) + BinCount(t, 3) + BinCount(t, 4) + BinCount(t, 5)
            == InRangeCount(t)
  {
    if t != [] {
      BinCountsAddUp(t[..|t| - 1]);
    }
  }

  /** Always six entries, labelled in bin order; each counts the rows in its
      bin, and together they count the rows with 0 < Age <= 100. */
  lemma AgeCountsSpec(t: seq<Row>)
    ensures Keys(AgeCounts(t)) == AgeLabels
    ensures forall i :: 0 <= i < 6 ==> AgeCounts(t)[i].count == BinCount(t, i)
    ensures Total(AgeCounts(t)) == InRangeCount(t)
  {
    var r := AgeCounts(t);
    BinCountsAddUp(t);
    assert r[..1][..0] == [];
    assert Total(r[..1]) == BinCount(t, 0);
    assert r[..2][..1] == r[..1];
    assert Total(r[..2]) == Total(r[..1]) + BinCount(t, 1);
    assert r[..3][..2] == r[..2];
    assert Total(r[..3]) == Total(r[..2]) + BinCount(t, 2);
    assert r[..4][..3] == r[..3];
    assert Total(r[..4]) == Total(r[..3]) + BinCount(t, 3);
    assert r[..5][..4] == r[..4];
    assert Total(r[..5]) == Total(r[..4]) + BinCount(t, 4);
    assert r[..5] == r[..|r| - 1];
    assert Total(r) == Total(r[..5]) + BinCount(t, 5);
  }

  function EducationLevels(t: seq<Row>): seq<string> {
    seq(|t|, i requires 0 <= i < |t| => t[i].rec.educationLevel)
  }

  /** Head count per education level, largest first. */
  function EduCounts(t: seq<Row>): seq<Entry<string>> {
    ValueCounts(EducationLevels(t))
  }

  /** One entry per education level present, with its head count, largest
      first, adding up to the row count. */
  lemma EduCountsSpec(t: seq<Row>)
    ensures CountsOf(EduCounts(t), EducationLevels(t))
    ensures Total(EduCounts(t)) == |t|
    ensures forall i, j :: 0 <= i < j < |EduCounts(t)| ==> EduCounts(t)[i].count >= EduCounts(t)[j].count
  {
    ValueCountsSpec(EducationLevels(t));
  }

  /** The (Education Level, Performance Rating) key of each row. */
  function EduRatings(t: seq<Row>): seq<(string, string)> {
    seq(|t|, i requires 0 <= i < |t| => (t[i].rec.educationLevel, t[i].rec.performanceRating))
  }

  /** Head count per (Education Level, Performance Rating) pair, in key order. */
  function EduPerf(t: seq<Row>): seq<Entry<(string, string)>> {
    GroupSizes(EduRatings(t), ByPairKey)
  }

  /** One entry per (education, rating) pair present, with its head count,
      pairs strictly ascending, adding up to the row count. */
  lemma EduPerfSpec(t: seq<Row>)
    ensures CountsOf(EduPerf(t), EduRatings(t))
    ensures Total(EduPerf(t)) == |t|
    ensures forall i, j :: 0 <= i < j < |EduPerf(t)| ==>
      PairLe(EduPerf(t)[i].key, EduPerf(t)[j].key) && EduPerf(t)[i].key != EduPerf(t)[j].key
  {
    ByPairKeyIsPreorder();
    GroupSizesSpec(EduRatings(t), ByPairKey);
  }
}
