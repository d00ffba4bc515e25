/** The Income Analysis tab's one aggregate: the mean salary per (Education
    Level, Gender) group. It is computed but no figure reads it; the box and
    scatter plots take the whole table. */
module Income {
  import opened Employees
  import opened Counting
  import opened Ordering

  /** The (Education Level, Gender) key of each row. */
  function EduGenders(t: seq<Row>): seq<(string, string)> {
    seq(|t|, i requires 0 <= i < |t| => (t[i].rec.educationLevel, t[i].rec.gender))
  }

  /** Sum of the salaries of the rows in group `k`. */
  function GroupSalarySum(t: seq<Row>, k: (string, string)): int {
    if t == [] then 0
    else
      var r := t[|t| - 1];
      GroupSalarySum(t[..|t| - 1], k) + (if (r.rec.educationLevel, r.rec.gender) == k then r.rec.salary else 0)
  }

  /** Number of rows in group `k`. */
  function GroupRows(t: seq<Row>, k: (string, string)): nat {
    if t == [] then 0
    else
      var r := t[|t| - 1];
      GroupRows(t[..|t| - 1], k) + (if (r.rec.educationLevel, r.rec.gender) == k then 1 else 0)
  }

  lemma {:induction false} GroupRowsCounts(t: seq<Row>, k: (string, string))
    ensures GroupRows(t, k) == multiset(EduGenders(t))[k]
  {
    if t != [] {
      var p := t[..|t| - 1];
      GroupRowsCounts(p, k);
      assert EduGenders(t) == EduGenders(p) + [(t[|t| - 1].rec.educationLevel, t[|t| - 1].rec.gender)];
    }
  }

  /** The (Education Level, Gender) groups with their sizes, in key order. */
  function EduGenderGroups(t: seq<Row>): seq<Entry<(string, string)>> {
    GroupSizes(EduGenders(t), ByPairKey)
  }

  /** One line of the result: a group and the mean salary of its rows. */
  datatype GroupMean = GroupMean(key: (string, string), mean: real)

  /** The mean salary of each (Education Level, Gender) group, groups in
      ascending key order. */
  function EduGenderSalary(t: seq<Row>): seq<GroupMean> {
    var g := EduGenderGroups(t);
    GroupSizesCounts(EduGenders(t), ByPairKey);
    seq(|g|, i requires 0 <= i < |g| => GroupMean(g[i].key, GroupSalarySum(t, g[i].key) as real / g[i].count as real))
  }

  /** Between the lowest and highest salary, times the number of rows. */
  lemma {:induction false} GroupSalaryBounds(t: seq<Row>, k: (string, string), lo: int, hi: int)
    requires forall i :: 0 <= i < |t| ==> lo <= t[i].rec.salary <= hi
    ensures lo * GroupRows(t, k) <= GroupSalarySum(t, k) <= hi * GroupRows(t, k)
  {
    if t != [] {
      var m := GroupRows(t[..|t| - 1], k);
      GroupSalaryBounds(t[..|t| - 1], k, lo, hi);
      assert lo * (m + 1) == lo * m + lo && hi * (m + 1) == hi * m + hi;
    }
  }

  lemma MeanBetween(sum: int, n: int, lo: int, hi: int)
    requires n > 0 && lo * n <= sum <= hi * n
    ensures lo as real <= sum as real / n as real <= hi as real
  {
    assert (sum as real / n as real) * n as real == sum as real;
  }

  /** The groups count the (Education Level, Gender) pairs, keys strictly ascending. */
  lemma EduGenderGroupsSpec(t: seq<Row>)
    ensures CountsOf(EduGenderGroups(t), EduGenders(t))
    ensures forall i, j :: 0 <= i < j < |EduGenderGroups(t)| ==>
      PairLe(EduGenderGroups(t)[i].key, EduGenderGroups(t)[j].key) && EduGenderGroups(t)[i].key != EduGenderGroups(t)[j].key
  {
    ByPairKeyIsPreorder();
    GroupSizesSpec(EduGenders(t), ByPairKey);
  }

  /** One line per (Education Level, Gender) pair present and none for an
      absent pair, keys strictly ascending; each mean is the sum of the
      group's salaries over the number of its rows, a number that is never 0. */
  lemma EduGenderSalarySpec(t: seq<Row>)
    ensures CountsOf(EduGenderGroups(t), EduGenders(t))
    ensures |EduGenderSalary(t)| == |EduGenderGroups(t)|
    ensures forall k :: k in EduGenders(t) <==> exists i :: 0 <= i < |EduGenderSalary(t)| && EduGenderSalary(t)[i].key == k
    ensures forall i, j :: 0 <= i < j < |EduGenderSalary(t)| ==>
      PairLe(EduGenderSalary(t)[i].key, EduGenderSalary(t)[j].key) && EduGenderSalary(t)[i].key != EduGenderSalary(t)[j].key
    ensures forall i :: 0 <= i < |EduGenderSalary(t)| ==>
      var k := EduGenderGroups(t)[i].key;
      && EduGenderSalary(t)[i].key == k
      && GroupRows(t, k) > 0
      && EduGenderSalary(t)[i].mean == GroupSalarySum(t, k) as real / GroupRows(t, k) as real
  {
    var g := EduGenderGroups(t);
    var r := EduGenderSalary(t);
    EduGenderGroupsSpec(t);
    forall i | 0 <= i < |g|
      ensures 0 < g[i].count == GroupRows(t, g[i].key)
    {
      assert g[i] in g;
      GroupRowsCounts(t, g[i].key);
    }
    forall k | k in EduGenders(t)
      ensures exists i :: 0 <= i < |r| && r[i].key == k
    {
      var i :| 0 <= i < |g| && Keys(g)[i] == k;
      assert r[i].key == k;
    }
    forall k | exists i :: 0 <= i < |r| && r[i].key == k
      ensures k in EduGenders(t)
    {
      var i :| 0 <= i < |r| && r[i].key == k;
      assert g[i] in g;
    }
  }

  /** Every group mean lies between the smallest and the largest salary. */
  lemma EduGenderSalaryBounds(t: seq<Row>, lo: int, hi: int)
    requires forall i :: 0 <= i < |t| ==> lo <= t[i].rec.salary <= hi
    ensures forall e :: e in EduGenderSalary(t) ==> lo as real <= e.mean <= hi as real
  {
    var g := EduGenderGroups(t);
    var r := EduGenderSalary(t);
    GroupSizesCounts(EduGenders(t), ByPairKey);
    forall e | e in r
      ensures lo as real <= e.mean <= hi as real
    {
      var i :| 0 <= i < |r| && r[i] == e;
      assert g[i] in g;
      GroupRowsCounts(t, g[i].key);
      GroupSalaryBounds(t, g[i].key, lo, hi);
      MeanBetween(GroupSalarySum(t, g[i].key), g[i].count, lo, hi);
    }
  }
}
