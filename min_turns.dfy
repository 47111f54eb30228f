/**
 * The turn counter of task 4: the number of unit steps needed to make every
 * element of a list equal is the sum of the distances of the elements from
 * the list's lower median.
 */
module MinTurns {
  import opened Wrappers

  /** `statistics.StatisticsError`, raised for a list with no median. */
  datatype Error = NoMedianForEmptyData

  predicate SortedAsc(s: seq<int>) {
    forall i, j :: 0 <= i < j < |s| ==> s[i] <= s[j]
  }

  /** Puts `x` into its place in a sorted list. */
  function Insert(x: int, s: seq<int>): (r: seq<int>)
    requires SortedAsc(s)
    ensures SortedAsc(r)
    ensures multiset(r) == multiset(s) + multiset{x}
    ensures |r| == |s| + 1
  {
    if s == [] || x <= s[0] then
      SortedCons(x, s);
      [x] + s
    else
      var rest := Insert(x, s[1..]);
      assert s == [s[0]] + s[1..];
      FirstIsLeast(s[0], x, s[1..], rest);
      SortedCons(s[0], rest);
      [s[0]] + rest
  }

  /** A sorted list stays sorted under a head no larger than its first element. */
  lemma SortedCons(first: int, s: seq<int>)
    requires SortedAsc(s)
    requires s != [] ==> first <= s[0]
    ensures SortedAsc([first] + s)
  {
  }

  /** What `Insert` needs to keep its head in front. */
  lemma FirstIsLeast(first: int, x: int, tail: seq<int>, rest: seq<int>)
    requires first <= x
    requires forall i :: 0 <= i < |tail| ==> first <= tail[i]
    requires multiset(rest) == multiset(tail) + multiset{x}
    ensures forall i :: 0 <= i < |rest| ==> first <= rest[i]
  {
    forall i | 0 <= i < |rest| ensures first <= rest[i] {
      assert rest[i] in multiset(rest);
      if rest[i] != x {
        assert rest[i] in multiset(tail);
        var j :| 0 <= j < |tail| && tail[j] == rest[i];
      }
    }
  }

  /** `sorted`: the same elements in ascending order. */
  function Sort(s: seq<int>): (r: seq<int>)
    ensures SortedAsc(r)
    ensures multiset(r) == multiset(s)
    ensures |r| == |s|
  {
    if s == [] then []
    else
      assert s == [s[0]] + s[1..];
      Insert(s[0], Sort(s[1..]))
  }

  /**
   * `statistics.median_low`: the element at index `(len - 1) / 2` of the
   * sorted data, which for an even length is the lower of the two middle
   * ones. An empty list has no median.
   */
  function MedianLow(nums: seq<int>): (r: Result<int, Error>)
    ensures r.Err? <==> |nums| == 0
    ensures r.Ok? ==> r.value == Sort(nums)[(|nums| - 1) / 2]
    ensures r.Ok? ==> r.value in nums
  {
    if |nums| == 0 then Err(NoMedianForEmptyData)
    else
      var sorted := Sort(nums);
      assert sorted[(|nums| - 1) / 2] in multiset(nums);
      Ok(sorted[(|nums| - 1) / 2])
  }

  function Abs(x: int): int {
    if x < 0 then -x else x
  }

  /** The number of unit steps that bring every element of `s` to `t`. */
  function Cost(s: seq<int>, t: int): (r: int)
    ensures r >= 0
  {
    if s == [] then 0 else Abs(s[0] - t) + Cost(s[1..], t)
  }

  lemma {:induction false} CostConcat(a: seq<int>, b: seq<int>, t: int)
    ensures Cost(a + b, t) == Cost(a, t) + Cost(b, t)
    decreases |a|
  {
    if a == [] {
      assert a + b == b;
    } else {
      assert (a + b)[0] == a[0];
      assert (a + b)[1..] == a[1..] + b;
      CostConcat(a[1..], b, t);
    }
  }

  /** The cost depends only on which elements there are, not on their order. */
  lemma {:induction false} CostPermutation(a: seq<int>, b: seq<int>, t: int)
    requires multiset(a) == multiset(b)
    ensures Cost(a, t) == Cost(b, t)
    decreases |a|
  {
    if a != [] {
      assert a[0] in multiset(b);
      var j :| 0 <= j < |b| && b[j] == a[0];
      var rest := b[..j] + b[j + 1..];
      assert b == b[..j] + [b[j]] + b[j + 1..];
      assert a == [a[0]] + a[1..];
      assert multiset(b) == multiset(b[..j]) + multiset{b[j]} + multiset(b[j + 1..]);
      assert multiset(rest) == multiset(b[..j]) + multiset(b[j + 1..]);
      assert multiset(a) == multiset{a[0]} + multiset(a[1..]);
      assert multiset(a[1..]) == multiset(a) - multiset{a[0]};
      assert multiset(rest) == multiset(b) - multiset{b[j]};
      CostPermutation(a[1..], rest, t);
      CostConcat(b[..j] + [b[j]], b[j + 1..], t);
      CostConcat(b[..j], [b[j]], t);
      CostConcat(b[..j], b[j + 1..], t);
    }
  }

  /** Splits off the first and the last element. */
  lemma EndsCost(s: seq<int>, t: int)
    requires |s| >= 2
    ensures Cost(s, t) == Abs(s[0] - t) + Cost(s[1..|s| - 1], t) + Abs(s[|s| - 1] - t)
  {
    assert s[1..] == s[1..|s| - 1] + [s[|s| - 1]];
    CostConcat(s[1..|s| - 1], [s[|s| - 1]], t);
  }

  /** For sorted data, no target costs less than the lower median: the first
      and last elements cost at least their distance apart whatever the
      target, and exactly that for a target between them. */
  lemma {:induction false} SortedMedianOptimal(s: seq<int>, t: int)
    requires SortedAsc(s) && |s| > 0
    ensures Cost(s, s[(|s| - 1) / 2]) <= Cost(s, t)
    decreases |s|
  {
    var n := |s|;
    var c := s[(n - 1) / 2];
    if n >= 2 {
      var inner := s[1..n - 1];
      EndsCost(s, c);
      EndsCost(s, t);
      if n > 2 {
        assert inner[(|inner| - 1) / 2] == c;
        SortedMedianOptimal(inner, t);
      }
    }
  }

  /**
   * `get_min_turns`: the sum of the distances from the lower median. The
   * result is the least cost over all targets, and some target attains it,
   * as the docstring promises.
   */
  function MinTurns(nums: seq<int>): (r: Result<int, Error>)
    ensures r.Err? <==> |nums| == 0
    ensures r.Ok? ==> exists t :: r.value == Cost(nums, t)
    ensures r.Ok? ==> forall t :: r.value <= Cost(nums, t)
    ensures r.Ok? ==> r.value == Cost(nums, MedianLow(nums).value)
  {
    match MedianLow(nums)
    case Err(e) => Err(e)
    case Ok(median) =>
      MinTurnsOptimal(nums, median);
      Ok(Cost(nums, median))
  }

  /** The lower median costs no more than any other target. */
  lemma MinTurnsOptimal(nums: seq<int>, median: int)
    requires MedianLow(nums) == Ok(median)
    ensures forall t :: Cost(nums, median) <= Cost(nums, t)
  {
    var sorted := Sort(nums);
    forall t ensures Cost(nums, median) <= Cost(nums, t) {
      CostPermutation(nums, sorted, median);
      CostPermutation(nums, sorted, t);
      SortedMedianOptimal(sorted, t);
    }
  }

  /** The cost is zero exactly when every element is the target. */
  lemma {:induction false} CostZero(s: seq<int>, t: int)
    ensures Cost(s, t) == 0 <==> forall i :: 0 <= i < |s| ==> s[i] == t
    decreases |s|
  {
    if s != [] {
      CostZero(s[1..], t);
      assert forall i :: 1 <= i < |s| ==> s[i] == s[1..][i - 1];
    }
  }

  /** No turns are needed exactly when all the elements are already equal. */
  lemma ZeroTurnsIffAllEqual(nums: seq<int>)
    requires |nums| > 0
    ensures MinTurns(nums) == Ok(0) <==> forall i, j :: 0 <= i < |nums| && 0 <= j < |nums| ==> nums[i] == nums[j]
  {
    var median := MedianLow(nums).value;
    CostZero(nums, median);
    if forall i, j :: 0 <= i < |nums| && 0 <= j < |nums| ==> nums[i] == nums[j] {
      assert median in nums;
    }
  }

  /** The number of turns does not depend on the order of the list. */
  lemma OrderIndependent(a: seq<int>, b: seq<int>)
    requires multiset(a) == multiset(b)
    ensures MinTurns(a) == MinTurns(b)
  {
    assert |a| == |b| by {
      assert |multiset(a)| == |a| && |multiset(b)| == |b|;
    }
    if |a| > 0 {
      var ma := MedianLow(a).value;
      var mb := MedianLow(b).value;
      assert MinTurns(a) == Ok(Cost(a, ma));
      assert MinTurns(b) == Ok(Cost(b, mb));
      CostPermutation(a, b, ma);
      CostPermutation(a, b, mb);
      MinTurnsOptimal(a, ma);
      MinTurnsOptimal(b, mb);
      assert Cost(a, ma) <= Cost(a, mb);
      assert Cost(b, mb) <= Cost(b, ma);
    }
  }
}
