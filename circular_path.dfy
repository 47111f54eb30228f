/**
 * The circular array traversal of task 1: starting at the first element of an
 * array of `n` elements, move on by `m - 1` places at a time (wrapping
 * around) and report each position until the walk is back at the first one.
 */
module CircularPath {

  /** A non-negative `d * n` is at least `n` once `d` is positive. */
  lemma {:induction false} MulAtLeast(d: nat, n: nat)
    requires d >= 1
    ensures d * n >= n
  {
    if d > 1 {
      MulAtLeast(d - 1, n);
      assert d * n == (d - 1) * n + n;
    }
  }

  /** The remainder is determined by any quotient-remainder decomposition. */
  lemma ModUnique(x: int, a: int, r: int, n: int)
    requires n >= 1 && 0 <= r < n && x == a * n + r
    ensures x % n == r
  {
    var q, s := x / n, x % n;
    assert x == q * n + s;
    assert (a - q) * n == s - r;
    if a > q {
      MulAtLeast(a - q, n);
    } else if a < q {
      assert (q - a) * n == r - s;
      MulAtLeast(q - a, n);
    }
  }

  /**
   * The 0-based index reached after `k` moves. Python's `%` by a positive `n`
   * is never negative, like Dafny's, so a negative step needs no special case.
   */
  function IndexAfter(n: int, m: int, k: nat): (i: int)
    requires n >= 1
    ensures 0 <= i < n
  {
    (k * (m - 1)) % n
  }

  /** One move of the loop, `(cur + m - 1) % n`, advances the closed form by one. */
  lemma StepIndex(n: int, m: int, k: nat)
    requires n >= 1
    ensures (IndexAfter(n, m, k) + m - 1) % n == IndexAfter(n, m, k + 1)
  {
    var s := m - 1;
    var q := (k * s) / n;
    assert k * s == q * n + IndexAfter(n, m, k);
    assert (k + 1) * s == k * s + s;
    ModUnique((k + 1) * s, q + ((k + 1) * s - q * n) / n, ((k + 1) * s - q * n) % n, n);
    ModUnique(IndexAfter(n, m, k) + s, ((k + 1) * s - q * n) / n, ((k + 1) * s - q * n) % n, n);
  }

  /** After `n` moves the walk is always back at the start. */
  lemma ReturnsWithin(n: int, m: int)
    requires n >= 1
    ensures IndexAfter(n, m, n) == 0
  {
    ModUnique(n * (m - 1), m - 1, 0, n);
  }

  /** Two moves that reach the same index are a whole number of returns apart. */
  lemma SameIndexGap(n: int, m: int, j: nat, k: nat)
    requires n >= 1 && j < k
    requires IndexAfter(n, m, j) == IndexAfter(n, m, k)
    ensures IndexAfter(n, m, k - j) == 0
  {
    var s := m - 1;
    var r := IndexAfter(n, m, k);
    assert k * s == (k * s / n) * n + r;
    assert j * s == (j * s / n) * n + r;
    assert (k - j) * s == k * s - j * s;
    ModUnique((k - j) * s, k * s / n - j * s / n, 0, n);
  }

  /**
   * `path` is what `get_circular_array_path(n, m)` yields: the 1-based
   * position after each move, from the start up to (not including) the first
   * move that returns to the start.
   */
  ghost predicate IsPath(n: int, m: int, path: seq<int>)
    requires n >= 1
  {
    && |path| >= 1
    && (forall i :: 0 <= i < |path| ==> path[i] == IndexAfter(n, m, i) + 1)
    && IndexAfter(n, m, |path|) == 0
    && (forall j :: 1 <= j < |path| ==> IndexAfter(n, m, j) != 0)
  }

  /**
   * `get_circular_array_path`, with the generator's output collected. The
   * argument checks of `parse_args` (`n >= 1`, `m != 0`) are its precondition.
   */
  method CircularArrayPath(n: int, m: int) returns (path: seq<int>)
    requires n >= 1 && m != 0
    ensures IsPath(n, m, path)
  {
    var cur := 0;
    path := [];
    while true
      invariant |path| < n
      invariant cur == IndexAfter(n, m, |path|)
      invariant forall i :: 0 <= i < |path| ==> path[i] == IndexAfter(n, m, i) + 1
      invariant forall j :: 1 <= j <= |path| ==> IndexAfter(n, m, j) != 0
      decreases n - |path|
    {
      path := path + [cur + 1];
      StepIndex(n, m, |path| - 1);
      cur := (cur + m - 1) % n;
      if cur == 0 {
        break;
      }
      ReturnsWithin(n, m);
    }
  }

  /** The path starts at 1, stays within 1..n, never repeats a position, so has
      at most `n` elements, and comes back to 1 only at its start. */
  lemma PathShape(n: int, m: int, path: seq<int>)
    requires n >= 1 && IsPath(n, m, path)
    ensures path[0] == 1
    ensures forall i :: 0 <= i < |path| ==> 1 <= path[i] <= n
    ensures forall i, j :: 0 <= i < j < |path| ==> path[i] != path[j]
    ensures |path| <= n
    ensures forall i :: 0 < i < |path| ==> path[i] != 1
  {
    assert IndexAfter(n, m, 0) == 0;
    ReturnsWithin(n, m);
    forall i, j | 0 <= i < j < |path| ensures path[i] != path[j] {
      if path[i] == path[j] {
        SameIndexGap(n, m, i, j);
        assert false;
      }
    }
  }

  /** The path is determined by `n` and `m`. */
  lemma PathUnique(n: int, m: int, p: seq<int>, q: seq<int>)
    requires n >= 1 && IsPath(n, m, p) && IsPath(n, m, q)
    ensures p == q
  {
    assert |p| == |q|;
  }

  /** The walk is just [1] exactly when one move of `m - 1` is a whole number
      of rounds; in particular for `m == 1` and for `n == 1`. */
  lemma SingleStepPath(n: int, m: int, path: seq<int>)
    requires n >= 1 && IsPath(n, m, path)
    ensures path == [1] <==> (m - 1) % n == 0
    ensures m == 1 || n == 1 ==> path == [1]
  {
    assert IndexAfter(n, m, 0) == 0;
    assert IndexAfter(n, m, 1) == (m - 1) % n;
    if (m - 1) % n == 0 {
      PathUnique(n, m, path, [1]);
    }
  }

  /** The walks that the test suite spells out. */
  lemma TestCases(p1: seq<int>, p2: seq<int>, p3: seq<int>)
    requires IsPath(5, 4, p1) && IsPath(4, 3, p2) && IsPath(9, 2, p3)
    ensures p1 == [1, 4, 2, 5, 3]
    ensures p2 == [1, 3]
    ensures p3 == [1, 2, 3, 4, 5, 6, 7, 8, 9]
  {
    assert IsPath(5, 4, [1, 4, 2, 5, 3]);
    PathUnique(5, 4, p1, [1, 4, 2, 5, 3]);
    assert IsPath(4, 3, [1, 3]);
    PathUnique(4, 3, p2, [1, 3]);
    assert IsPath(9, 2, [1, 2, 3, 4, 5, 6, 7, 8, 9]);
    PathUnique(9, 2, p3, [1, 2, 3, 4, 5, 6, 7, 8, 9]);
  }
}
