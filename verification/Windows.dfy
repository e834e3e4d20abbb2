/** Counting the events of a run that fall into a time window. */
module Windows {

  ghost predicate Sorted(ts: seq<real>) {
    forall i, j | 0 <= i < j < |ts| :: ts[i] <= ts[j]
  }

  /** The number of events in the closed window from `lo` to `hi`. */
  function CountIn(ts: seq<real>, lo: real, hi: real): nat {
    if ts == [] then 0
    else CountIn(ts[..|ts| - 1], lo, hi) + if lo <= ts[|ts| - 1] <= hi then 1 else 0
  }

  /** A window misses the events before its start and holds the tail that fits. */
  lemma {:induction false} CountTail(ts: seq<real>, from: nat, lo: real, hi: real)
    requires from <= |ts|
    ensures (forall i | 0 <= i < from :: ts[i] < lo) ==> CountIn(ts, lo, hi) <= |ts| - from
    ensures (forall i | from <= i < |ts| :: lo <= ts[i] <= hi) ==> CountIn(ts, lo, hi) >= |ts| - from
  {
    if ts != [] {
      var n := |ts| - 1;
      CountTail(ts[..n], if from <= n then from else n, lo, hi);
    }
  }

  /** Every `k`-th later event is at least `gap` later. */
  ghost predicate Spaced(ts: seq<real>, k: nat, gap: real) {
    forall i, j | 0 <= i <= j < |ts| && j - i == k :: ts[j] - ts[i] >= gap
  }

  /** In a sorted run the events of a window are consecutive. */
  lemma {:induction false} WindowIsRange(ts: seq<real>, lo: real, hi: real) returns (a: nat, b: nat)
    requires Sorted(ts)
    ensures a <= b <= |ts| && CountIn(ts, lo, hi) == b - a
    ensures forall k | 0 <= k < |ts| :: a <= k < b <==> lo <= ts[k] <= hi
  {
    if ts == [] {
      a, b := 0, 0;
    } else {
      var n := |ts| - 1;
      a, b := WindowIsRange(ts[..n], lo, hi);
      assert forall k | 0 <= k < n :: ts[..n][k] == ts[k];
      if lo <= ts[n] <= hi {
        if a == b {
          a, b := n, n + 1;
        } else {
          assert lo <= ts[b - 1] <= ts[n - 1] <= ts[n] <= hi;
          b := n + 1;
        }
      }
    }
  }

  /** If any `m` events in a row take longer than the window, it holds at most `m`. */
  lemma WindowBound(ts: seq<real>, m: nat, lo: real, hi: real)
    requires Sorted(ts)
    requires forall i, j | 0 <= i <= j < |ts| && j - i == m :: ts[j] - ts[i] > hi - lo
    ensures CountIn(ts, lo, hi) <= m
  {
    var a, b := WindowIsRange(ts, lo, hi);
    RangeFits(ts, a, b, m, lo, hi);
  }

  lemma RangeFits(ts: seq<real>, a: nat, b: nat, m: nat, lo: real, hi: real)
    requires a <= b <= |ts| && forall k | a <= k < b :: lo <= ts[k] <= hi
    ensures a + m < b ==> ts[a + m] - ts[a] <= hi - lo
  {
  }

  lemma {:induction false} SpacingAdds(ts: seq<real>, k: nat, gap: real, i: nat, n: nat)
    requires Spaced(ts, k, gap) && i + k * n < |ts|
    ensures ts[i + k * n] - ts[i] >= gap * n as real
  {
    if n > 0 {
      assert k * n == k * (n - 1) + k;
      SpacingAdds(ts, k, gap, i, n - 1);
      var j := i + k * (n - 1);
      assert ts[j + k] - ts[j] >= gap;
      assert gap * n as real == gap * (n - 1) as real + gap;
    }
  }

  /** How many whole gaps fit into a window. */
  function Whole(d: real, gap: real): int
    requires gap > 0.0
  {
    (d / gap).Floor
  }

  lemma WholeExceeded(d: real, gap: real)
    requires gap > 0.0 && d >= 0.0
    ensures Whole(d, gap) >= 0
    ensures gap * (Whole(d, gap) + 1) as real > d
  {
    var q := d / gap;
    assert q * gap == d && q >= 0.0;
    var n := (q.Floor + 1) as real;
    assert n > q;
    Scale(gap, n, q);
  }

  lemma Scale(gap: real, n: real, q: real)
    requires gap > 0.0 && n > q
    ensures gap * n > q * gap
  {
  }

  /** If every `k`-th later event is at least `gap` later, a window of length `hi - lo`
      holds at most `k` events per whole gap, and `k` more. */
  lemma SpacedBound(ts: seq<real>, k: nat, gap: real, lo: real, hi: real)
    requires Sorted(ts) && gap > 0.0 && lo <= hi
    requires Spaced(ts, k, gap)
    ensures CountIn(ts, lo, hi) <= k * (Whole(hi - lo, gap) + 1)
  {
    WholeExceeded(hi - lo, gap);
    var n := Whole(hi - lo, gap) + 1;
    forall i, j | 0 <= i <= j < |ts| && j - i == k * n ensures ts[j] - ts[i] > hi - lo {
      SpacingAdds(ts, k, gap, i, n);
    }
    assert k * n >= 0;
    WindowBound(ts, k * n, lo, hi);
  }
}
