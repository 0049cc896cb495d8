/**
 * The sampling grid of a search window: the loop `while current <= end:
 * ...; current += interval` visits `start`, `start + interval`, ... up to
 * the last value that does not pass `end`.
 */
module Window {

  /** The instants the loop visits, in visiting order. */
  function Grid(start: int, end: int, step: int): (g: seq<int>)
    requires step > 0
    decreases if start <= end then end - start + 1 else 0
  {
    if start > end then [] else [start] + Grid(start + step, end, step)
  }

  /** The number of instants the loop visits. */
  function GridCount(start: int, end: int, step: int): (n: nat)
    requires step > 0
  {
    if start > end then 0 else (end - start) / step + 1
  }

  /** Closed form: the k-th instant is `start + k * step`, for `k` below the count. */
  lemma {:induction false} GridClosedForm(start: int, end: int, step: int)
    requires step > 0
    ensures |Grid(start, end, step)| == GridCount(start, end, step)
    ensures forall k :: 0 <= k < |Grid(start, end, step)| ==> Grid(start, end, step)[k] == start + k * step
    decreases if start <= end then end - start + 1 else 0
  {
    if start <= end {
      var g := Grid(start, end, step);
      var rest := Grid(start + step, end, step);
      GridClosedForm(start + step, end, step);
      if start + step <= end {
        DivStep(end - start, step);
      } else {
        assert (end - start) / step == 0;
      }
      forall k | 0 <= k < |g| ensures g[k] == start + k * step {
        if k > 0 {
          assert g[k] == rest[k - 1] == start + step + (k - 1) * step;
        }
      }
    }
  }

  /** A positive multiple of `step` is at least `step`. */
  lemma {:induction false} MultipleAtLeast(a: int, step: int)
    requires a >= 1 && step > 0
    ensures a * step >= step
    decreases a
  {
    if a > 1 {
      MultipleAtLeast(a - 1, step);
      assert a * step == (a - 1) * step + step;
    }
  }

  /** Quotient and remainder are the only ones with `d == q * step + r` and `0 <= r < step`. */
  lemma DivUnique(d: int, step: int, q: int, r: int)
    requires step > 0 && 0 <= r < step && d == q * step + r
    ensures d / step == q && d % step == r
  {
    var q0, r0 := d / step, d % step;
    assert q0 * step + r0 == q * step + r;
    assert (q0 - q) * step == r - r0;
    assert (q - q0) * step == r0 - r;
    if q0 > q {
      MultipleAtLeast(q0 - q, step);
    } else if q > q0 {
      MultipleAtLeast(q - q0, step);
    }
  }

  /** Removing one step from a span removes one from its quotient. */
  lemma DivStep(d: int, step: int)
    requires step > 0 && d >= step
    ensures (d - step) / step + 1 == d / step
  {
    var q, r := (d - step) / step, (d - step) % step;
    assert d == (q + 1) * step + r;
    DivUnique(d, step, q + 1, r);
  }

  /**
   * Membership: an instant is visited exactly when it lies in the window and
   * a whole number of steps after `start`; in particular `end` is visited
   * exactly when it lies on the grid, and nothing is visited when `start > end`.
   */
  lemma {:induction false} GridMembership(start: int, end: int, step: int, t: int)
    requires step > 0
    ensures t in Grid(start, end, step) <==> start <= t <= end && (t - start) % step == 0
    decreases if start <= end then end - start + 1 else 0
  {
    if start <= end {
      GridMembership(start + step, end, step, t);
      if t != start && start <= t {
        ModStep(t - start, step);
      }
    }
  }

  lemma ModStep(d: int, step: int)
    requires step > 0 && d > 0
    ensures d % step == 0 <==> d >= step && (d - step) % step == 0
  {
    var q, r := d / step, d % step;
    if d < step {
      DivUnique(d, step, 0, d);
    } else {
      DivUnique(d - step, step, q - 1, r);
    }
  }

  /** Strictly increasing instants. */
  predicate Increasing(s: seq<int>) {
    forall i, j :: 0 <= i < j < |s| ==> s[i] < s[j]
  }

  /** Visited instants strictly increase, so grid order is time order. */
  lemma {:induction false} GridIncreasing(start: int, end: int, step: int)
    requires step > 0
    ensures Increasing(Grid(start, end, step))
  {
    GridClosedForm(start, end, step);
    var g := Grid(start, end, step);
    forall i, j | 0 <= i < j < |g| ensures g[i] < g[j] {
      MultipleAtLeast(j - i, step);
      assert g[j] - g[i] == j * step - i * step == (j - i) * step;
    }
  }

  /** The grid covers the window: its last instant is within one step of `end`. */
  lemma GridCoversWindow(start: int, end: int, step: int)
    requires step > 0 && start <= end
    ensures var g := Grid(start, end, step); g != [] && g[0] == start && g[|g| - 1] <= end < g[|g| - 1] + step
  {
    GridClosedForm(start, end, step);
    var n := (end - start) / step;
    assert end - start == n * step + (end - start) % step;
  }

  /**
   * A walk of the grid: with `visited` followed by the grid from `t` making up
   * `grid`, visiting `t` moves it into `visited`; past `end` the walk is over.
   */
  lemma GridWalk(visited: seq<int>, t: int, end: int, step: int, grid: seq<int>)
    requires step > 0
    requires visited + Grid(t, end, step) == grid
    ensures t <= end ==> (visited + [t]) + Grid(t + step, end, step) == grid
    ensures t > end ==> visited == grid
  {
    if t <= end {
      assert Grid(t, end, step) == [t] + Grid(t + step, end, step);
      assert (visited + [t]) + Grid(t + step, end, step) == visited + ([t] + Grid(t + step, end, step));
    } else {
      assert visited + [] == visited;
    }
  }
}
