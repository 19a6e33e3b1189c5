/** The allowed-frame grid of the main window and the snapping of a requested
    frame onto it (`np.arange` and `get_valid_frame_idx`). */
module Frames {
  import opened Extremum

  function Abs(x: int): nat
  {
    if x < 0 then -x else x
  }

  /** `np.arange(start, stop, step)` for a positive step: start, start+step, ...
      while below stop. */
  function Arange(start: int, stop: int, step: int): seq<int>
    requires step > 0
    decreases stop - start
  {
    if stop <= start then [] else [start] + Arange(start + step, stop, step)
  }

  /** The shape of `np.arange`: empty exactly when `stop <= start`, starting at
      `start`, `step` apart, below `stop`, with no room for one more element. */
  lemma {:induction false} ArangeSpec(start: int, stop: int, step: int)
    requires step > 0
    decreases stop - start
    ensures |Arange(start, stop, step)| == 0 <==> stop <= start
    ensures |Arange(start, stop, step)| > 0 ==> Arange(start, stop, step)[0] == start
    ensures Stepped(Arange(start, stop, step), step)
    ensures forall k :: 0 <= k < |Arange(start, stop, step)| ==> start <= Arange(start, stop, step)[k] < stop
    ensures |Arange(start, stop, step)| > 0 ==> Arange(start, stop, step)[|Arange(start, stop, step)| - 1] + step >= stop
    ensures Increasing(Arange(start, stop, step))
  {
    if start < stop {
      ArangeSpec(start + step, stop, step);
      var t := Arange(start + step, stop, step);
      var g := Arange(start, stop, step);
      assert g == [start] + t;
      assert forall k :: 1 <= k < |g| ==> g[k] == t[k - 1];
      assert |t| > 0 ==> g[1] == start + step;
    }
  }
  /** `np.abs(grid - f)` as a list of distances. */
  function Distances(g: seq<int>, f: int): seq<Ext>
  {
    seq(|g|, i requires 0 <= i < |g| => Fin(Abs(g[i] - f) as real))
  }

  /** Consecutive elements are `step` apart. */
  predicate Stepped(g: seq<int>, step: int)
  {
    forall i, j {:trigger g[i], g[j]} :: 0 <= i < |g| && j == i + 1 && j < |g| ==> g[j] == g[i] + step
  }

  predicate Increasing(g: seq<int>)
  {
    forall i, j :: 0 <= i < j < |g| ==> g[i] < g[j]
  }

  /** `get_valid_frame_idx`: the grid member nearest to `f`; of two equally near
      members the earlier one, since `argmin` takes the first index. */
  function Snap(g: seq<int>, f: int): (r: int)
    requires |g| > 0 && Increasing(g)
    ensures r in g
    ensures forall j :: 0 <= j < |g| ==> Abs(r - f) <= Abs(g[j] - f)
    ensures forall j :: 0 <= j < |g| && Abs(g[j] - f) == Abs(r - f) ==> r <= g[j]
  {
    var ds := Distances(g, f);
    var i := ArgMin(ds);
    assert forall j :: 0 <= j < |g| ==> Abs(g[i] - f) <= Abs(g[j] - f) by {
      forall j | 0 <= j < |g| ensures Abs(g[i] - f) <= Abs(g[j] - f) {
        assert Le(ds[i], ds[j]);
      }
    }
    assert forall j :: 0 <= j < |g| && Abs(g[j] - f) == Abs(g[i] - f) ==> g[i] <= g[j] by {
      forall j | 0 <= j < |g| && Abs(g[j] - f) == Abs(g[i] - f) ensures g[i] <= g[j] {
        assert ds[i] == Fin(Abs(g[i] - f) as real) && ds[j] == Fin(Abs(g[j] - f) as real);
      }
    }
    g[i]
  }

  /** Snapping an allowed frame leaves it where it is, so snapping is idempotent. */
  lemma SnapFixesMembers(g: seq<int>, x: int)
    requires |g| > 0 && Increasing(g)
    requires x in g
    ensures Snap(g, x) == x
    ensures Snap(g, Snap(g, x)) == Snap(g, x)
  {
  }

  lemma SnapIdempotent(g: seq<int>, f: int)
    requires |g| > 0 && Increasing(g)
    ensures Snap(g, Snap(g, f)) == Snap(g, f)
  {
    SnapFixesMembers(g, Snap(g, f));
  }

  /** The allowed frames of a session: increasing, non-empty exactly when
      `minFrame < maxFrame`, and then starting at `minFrame`. */
  function Grid(minFrame: int, maxFrame: int, dFrame: int): (g: seq<int>)
    requires dFrame > 0
    ensures Increasing(g)
    ensures |g| > 0 <==> minFrame < maxFrame
    ensures |g| > 0 ==> g[0] == minFrame
  {
    ArangeSpec(minFrame, maxFrame, dFrame);
    Arange(minFrame, maxFrame, dFrame)
  }

  /** The k-th allowed frame is `start + k * step`. */
  lemma {:induction false} ArangeAt(start: int, stop: int, step: int, k: nat)
    requires step > 0 && k < |Arange(start, stop, step)|
    decreases k
    ensures Arange(start, stop, step)[k] == start + k * step
  {
    if k > 0 {
      ArangeAt(start + step, stop, step, k - 1);
      assert (start + step) + (k - 1) * step == start + k * step;
    }
  }

  /** Every `start + k * step` below `stop` is the k-th allowed frame. */
  lemma {:induction false} ArangeContains(start: int, stop: int, step: int, k: nat)
    requires step > 0 && start + k * step < stop
    decreases k
    ensures k < |Arange(start, stop, step)| && Arange(start, stop, step)[k] == start + k * step
  {
    if k > 0 {
      assert (start + step) + (k - 1) * step == start + k * step;
      ArangeContains(start + step, stop, step, k - 1);
    }
  }

  /** A frame is allowed iff it is `start + k * step` for some `k` and below `stop`. */
  lemma {:induction false} GridMembers(start: int, stop: int, step: int, x: int)
    requires step > 0
    ensures x in Arange(start, stop, step) <==> (exists k: nat :: x == start + k * step) && x < stop
  {
    var g := Arange(start, stop, step);
    if x in g {
      var i :| 0 <= i < |g| && g[i] == x;
      ArangeAt(start, stop, step, i);
      ArangeBounds(start, stop, step, i);
      assert x == start + i * step && x < stop;
    }
    if (exists k: nat :: x == start + k * step) && x < stop {
      var k: nat :| x == start + k * step;
      ArangeContains(start, stop, step, k);
    }
  }

  lemma {:induction false} ArangeBounds(start: int, stop: int, step: int, k: nat)
    requires step > 0 && k < |Arange(start, stop, step)|
    decreases k
    ensures Arange(start, stop, step)[k] < stop
  {
    if k > 0 {
      ArangeBounds(start + step, stop, step, k - 1);
    }
  }

  /** Consecutive allowed frames are `dFrame` apart. */
  lemma GridStepped(minFrame: int, maxFrame: int, dFrame: int)
    requires dFrame > 0
    ensures Stepped(Grid(minFrame, maxFrame, dFrame), dFrame)
  {
    ArangeSpec(minFrame, maxFrame, dFrame);
  }

  /** `next_frame` from the allowed frame at position `k`: the next allowed
      frame, or the same frame when it is the last one. */
  lemma {:induction false} NextFrameStep(g: seq<int>, k: nat, step: int)
    requires step > 0 && k < |g| && Increasing(g)
    requires Stepped(g, step)
    ensures Snap(g, g[k] + step) == if k + 1 < |g| then g[k + 1] else g[k]
    ensures Snap(g, g[k] + step) >= g[k]
  {
    var r := Snap(g, g[k] + step);
    if k + 1 < |g| {
      SnapFixesMembers(g, g[k + 1]);
    } else {
      var j :| 0 <= j < |g| && g[j] == r;
      assert g[j] <= g[k];
    }
  }

  /** `previous_frame` from the allowed frame at position `k`: the previous
      allowed frame, or the same frame when it is the first one. */
  lemma {:induction false} PreviousFrameStep(g: seq<int>, k: nat, step: int)
    requires step > 0 && k < |g| && Increasing(g)
    requires Stepped(g, step)
    ensures Snap(g, g[k] - step) == if k > 0 then g[k - 1] else g[k]
    ensures Snap(g, g[k] - step) <= g[k]
  {
    var r := Snap(g, g[k] - step);
    if k > 0 {
      assert g[k - 1] + step == g[k];
      SnapFixesMembers(g, g[k - 1]);
    } else {
      var j :| 0 <= j < |g| && g[j] == r;
      assert g[0] <= g[j];
    }
  }

  /** Position of an allowed frame in the grid, and whether it is the first or last one. */
  lemma {:induction false} GridPosition(minFrame: int, maxFrame: int, dFrame: int, x: int) returns (k: nat)
    requires dFrame > 0
    requires x in Grid(minFrame, maxFrame, dFrame)
    ensures var g := Grid(minFrame, maxFrame, dFrame);
      && k < |g| && g[k] == x
      && (k + 1 < |g| <==> x + dFrame < maxFrame)
      && (k > 0 <==> x > minFrame)
  {
    var g := Arange(minFrame, maxFrame, dFrame);
    ArangeSpec(minFrame, maxFrame, dFrame);
    k :| 0 <= k < |g| && g[k] == x;
    assert g[0] == minFrame;
    if k + 1 < |g| {
      assert g[k + 1] == x + dFrame;
    }
  }

  /** From an allowed frame, one step forward goes to the next allowed frame,
      or stays at the last one; so it never goes back. */
  lemma {:induction false} NextFrameMonotone(minFrame: int, maxFrame: int, dFrame: int, x: int)
    requires dFrame > 0
    requires x in Grid(minFrame, maxFrame, dFrame)
    ensures Snap(Grid(minFrame, maxFrame, dFrame), x + dFrame)
      == if x + dFrame < maxFrame then x + dFrame else x
  {
    var g := Grid(minFrame, maxFrame, dFrame);
    var k := GridPosition(minFrame, maxFrame, dFrame, x);
    GridStepped(minFrame, maxFrame, dFrame);
    NextFrameStep(g, k, dFrame);
  }

  /** From an allowed frame, one step backward goes to the previous allowed
      frame, or stays at the first one; so it never goes forward. */
  lemma {:induction false} PreviousFrameMonotone(minFrame: int, maxFrame: int, dFrame: int, x: int)
    requires dFrame > 0
    requires x in Grid(minFrame, maxFrame, dFrame)
    ensures Snap(Grid(minFrame, maxFrame, dFrame), x - dFrame)
      == if x > minFrame then x - dFrame else x
  {
    var g := Grid(minFrame, maxFrame, dFrame);
    var k := GridPosition(minFrame, maxFrame, dFrame, x);
    GridStepped(minFrame, maxFrame, dFrame);
    PreviousFrameStep(g, k, dFrame);
    assert k > 0 ==> g[k - 1] == x - dFrame;
  }
}
