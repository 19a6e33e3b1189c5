/** The guess drawn at a frame where a label has no coordinate for a camera:
    the estimator block of `viewer_plot_labels`. */
module Guess {
  import opened Labels

  /** Every entry of the frames has a coordinate slot for camera `cam`. */
  predicate CamCovered(d: FrameMap, cam: nat)
  {
    forall f :: f in d ==> cam < |d[f].coords|
  }

  /** Both `f - k` and `f + k` hold a coordinate for the camera. */
  predicate BothSides(d: FrameMap, f: int, cam: nat, k: int)
  {
    IsSet(d, f - k, cam) && IsSet(d, f + k, cam)
  }

  function Midpoint(p: Point, q: Point): Point
  {
    Point((p.x + q.x) / 2.0, (p.y + q.y) / 2.0)
  }

  /** The symmetric step from offset `k` on: the midpoint of the first pair
      `f - k`, `f + k` (k up to 3) where both sides hold a coordinate. */
  function SymmetricFrom(d: FrameMap, f: int, cam: nat, k: int): Option<Point>
    decreases 4 - k
  {
    if k > 3 then None
    else if BothSides(d, f, cam, k) then Some(Midpoint(d[f - k].coords[cam].value, d[f + k].coords[cam].value))
    else SymmetricFrom(d, f, cam, k + 1)
  }

  /** The offsets the fallback step tries, nearest first, earlier side first. */
  const FallbackOffsets: seq<int> := [-1, 1, -2, 2, -3, 3]

  /** The first of `offs` whose frame key is present, whatever its coordinate. */
  function FirstKeyed(d: FrameMap, f: int, offs: seq<int>): (r: Option<int>)
    ensures r.Some? ==> r.value in offs && f + r.value in d
    ensures r.None? ==> forall o :: o in offs ==> f + o !in d
  {
    if offs == [] then None
    else if f + offs[0] in d then Some(offs[0])
    else
      assert forall o :: o in offs ==> o == offs[0] || o in offs[1..];
      FirstKeyed(d, f, offs[1..])
  }

  /** The guess for camera `cam` at frame `f`; `None` when nothing is drawn. */
  function Guess(d: FrameMap, f: int, cam: nat): Option<Point>
    requires CamCovered(d, cam)
  {
    var s := SymmetricFrom(d, f, cam, 1);
    if s.Some? then s
    else match FirstKeyed(d, f, FallbackOffsets)
      case None => None
      case Some(o) => d[f + o].coords[cam]
  }

  /** What `viewer_plot_labels` draws for one label and camera. */
  datatype Mark = Annotated(p: Point) | Guessed(p: Point) | NoMark

  function PlotMark(labels: LabelMap, name: string, f: int, cam: nat): (m: Mark)
    requires CamCovered(FramesOf(labels, name), cam)
    ensures m.Annotated? <==> IsSet(FramesOf(labels, name), f, cam)
    ensures m.Annotated? ==> Some(m.p) == FramesOf(labels, name)[f].coords[cam]
    ensures m.Guessed? ==> Some(m.p) == Guess(FramesOf(labels, name), f, cam)
    ensures m.NoMark? <==> !IsSet(FramesOf(labels, name), f, cam) && Guess(FramesOf(labels, name), f, cam).None?
  {
    var d := FramesOf(labels, name);
    if IsSet(d, f, cam) then Annotated(d[f].coords[cam].value)
    else match Guess(d, f, cam)
      case Some(p) => Guessed(p)
      case None => NoMark
  }

  // ---------------------------------------------------------------------------
  // `np.nanmean` over rows of (x, y): NaN entries are skipped per column.

  /** One column (x or y) of the rows, NaN where the row is NaN. */
  function Col(rows: seq<Option<Point>>, useX: bool): seq<Option<real>>
  {
    if rows == [] then []
    else
      var head := if rows[0].None? then None else Some(if useX then rows[0].value.x else rows[0].value.y);
      [head] + Col(rows[1..], useX)
  }

  function Sum(xs: seq<Option<real>>): real
  {
    if xs == [] then 0.0 else (if xs[0].Some? then xs[0].value else 0.0) + Sum(xs[1..])
  }

  function Count(xs: seq<Option<real>>): nat
  {
    if xs == [] then 0 else (if xs[0].Some? then 1 else 0) + Count(xs[1..])
  }

  /** The mean of the values that are not NaN; NaN when every value is. */
  function NanMean(xs: seq<Option<real>>): (m: Option<real>)
    ensures m.None? <==> Count(xs) == 0
  {
    if Count(xs) == 0 then None else Some(Sum(xs) / (Count(xs) as real))
  }

  function NanMeanRows(rows: seq<Option<Point>>): Option<Point>
  {
    match (NanMean(Col(rows, true)), NanMean(Col(rows, false)))
    case (Some(x), Some(y)) => Some(Point(x, y))
    case _ => None
  }

  lemma NanMeanOfPair(a: real, b: real)
    ensures NanMean([None, Some(a), Some(b)]) == Some((a + b) / 2.0)
  {
    var xs: seq<Option<real>> := [None, Some(a), Some(b)];
    var ys: seq<Option<real>> := [Some(a), Some(b)];
    var zs: seq<Option<real>> := [Some(b)];
    assert xs[1..] == ys && ys[1..] == zs && zs[1..] == [];
    assert Count(zs) == 1 && Sum(zs) == b;
    assert Count(ys) == 2 && Sum(ys) == a + b;
    assert Count(xs) == 2 && Sum(xs) == a + b;
  }

  /** The all-NaN placeholder averaged in with the two neighbours changes
      nothing: the result is their exact midpoint. */
  lemma PlaceholderIsInert(p: Point, q: Point)
    ensures NanMeanRows([None, Some(p), Some(q)]) == Some(Midpoint(p, q))
  {
    var rows: seq<Option<Point>> := [None, Some(p), Some(q)];
    var rows1: seq<Option<Point>> := [Some(p), Some(q)];
    var rows2: seq<Option<Point>> := [Some(q)];
    assert rows[1..] == rows1 && rows1[1..] == rows2 && rows2[1..] == [];
    assert Col(rows2, true) == [Some(q.x)] && Col(rows2, false) == [Some(q.y)];
    assert Col(rows1, true) == [Some(p.x), Some(q.x)] && Col(rows1, false) == [Some(p.y), Some(q.y)];
    assert Col(rows, true) == [None, Some(p.x), Some(q.x)];
    assert Col(rows, false) == [None, Some(p.y), Some(q.y)];
    NanMeanOfPair(p.x, q.x);
    NanMeanOfPair(p.y, q.y);
  }

  // ---------------------------------------------------------------------------
  // The block as the program runs it: two offset loops with `break`.

  method GuessPosition(d: FrameMap, f: int, cam: nat) returns (point: Option<Point>)
    requires CamCovered(d, cam)
    ensures point == Guess(d, f, cam)
  {
    point := None;  // np.full((1, 2), np.nan)
    var offs := 1;
    while offs < 4
      invariant 1 <= offs <= 4
      invariant point.None?
      invariant SymmetricFrom(d, f, cam, offs) == SymmetricFrom(d, f, cam, 1)
    {
      if BothSides(d, f, cam, offs) {
        var p, q := d[f - offs].coords[cam].value, d[f + offs].coords[cam].value;
        point := NanMeanRows([point, Some(p), Some(q)]);
        PlaceholderIsInert(p, q);
        assert point == SymmetricFrom(d, f, cam, 1);
        break;
      }
      offs := offs + 1;
    }
    assert point.Some? ==> point == SymmetricFrom(d, f, cam, 1);
    assert point.None? ==> SymmetricFrom(d, f, cam, 1).None?;
    if point.None? {
      var i := 0;
      while i < |FallbackOffsets|
        invariant 0 <= i <= |FallbackOffsets|
        invariant point.None?
        invariant FirstKeyed(d, f, FallbackOffsets[i..]) == FirstKeyed(d, f, FallbackOffsets)
      {
        if f + FallbackOffsets[i] in d {
          point := d[f + FallbackOffsets[i]].coords[cam];
          assert FirstKeyed(d, f, FallbackOffsets) == Some(FallbackOffsets[i]);
          break;
        }
        assert FallbackOffsets[i..][1..] == FallbackOffsets[i + 1..];
        i := i + 1;
      }
    }
  }

  // ---------------------------------------------------------------------------
  // What the guess is, stated without the search.

  /** Offsets below `k` that have no symmetric pair do not change the search. */
  lemma {:induction false} SymmetricSkips(d: FrameMap, f: int, cam: nat, s: int, k: int)
    requires 1 <= s <= k <= 4
    requires forall j :: s <= j < k ==> !BothSides(d, f, cam, j)
    decreases k - s
    ensures SymmetricFrom(d, f, cam, s) == SymmetricFrom(d, f, cam, k)
  {
    if s < k {
      SymmetricSkips(d, f, cam, s + 1, k);
    }
  }

  /** Symmetric case: for the smallest `k` in 1..3 with a coordinate on both
      sides, the guess is the midpoint of frames `f - k` and `f + k`. */
  lemma GuessSymmetric(d: FrameMap, f: int, cam: nat, k: int)
    requires CamCovered(d, cam)
    requires 1 <= k <= 3 && BothSides(d, f, cam, k)
    requires forall j :: 1 <= j < k ==> !BothSides(d, f, cam, j)
    ensures Guess(d, f, cam) == Some(Midpoint(d[f - k].coords[cam].value, d[f + k].coords[cam].value))
  {
    SymmetricSkips(d, f, cam, 1, k);
  }

  /** The first of the fallback offsets whose key is present is the one at `i`. */
  lemma {:induction false} FirstKeyedAt(d: FrameMap, f: int, offs: seq<int>, i: nat)
    requires i < |offs| && f + offs[i] in d
    requires forall j :: 0 <= j < i ==> f + offs[j] !in d
    ensures FirstKeyed(d, f, offs) == Some(offs[i])
  {
    if i > 0 {
      FirstKeyedAt(d, f, offs[1..], i - 1);
    }
  }

  /** Fallback case: with no symmetric pair, the guess is whatever the first
      present key among `f-1, f+1, f-2, f+2, f-3, f+3` holds for the camera,
      even an unset coordinate (then nothing is drawn). */
  lemma GuessFallback(d: FrameMap, f: int, cam: nat, i: nat)
    requires CamCovered(d, cam)
    requires forall k :: 1 <= k <= 3 ==> !BothSides(d, f, cam, k)
    requires i < |FallbackOffsets| && f + FallbackOffsets[i] in d
    requires forall j :: 0 <= j < i ==> f + FallbackOffsets[j] !in d
    ensures Guess(d, f, cam) == d[f + FallbackOffsets[i]].coords[cam]
  {
    SymmetricSkips(d, f, cam, 1, 4);
    FirstKeyedAt(d, f, FallbackOffsets, i);
  }

  /** No guess at all when no symmetric pair exists and none of the six
      neighbouring frames has a key. */
  lemma GuessNone(d: FrameMap, f: int, cam: nat)
    requires CamCovered(d, cam)
    requires forall k :: 1 <= k <= 3 ==> !BothSides(d, f, cam, k)
    requires forall o :: o in FallbackOffsets ==> f + o !in d
    ensures Guess(d, f, cam).None?
  {
    SymmetricSkips(d, f, cam, 1, 4);
  }

  /** A guess always comes from the frames within three of `f`: a symmetric
      midpoint, or the coordinate a neighbour holds. It never reads frame `f`. */
  lemma {:induction false} GuessFromNeighbours(d: FrameMap, f: int, cam: nat)
    requires CamCovered(d, cam)
    requires Guess(d, f, cam).Some?
    ensures || (exists k :: 1 <= k <= 3 && BothSides(d, f, cam, k)
                 && Guess(d, f, cam) == Some(Midpoint(d[f - k].coords[cam].value, d[f + k].coords[cam].value)))
            || (exists o :: o in FallbackOffsets && IsSet(d, f + o, cam) && Guess(d, f, cam) == d[f + o].coords[cam])
  {
    if BothSides(d, f, cam, 1) {
      GuessSymmetric(d, f, cam, 1);
    } else if BothSides(d, f, cam, 2) {
      GuessSymmetric(d, f, cam, 2);
    } else if BothSides(d, f, cam, 3) {
      GuessSymmetric(d, f, cam, 3);
    } else {
      SymmetricSkips(d, f, cam, 1, 4);
      var o := FirstKeyed(d, f, FallbackOffsets).value;
      assert IsSet(d, f + o, cam);
    }
  }

  /** A neighbour whose coordinate was cleared hides a set coordinate further
      away: frame f-1 is present but unset, frame f+2 is set, and no guess is
      drawn. */
  lemma ClearedNeighbourHidesFartherOne(p: Point)
    ensures var cleared := LabelPoint([None], [0.0], [0]);
      var marked := LabelPoint([Some(p)], [0.0], [0]);
      var d := map[9 := cleared, 12 := marked];
      IsSet(d, 12, 0) && Guess(d, 10, 0).None?
  {
    var cleared := LabelPoint([None], [0.0], [0]);
    var marked := LabelPoint([Some(p)], [0.0], [0]);
    var d := map[9 := cleared, 12 := marked];
    assert !BothSides(d, 10, 0, 1) && !BothSides(d, 10, 0, 2) && !BothSides(d, 10, 0, 3);
    SymmetricSkips(d, 10, 0, 1, 4);
    FirstKeyedAt(d, 10, FallbackOffsets, 0);
  }
}
