/** Choosing the label nearest to a shift-click (`viewer_click`, case `'select_label'`). */
module Selection {
  import opened Labels
  import opened Extremum

  /** Squared Euclidean distance; it orders points as `np.linalg.norm` does. */
  function SqDist(p: Point, q: Point): (r: real)
    ensures r >= 0.0
  {
    (p.x - q.x) * (p.x - q.x) + (p.y - q.y) * (p.y - q.y)
  }

  /** One label of a frame as the store reports it: its name and its per-camera coordinates. */
  datatype FrameLabel = FrameLabel(name: string, coords: seq<Option<Point>>)

  /** The label has a coordinate for the camera (`len(ld) > cam_idx` and not NaN). */
  predicate HasCoord(l: FrameLabel, cam: nat)
  {
    cam < |l.coords| && l.coords[cam].Some?
  }

  /** Its distance from the click; `np.inf` when it has no coordinate. */
  function Distance(l: FrameLabel, cam: nat, click: Point): (e: Ext)
    ensures e.Fin? <==> HasCoord(l, cam)
  {
    if HasCoord(l, cam) then Fin(SqDist(l.coords[cam].value, click)) else Inf
  }

  // The ensures only spell out the comprehension; they serve as hints for
  // the proof of `SelectNearest`.
  function Distances(ls: seq<FrameLabel>, cam: nat, click: Point): (ds: seq<Ext>)
    ensures |ds| == |ls|
    ensures forall i :: 0 <= i < |ls| ==> ds[i] == Distance(ls[i], cam, click)
  {
    seq(|ls|, i requires 0 <= i < |ls| => Distance(ls[i], cam, click))
  }

  /** The position of the selected label; `None` when the frame reports no
      label at all, where `np.argmin` of an empty list raises. */
  function SelectNearest(ls: seq<FrameLabel>, cam: nat, click: Point): (r: Option<nat>)
    ensures r.None? <==> |ls| == 0
    ensures r.Some? ==> r.value < |ls|
    // no label with a coordinate is nearer than the selected one
    ensures r.Some? ==> forall j :: 0 <= j < |ls| && HasCoord(ls[j], cam) ==>
      HasCoord(ls[r.value], cam) && SqDist(ls[r.value].coords[cam].value, click) <= SqDist(ls[j].coords[cam].value, click)
    // of equally near labels the first is taken
    ensures r.Some? ==> forall j :: 0 <= j < r.value && HasCoord(ls[j], cam) ==>
      HasCoord(ls[r.value], cam) && SqDist(ls[r.value].coords[cam].value, click) < SqDist(ls[j].coords[cam].value, click)
    // a label without a coordinate is selected only when it comes first and no label has one
    ensures r.Some? && !HasCoord(ls[r.value], cam) ==>
      r.value == 0 && forall j :: 0 <= j < |ls| ==> !HasCoord(ls[j], cam)
  {
    if |ls| == 0 then None
    else
      var ds := Distances(ls, cam, click);
      var i := ArgMin(ds);
      assert forall j :: 0 <= j < |ls| ==> Le(ds[i], ds[j]);
      assert forall j :: 0 <= j < i ==> Lt(ds[i], ds[j]);
      Some(i)
  }
}
