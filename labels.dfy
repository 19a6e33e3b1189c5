/** The label store shared by the main window and the estimators.
    A coordinate that the program stores as a NaN pair is `None` here: the
    program treats a camera as set only when neither of its two numbers is NaN. */
module Labels {

  datatype Option<+T> = None | Some(value: T)

  /** An image position (x, y) in one camera. */
  datatype Point = Point(x: real, y: real)

  /** The entry of one (label, frame) key: per camera the coordinate, the
      wall-clock time of the last write and the index into the labeler list. */
  datatype LabelPoint = LabelPoint(coords: seq<Option<Point>>, pointTimes: seq<real>, labeler: seq<int>)

  /** frame index -> entry, for one label. */
  type FrameMap = map<int, LabelPoint>

  /** label name -> frames. */
  type LabelMap = map<string, FrameMap>

  /** What a save writes: the labels and the labeler list. */
  datatype LabelFile = LabelFile(labels: LabelMap, labelerList: seq<string>)

  /** The three per-camera arrays of an entry have one element per camera. */
  predicate Shaped(p: LabelPoint)
  {
    |p.coords| == |p.pointTimes| == |p.labeler|
  }

  predicate ShapedStore(labels: LabelMap)
  {
    forall name, f :: name in labels && f in labels[name] ==> Shaped(labels[name][f])
  }

  /** Camera `cam` holds a coordinate at frame `f`. */
  predicate IsSet(d: FrameMap, f: int, cam: nat)
  {
    f in d && cam < |d[f].coords| && d[f].coords[cam].Some?
  }

  /** The frames of one label, or none when the label is absent (`dict.get(name, {})`). */
  function FramesOf(labels: LabelMap, name: string): FrameMap
  {
    if name in labels then labels[name] else map[]
  }

  /** First position of `x` in `s`, as `list.index` finds it. */
  function IndexOf(s: seq<string>, x: string): (i: nat)
    requires x in s
    ensures i < |s| && s[i] == x
    ensures forall j :: 0 <= j < i ==> s[j] != x
  {
    if s[0] == x then 0 else 1 + IndexOf(s[1..], x)
  }
}
