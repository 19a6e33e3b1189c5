/** One camera's viewer window: the registry of drawn labels, the
    classification of mouse clicks and the intensity spin boxes. */
module Viewer {
  import opened Labels

  /** The keys of `plot_params`: the kinds of drawn item. */
  datatype LabelType = Label | GuessLabel | RefLabel | CurrentLabel | ErrorLine

  const LabelTypes: set<LabelType> := {Label, GuessLabel, RefLabel, CurrentLabel, ErrorLine}

  /** A plot data item, by value: its data, the parameter set of the kind whose
      brush and size it currently shows, and its z value. */
  datatype PlotItem = PlotItem(xs: seq<real>, ys: seq<real>, style: LabelType, z: int)

  type Registry = map<LabelType, map<string, PlotItem>>

  /** The z value every point label is given. */
  const LabelZ: int := 10

  // ---------------------------------------------------------------------------
  // Mouse clicks

  /** The action a click asks the main window for. */
  datatype Action = SelectLabel | CreateLabel | AutoLabel | DeleteLabel

  // Qt's values for `event.button()` and the keyboard modifier flags.
  const LeftButton: int := 1
  const RightButton: int := 2
  const NoModifier: int := 0
  const ShiftModifier: int := 0x0200_0000
  const ControlModifier: int := 0x0400_0000
  const AltModifier: int := 0x0800_0000

  /** The action for a button and the exact set of held modifiers. */
  function ClassifyClick(button: int, modifiers: int): (a: Option<Action>)
    ensures a == Some(SelectLabel) <==> button == LeftButton && modifiers == ShiftModifier
    ensures a == Some(AutoLabel) <==> button == LeftButton && modifiers == AltModifier
    ensures a == Some(CreateLabel) <==>
      button == LeftButton && modifiers != ShiftModifier && modifiers != AltModifier
    ensures a == Some(DeleteLabel) <==> button == RightButton
    ensures a.None? <==> button != LeftButton && button != RightButton
  {
    if button == LeftButton then
      if modifiers == ShiftModifier then Some(SelectLabel)
      else if modifiers == AltModifier then Some(AutoLabel)
      else Some(CreateLabel)
    else if button == RightButton then Some(DeleteLabel)
    else None
  }

  /** The modifiers are compared for equality, so Shift held together with
      Control is an ordinary left click and creates a label. */
  lemma ShiftWithControlCreates()
    ensures ClassifyClick(LeftButton, ShiftModifier + ControlModifier) == Some(CreateLabel)
    ensures ClassifyClick(LeftButton, NoModifier) == Some(CreateLabel)
  {
  }

  /** What `mouse_clicked_signal` carries: view position, frame, window index, action. */
  datatype ClickSignal = ClickSignal(x: real, y: real, frame: int, window: int, action: Action)

  // ---------------------------------------------------------------------------
  // Intensity range

  /** Image element types a frame reader may return. */
  datatype Dtype = Int8 | UInt8 | Int16 | UInt16 | Int32 | UInt32 | Int64 | UInt64 | Float32 | Float64

  /** `np.iinfo(dtype)` as (min, max); `np.iinfo` raises for floating types. */
  function IInfo(dt: Dtype): (r: Option<(int, int)>)
    ensures r.Some? ==> r.value.0 < r.value.1
    ensures r.None? <==> dt == Float32 || dt == Float64
  {
    match dt
    case Int8 => Some((-0x80, 0x7f))
    case UInt8 => Some((0, 0xff))
    case Int16 => Some((-0x8000, 0x7fff))
    case UInt16 => Some((0, 0xffff))
    case Int32 => Some((-0x8000_0000, 0x7fff_ffff))
    case UInt32 => Some((0, 0xffff_ffff))
    case Int64 => Some((-0x8000_0000_0000_0000, 0x7fff_ffff_ffff_ffff))
    case UInt64 => Some((0, 0xffff_ffff_ffff_ffff))
    case Float32 => None
    case Float64 => None
  }

  // A spin box holds a C `int`; a bound outside it makes `setRange` raise.
  const SpinMin: int := -0x8000_0000
  const SpinMax: int := 0x7fff_ffff

  /** The range `set_intensity_range` gives both spin boxes, when it succeeds. */
  function SpinRange(dt: Dtype): (r: Option<(int, int)>)
    ensures r.Some? ==> SpinMin <= r.value.0 < r.value.1 <= SpinMax
    ensures r.Some? <==> dt in {Int8, UInt8, Int16, UInt16, Int32}
  {
    match IInfo(dt)
    case None => None
    case Some((lo, hi)) => if SpinMin <= lo && hi <= SpinMax then Some((lo, hi)) else None
  }

  // ---------------------------------------------------------------------------
  // Emphasis of the current label

  /** `b` holds the same items as `a`, each with the same data and z value;
      only styles may differ. */
  ghost predicate SameData(a: Registry, b: Registry)
  {
    && a.Keys == b.Keys
    && (forall t :: t in a ==> a[t].Keys == b[t].Keys)
    && (forall t, n :: t in a && n in a[t] ==>
          a[t][n].xs == b[t][n].xs && a[t][n].ys == b[t][n].ys && a[t][n].z == b[t][n].z)
  }

  lemma SameDataTransitive(a: Registry, b: Registry, c: Registry)
    requires SameData(a, b) && SameData(b, c)
    ensures SameData(a, c)
  {
  }

  /** Give the item of `name` of kind `t`, if drawn, the brush and size of `style`. */
  function Restyle(reg: Registry, t: LabelType, name: Option<string>, style: LabelType): (r: Registry)
    requires t in reg
    ensures r.Keys == reg.Keys
  {
    if name.Some? && name.value in reg[t] then reg[t := reg[t][name.value := reg[t][name.value].(style := style)]]
    else reg
  }

  /** Restyling changes the style of at most the one item of `name` of kind
      `t`, and nothing else. */
  lemma RestyleSpec(reg: Registry, t: LabelType, name: Option<string>, style: LabelType)
    requires t in reg
    ensures Restyle(reg, t, name, style)[t].Keys == reg[t].Keys
    ensures SameData(Restyle(reg, t, name, style), reg)
    ensures forall u :: u in reg && u != t ==> Restyle(reg, t, name, style)[u] == reg[u]
    ensures forall n :: n in reg[t] ==>
      (Restyle(reg, t, name, style)[t][n] == if name == Some(n) then reg[t][n].(style := style) else reg[t][n])
  {
    if name.Some? && name.value in reg[t] {
      var m := reg[t][name.value := reg[t][name.value].(style := style)];
      assert Restyle(reg, t, name, style) == reg[t := m];
      assert m.Keys == reg[t].Keys;
      forall u, n | u in reg && n in reg[u]
        ensures reg[t := m][u][n].xs == reg[u][n].xs && reg[t := m][u][n].ys == reg[u][n].ys
        ensures reg[t := m][u][n].z == reg[u][n].z
      {
        if u == t && n == name.value {
        } else {
          assert reg[t := m][u][n] == reg[u][n];
        }
      }
    }
  }

  /** One pass of `set_current_label` over kind `t`: demote the previous current label, promote the next one. */
  function Emphasize(reg: Registry, t: LabelType, prev: Option<string>, next: Option<string>): (r: Registry)
    requires t in reg
    ensures r.Keys == reg.Keys
  {
    Restyle(Restyle(reg, t, prev, t), t, next, CurrentLabel)
  }

  /** After one pass the next label's item has the current-label style, the
      previous one's (when different) its own kind's style, and every other
      item is as it was. */
  lemma EmphasizeSpec(reg: Registry, t: LabelType, prev: Option<string>, next: Option<string>)
    requires t in reg
    ensures Emphasize(reg, t, prev, next)[t].Keys == reg[t].Keys
    ensures SameData(Emphasize(reg, t, prev, next), reg)
    ensures forall u :: u in reg && u != t ==> Emphasize(reg, t, prev, next)[u] == reg[u]
    ensures forall n :: n in reg[t] && Some(n) == next ==> Emphasize(reg, t, prev, next)[t][n] == reg[t][n].(style := CurrentLabel)
    ensures forall n :: n in reg[t] && Some(n) == prev && prev != next ==> Emphasize(reg, t, prev, next)[t][n] == reg[t][n].(style := t)
    ensures forall n :: n in reg[t] && Some(n) != prev && Some(n) != next ==> Emphasize(reg, t, prev, next)[t][n] == reg[t][n]
  {
    var r1 := Restyle(reg, t, prev, t);
    RestyleSpec(reg, t, prev, t);
    RestyleSpec(r1, t, next, CurrentLabel);
    SameDataTransitive(Restyle(r1, t, next, CurrentLabel), r1, reg);
  }

  /** The kinds whose items `set_current_label` restyles. */
  const EmphasisTypes: seq<LabelType> := [Label, GuessLabel]

  function EmphasizeAll(reg: Registry, ts: seq<LabelType>, prev: Option<string>, next: Option<string>): (r: Registry)
    requires forall t :: t in ts ==> t in reg
    ensures r.Keys == reg.Keys
    decreases |ts|
  {
    if ts == [] then reg
    else EmphasizeAll(Emphasize(reg, ts[0], prev, next), ts[1..], prev, next)
  }

  /** After `set_current_label`, the next current label's point and guess items
      show the current-label style, the prev one's (when different) show their
      own kind's style again, and no item changes its data or z value. */
  lemma {:induction false} EmphasisEffect(reg: Registry, prev: Option<string>, next: Option<string>)
    requires reg.Keys == LabelTypes
    ensures SameData(EmphasizeAll(reg, EmphasisTypes, prev, next), reg)
    ensures forall t :: t in EmphasisTypes && next.Some? && next.value in reg[t] ==>
      EmphasizeAll(reg, EmphasisTypes, prev, next)[t][next.value].style == CurrentLabel
    ensures forall t :: t in EmphasisTypes && prev.Some? && prev != next && prev.value in reg[t] ==>
      EmphasizeAll(reg, EmphasisTypes, prev, next)[t][prev.value].style == t
    ensures forall t, n :: t in EmphasisTypes && n in reg[t] && Some(n) != prev && Some(n) != next ==>
      EmphasizeAll(reg, EmphasisTypes, prev, next)[t][n] == reg[t][n]
  {
    var r1 := Emphasize(reg, Label, prev, next);
    EmphasizeSpec(reg, Label, prev, next);
    assert EmphasisTypes[1..] == [GuessLabel];
    assert [GuessLabel][1..] == [];
    var r2 := Emphasize(r1, GuessLabel, prev, next);
    EmphasizeSpec(r1, GuessLabel, prev, next);
    assert EmphasizeAll(reg, EmphasisTypes, prev, next) == r2;
    SameDataTransitive(r2, r1, reg);
    assert r2[Label] == r1[Label] && r1[GuessLabel] == reg[GuessLabel];
    forall t | t in EmphasisTypes && next.Some? && next.value in reg[t]
      ensures r2[t][next.value].style == CurrentLabel
    {
      assert t == Label || t == GuessLabel;
    }
    forall t | t in EmphasisTypes && prev.Some? && prev != next && prev.value in reg[t]
      ensures r2[t][prev.value].style == t
    {
      assert t == Label || t == GuessLabel;
    }
    forall t, n | t in EmphasisTypes && n in reg[t] && Some(n) != prev && Some(n) != next
      ensures r2[t][n] == reg[t][n]
    {
      assert t == Label || t == GuessLabel;
    }
  }

  /** The registry after `draw_label` placed `name` of kind `t` at (x, y):
      an existing item keeps its style and z and only moves; a new one gets
      its kind's style and the label z value. */
  function Drawn(reg: Registry, x: real, y: real, name: string, t: LabelType): (r: Registry)
    requires t in reg
    ensures r.Keys == reg.Keys && r[t].Keys == reg[t].Keys + {name}
    ensures forall u :: u in reg && u != t ==> r[u] == reg[u]
    ensures forall n :: n in reg[t] && n != name ==> r[t][n] == reg[t][n]
    ensures r[t][name].xs == [x] && r[t][name].ys == [y]
    ensures name in reg[t] ==> r[t][name].style == reg[t][name].style && r[t][name].z == reg[t][name].z
    ensures name !in reg[t] ==> r[t][name].style == t && r[t][name].z == LabelZ
  {
    var item := if name in reg[t] then reg[t][name].(xs := [x], ys := [y]) else PlotItem([x], [y], t, LabelZ);
    reg[t := reg[t][name := item]]
  }

  // ---------------------------------------------------------------------------

  class ViewerSubWindow {
    const index: int
    /** The frame shown; nothing in this window sets it, so it stays `None`
        until the main window does. */
    var frameIdx: Option<int>
    var labels: Registry
    var currentLabelName: Option<string>
    /** The range of both spin boxes and their values. */
    var rangeMin: int
    var rangeMax: int
    var vmin: int
    var vmax: int
    /** How often the frame was redrawn. */
    var redraws: nat

    ghost predicate Valid()
      reads this
    {
      labels.Keys == LabelTypes && rangeMin <= vmin < vmax <= rangeMax
    }

    /** The window for camera `index` whose reader yields images of type `dt`. */
    constructor (index: int, dt: Dtype)
      requires SpinRange(dt).Some?
      ensures Valid()
      ensures this.index == index && frameIdx.None? && currentLabelName.None? && redraws == 0
      ensures labels == map t | t in LabelTypes :: map[]
      ensures (rangeMin, rangeMax) == SpinRange(dt).value && vmin == rangeMin && vmax == rangeMax
    {
      this.index := index;
      frameIdx := None;
      labels := map t | t in LabelTypes :: map[];
      currentLabelName := None;
      // a new QSpinBox spans 0..99 and holds 0
      rangeMin, rangeMax, vmin, vmax := 0, 99, 0, 0;
      redraws := 0;
      new;
      var ok := SetIntensityRange(dt);
    }

    /** `mouse_clicked`: the signal emitted, if any, for a click at scene
        position inside the plot (`inside`) that maps to `view`. */
    function MouseClicked(inside: bool, button: int, modifiers: int, view: Point): (s: Option<ClickSignal>)
      reads this
      ensures frameIdx.None? ==> s.None?
      ensures !inside ==> s.None?
      ensures s.Some? <==> frameIdx.Some? && inside && (button == LeftButton || button == RightButton)
      ensures s.Some? ==>
        (&& s.value.x == view.x && s.value.y == view.y
         && s.value.frame == frameIdx.value && s.value.window == index
         && Some(s.value.action) == ClassifyClick(button, modifiers))
    {
      if frameIdx.None? || !inside then None
      else match ClassifyClick(button, modifiers)
        case None => None
        case Some(a) => Some(ClickSignal(view.x, view.y, frameIdx.value, index, a))
    }

    /** `draw_label`: move the item of `name` to (x, y), creating it when absent. */
    method DrawLabel(x: real, y: real, name: string, labelType: LabelType, currentLabel: bool)
      requires Valid()
      modifies this`labels, this`currentLabelName
      ensures Valid()
      ensures currentLabel ==>
        (&& labels == EmphasizeAll(Drawn(old(labels), x, y, name, labelType), EmphasisTypes, old(currentLabelName), Some(name))
         && currentLabelName == Some(name))
      ensures !currentLabel ==>
        labels == Drawn(old(labels), x, y, name, labelType) && currentLabelName == old(currentLabelName)
      ensures name in labels[labelType]
      ensures labels[labelType].Keys == old(labels)[labelType].Keys + {name}
      ensures forall t :: t in LabelTypes && t != labelType ==> labels[t].Keys == old(labels)[t].Keys
    {
      if name !in labels[labelType] {
        labels := labels[labelType := labels[labelType][name := PlotItem([x], [y], labelType, LabelZ)]];
      } else {
        var item := labels[labelType][name];
        labels := labels[labelType := labels[labelType][name := item.(xs := [x], ys := [y])]];
      }
      if currentLabel {
        SetCurrentLabel(Some(name));
      }
    }

    /** `draw_line`: add a line item under `name` unless one is already there. */
    method DrawLine(xs: seq<real>, ys: seq<real>, name: string, lineType: LabelType)
      requires Valid()
      modifies this`labels
      ensures Valid()
      ensures labels == if name in old(labels)[lineType] then old(labels)
        else old(labels)[lineType := old(labels)[lineType][name := PlotItem(xs, ys, lineType, 0)]]
    {
      if name !in labels[lineType] {
        labels := labels[lineType := labels[lineType][name := PlotItem(xs, ys, lineType, 0)]];
      }
    }

    /** `clear_label`: forget and remove the item of `name` of one kind, if any. */
    method ClearLabel(name: string, labelType: LabelType)
      requires Valid()
      modifies this`labels
      ensures Valid()
      ensures labels == old(labels)[labelType := old(labels)[labelType] - {name}]
      ensures name !in old(labels)[labelType] ==> labels == old(labels)
    {
      labels := labels[labelType := labels[labelType] - {name}];
      assert name !in old(labels)[labelType] ==> old(labels)[labelType] - {name} == old(labels)[labelType];
    }

    /** `clear_all_labels`: every kind maps to no items and no label is current. */
    method ClearAllLabels()
      requires Valid()
      modifies this`labels, this`currentLabelName
      ensures Valid()
      ensures forall t :: t in LabelTypes ==> labels[t] == map[]
      ensures currentLabelName.None?
    {
      labels := map t | t in LabelTypes :: map[];
      currentLabelName := None;
    }

    /** `set_current_label`: restyle the old and the new current label's items
        and remember the new name. */
    method SetCurrentLabel(name: Option<string>)
      requires Valid()
      modifies this`labels, this`currentLabelName
      ensures Valid()
      ensures labels == EmphasizeAll(old(labels), EmphasisTypes, old(currentLabelName), name)
      ensures currentLabelName == name
      ensures forall t :: t in LabelTypes ==> labels[t].Keys == old(labels)[t].Keys
    {
      ghost var reg := labels;
      var previous := currentLabelName;
      for i := 0 to |EmphasisTypes|
        invariant labels.Keys == LabelTypes
        invariant EmphasizeAll(labels, EmphasisTypes[i..], previous, name) == EmphasizeAll(reg, EmphasisTypes, previous, name)
      {
        var t := EmphasisTypes[i];
        assert EmphasisTypes[i..][1..] == EmphasisTypes[i + 1..];
        ghost var before := labels;
        RestyleItem(t, previous, t);
        RestyleItem(t, name, CurrentLabel);
        assert labels == Emphasize(before, t, previous, name);
      }
      assert forall t :: t in LabelTypes ==> labels[t].Keys == reg[t].Keys by {
        EmphasisEffect(reg, previous, name);
      }
      currentLabelName := name;
    }

    /** Give the item of `name` of kind `t`, if drawn, the brush and size of `style`. */
    method RestyleItem(t: LabelType, name: Option<string>, style: LabelType)
      requires labels.Keys == LabelTypes
      modifies this`labels
      ensures labels == Restyle(old(labels), t, name, style)
    {
      if name.Some? && name.value in labels[t] {
        labels := labels[t := labels[t][name.value := labels[t][name.value].(style := style)]];
      }
    }

    /** `set_intensity_range`: both boxes span the image type's integer range,
        `vmin` at its bottom and `vmax` at its top; nothing changes when the
        type has no integer range or its range does not fit a spin box. The
        value handlers are not yet connected when this runs. */
    method SetIntensityRange(dt: Dtype) returns (ok: bool)
      modifies this`rangeMin, this`rangeMax, this`vmin, this`vmax
      ensures ok <==> SpinRange(dt).Some?
      ensures ok ==> (rangeMin, rangeMax) == SpinRange(dt).value && vmin == rangeMin && vmax == rangeMax
      ensures ok ==> rangeMin <= vmin < vmax <= rangeMax
      ensures !ok ==>
        (rangeMin == old(rangeMin) && rangeMax == old(rangeMax) && vmin == old(vmin) && vmax == old(vmax))
    {
      var info := IInfo(dt);
      if info.None? {
        return false;  // np.iinfo raises
      }
      var (lo, hi) := info.value;
      if lo < SpinMin || hi > SpinMax {
        return false;  // setRange raises on the first call
      }
      rangeMin, rangeMax := lo, hi;
      vmin := lo;
      vmax := hi;
      ok := true;
    }

    /** `box_vmin_change`, run after the vmin box took `value`: keep it if it
        is below vmax and redraw, otherwise put it back to `vmax - 1`, whose own
        change notification redraws. */
    method BoxVminChange(value: int)
      requires Valid() && rangeMin <= value <= rangeMax
      modifies this`vmin, this`redraws
      ensures Valid()
      ensures vmin == if value < vmax then value else vmax - 1
      ensures redraws == old(redraws) + 1
    {
      vmin := value;
      if value < vmax {
        redraws := redraws + 1;
      } else {
        // the old vmin was at least rangeMin and below vmax, so vmax - 1 lies in range
        vmin := vmax - 1;
        // the box announces the change and the handler runs again with
        // vmax - 1, which is below vmax, so that run redraws
        redraws := redraws + 1;
      }
    }

    /** `box_vmax_change`, run after the vmax box took `value`: keep it if it
        is above vmin and redraw, otherwise put it back to `vmin + 1`. */
    method BoxVmaxChange(value: int)
      requires Valid() && rangeMin <= value <= rangeMax
      modifies this`vmax, this`redraws
      ensures Valid()
      ensures vmax == if value > vmin then value else vmin + 1
      ensures redraws == old(redraws) + 1
    {
      vmax := value;
      if value > vmin {
        redraws := redraws + 1;
      } else {
        vmax := vmin + 1;
        // the handler runs again with vmin + 1, which is above vmin, and redraws
        redraws := redraws + 1;
      }
    }
  }
}
