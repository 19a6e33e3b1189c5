/** The session rules of the main window: the allowed-frame grid and the frame
    sync, the two-cadence autosave, the current label, and the edits the
    viewer clicks make to the label store. */
module Session {
  import opened Labels
  import Frames
  import Autosave
  import Selection
  import Viewer

  /** The only topic whose messages move the frame. */
  const SyncTopic: string := "bbo/sync/fr_idx"

  /** What the session does to the outside world, in order. */
  datatype Event =
    | Published(topic: string, frame: int)   // the frame index sent to the broker
    | SavedPrimary(file: LabelFile)          // labels.yml in the labels folder
    | SavedSecondary(file: LabelFile)        // labels.yml in its autosave folder

  /** The saves one autosave tick writes, primary first. */
  function SaveEvents(t: Autosave.Tick, file: LabelFile): (es: seq<Event>)
    ensures |es| <= 2
    ensures SavedPrimary(file) in es <==> t.primary
    ensures SavedSecondary(file) in es <==> t.secondary
    ensures t.primary && t.secondary ==> es == [SavedPrimary(file), SavedSecondary(file)]
    ensures forall e :: e in es ==> !e.Published?
  {
    (if t.primary then [SavedPrimary(file)] else []) + (if t.secondary then [SavedSecondary(file)] else [])
  }

  // ---------------------------------------------------------------------------
  // Seeding the store with the sketch's label names

  /** The store with every name of `names` added, in order, unless present. */
  function Seeded(base: LabelMap, names: seq<string>): LabelMap
    decreases |names|
  {
    if names == [] then base
    else Seeded(if names[0] in base then base else base[names[0] := map[]], names[1..])
  }

  /** Seeding adds exactly the missing names, each with no frames, and keeps
      every label already present as it was. */
  lemma {:induction false} SeededSpec(base: LabelMap, names: seq<string>)
    ensures Seeded(base, names).Keys == base.Keys + (set n | n in names)
    ensures forall n :: n in base ==> Seeded(base, names)[n] == base[n]
    ensures forall n :: n in Seeded(base, names) && n !in base ==> Seeded(base, names)[n] == map[]
    ensures ShapedStore(base) ==> ShapedStore(Seeded(base, names))
    decreases |names|
  {
    if names != [] {
      var next := if names[0] in base then base else base[names[0] := map[]];
      SeededSpec(next, names[1..]);
      assert (set n | n in names) == {names[0]} + (set n | n in names[1..]);
    }
  }

  /** Seeding twice with the same names changes nothing more. */
  lemma SeededIdempotent(base: LabelMap, names: seq<string>)
    ensures Seeded(Seeded(base, names), names) == Seeded(base, names)
  {
    var once := Seeded(base, names);
    SeededSpec(base, names);
    SeededSpec(once, names);
    assert Seeded(once, names).Keys == once.Keys;
  }

  // ---------------------------------------------------------------------------
  // The delete branch of a viewer click

  /** `labeler_list` after `user` was appended when absent. */
  function Enrolled(list: seq<string>, user: string): (r: seq<string>)
    ensures user in r
    ensures |r| == if user in list then |list| else |list| + 1
    ensures r[..|list|] == list
  {
    if user in list then list else list + [user]
  }

  /** Enrolling keeps a known user's index and gives a new one the next index. */
  lemma EnrolledIndex(list: seq<string>, user: string)
    ensures user in list ==> IndexOf(Enrolled(list, user), user) == IndexOf(list, user)
    ensures user !in list ==> IndexOf(Enrolled(list, user), user) == |list|
  {
    var r := Enrolled(list, user);
    var i := IndexOf(r, user);
    if user in list {
      var k := IndexOf(list, user);
      assert r[k] == user;
      assert i <= k;
      assert r[i] == list[i];
    }
  }

  /** The entry with camera `cam` unset and stamped with time `now` and labeler index `who`. */
  function Unset(p: LabelPoint, cam: nat, now: real, who: int): (q: LabelPoint)
    requires Shaped(p) && cam < |p.coords|
    ensures Shaped(q) && |q.coords| == |p.coords|
    ensures q.coords[cam].None? && q.pointTimes[cam] == now && q.labeler[cam] == who
    ensures forall c :: 0 <= c < |p.coords| && c != cam ==>
      q.coords[c] == p.coords[c] && q.pointTimes[c] == p.pointTimes[c] && q.labeler[c] == p.labeler[c]
  {
    LabelPoint(p.coords[cam := None], p.pointTimes[cam := now], p.labeler[cam := who])
  }

  /** The delete branch reaches its writes: the current label is in the store
      and has an entry at the frame with a camera `cam`. */
  predicate CanDelete(labels: LabelMap, name: Option<string>, frame: int, cam: nat)
  {
    name.Some? && name.value in labels && frame in labels[name.value]
    && cam < |labels[name.value][frame].coords|
  }

  /** The store after the delete branch: only camera `cam` of one entry changes. */
  function AfterDelete(labels: LabelMap, name: Option<string>, frame: int, cam: nat, now: real, who: int): (r: LabelMap)
    requires ShapedStore(labels)
    ensures ShapedStore(r)
    ensures r.Keys == labels.Keys
    ensures !CanDelete(labels, name, frame, cam) ==> r == labels
    ensures forall n :: n in labels && Some(n) != name ==> r[n] == labels[n]
    ensures CanDelete(labels, name, frame, cam) ==>
      (&& r[name.value].Keys == labels[name.value].Keys
       && (forall f :: f in labels[name.value] && f != frame ==> r[name.value][f] == labels[name.value][f])
       && r[name.value][frame] == Unset(labels[name.value][frame], cam, now, who))
  {
    if CanDelete(labels, name, frame, cam) then
      var d := labels[name.value];
      labels[name.value := d[frame := Unset(d[frame], cam, now, who)]]
    else labels
  }

  /** After a delete the camera shows no label, so the viewer's estimator
      returns to guessing for it. */
  lemma DeleteUnsets(labels: LabelMap, name: string, frame: int, cam: nat, now: real, who: int)
    requires ShapedStore(labels) && CanDelete(labels, Some(name), frame, cam)
    ensures !IsSet(AfterDelete(labels, Some(name), frame, cam, now, who)[name], frame, cam)
    ensures frame in AfterDelete(labels, Some(name), frame, cam, now, who)[name]
  {
  }

  // ---------------------------------------------------------------------------

  class MainWindow {
    const minFrame: int
    const maxFrame: int
    const dFrame: int
    /** `allowed_frames`: min_frame, min_frame + d_frame, ... below max_frame. */
    const allowedFrames: seq<int>
    const autoSave: bool
    const autoSaveN0: int
    const autoSaveN1: int
    const user: string
    /** The sketch's label names, in the order of the label list. */
    const sketchLabels: seq<string>
    /** The sync topic; `None` when the session was started without one. */
    const sync: Option<string>

    var frameIdx: int
    var autoSaveCounter: int
    var labels: LabelMap
    var labelerList: seq<string>
    /** The text of the label list's current item. */
    var currentLabel: Option<string>
    /** An MQTT client exists. */
    var connected: bool
    var labelsLoaded: bool
    var log: seq<Event>

    ghost predicate Valid()
      reads this
    {
      && dFrame > 0 && minFrame < maxFrame
      && allowedFrames == Frames.Grid(minFrame, maxFrame, dFrame)
      && |allowedFrames| > 0 && Frames.Increasing(allowedFrames)
      && frameIdx in allowedFrames
      && Autosave.CounterInRange(autoSaveCounter, autoSaveN1)
      && ShapedStore(labels)
      && (forall i, j :: 0 <= i < j < |sketchLabels| ==> sketchLabels[i] != sketchLabels[j])
      && (currentLabel.Some? ==> currentLabel.value in sketchLabels)
      && (connected ==> sync.Some?)
    }

    /** The start of a session: the frame restored from the last exit status
        (if any), the labels file loaded (if it exists), the sketch names
        seeded, the label list's first row made current, and a client made
        when a sync topic is given and the broker accepts. */
    constructor (minFrame: int, maxFrame: int, dFrame: int, autoSave: bool, n0: int, n1: int,
                 user: string, sketchLabels: seq<string>, sync: Option<string>,
                 lastFrame: Option<int>, loaded: Option<LabelFile>, brokerAccepts: bool)
      requires dFrame > 0 && minFrame < maxFrame
      requires forall i, j :: 0 <= i < j < |sketchLabels| ==> sketchLabels[i] != sketchLabels[j]
      requires loaded.Some? ==> ShapedStore(loaded.value.labels)
      ensures Valid()
      ensures this.minFrame == minFrame && this.maxFrame == maxFrame && this.dFrame == dFrame
      ensures allowedFrames == Frames.Grid(minFrame, maxFrame, dFrame)
      ensures this.autoSave == autoSave && autoSaveN0 == n0 && autoSaveN1 == n1
      ensures this.user == user && this.sketchLabels == sketchLabels && this.sync == sync
      ensures frameIdx == if lastFrame.Some? then Frames.Snap(allowedFrames, lastFrame.value) else minFrame
      ensures labels == Seeded(if loaded.Some? then loaded.value.labels else map[], sketchLabels)
      ensures labelerList == if loaded.Some? then loaded.value.labelerList else []
      ensures labelsLoaded == loaded.Some?
      ensures currentLabel == if |sketchLabels| > 0 then Some(sketchLabels[0]) else None
      ensures connected == (sync.Some? && brokerAccepts)
      ensures autoSaveCounter == if |sketchLabels| > 0 then Autosave.Step(autoSave, 0, n0, n1).counter else 0
      ensures log == if |sketchLabels| > 0 then SaveEvents(Autosave.Step(autoSave, 0, n0, n1), LabelFile(labels, labelerList))
        else []
    {
      this.minFrame := minFrame;
      this.maxFrame := maxFrame;
      this.dFrame := dFrame;
      allowedFrames := Frames.Grid(minFrame, maxFrame, dFrame);
      this.autoSave := autoSave;
      autoSaveN0 := n0;
      autoSaveN1 := n1;
      this.user := user;
      this.sketchLabels := sketchLabels;
      this.sync := sync;
      frameIdx := minFrame;
      autoSaveCounter := 0;
      labels := map[];
      labelerList := [];
      currentLabel := None;
      connected := false;
      labelsLoaded := false;
      log := [];
      new;
      Start(lastFrame, loaded, brokerAccepts);
    }

    /** The part of the start of a session that runs on the new window. */
    method Start(lastFrame: Option<int>, loaded: Option<LabelFile>, brokerAccepts: bool)
      requires Valid()
      requires frameIdx == minFrame && autoSaveCounter == 0 && labels == map[] && labelerList == []
      requires currentLabel.None? && !connected && !labelsLoaded && log == []
      requires loaded.Some? ==> ShapedStore(loaded.value.labels)
      modifies this
      ensures Valid()
      ensures frameIdx == if lastFrame.Some? then Frames.Snap(allowedFrames, lastFrame.value) else minFrame
      ensures labels == Seeded(if loaded.Some? then loaded.value.labels else map[], sketchLabels)
      ensures labelerList == if loaded.Some? then loaded.value.labelerList else []
      ensures labelsLoaded == loaded.Some?
      ensures currentLabel == if |sketchLabels| > 0 then Some(sketchLabels[0]) else None
      ensures connected == (sync.Some? && brokerAccepts)
      ensures autoSaveCounter == if |sketchLabels| > 0 then Autosave.Step(autoSave, 0, autoSaveN0, autoSaveN1).counter else 0
      ensures log == if |sketchLabels| > 0 then SaveEvents(Autosave.Step(autoSave, 0, autoSaveN0, autoSaveN1), LabelFile(labels, labelerList))
        else []
    {
      if lastFrame.Some? {
        SetFrameIdx(lastFrame.value, true, false);  // no client yet: nothing is published
      }
      LoadLabels(loaded);
      SelectRow(0);
      MqttConnect(brokerAccepts);
    }

    /** `mqtt_connect`: a client exists afterwards exactly when the session has
        a sync topic and the broker accepted the connection. */
    method MqttConnect(brokerAccepts: bool)
      requires Valid()
      modifies this`connected
      ensures Valid()
      ensures connected == (sync.Some? && brokerAccepts)
    {
      connected := sync.Some? && brokerAccepts;
    }

    /** `set_frame_idx`: the frame becomes the allowed frame nearest to `f`
        and, when `publish` is set, is sent if a client exists; a refused
        send drops the client. */
    method SetFrameIdx(f: int, publish: bool, refused: bool)
      requires Valid()
      modifies this`frameIdx, this`connected, this`log
      ensures Valid()
      ensures frameIdx == Frames.Snap(allowedFrames, f)
      ensures connected == (old(connected) && !(publish && refused))
      ensures log == if publish && old(connected) && !refused then old(log) + [Published(sync.value, frameIdx)]
        else old(log)
    {
      frameIdx := Frames.Snap(allowedFrames, f);
      assert Valid();
      if publish {
        MqttPublish(refused);
      }
    }

    /** `mqtt_publish`: with a client, send the frame on the sync topic. */
    method MqttPublish(refused: bool)
      requires Valid()
      modifies this`connected, this`log
      ensures Valid()
      ensures connected == (old(connected) && !refused)
      ensures log == if old(connected) && !refused then old(log) + [Published(sync.value, frameIdx)] else old(log)
    {
      if connected {
        if refused {
          connected := false;
        } else {
          log := log + [Published(sync.value, frameIdx)];
        }
      }
    }

    /** `mqtt_on_message` with the payload's integer: a sync message moves the
        frame without publishing it back; any other topic is ignored. */
    method MqttOnMessage(topic: string, payload: int)
      requires Valid()
      modifies this`frameIdx, this`connected, this`log
      ensures Valid()
      ensures frameIdx == if topic == SyncTopic then Frames.Snap(allowedFrames, payload) else old(frameIdx)
      ensures connected == old(connected) && log == old(log)
    {
      if topic == SyncTopic {
        SetFrameIdx(payload, false, false);
      }
    }

    /** `next_frame`: the following allowed frame, or the same one at the end of the grid. */
    method NextFrame(refused: bool)
      requires Valid()
      modifies this`frameIdx, this`connected, this`log
      ensures Valid()
      ensures frameIdx == if old(frameIdx) + dFrame < maxFrame then old(frameIdx) + dFrame else old(frameIdx)
      ensures frameIdx >= old(frameIdx)
      ensures connected == (old(connected) && !refused)
      ensures log == if old(connected) && !refused then old(log) + [Published(sync.value, frameIdx)] else old(log)
    {
      var target := Frames.Snap(allowedFrames, frameIdx + dFrame);
      Frames.NextFrameMonotone(minFrame, maxFrame, dFrame, frameIdx);
      Frames.SnapFixesMembers(allowedFrames, target);
      SetFrameIdx(target, true, refused);
    }

    /** `previous_frame`: the preceding allowed frame, or the same one at the start of the grid. */
    method PreviousFrame(refused: bool)
      requires Valid()
      modifies this`frameIdx, this`connected, this`log
      ensures Valid()
      ensures frameIdx == if old(frameIdx) > minFrame then old(frameIdx) - dFrame else old(frameIdx)
      ensures frameIdx <= old(frameIdx)
      ensures connected == (old(connected) && !refused)
      ensures log == if old(connected) && !refused then old(log) + [Published(sync.value, frameIdx)] else old(log)
    {
      var target := Frames.Snap(allowedFrames, frameIdx - dFrame);
      Frames.PreviousFrameMonotone(minFrame, maxFrame, dFrame, frameIdx);
      Frames.SnapFixesMembers(allowedFrames, target);
      SetFrameIdx(target, true, refused);
    }

    /** `trigger_autosave_event`: one tick of the two-cadence counter, saving
        the current labels on each cadence that the new count hits. */
    method TriggerAutosaveEvent()
      requires Valid()
      modifies this`autoSaveCounter, this`log
      ensures Valid()
      ensures var t := Autosave.Step(autoSave, old(autoSaveCounter), autoSaveN0, autoSaveN1);
        autoSaveCounter == t.counter && log == old(log) + SaveEvents(t, LabelFile(labels, labelerList))
    {
      ghost var t := Autosave.Step(autoSave, autoSaveCounter, autoSaveN0, autoSaveN1);
      Autosave.StepKeepsRange(autoSave, autoSaveCounter, autoSaveN0, autoSaveN1);
      if autoSave {
        autoSaveCounter := autoSaveCounter + 1;
        if Autosave.NpMod(autoSaveCounter, autoSaveN0) == 0 {
          log := log + [SavedPrimary(LabelFile(labels, labelerList))];
        }
        if Autosave.NpMod(autoSaveCounter, autoSaveN1) == 0 {
          log := log + [SavedSecondary(LabelFile(labels, labelerList))];
          autoSaveCounter := 0;
        }
      }
      assert log == old(log) + SaveEvents(t, LabelFile(labels, labelerList));
    }

    /** `list_labels.setCurrentRow(row)`: the row's name becomes current (a row
        outside the list leaves no current item); when the current item
        changes, `label_select` runs, whose effect on the session is one
        autosave tick. */
    method SelectRow(row: int)
      requires Valid()
      modifies this`currentLabel, this`autoSaveCounter, this`log
      ensures Valid()
      ensures currentLabel == if 0 <= row < |sketchLabels| then Some(sketchLabels[row]) else None
      ensures var t := Autosave.Step(autoSave, old(autoSaveCounter), autoSaveN0, autoSaveN1);
        if currentLabel != old(currentLabel) then
          autoSaveCounter == t.counter && log == old(log) + SaveEvents(t, LabelFile(labels, labelerList))
        else autoSaveCounter == old(autoSaveCounter) && log == old(log)
    {
      var item := if 0 <= row < |sketchLabels| then Some(sketchLabels[row]) else None;
      if item != currentLabel {
        currentLabel := item;
        TriggerAutosaveEvent();
      }
    }

    /** `set_current_label` with a name: a sketch name becomes current (with
        the autosave tick of a changed selection); any other name is refused
        and nothing changes. */
    method SetCurrentLabel(name: string) returns (ok: bool)
      requires Valid()
      modifies this`currentLabel, this`autoSaveCounter, this`log
      ensures Valid()
      ensures ok <==> name in sketchLabels
      ensures ok ==> currentLabel == Some(name)
      ensures !ok ==> currentLabel == old(currentLabel)
      ensures var t := Autosave.Step(autoSave, old(autoSaveCounter), autoSaveN0, autoSaveN1);
        if currentLabel != old(currentLabel) then
          autoSaveCounter == t.counter && log == old(log) + SaveEvents(t, LabelFile(labels, labelerList))
        else autoSaveCounter == old(autoSaveCounter) && log == old(log)
    {
      if name in sketchLabels {
        SelectRow(IndexOf(sketchLabels, name));
        ok := true;
      } else {
        ok := false;  // setCurrentRow is handed the string and raises
      }
    }

    /** `load_labels`: the loaded file, when there is one, replaces the store,
        and every sketch name the store lacks is added with no frames. */
    method LoadLabels(loaded: Option<LabelFile>)
      requires Valid()
      requires loaded.Some? ==> ShapedStore(loaded.value.labels)
      modifies this`labels, this`labelerList, this`labelsLoaded
      ensures Valid()
      ensures labels == Seeded(if loaded.Some? then loaded.value.labels else old(labels), sketchLabels)
      ensures labelerList == if loaded.Some? then loaded.value.labelerList else old(labelerList)
      ensures labelsLoaded == (loaded.Some? || old(labelsLoaded))
    {
      if loaded.Some? {
        labels := loaded.value.labels;
        labelerList := loaded.value.labelerList;
        labelsLoaded := true;
      }
      ghost var base := labels;
      var i := 0;
      while i < |sketchLabels|
        invariant 0 <= i <= |sketchLabels|
        invariant ShapedStore(labels)
        invariant labelerList == if loaded.Some? then loaded.value.labelerList else old(labelerList)
        invariant labelsLoaded == (loaded.Some? || old(labelsLoaded))
        invariant Seeded(labels, sketchLabels[i..]) == Seeded(base, sketchLabels)
      {
        var name := sketchLabels[i];
        assert sketchLabels[i..][1..] == sketchLabels[i + 1..];
        if name !in labels {
          labels := labels[name := map[]];
        }
        i := i + 1;
      }
    }

    /** The `'delete_label'` case of `viewer_click`: the user joins the labeler
        list if new, then, when the current name has an entry at this frame
        with camera `cam`, that camera's coordinate is cleared and stamped
        with `now` and the user's index. Otherwise the lookup raises and the
        store is as it was. */
    method DeleteLabel(cam: nat, now: real) returns (ok: bool)
      requires Valid()
      modifies this`labels, this`labelerList
      ensures Valid()
      ensures labelerList == Enrolled(old(labelerList), user)
      ensures ok == CanDelete(old(labels), currentLabel, frameIdx, cam)
      ensures labels == AfterDelete(old(labels), currentLabel, frameIdx, cam, now, IndexOf(labelerList, user))
      ensures ok ==> labelerList[labels[currentLabel.value][frameIdx].labeler[cam]] == user
    {
      if user !in labelerList {
        labelerList := labelerList + [user];
      }
      if currentLabel.None? || currentLabel.value !in labels {
        return false;
      }
      var d := labels[currentLabel.value];
      if frameIdx !in d || cam >= |d[frameIdx].coords| {
        return false;
      }
      var p := d[frameIdx];
      assert Shaped(p);
      var who := IndexOf(labelerList, user);
      p := p.(coords := p.coords[cam := None]);
      p := p.(pointTimes := p.pointTimes[cam := now]);
      p := p.(labeler := p.labeler[cam := who]);
      labels := labels[currentLabel.value := d[frameIdx := p]];
      ok := true;
    }

    /** `viewer_click`: a click's action, with `frameLabels` the current
        frame's labels in store order. Selecting makes the nearest name
        current (refused when the frame has no labels, or the name is not in
        the sketch); creating and auto-labelling change nothing; deleting is
        the soft delete above. */
    method ViewerClick(cam: nat, x: real, y: real, action: Viewer.Action, now: real,
                       frameLabels: seq<Selection.FrameLabel>) returns (ok: bool)
      requires Valid()
      modifies this`currentLabel, this`autoSaveCounter, this`log, this`labels, this`labelerList
      ensures Valid()
      ensures action == Viewer.CreateLabel || action == Viewer.AutoLabel ==>
        ok && currentLabel == old(currentLabel) && autoSaveCounter == old(autoSaveCounter) && log == old(log)
        && labels == old(labels) && labelerList == old(labelerList)
      ensures action == Viewer.SelectLabel ==>
        (var r := Selection.SelectNearest(frameLabels, cam, Labels.Point(x, y));
         && labels == old(labels) && labelerList == old(labelerList)
         && (ok <==> r.Some? && frameLabels[r.value].name in sketchLabels)
         && (ok ==> currentLabel == Some(frameLabels[r.value].name))
         && (!ok ==> currentLabel == old(currentLabel))
         && var t := Autosave.Step(autoSave, old(autoSaveCounter), autoSaveN0, autoSaveN1);
            if currentLabel != old(currentLabel) then
              autoSaveCounter == t.counter && log == old(log) + SaveEvents(t, LabelFile(labels, labelerList))
            else autoSaveCounter == old(autoSaveCounter) && log == old(log))
      ensures action == Viewer.DeleteLabel ==>
        && currentLabel == old(currentLabel) && autoSaveCounter == old(autoSaveCounter) && log == old(log)
        && labelerList == Enrolled(old(labelerList), user)
        && ok == CanDelete(old(labels), currentLabel, frameIdx, cam)
        && labels == AfterDelete(old(labels), currentLabel, frameIdx, cam, now, IndexOf(labelerList, user))
    {
      match action
      case SelectLabel =>
        var r := Selection.SelectNearest(frameLabels, cam, Labels.Point(x, y));
        if r.None? {
          ok := false;  // argmin of no distances raises
        } else {
          ok := SetCurrentLabel(frameLabels[r.value].name);
        }
      case CreateLabel =>
        ok := true;  // add_label does nothing yet
      case AutoLabel =>
        ok := true;
      case DeleteLabel =>
        ok := DeleteLabel(cam, now);
    }
  }
}
