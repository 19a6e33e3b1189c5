# labelgui session core in Dafny

A model of the core of the bbo labelling GUI: the main window and the per-camera viewer
windows. People use the GUI to place 2-D points ("labels") for several cameras on the frames
of a recording. The model covers these parts of `labelgui/ui/main_window.py`:

- the grid of allowed frames and snapping a frame to it;
- the frame sync over MQTT;
- the two-cadence autosave counter;
- the current label and the label list;
- seeding the label store with the sketch's names;
- the guess a viewer draws where a label has no coordinate;
- the select and delete clicks.

It also covers the per-window state of `labelgui/ui/viewer_sub_window.py`:

- the registry of drawn items by kind;
- emphasis of the current label;
- the classification of a mouse click;
- the two intensity spin boxes.

Modules:

- `Labels` (labels.dfy) is the label store. A NaN coordinate pair is `None`.
- `Extremum` (extremum.dfy) is `np.argmin` over finite values and infinity. It returns the first minimum.
- `Frames` (frames.dfy) holds `np.arange`, the allowed grid, snapping, and next/previous frame.
- `Autosave` (autosave.dfy) holds `np.mod` and one autosave tick, plus lemmas about whole save cycles.
- `Guess` (guess.dfy) is the guess estimator. `Guess` is its specification and `GuessPosition` is the loop the program runs.
- `Selection` (selection.dfy) picks the label nearest a click.
- `Viewer` (viewer_sub_window.dfy) holds the plot-item registry, click classification, and the spin box range. It also holds the class `ViewerSubWindow`.
- `Session` (main_window.dfy) holds the class `MainWindow`: the session state with its frame, counter, store, labeler list, current label, MQTT client, and a log of outgoing events (publishes and saves).

## Model

| member | source | states |
|---|---|---|
| Labels.IndexOf | labelgui/ui/main_window.py:471 | the index returned holds the element, and no earlier index does (first occurrence) |
| Extremum.ArgMin | labelgui/ui/main_window.py:311 | the index returned is a minimum of the sequence and the first such position |
| Frames.ArangeSpec | labelgui/ui/main_window.py:64 | `np.arange` is empty exactly when stop <= start, starts at start, goes up by step, stays inside [start, stop), and its last element plus step reaches stop |
| Frames.GridMembers | labelgui/ui/main_window.py:64 | x is an allowed frame iff x = start + k*step for some k >= 0 and x < stop |
| Frames.Grid | labelgui/ui/main_window.py:64 | the allowed frames increase strictly, are non-empty iff min_frame < max_frame, and start at min_frame |
| Frames.Snap | labelgui/ui/main_window.py:310-311 | the result is an allowed frame, no allowed frame is nearer, and of two equally near frames the smaller is chosen |
| Frames.SnapFixesMembers | labelgui/ui/main_window.py:310-311 | an allowed frame snaps to itself |
| Frames.SnapIdempotent | labelgui/ui/main_window.py:310-311 | snapping a snapped frame changes nothing |
| Frames.NextFrameMonotone | labelgui/ui/main_window.py:568-571 | from an allowed frame x, snapping x + d_frame gives x + d_frame when that is below max_frame, else x |
| Frames.PreviousFrameMonotone | labelgui/ui/main_window.py:574-577 | from an allowed frame x, snapping x - d_frame gives x - d_frame when x > min_frame, else x |
| Autosave.NpMod | labelgui/ui/main_window.py:338 | the remainder is congruent to the dividend modulo the divisor, has the divisor's sign and is smaller than it in magnitude, which fixes its value; a zero divisor gives 0 |
| Autosave.Step | labelgui/ui/main_window.py:334-347 | disabled: nothing changes and nothing is saved; enabled: the counter goes up by one, and is reset to 0 exactly when the secondary save happens |
| Autosave.StepKeepsRange | labelgui/ui/main_window.py:337-347 | every tick keeps the counter at least 0 and below the magnitude of N1, and keeps it 0 when N1 is 0 |
| Autosave.StepBelowCadence | labelgui/ui/main_window.py:337-347 | below the secondary cadence, a tick only counts up and saves no secondary copy |
| Autosave.CounterIsRemainder | labelgui/ui/main_window.py:337-347 | after k enabled ticks from 0 with N1 > 0, the counter is k mod N1 |
| Autosave.SecondaryAtMultiples | labelgui/ui/main_window.py:342-347 | tick t (t >= 1) saves the secondary copy iff t is a multiple of N1 |
| Autosave.PrimaryAtMultiples | labelgui/ui/main_window.py:338-341 | when N1 is a multiple of N0, tick t saves the primary copy iff t is a multiple of N0 |
| Autosave.BothSavesAtCycleEnd | labelgui/ui/main_window.py:338-347 | when N1 is a multiple of N0, the tick that ends each secondary cycle also writes the primary copy |
| Autosave.ZeroCadenceSavesEveryTime | labelgui/ui/main_window.py:338-347 | with N0 = 0 every enabled tick writes the primary copy; with N1 = 0 every enabled tick writes the secondary copy and the counter stays 0 |
| Guess.FirstKeyed | labelgui/ui/main_window.py:401-404 | the offset found has its frame key present; when none is found, no offset's frame key is present |
| Guess.FirstKeyedAt | labelgui/ui/main_window.py:401-404 | the first offset whose key is present is the one found |
| Guess.PlaceholderIsInert | labelgui/ui/main_window.py:385-396 | `np.nanmean` of the all-NaN placeholder with two points is exactly their midpoint |
| Guess.NanMean | labelgui/ui/main_window.py:393-396 | the NaN-skipping mean is NaN exactly when no value is present |
| Guess.GuessPosition | labelgui/ui/main_window.py:385-404 | the two offset loops with their breaks compute exactly `Guess` |
| Guess.GuessSymmetric | labelgui/ui/main_window.py:388-397 | the first offset k (1 to 3) with both f-k and f+k set yields their midpoint |
| Guess.GuessFallback | labelgui/ui/main_window.py:399-404 | with no symmetric pair, the guess is the coordinate at the first present key among f-1, f+1, f-2, f+2, f-3, f+3, even an unset one |
| Guess.GuessNone | labelgui/ui/main_window.py:399-406 | with no symmetric pair and none of the six neighbours present, nothing is guessed |
| Guess.GuessFromNeighbours | labelgui/ui/main_window.py:385-406 | any guess is a symmetric midpoint or the coordinate of a set neighbour within three frames |
| Guess.ClearedNeighbourHidesFartherOne | labelgui/ui/main_window.py:399-406 | a present but cleared frame f-1 blocks the guess even though frame f+2 is set |
| Guess.PlotMark | labelgui/ui/main_window.py:372-409 | annotated iff the frame holds a coordinate for the camera; otherwise the guess when there is one; nothing is drawn iff there is neither |
| Selection.SqDist | labelgui/ui/main_window.py:449 | the squared distance is never negative |
| Selection.SelectNearest | labelgui/ui/main_window.py:441-453 | none iff the frame has no labels; otherwise the chosen label has a coordinate and is nearest, the first wins a tie, and a label without a coordinate is chosen only at position 0 when none has one |
| Session.SaveEvents | labelgui/ui/main_window.py:338-345 | a tick writes the primary copy iff it hits N0 and the secondary iff it hits N1, primary first |
| Session.SeededSpec | labelgui/ui/main_window.py:180-184 | seeding adds exactly the missing sketch names, each with no frames, and keeps every present label unchanged |
| Session.SeededIdempotent | labelgui/ui/main_window.py:180-184 | seeding a seeded store again changes nothing |
| Session.Enrolled | labelgui/ui/main_window.py:464-465 | afterwards the user is in the labeler list; it grows by one only when the user was new, and keeps the old list as a prefix |
| Session.EnrolledIndex | labelgui/ui/main_window.py:464-471 | a known user keeps their index; a new user gets the next index |
| Session.Unset | labelgui/ui/main_window.py:468-471 | camera cam is unset and stamped with the time and labeler index; the other cameras are unchanged |
| Session.AfterDelete | labelgui/ui/main_window.py:463-471 | only camera cam of the current label's entry at this frame changes; when that entry is missing the store is unchanged |
| Session.DeleteUnsets | labelgui/ui/main_window.py:463-471 | after a delete the entry is still there, but the camera holds no coordinate |
| Session.MainWindow.constructor | labelgui/ui/main_window.py:29-102 | the state after start-up: the configured grid, cadences, user, sketch and topic; frame restored and snapped or min_frame; store loaded and seeded; first row current, with its autosave tick; client present iff a topic is given and the broker accepts |
| Session.MainWindow.Start | labelgui/ui/main_window.py:80-102 | the same start-up sequence on a fresh window, in the program's order |
| Session.MainWindow.MqttConnect | labelgui/ui/main_window.py:126-137 | a client exists iff a sync topic is given and the connection succeeds |
| Session.MainWindow.MqttPublish | labelgui/ui/main_window.py:139-145 | with a client, the frame is published on the topic; a refused send drops the client |
| Session.MainWindow.MqttOnMessage | labelgui/ui/main_window.py:147-152 | only the sync topic moves the frame, to the snapped payload, and nothing is published back |
| Session.MainWindow.SetFrameIdx | labelgui/ui/main_window.py:313-327 | the frame becomes the snapped frame, stays on the grid, and is published when asked |
| Session.MainWindow.NextFrame | labelgui/ui/main_window.py:568-572 | the frame moves up by exactly d_frame, or stays at the last allowed frame, and is published |
| Session.MainWindow.PreviousFrame | labelgui/ui/main_window.py:574-578 | the frame moves down by exactly d_frame, or stays at min_frame, and is published |
| Session.MainWindow.TriggerAutosaveEvent | labelgui/ui/main_window.py:334-347 | the counter and the saves follow `Autosave.Step`, and the counter stays in range |
| Session.MainWindow.SelectRow | labelgui/ui/main_window.py:528-529 | the row's name becomes current, or no name for a row outside the list; `label_select` (lines 561-562) then runs one autosave tick, iff the current name changed |
| Session.MainWindow.SetCurrentLabel | labelgui/ui/main_window.py:490-502 | a name from the sketch is accepted and becomes current; any other name is refused and nothing changes |
| Session.MainWindow.LoadLabels | labelgui/ui/main_window.py:169-184 | a loaded file replaces the store and sets the loaded flag; then the store is seeded with the sketch names |
| Session.MainWindow.DeleteLabel | labelgui/ui/main_window.py:463-471 | the user is enrolled; the delete succeeds iff the entry exists; the store is `AfterDelete`; the stamped index names the user |
| Session.MainWindow.ViewerClick | labelgui/ui/main_window.py:435-477 | select makes the nearest label current (refused when the frame has none or the name is not in the sketch), with one autosave tick iff the current name changed; create and auto change nothing; delete is `DeleteLabel` |
| Viewer.ClassifyClick | labelgui/ui/viewer_sub_window.py:159-173 | left+Shift alone selects, left+Alt alone auto-labels, any other left click creates, right deletes, and other buttons give nothing |
| Viewer.ShiftWithControlCreates | labelgui/ui/viewer_sub_window.py:159-168 | the modifiers are compared exactly, so a Shift+Control left click creates |
| Viewer.IInfo | labelgui/ui/viewer_sub_window.py:200-202 | integer types have a range with min < max; floating types have none |
| Viewer.SpinRange | labelgui/ui/viewer_sub_window.py:199-206 | a range exists iff the element type's range fits a spin box's C int (8- and 16-bit types and int32) |
| Viewer.RestyleSpec | labelgui/ui/viewer_sub_window.py:185-195 | restyling changes at most one item's style; data, z values and all other items stay as they were |
| Viewer.EmphasizeSpec | labelgui/ui/viewer_sub_window.py:185-195 | one kind's pass: the new name gets the current-label style, the old one (when different) its own kind's style, and nothing else changes |
| Viewer.EmphasisEffect | labelgui/ui/viewer_sub_window.py:179-197 | over point and guess items: the new current gets the current-label style, the previous one its kind's style, and data/z/other items are unchanged |
| Viewer.Drawn | labelgui/ui/viewer_sub_window.py:117-123 | the item is at (x, y); an existing one keeps its style and z; a new one has its kind's style and z 10; nothing else changes |
| Viewer.ViewerSubWindow.constructor | labelgui/ui/viewer_sub_window.py:23-72 | no frame, no current label, one empty map per kind, and both boxes spanning the element type's range |
| Viewer.ViewerSubWindow.MouseClicked | labelgui/ui/viewer_sub_window.py:149-176 | a signal is emitted iff a frame is shown, the click is inside and the button is left or right; it carries the view position, frame, window index and action |
| Viewer.ViewerSubWindow.DrawLabel | labelgui/ui/viewer_sub_window.py:117-126 | the registry after `Drawn`, then the current-label emphasis when asked |
| Viewer.ViewerSubWindow.DrawLine | labelgui/ui/viewer_sub_window.py:128-132 | adds the line item only when the name has none yet |
| Viewer.ViewerSubWindow.ClearLabel | labelgui/ui/viewer_sub_window.py:225-228 | removes exactly the one item, and an absent name changes nothing |
| Viewer.ViewerSubWindow.ClearAllLabels | labelgui/ui/viewer_sub_window.py:230-233 | every kind has no items, and no label is current |
| Viewer.ViewerSubWindow.SetCurrentLabel | labelgui/ui/viewer_sub_window.py:179-197 | the loop gives the registry of `EmphasisEffect` and records the new name; no item is added or removed |
| Viewer.ViewerSubWindow.RestyleItem | labelgui/ui/viewer_sub_window.py:187-195 | one brush and size change, as `Restyle` |
| Viewer.ViewerSubWindow.SetIntensityRange | labelgui/ui/viewer_sub_window.py:199-206 | succeeds iff `SpinRange` exists: both boxes then span it, with vmin at the bottom and vmax at the top; otherwise nothing changes |
| Viewer.ViewerSubWindow.BoxVminChange | labelgui/ui/viewer_sub_window.py:208-212 | vmin stays below vmax: it keeps the new value when that is below vmax, else it becomes vmax - 1; either way one redraw |
| Viewer.ViewerSubWindow.BoxVmaxChange | labelgui/ui/viewer_sub_window.py:214-218 | vmax stays above vmin: it keeps the new value when that is above vmin, else it becomes vmin + 1; either way one redraw |

## Left out

- The label library (`label_lib`) is not part of this model:
  - A loaded file is a parameter of the start-up. `get_empty_labels` is an empty store.
  - `get_labels_from_frame` is the `frameLabels` parameter of `ViewerClick`, in the store's order.
  - `save` becomes a `SavedPrimary` or `SavedSecondary` event carrying the store written.
- File access and the `exit_status.npy` file are left out. The restored frame is the `lastFrame` parameter.
- The MQTT transport is left out: the broker accepting or refusing is a parameter. So is the thread that `loop_start` runs callbacks on; there is no concurrency in the model.
- The wall clock (`time.time()`) and the user are parameters.
- Frame numbers given as strings (`set_frame_idx` with a str, and the MQTT payload text) are not modelled; the integer is given directly.
- Several calls in the program do not match the definitions they call. The model follows the evident intent and leaves the failures out:
  - `redraw_frame(self.frame_idx)` (main_window.py:294 and 358) passes an argument that `redraw_frame` does not take (viewer_sub_window.py:74), so the call raises TypeError. As written, opening the viewers in `init_viewer` raises. Once the GUI is loaded, `set_frame_idx` raises inside `viewer_change_frame` before it reaches `mqtt_publish`. Session.MainWindow.SetFrameIdx, Session.MainWindow.NextFrame and Session.MainWindow.PreviousFrame model the intended order, snap then publish, without the viewer refresh.
  - `mouse_clicked_signal` carries five values (x, y, frame, window index, action; viewer_sub_window.py:12 and 175). The slot it is connected to is `viewer_click(cam_idx, x, y, action)` (main_window.py:435 and 537), which takes four, in another order. Session.MainWindow.ViewerClick models the intended call, with the window index as the camera.
- Rendering is not modelled: images, `redraw_frame`, zoom, the sketch dock, the controls dock texts, `viewer_plot_ref_labels`, and the error lines' geometry.
- Plot items are values in the registry, not shared Qt objects, so a removal from the scene and aliasing of items are not modelled.
- `viewer_plot_labels` draws through the viewer windows, and its wiring to `draw_label` has mismatched keywords (`guess=`). The model states what is drawn for one label and camera (`Guess.PlotMark`) and does not call the viewer windows.
- `label_select` updates the sketch and each viewer window. The model keeps only its autosave tick; the viewer side is `Viewer.ViewerSubWindow.SetCurrentLabel` on its own.
- In the shown code, the viewer window's `frame_idx` is never assigned after construction, so `MouseClicked` emits only once the frame is set from outside.
- The viewer's `connect_controls` is not called by the shown code. `BoxVminChange` and `BoxVmaxChange` model the handlers as if they were connected.
- `add_label` is an empty stub, so a create click changes nothing. The auto-label action is a stub as well.
- `keyPressEvent`, `closeEvent`, `save_labels_as`, `load_cfg`, `load_sketch` and `init_viewer` do file or widget work and are left out.
- Selection.SelectNearest compares squared distances instead of `np.linalg.norm`. Both have the same minima because the square root is monotone; the square root itself is not modelled.
- Session.MainWindow.constructor requires `dFrame > 0` and `min_frame < max_frame`. With `d_frame` = 0, `np.arange` at main_window.py:64 raises and start-up fails. With `min_frame >= max_frame` and a positive step, the grid is empty and every snap of a frame raises in `np.argmin`. A negative step also gives an empty grid when `min_frame <= max_frame`. With `min_frame > max_frame`, a negative step gives a non-empty decreasing grid, say `np.arange(10, 0, -2)` = 10, 8, 6, 4, 2. On that grid a tie snaps to the larger frame and `next_frame` moves down. None of these sessions is modelled.
- Session.MainWindow.constructor takes `dFrame` as an integer. The program does not pass `d_frame` through `int()` (main_window.py:61), unlike the frame bounds, so a fractional step would give `np.arange(..., dtype=int)` a different integer grid; that case is not modelled.
- Guess.PlotMark does not model the labeler lookup on the annotated branch (main_window.py:378). Before drawing a set point, the program looks up the entry's labeler index in `labeler_list`, only to write the labeler's name to the log. An index past the end of the list raises IndexError there; a negative one counts from the end. The model draws the point whatever the index, and no invariant ties stored labeler indices to the list's length.
- Logging (`logger.log`) is not modelled anywhere.
- Guess.PlotMark and Guess.GuessPosition require every entry of the label to have a coordinate slot for the camera (`CamCovered`). The guess block indexes `['coords'][cam_idx]` without a guard (main_window.py:375, 390, 392 and 403), so the program raises IndexError on a shorter entry; that error path is not modelled. The select case does guard the length (main_window.py:447), and `Selection.SelectNearest` models that guard.
- Session.MainWindow.constructor and Session.MainWindow.LoadLabels assume that the three per-camera arrays of every loaded entry have equal lengths (`ShapedStore`), as the label file format has them. With uneven arrays, a delete could clear `coords` and then raise at `point_times` (main_window.py:468-470), leaving a half-done edit; that case is not modelled.
- Viewer.ViewerSubWindow.constructor requires an element type whose range fits a spin box; for any other type `set_intensity_range` raises inside the program's constructor.
- The guess fallback takes the nearest neighbour whose frame key is present, even when that neighbour's coordinate is NaN; then nothing is drawn. So a cleared nearer neighbour hides a farther one that has a value, as `Guess.ClearedNeighbourHidesFartherOne` shows.
- Floating-point rounding in the midpoint and mean is not modelled; coordinates are reals.
- Integer widths are not modelled: counters and frame numbers are unbounded integers.
