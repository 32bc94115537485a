# Multi-object webcam tracker: session core in Dafny

`Main.py` is a webcam script. The user selects regions with 's', and each region gets a CSRT tracker and an id 1, 2, 3, .... Every frame the loop walks `active_trackers` and asks each object's tracker where the object went, except the object right after one whose tracker just failed (see below). A success appends the centre of the returned box to the object's positions. A failure deactivates the object and drops it from `active_trackers`. 'u' empties `active_trackers`. 'r' starts a video recording and 'x' stops it. 'q' stops the recording if one is running and then ends the loop. When the loop ends, one statistics row per object of `all_trackers` is computed: lifetime, path length and average speed.

This project models that core:

- `Objects.TrackedObject` is the per-object record. It is a class because the loop changes `positions`, `end_frame` and `active` in place.
- `TrackingSession.Session` holds the script's globals (`frame_count`, `object_id`, `recording`, the writer) and the two lists. Its methods change that state the way the loop does. Each method is proved against a value-level function.
- `SessionSpec` defines those value-level functions, with `SessionView` as the state:
  - `Added` for selecting a region;
  - `Cleared` for 'u';
  - `Advanced` for the tracker update;
  - `AfterKey`, `AfterFrame` and `AfterFrames` for keys and whole iterations.
  It also states the session invariant `Inv` and proves its preservation and the lifecycle facts.
- `FrameWalk` models the update loop of lines 44-59 as written: an index walk over a list that shrinks under it. It proves that this walk equals the closed form `SessionSpec.Advanced`.
- `Recording` is the recording state machine as values.
- `Runs` covers a whole run of iterations and the stopping rule for 'q'.
- `Statistics` is the post-session reduction. `CollectStatistics` is the loop over `all_trackers`, and pure functions give each row.

The tracker's answers and the pressed key are inputs. A `FrameInput` carries `replies`, a map from an object id to `Found(box)` or `Lost`, together with the key of that iteration. A selection carries its region, and (0, 0, 0, 0) means nothing was selected. The Euclidean norm is a parameter `norm`, applied to the difference between consecutive positions.

The core definitions, each characterised by the lemmas named beside it in the table below:

- `SessionSpec.Added` (lines 79-85): characterised by `AfterKeyKeepsInv`, `IdsFollowSelections` and `TrackingSession.Session.AddObject`.
- `SessionSpec.Cleared` (lines 88-89): characterised by `AfterKeyKeepsInv`, `FrozenForever` and `TrackingSession.Session.ClearActive`.
- `SessionSpec.Consulted` (lines 44-59): characterised by `ConsultedRule` and `SkipAfterLoss`.
- `SessionSpec.Advanced` (lines 41-59): characterised by `ConsultOutcome`, `AdvancedKeepsInv`, `UnlistedNotAdvanced` and `FrameWalk.WalkIsAdvanced`.
- `SessionSpec.AfterKey` (lines 75-89) and `SessionSpec.AfterFrame` (lines 41-110): characterised by `AfterFrameKeepsInv` and `FrozenForever`.
- `Recording.WriteFrame` (lines 62-63), `Recording.Start` (lines 92-96), `Recording.Stop` (lines 99-109) and `Recording.OnKey` (lines 92-110): characterised by `FrameKeepsConsistent` and `ReleasedOncePerStart`.
- `Statistics.Lifetime` (line 119) and `Statistics.RecordOf` (lines 119-139): characterised by `StatsOf`, `StatisticsOfSession` and `StraightStepsScenario`.

What the code does that a reader might not expect, and what the model does:

- **Removal during the update loop.** The loop removes from `active_trackers` while a `for` loop iterates over it, and it takes no snapshot (lines 44 and 59). Python's list iterator therefore passes over the object right after a lost one in that frame. `SessionSpec.Consulted` and `FrameWalk` model exactly this, and `SessionSpec.SkipAfterLoss` and `SessionSpec.LossSkipsNext` exhibit it.
- **Number of positions.** Because of that skip, an object's number of positions can be smaller than `end_frame - start_frame`. `SessionSpec.SkippedObjectMissesAPosition` gives an object with lifetime 2 and one position. Only `<=` is an invariant (`SessionSpec.EntryOk`).
- **Empty selection.** The add is skipped only when the region is exactly (0, 0, 0, 0) (line 79). A region of width or height zero at any other position still creates an object. `SessionSpec.Added` follows this.
- **Loss on the first update.** Line 58 does not touch `end_frame`. An object whose tracker fails on the first update therefore keeps `end_frame == start_frame`, and its lifetime is 0 (`SessionSpec.LostOnFirstUpdate`).
- **Camera stops while recording.** When the camera stops, the loop ends at lines 36-37, and the release of lines 106-108 does not run. A recording in progress at that point leaves its writer open and unreleased (`Runs.EndOfStreamLeavesWriterOpen`, `Recording.StreamEndsWhileRecording`).

## Model

| member | source | states |
|---|---|---|
| Geometry.Center | Main.py:49 | the centre is `(x + w // 2, y + h // 2)` with floor division: twice the offset from the corner is `w` or `w - 1`, and likewise for `h` |
| Lists.RemoveFirst | Main.py:59 | `list.remove` shortens the list by one and adds no element |
| Lists.RemoveFirstCount | Main.py:59 | `list.remove` drops exactly one occurrence of the element, as multisets |
| Objects.TrackedObject.constructor | Main.py:19-27 | a new object has the given region, id and start frame, no positions, `end_frame == start_frame`, and is active |
| SessionSpec.ConsultedRule | Main.py:44-59 | the loop consults the first active entry, and consults any other entry exactly when the entry before it was not both consulted and lost |
| SessionSpec.ConsultOutcome | Main.py:44-59 | for a consulted object, success appends the box centre and sets `end_frame` to the new frame count, and the object stays active and listed; failure only clears `active` and removes the object from the active list, leaving positions and `end_frame` as they were |
| SessionSpec.SkipAfterLoss | Main.py:44-59 | the entry right after a consulted, lost one is not consulted in that frame; its object is unchanged and stays in the active list |
| SessionSpec.AdvancedEntriesOk | Main.py:41-59 | after an update every history entry still has id `i + 1` and `0 <= start_frame <= end_frame <= frame_count`, with at most one position per frame since creation |
| SessionSpec.SurvivorActive | Main.py:44-59 | an entry the update keeps in the active list refers to an object whose flag is still set |
| SessionSpec.SurvivorInActive | Main.py:44-59 | every id in the active list after an update names a history object whose flag is set |
| SessionSpec.AdvancedSurvivorsActive | Main.py:44-59 | after an update every member of the active list is an object of `all_trackers` with `active == True` |
| SessionSpec.AdvancedKeepsInv | Main.py:41-59 | the frame update preserves the session invariant: dense ids, frame bounds, and an active list that is increasing and holds only active objects of the history |
| SessionSpec.AfterKeyKeepsInv | Main.py:75-89 | selecting a region and clearing preserve the session invariant |
| SessionSpec.AfterFrameKeepsInv | Main.py:41-110 | one iteration preserves the invariant, adds exactly 1 to `frame_count`, grows `all_trackers` by one object exactly when a region other than (0, 0, 0, 0) was selected, and changes no object's start frame |
| SessionSpec.AfterFramesKeepsInv | Main.py:34-110 | over any number of iterations the invariant holds, `frame_count` grows by their number, `all_trackers` grows by the number of real selections, and start frames never change |
| SessionSpec.IdsFollowSelections | Main.py:79-85 | from the initial state, `object_id` equals the number of selections other than (0, 0, 0, 0) and equals the length of `all_trackers`, and `all_trackers[i].id == i + 1` |
| SessionSpec.UnlistedNotAdvanced | Main.py:44-59 | an object that is not in the active list is left unchanged by the update and is not added back to the list |
| SessionSpec.UnlistedUnchanged | Main.py:41-89 | an object not in the active list is unchanged by a whole iteration and is not listed again |
| SessionSpec.FrozenForever | Main.py:44-89 | an object that is inactive, or that was dropped by 'u', is never updated again over any later run of iterations |
| SessionSpec.LossSkipsNext | Main.py:44-59 | with two objects, when the first is lost, the second is not consulted in that frame |
| SessionSpec.FoundAfterSkip | Main.py:46-51 | the skipped object, found in the next frame, gets one position and `end_frame` 2 |
| SessionSpec.SkippedObjectMissesAPosition | Main.py:44-59 | an object can end with lifetime 2 and only one position, so positions and lifetime need not agree |
| SessionSpec.LostOnFirstUpdate | Main.py:57-59 | an object created at frame 3 and lost on the next update has no positions, `end_frame == start_frame == 3`, is inactive, and is no longer listed |
| FrameWalk.Visit | Main.py:45-59 | one visit keeps the frame count, `object_id` and history length, and either leaves the active list as it is or removes the first occurrence of the visited id from it |
| FrameWalk.Walk | Main.py:44-59 | the index walk keeps the frame count, `object_id` and history length |
| FrameWalk.WalkIsAdvanced | Main.py:44-59 | the index walk that removes in place and then moves on equals the closed form `Advanced`: consulted entries are updated and lost ones filtered out |
| Recording.FrameKeepsConsistent | Main.py:62-110 | one iteration keeps the writer open exactly while recording. It writes a frame only while recording, opens a writer only on 'r' when idle, and releases only on 'x' or 'q' while recording; after 'q' the writer is closed |
| Recording.ReleasedOncePerStart | Main.py:92-110 | from the idle start, over any keys, releases never exceed starts and lag them by at most one |
| Recording.QuitClosesWriter | Main.py:104-110 | when the last key is 'q', the writer is not open |
| Recording.StreamEndsWhileRecording | Main.py:34-37 | 'r' and then one plain frame, after which the camera stops: the writer is still open, one frame is written, and nothing is released |
| Recording.RecordFiveFrames | Main.py:62-102 | 'r', four other keys, then 'x' twice: one writer opened and released, five frames written, and the second 'x' does nothing |
| Runs.RunLength | Main.py:34-110 | the loop handles a prefix of the iterations; no key before the last handled one is 'q', and when it stops early the last handled key is 'q' |
| Runs.RunFromIsPrefix | Main.py:34-110 | running until 'q' equals running exactly the first `RunLength` iterations |
| Runs.FoldIterate | Main.py:41-110 | running the iterations moves the tracking state and the recorder side by side |
| Runs.RunIsPrefix | Main.py:34-110 | from the start, a run leaves the session and the recorder as the first `RunLength` iterations do |
| Runs.EndOfStreamLeavesWriterOpen | Main.py:34-37 | a run with no 'q' handles every input, and if it is recording when the camera stops, the current writer is open and not released |
| Runs.SessionOutcome | Main.py:9-139 | a whole session has one statistics row per real selection, with ids 1, 2, 3, ...; releases lag starts by at most one, and a run ended by 'q' leaves the writer closed |
| Statistics.Steps | Main.py:121-122 | one distance per pair of consecutive positions, each non-negative for a non-negative norm |
| Statistics.Sum | Main.py:123 | a sum of non-negative distances is non-negative |
| Statistics.TotalDistance | Main.py:120-132 | the path length is non-negative, and 0 with fewer than two positions |
| Statistics.AverageSpeed | Main.py:133 | with a positive lifetime, speed times lifetime is the total distance; otherwise the speed is 0; it is non-negative when the distance is |
| Statistics.StatsOf | Main.py:117-139 | one row per object in `all_trackers` order, with that object's id, its total distance and its average speed over its lifetime |
| Statistics.Trajectories | Main.py:118-129 | an object's trajectory is plotted exactly when it has more than one position, and every plotted trajectory is the path of such an object |
| Statistics.TrajectoriesAreFiltered | Main.py:118-129 | the plotted trajectories are the objects' paths, filtered to those with more than one position, in `all_trackers` order |
| Statistics.CollectStatistics | Main.py:117-139 | the statistics loop over `all_trackers` returns exactly `StatsOf` and `Trajectories` of the objects' current values |
| Statistics.StatisticsOfSession | Main.py:117-139 | on any reachable session: as many rows as ids handed out, row `i` has id `i + 1`, lifetime >= 0, distance and speed >= 0, and speed 0 when the lifetime is 0 |
| Statistics.StraightStepsScenario | Main.py:119-133 | created at frame 10 and found at five points 10 pixels apart: lifetime 5, distance 40, speed 8 |
| TrackingSession.Session.constructor | Main.py:12-31 | the session starts at frame 0 with no id used, empty lists, and no recording |
| TrackingSession.Session.AddObject | Main.py:79-85 | a real selection appends one fresh object with the next id, the given region and the current frame to both lists; (0, 0, 0, 0) changes nothing; the state becomes `Added` of the old one |
| TrackingSession.Session.Append | Main.py:84-85 | the object goes to the end of both lists, and the lists stay linked |
| TrackingSession.Session.ClearActive | Main.py:88-89 | the active list becomes empty, and `all_trackers` and every object's fields are unchanged |
| TrackingSession.Session.UpdateAt | Main.py:45-59 | visiting index `i` updates that object in place or deactivates and removes it, as `FrameWalk.Visit` says |
| TrackingSession.Session.UpdateTrackers | Main.py:44-59 | the in-place loop over the active list changes the state as `FrameWalk.Walk` says |
| TrackingSession.Session.AdvanceFrame | Main.py:41-59 | the frame step changes the state to `Advanced` of the old state and keeps the invariant |
| TrackingSession.Session.Loop | Main.py:34-110 | the loop handles exactly `RunLength` iterations, ends in the state that running until 'q' gives, and keeps the invariant |
| TrackingSession.Session.Step | Main.py:34-110 | one pass of the loop: it reports 'q', and what is left of the run is one iteration shorter |
| TrackingSession.Session.WriteFrame | Main.py:62-63 | a frame is counted as written only while recording; tracking state is unchanged |
| TrackingSession.Session.StartRecording | Main.py:92-96 | 'r' opens a writer only when not recording |
| TrackingSession.Session.EndRecording | Main.py:99-109 | 'x' and 'q' release the writer only when recording |
| TrackingSession.Session.HandleKey | Main.py:75-110 | the key handlers change the state as `AfterKey` and `Recording.OnKey` say, keep the invariant, and report 'q' |
| TrackingSession.Session.ProcessFrame | Main.py:41-110 | one iteration updates the trackers, writes the frame, then handles the key, as `AfterFrame` says, keeping the invariant |
| TrackingSession.Run | Main.py:9-139 | the whole script processes `RunLength` iterations, and its statistics, trajectories and recorder are those of the first `RunLength` iterations from the initial state |

## Left out

- Camera I/O, resizing and mirroring (lines 10, 35-40, 113). The frames are not modelled. The end of the camera stream is the end of the input sequence.
- The CSRT tracker (lines 46, 81-82). Its answers are the input `replies`, a success with an integer box or a failure, keyed by object id.
- The `int(v)` conversion of the tracker's floating-point box (line 48). Boxes are integers from the start.
- Drawing, windows, `waitKey` and `selectROI` (lines 53-56, 64-78, 114). The key and the selected region are inputs.
- Video encoding (lines 93-94). The writer is reduced to whether it is open, plus counters of writers opened, writers released and frames written.
- `np.linalg.norm` (line 121). It is the parameter `norm`, assumed non-negative where a property needs it.
- Statistics.StatsOf: does not round distance and speed to two decimals (lines 137-138), because that is floating-point presentation; values are exact reals.
- Plotting, the DataFrame, CSV export and `print` (lines 96, 102, 109, 126-156): presentation and file I/O. `Trajectories` records which objects would be plotted and with which points.
- TrackingSession.Run: the source loops until the camera stops. The model takes a finite sequence of iterations, so an endless camera is not modelled.
