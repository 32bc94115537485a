/** The state of Main.py's main loop as one object: the frame counter and
    `object_id` (lines 14-15), `active_trackers` and `all_trackers` (lines 30-31),
    which share their TrackedObject instances, and the recording flag and writer
    (lines 12-13). Each method is one part of a loop iteration and is proved to
    change the state as the functions of SessionSpec and Recording say. */
module TrackingSession {
  import opened Geometry
  import opened Lists
  import opened Objects
  import opened Commands
  import opened SessionSpec
  import opened FrameWalk
  import Recording
  import opened Statistics
  import opened Runs

  class Session {
    var frameCount: int
    var objectId: nat
    var active: seq<TrackedObject>
    var all: seq<TrackedObject>
    var recording: bool
    var writerOpen: bool
    var writerStarts: nat
    var writerReleases: nat
    var framesWritten: nat

    /** The tracking state as a value. */
    function View(): SessionView
      reads this, all
    {
      SessionView(frameCount, objectId, Views(all), Ids(active))
    }

    /** The recording state as a value. */
    function Rec(): Recording.Recorder
      reads this
    {
      Recording.Recorder(recording, writerOpen, writerStarts, writerReleases, framesWritten)
    }

    ghost predicate Valid()
      reads this, all
    {
      Inv(View()) && Linked(active, all) && Recording.Consistent(Rec())
    }

    /** Lines 12-15 and 30-31: nothing tracked, not recording. */
    constructor ()
      ensures Valid()
      ensures View() == Initial && Rec() == Recording.Idle && all == []
    {
      frameCount, objectId := 0, 0;
      active, all := [], [];
      recording, writerOpen := false, false;
      writerStarts, writerReleases, framesWritten := 0, 0, 0;
    }

    /** Lines 79-85: a selection other than (0, 0, 0, 0) creates a fresh object with
        the next id at the current frame and appends it to both lists. */
    method AddObject(roi: Box)
      requires Valid()
      modifies this
      ensures Valid()
      ensures View() == Added(old(View()), roi) && Rec() == old(Rec())
      ensures roi == NoSelection ==> all == old(all) && active == old(active)
      ensures roi != NoSelection ==>
        && all == old(all) + [all[|all| - 1]]
        && active == old(active) + [all[|all| - 1]]
        && fresh(all[|all| - 1]) && all[|all| - 1].roi == roi
    {
      if roi != NoSelection {
        ghost var s0 := View();
        objectId := objectId + 1;
        var tracked := new TrackedObject(roi, objectId, frameCount);
        Append(tracked);
        assert View() == Added(s0, roi);
        AfterKeyKeepsInv(s0, Select(roi));
      }
    }

    /** Both appends of line 85: the object goes to the end of `active_trackers` and
        of `all_trackers`; as its id is the next one, the lists stay linked. */
    method Append(o: TrackedObject)
      requires Linked(active, all) && o.id == |all| + 1
      modifies this
      ensures active == old(active) + [o] && all == old(all) + [o] && Linked(active, all)
      ensures View() == old(View()).(history := old(View()).history + [ViewOf(o)], active := old(View()).active + [o.id])
      ensures Rec() == old(Rec()) && frameCount == old(frameCount) && objectId == old(objectId)
    {
      LinkedAppend(active, all, o);
      ViewsAppend(all, o);
      assert Ids(active + [o]) == Ids(active) + [o.id];
      active := active + [o];
      all := all + [o];
    }

    /** Lines 88-89: `active_trackers` becomes a new empty list; `all_trackers` and
        every object, flags and positions included, stay as they were. */
    method ClearActive()
      requires Valid()
      modifies this
      ensures Valid()
      ensures View() == Cleared(old(View())) && Rec() == old(Rec())
      ensures active == [] && all == old(all)
      ensures forall o :: o in all ==> unchanged(o)
    {
      active := [];
      AfterKeyKeepsInv(old(View()), Unselect);
    }

    /** Lines 45-59, one pass of the loop body: the object at position `i` of
        `active_trackers` is left alone when its flag is clear; otherwise its
        tracker's reply either extends its trajectory by the centre of the box and
        makes the current frame its last, or clears its flag and removes it from the
        list. */
    method UpdateAt(i: nat, replies: nat -> Reply)
      requires i < |active| && Linked(active, all) && InRange(View())
      requires Numbered(Views(all))
      modifies this, active[i]
      ensures View() == Visit(old(View()), i, replies)
      ensures Linked(active, all) && all == old(all) && Rec() == old(Rec())
    {
      var obj := active[i];
      ghost var k := obj.id - 1;
      ghost var before := Views(all);
      ghost var s := SessionView(frameCount, objectId, before, Ids(active));
      assert 0 <= k < |all| && all[k] == obj && s.history[k] == ViewOf(obj);
      assert s.active[i] == obj.id;
      if obj.active {
        match replies(obj.id)
        case Found(box) =>
          assert Visit(s, i, replies) == s.(history := before[k := Advance(before[k], replies(obj.id), frameCount)]);
          obj.positions := obj.positions + [Center(box)];
          obj.endFrame := frameCount;
          assert ViewOf(obj) == Advance(before[k], replies(obj.id), frameCount);
        case Lost =>
          assert Visit(s, i, replies) == s.(history := before[k := Advance(before[k], Lost, frameCount)], active := Ids(RemoveFirst(active, obj))) by {
            IdsRemoveFirst(active, all, obj);
          }
          LinkedSublist(active, RemoveFirst(active, obj), all);
          obj.active := false;
          active := RemoveFirst(active, obj);
          assert ViewOf(obj) == Advance(before[k], Lost, frameCount);
      } else {
        assert Visit(s, i, replies) == s;
      }
      forall j | 0 <= j < |all| && j != k
        ensures ViewOf(all[j]) == before[j]
      {
        assert all[j] != obj;
      }
      ViewsReplace(all, before, k);
    }

    /** Lines 44-59: walk `active_trackers` by position, one pass of the body per
        position of the list as it is at that moment, so the whole loop is `Walk`
        from position 0. */
    method UpdateTrackers(replies: nat -> Reply)
      requires Linked(active, all) && InRange(View())
      requires Numbered(Views(all))
      modifies this, all
      ensures View() == Walk(old(View()), 0, replies)
      ensures Linked(active, all) && all == old(all) && Rec() == old(Rec())
    {
      ghost var target := Walk(View(), 0, replies);
      var i := 0;
      while i < |active|
        invariant all == old(all) && Rec() == old(Rec()) && Linked(active, all) && InRange(View()) && Walk(View(), i, replies) == target
        decreases |active| - i
      {
        UpdateAt(i, replies);
        i := i + 1;
      }
    }

    /** Lines 41-59: count the frame, then update the trackers. */
    method AdvanceFrame(replies: nat -> Reply)
      requires Valid()
      modifies this, all
      ensures Valid()
      ensures View() == Advanced(old(View()), replies) && Rec() == old(Rec())
      ensures all == old(all)
    {
      ghost var s0 := View();
      WalkIsAdvanced(s0, replies);
      InvWalkable(s0);
      frameCount := frameCount + 1;
      assert View() == s0.(frameCount := s0.frameCount + 1);
      UpdateTrackers(replies);
      AdvancedKeepsInv(s0, replies);
    }

    /** The tracking state and the recorder as one value. */
    function State(): Machine
      reads this, all
    {
      Machine(View(), Rec())
    }

    /** Lines 34-110: iterations until the camera has no more frames (lines 35-37)
        or until the one in which 'q' was pressed (line 110), which still runs in
        full. */
    method Loop(inputs: seq<FrameInput>) returns (processed: nat)
      requires Valid()
      modifies this, all
      ensures Valid()
      ensures processed == RunLength(inputs) && State() == RunFrom(Iterate, old(State()), inputs)
      ensures fresh(set o | o in all && o !in old(all))
    {
      ghost var target := RunFrom(Iterate, State(), inputs);
      processed := 0;
      while processed < |inputs|
        invariant && processed <= |inputs| && Valid()
                  && fresh(set o | o in all && o !in old(all))
                  && RunFrom(Iterate, State(), inputs[processed..]) == target
                  && processed + RunLength(inputs[processed..]) == RunLength(inputs)
        decreases |inputs| - processed
      {
        var quit := Step(inputs, processed, target);
        processed := processed + 1;
        if quit {
          break;
        }
      }
    }

    /** One iteration of `Loop`, stated on what is left of the run. */
    method Step(inputs: seq<FrameInput>, processed: nat, ghost target: Machine) returns (quit: bool)
      requires Valid() && processed < |inputs| && RunFrom(Iterate, State(), inputs[processed..]) == target
      modifies this, all
      ensures Valid() && (quit <==> inputs[processed].key.Quit?)
      ensures quit ==> State() == target && RunLength(inputs[processed..]) == 1
      ensures !quit ==>
        RunFrom(Iterate, State(), inputs[processed + 1..]) == target && RunLength(inputs[processed..]) == 1 + RunLength(inputs[processed + 1..])
      ensures fresh(set o | o in all && o !in old(all))
    {
      assert inputs[processed..][0] == inputs[processed] && inputs[processed..][1..] == inputs[processed + 1..];
      quit := ProcessFrame(inputs[processed]);
    }

    /** Lines 62-63: the frame goes to the writer only while recording. */
    method WriteFrame()
      modifies this
      ensures Rec() == Recording.WriteFrame(old(Rec()))
      ensures frameCount == old(frameCount) && objectId == old(objectId) && active == old(active) && all == old(all)
    {
      if recording {
        framesWritten := framesWritten + 1;
      }
    }

    /** Lines 92-96: 'r' opens a new writer and sets the flag, unless already recording. */
    method StartRecording()
      modifies this
      ensures Rec() == Recording.Start(old(Rec()))
      ensures frameCount == old(frameCount) && objectId == old(objectId) && active == old(active) && all == old(all)
    {
      if !recording {
        writerOpen, writerStarts := true, writerStarts + 1;
        recording := true;
      }
    }

    /** Lines 99-102 ('x') and 106-109 ('q'): clear the flag and release the
        writer, only while recording. */
    method EndRecording()
      modifies this
      ensures Rec() == Recording.Stop(old(Rec()))
      ensures frameCount == old(frameCount) && objectId == old(objectId) && active == old(active) && all == old(all)
    {
      if recording {
        recording := false;
        writerOpen, writerReleases := false, writerReleases + 1;
      }
    }

    /** Lines 75-110: the handler of the key pressed; `quit` reports the 'q' that
        ends the loop (line 110). */
    method HandleKey(key: Key) returns (quit: bool)
      requires Valid()
      modifies this
      ensures Valid()
      ensures View() == AfterKey(old(View()), key) && Rec() == Recording.OnKey(old(Rec()), key)
      ensures quit <==> key.Quit?
      ensures fresh(set o | o in all && o !in old(all))
    {
      quit := key.Quit?;
      match key
      case Select(roi) =>
        AddObject(roi);
      case Unselect =>
        ClearActive();
      case Record =>
        StartRecording();
      case StopRecording =>
        EndRecording();
      case Quit =>
        EndRecording();
      case Other =>
    }

    /** Lines 41-110, one iteration of the loop after a successful camera read: the
        frame update, the write, then the key. */
    method ProcessFrame(input: FrameInput) returns (quit: bool)
      requires Valid()
      modifies this, all
      ensures Valid()
      ensures View() == SessionSpec.AfterFrame(old(View()), input)
      ensures Rec() == Recording.AfterFrame(old(Rec()), input.key)
      ensures quit <==> input.key.Quit?
      ensures fresh(set o | o in all && o !in old(all))
    {
      ghost var r0 := Rec();
      AdvanceFrame(input.replies);
      ghost var v1 := View();
      WriteFrame();
      assert View() == v1;
      assert Recording.Consistent(Rec()) by {
        assert Rec() == Recording.WriteFrame(r0);
      }
      assert all == old(all);
      quit := HandleKey(input.key);
    }
  }

  /** Lines 9-139, a whole session on the given iterations: the loop runs the
      first `RunLength(inputs)` of them, then the statistics and trajectories are
      taken over `all_trackers`; `rec` is the recorder's final state.
      `SessionOutcome` states what these results then satisfy. */
  method Run(inputs: seq<FrameInput>, norm: (int, int) -> real)
    returns (processed: nat, rec: Recording.Recorder, stats: seq<StatRecord>, plots: seq<Trajectory>)
    ensures processed == RunLength(inputs)
    ensures var s := AfterFrames(Initial, inputs[..processed]);
      stats == StatsOf(s.history, norm) && plots == Trajectories(s.history)
    ensures rec == Recording.AfterFrames(Recording.Idle, Keys(inputs[..processed]))
  {
    var session := new Session();
    processed := session.Loop(inputs);
    RunIsPrefix(inputs);
    rec := session.Rec();
    stats, plots := CollectStatistics(session.all, norm);
  }
}
