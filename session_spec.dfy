/** The tracking session of Main.py as values: the frame counter and `object_id`
    (lines 14-15), `all_trackers` as the history of object values and
    `active_trackers` as the ids of the objects it holds (lines 30-31), and what one
    iteration of the loop does to them (lines 41-59 and 75-89). The class in
    TrackingSession is proved to change its state exactly as these functions say. */
module SessionSpec {
  import opened Geometry
  import opened Lists
  import opened Objects
  import opened Commands

  datatype SessionView = SessionView(frameCount: int, objectId: nat, history: seq<ObjectView>, active: seq<nat>)

  /** Before the first frame: no frame counted, no id handed out, no object. */
  const Initial := SessionView(0, 0, [], [])

  /** Entry `i` of the history: id `i + 1`, created no later than it was last seen,
      last seen no later than the current frame, and at most one position per frame
      since creation. */
  ghost predicate EntryOk(v: ObjectView, i: int, frameCount: int)
  {
    v.id == i + 1 && 0 <= v.startFrame <= v.endFrame <= frameCount && |v.positions| <= v.endFrame - v.startFrame
  }

  /** The session invariant: ids are 1, 2, 3, ... in creation order and `object_id`
      is the last one; the active list names, in increasing id order, objects of the
      history whose flag is still set. */
  ghost predicate Inv(s: SessionView)
  {
    && 0 <= s.frameCount
    && s.objectId == |s.history|
    && (forall i :: 0 <= i < |s.history| ==> EntryOk(s.history[i], i, s.frameCount))
    && (forall j :: 0 <= j < |s.active| ==> 1 <= s.active[j] <= |s.history| && s.history[s.active[j] - 1].active)
    && Increasing(s.active)
  }

  /** Lines 79-85: a selection other than (0, 0, 0, 0) takes the next id and creates
      an object at the current frame, appended to both lists; (0, 0, 0, 0) changes
      nothing. */
  function Added(s: SessionView, roi: Box): SessionView
  {
    if roi == NoSelection then s
    else
      var id := s.objectId + 1;
      SessionView(s.frameCount, id, s.history + [ObjectView(id, s.frameCount, s.frameCount, [], true)], s.active + [id])
  }

  /** Lines 88-89: a new empty active list; nothing else changes. */
  function Cleared(s: SessionView): SessionView
  {
    s.(active := [])
  }

  /** Which entries of the active list the loop of lines 44-59 consults. The loop
      walks the list by position while removing from it, so the entry right after
      one whose tracker failed slides into the position just visited and is passed
      over in that frame. */
  function Consulted(ids: seq<nat>, replies: nat -> Reply): (m: seq<bool>)
    ensures |m| == |ids|
    decreases |ids|
  {
    if ids == [] then []
    else if replies(ids[0]).Lost? && |ids| > 1 then [true, false] + Consulted(ids[2..], replies)
    else [true] + Consulted(ids[1..], replies)
  }

  /** Which entries stay in the active list: all but the consulted ones whose tracker failed. */
  function Kept(ids: seq<nat>, m: seq<bool>, replies: nat -> Reply): (keep: seq<bool>)
    requires |m| == |ids|
    ensures |keep| == |ids|
  {
    seq(|ids|, k requires 0 <= k < |ids| => !(m[k] && replies(ids[k]).Lost?))
  }

  /** The ids of the consulted entries. */
  function ConsultedIds(ids: seq<nat>, m: seq<bool>): set<nat>
    requires |m| == |ids|
    decreases |ids|
  {
    if ids == [] then {}
    else ConsultedIds(ids[..|ids| - 1], m[..|ids| - 1]) + (if m[|ids| - 1] then {ids[|ids| - 1]} else {})
  }

  /** Lines 46-59 for one consulted object: on success the centre of the box is
      appended and the object was last seen in this frame; on failure it is no
      longer active. */
  function Advance(v: ObjectView, r: Reply, frame: int): ObjectView
  {
    match r
    case Found(box) => v.(positions := v.positions + [Center(box)], endFrame := frame)
    case Lost => v.(active := false)
  }

  /** The history after the frame update: the entries whose ids are in `c` advance. */
  function Updated(h: seq<ObjectView>, c: set<nat>, replies: nat -> Reply, frame: int): seq<ObjectView>
  {
    seq(|h|, i requires 0 <= i < |h| => if h[i].id in c then Advance(h[i], replies(h[i].id), frame) else h[i])
  }

  /** Lines 41-59: count the frame, then update every consulted object and drop the
      ones whose tracker failed from the active list. */
  function Advanced(s: SessionView, replies: nat -> Reply): SessionView
  {
    var m := Consulted(s.active, replies);
    SessionView(s.frameCount + 1, s.objectId,
      Updated(s.history, ConsultedIds(s.active, m), replies, s.frameCount + 1),
      Filter(s.active, Kept(s.active, m, replies)))
  }

  /** Lines 75-89: the tracking part of the key handlers. */
  function AfterKey(s: SessionView, key: Key): SessionView
  {
    match key
    case Select(roi) => Added(s, roi)
    case Unselect => Cleared(s)
    case _ => s
  }

  /** One iteration of the loop. */
  function AfterFrame(s: SessionView, input: FrameInput): SessionView
  {
    AfterKey(Advanced(s, input.replies), input.key)
  }

  /** A run of iterations. */
  function AfterFrames(s: SessionView, inputs: seq<FrameInput>): SessionView
    decreases |inputs|
  {
    if inputs == [] then s else AfterFrame(AfterFrames(s, inputs[..|inputs| - 1]), inputs[|inputs| - 1])
  }

  /** How many iterations selected a region other than (0, 0, 0, 0). */
  function Selections(inputs: seq<FrameInput>): nat
    decreases |inputs|
  {
    if inputs == [] then 0
    else
      var last := inputs[|inputs| - 1].key;
      Selections(inputs[..|inputs| - 1]) + (if last.Select? && last.roi != NoSelection then 1 else 0)
  }

  // ---------------------------------------------------------------------------
  // Which entries the update loop consults

  /** The first entry is always consulted, and each later one is consulted exactly
      when its predecessor was not both consulted and lost. */
  lemma {:induction false} ConsultedRule(ids: seq<nat>, replies: nat -> Reply, k: nat)
    requires k < |ids|
    ensures Consulted(ids, replies)[k] <==> (k == 0 || !(Consulted(ids, replies)[k - 1] && replies(ids[k - 1]).Lost?))
    decreases |ids|
  {
    var m := Consulted(ids, replies);
    if replies(ids[0]).Lost? && |ids| > 1 {
      var rest := Consulted(ids[2..], replies);
      assert m == [true, false] + rest;
      if k >= 3 {
        ConsultedRule(ids[2..], replies, k - 2);
        assert ids[2..][k - 3] == ids[k - 1];
      } else if k == 2 {
        ConsultedRule(ids[2..], replies, 0);
      }
    } else {
      var rest := Consulted(ids[1..], replies);
      assert m == [true] + rest;
      if k >= 2 {
        ConsultedRule(ids[1..], replies, k - 1);
        assert ids[1..][k - 2] == ids[k - 1];
      } else if k == 1 {
        ConsultedRule(ids[1..], replies, 0);
      }
    }
  }

  /** On a list without repeats, an id is among the consulted ids exactly when its
      entry is consulted, and only ids of the list are. */
  lemma {:induction false} ConsultedIdsAt(ids: seq<nat>, m: seq<bool>)
    requires |m| == |ids| && Increasing(ids)
    ensures forall x :: x in ConsultedIds(ids, m) ==> x in ids
    ensures forall k :: 0 <= k < |ids| ==> (ids[k] in ConsultedIds(ids, m) <==> m[k])
    decreases |ids|
  {
    if ids != [] {
      var n := |ids| - 1;
      ConsultedIdsAt(ids[..n], m[..n]);
      forall k | 0 <= k < |ids|
        ensures ids[k] in ConsultedIds(ids, m) <==> m[k]
      {
        if k < n {
          assert ids[..n][k] == ids[k];
          assert ids[k] < ids[n];
        } else {
          assert ids[n] !in ids[..n];
        }
      }
    }
  }

  /** On a list without repeats, an entry is not among the ids consulted before it. */
  lemma NotYetConsulted(ids: seq<nat>, m: seq<bool>, q: nat)
    requires |m| == |ids| && Increasing(ids) && q < |ids|
    ensures ids[q] !in ConsultedIds(ids[..q], m[..q])
  {
    ConsultedIdsAt(ids[..q], m[..q]);
  }

  /** Extending the prefix by one position adds that id when it is consulted. */
  lemma ConsultedIdsStep(ids: seq<nat>, m: seq<bool>, q: nat)
    requires |m| == |ids| && q < |ids|
    ensures ConsultedIds(ids[..q + 1], m[..q + 1]) == ConsultedIds(ids[..q], m[..q]) + (if m[q] then {ids[q]} else {})
  {
    assert ids[..q + 1][..q] == ids[..q];
    assert m[..q + 1][..q] == m[..q];
  }

  /** A consulted entry whose tracker answered: the object gains exactly the centre of
      the box and is last seen in the new frame, and stays active; one whose tracker
      failed becomes inactive and leaves the active list, its positions and last frame
      untouched. */
  lemma ConsultOutcome(s: SessionView, replies: nat -> Reply, k: nat)
    requires Inv(s) && k < |s.active| && Consulted(s.active, replies)[k]
    ensures var id := s.active[k]; var s' := Advanced(s, replies);
      && 1 <= id <= |s'.history|
      && (replies(id).Found? ==>
            s'.history[id - 1] == s.history[id - 1].(positions := s.history[id - 1].positions + [Center(replies(id).box)],
                                                    endFrame := s.frameCount + 1)
            && s'.history[id - 1].active && id in s'.active)
      && (replies(id).Lost? ==>
            s'.history[id - 1] == s.history[id - 1].(active := false) && id !in s'.active)
  {
    var id := s.active[k];
    var m := Consulted(s.active, replies);
    var keep := Kept(s.active, m, replies);
    var s' := Advanced(s, replies);
    assert s.history[id - 1].id == id by {
      assert EntryOk(s.history[id - 1], id - 1, s.frameCount);
    }
    assert s'.history[id - 1] == Advance(s.history[id - 1], replies(id), s.frameCount + 1) by {
      ConsultedIdsAt(s.active, m);
    }
    assert id in s'.active <==> replies(id).Found? by {
      FilterIncreasing(s.active, keep);
    }
  }

  /** The loop passes over the entry right after one whose tracker failed: in that
      frame its object is not consulted, keeps its value and stays in the active list. */
  lemma SkipAfterLoss(s: SessionView, replies: nat -> Reply, k: nat)
    requires Inv(s) && k + 1 < |s.active|
    requires Consulted(s.active, replies)[k] && replies(s.active[k]).Lost?
    ensures var next := s.active[k + 1]; var s' := Advanced(s, replies);
      && !Consulted(s.active, replies)[k + 1]
      && 1 <= next <= |s'.history|
      && s'.history[next - 1] == s.history[next - 1]
      && next in s'.active
  {
    var next := s.active[k + 1];
    var m := Consulted(s.active, replies);
    var keep := Kept(s.active, m, replies);
    ConsultedRule(s.active, replies, k + 1);
    assert !m[k + 1];
    var c := ConsultedIds(s.active, m);
    assert next !in c by {
      ConsultedIdsAt(s.active, m);
    }
    assert s.history[next - 1].id == next by { assert EntryOk(s.history[next - 1], next - 1, s.frameCount); }
    UpdatedUnchanged(s.history, c, replies, s.frameCount + 1, next - 1);
    assert next in Advanced(s, replies).active by {
      assert keep[k + 1];
      FilterIncreasing(s.active, keep);
    }
  }

  /** An entry whose id was not consulted keeps its value. */
  lemma UpdatedUnchanged(h: seq<ObjectView>, c: set<nat>, replies: nat -> Reply, frame: int, i: nat)
    requires i < |h| && h[i].id !in c
    ensures |Updated(h, c, replies, frame)| == |h| && Updated(h, c, replies, frame)[i] == h[i]
  {
  }

  // ---------------------------------------------------------------------------
  // The invariant

  /** After the frame update every history entry still satisfies `EntryOk`: a
      success adds one position and moves the last frame to the new frame. */
  lemma AdvancedEntriesOk(s: SessionView, replies: nat -> Reply)
    requires Inv(s)
    ensures var s' := Advanced(s, replies);
      |s'.history| == |s.history| && forall i :: 0 <= i < |s'.history| ==> EntryOk(s'.history[i], i, s'.frameCount)
  {
    var h' := Advanced(s, replies).history;
    forall i | 0 <= i < |h'|
      ensures EntryOk(h'[i], i, s.frameCount + 1)
    {
      assert EntryOk(s.history[i], i, s.frameCount);
    }
  }

  /** A survivor of the frame update was either passed over or found by its
      tracker, so its entry is still active. */
  lemma SurvivorActive(s: SessionView, replies: nat -> Reply, k: nat)
    requires Inv(s) && k < |s.active|
    requires Kept(s.active, Consulted(s.active, replies), replies)[k]
    ensures var id := s.active[k];
      1 <= id <= |s.history| && Advanced(s, replies).history[id - 1].active
  {
    var id := s.active[k];
    var m := Consulted(s.active, replies);
    ConsultedIdsAt(s.active, m);
    assert EntryOk(s.history[id - 1], id - 1, s.frameCount);
    assert s.history[id - 1].active;
    if id in ConsultedIds(s.active, m) {
      assert m[k];
      assert replies(id).Found?;
    }
  }

  /** An id in the active list after the frame update comes from a kept entry. */
  lemma SurvivorInActive(s: SessionView, replies: nat -> Reply, id: nat)
    requires Inv(s) && id in Advanced(s, replies).active
    ensures 1 <= id <= |s.history| && Advanced(s, replies).history[id - 1].active
  {
    var keep := Kept(s.active, Consulted(s.active, replies), replies);
    FilterSubset(s.active, keep, id);
    var k :| 0 <= k < |s.active| && keep[k] && s.active[k] == id;
    SurvivorActive(s, replies, k);
  }

  /** After the frame update the active list names only active entries. */
  lemma AdvancedSurvivorsActive(s: SessionView, replies: nat -> Reply)
    requires Inv(s)
    ensures var s' := Advanced(s, replies);
      forall j :: 0 <= j < |s'.active| ==> 1 <= s'.active[j] <= |s'.history| && s'.history[s'.active[j] - 1].active
  {
    var s' := Advanced(s, replies);
    forall j | 0 <= j < |s'.active|
      ensures 1 <= s'.active[j] <= |s'.history| && s'.history[s'.active[j] - 1].active
    {
      SurvivorInActive(s, replies, s'.active[j]);
    }
  }

  /** The frame update keeps the invariant. */
  lemma AdvancedKeepsInv(s: SessionView, replies: nat -> Reply)
    requires Inv(s)
    ensures Inv(Advanced(s, replies))
  {
    AdvancedEntriesOk(s, replies);
    AdvancedSurvivorsActive(s, replies);
    FilterIncreasing(s.active, Kept(s.active, Consulted(s.active, replies), replies));
  }

  /** Every key handler keeps the invariant. */
  lemma AfterKeyKeepsInv(s: SessionView, key: Key)
    requires Inv(s)
    ensures Inv(AfterKey(s, key))
  {
    if key.Select? && key.roi != NoSelection {
      var s' := Added(s, key.roi);
      forall j | 0 <= j < |s'.active|
        ensures 1 <= s'.active[j] <= |s'.history| && s'.history[s'.active[j] - 1].active
      {
        if j < |s.active| {
          assert s'.active[j] == s.active[j];
        }
      }
    }
  }

  /** One iteration keeps the invariant, counts one frame, adds one history entry
      exactly when a region other than (0, 0, 0, 0) was selected, and leaves the
      creation frames of the entries it had alone. */
  lemma AfterFrameKeepsInv(s: SessionView, input: FrameInput)
    requires Inv(s)
    ensures var s' := AfterFrame(s, input);
      && Inv(s')
      && s'.frameCount == s.frameCount + 1
      && |s'.history| == |s.history| + (if input.key.Select? && input.key.roi != NoSelection then 1 else 0)
      && forall i :: 0 <= i < |s.history| ==> s'.history[i].startFrame == s.history[i].startFrame
  {
    AdvancedKeepsInv(s, input.replies);
    AfterKeyKeepsInv(Advanced(s, input.replies), input.key);
  }

  /** Over any run of iterations the invariant holds; frames are counted one per
      iteration, the history only grows, and the entries it had keep their ids and
      creation frames. */
  lemma {:induction false} AfterFramesKeepsInv(s: SessionView, inputs: seq<FrameInput>)
    requires Inv(s)
    ensures var s' := AfterFrames(s, inputs);
      && Inv(s')
      && s'.frameCount == s.frameCount + |inputs|
      && |s'.history| == |s.history| + Selections(inputs)
      && forall i :: 0 <= i < |s.history| ==> s'.history[i].startFrame == s.history[i].startFrame
    decreases |inputs|
  {
    if inputs != [] {
      var n := |inputs| - 1;
      AfterFramesKeepsInv(s, inputs[..n]);
      AfterFrameKeepsInv(AfterFrames(s, inputs[..n]), inputs[n]);
    }
  }

  /** Whatever happens in between (clears, empty selections, tracker failures), the
      objects of a session are numbered 1, 2, 3, ... in the order of the selections
      other than (0, 0, 0, 0), and `object_id` is the number of such selections. */
  lemma IdsFollowSelections(inputs: seq<FrameInput>)
    ensures var s := AfterFrames(Initial, inputs);
      && s.frameCount == |inputs|
      && |s.history| == s.objectId == Selections(inputs)
      && forall i :: 0 <= i < |s.history| ==> s.history[i].id == i + 1
  {
    AfterFramesKeepsInv(Initial, inputs);
    var s := AfterFrames(Initial, inputs);
    forall i | 0 <= i < |s.history|
      ensures s.history[i].id == i + 1
    {
      assert EntryOk(s.history[i], i, s.frameCount);
    }
  }

  /** The frame update leaves an object that is not in the active list as it was. */
  lemma UnlistedNotAdvanced(s: SessionView, replies: nat -> Reply, i: nat)
    requires Inv(s) && i < |s.history| && i + 1 !in s.active
    ensures var a := Advanced(s, replies);
      i < |a.history| && a.history[i] == s.history[i] && i + 1 !in a.active
  {
    var m := Consulted(s.active, replies);
    assert EntryOk(s.history[i], i, s.frameCount);
    ConsultedIdsAt(s.active, m);
    FilterWithin(s.active, Kept(s.active, m, replies));
  }

  /** One iteration leaves an object that is not in the active list as it was, and
      out of the active list. */
  lemma UnlistedUnchanged(s: SessionView, input: FrameInput, i: nat)
    requires Inv(s) && i < |s.history| && i + 1 !in s.active
    ensures var s' := AfterFrame(s, input);
      i < |s'.history| && s'.history[i] == s.history[i] && i + 1 !in s'.active
  {
    UnlistedNotAdvanced(s, input.replies, i);
  }

  /** Deactivation is terminal and clearing is final: once an object has failed, or
      has been dropped from the active list, no later iteration changes its
      positions, its last frame or its flag, and it never returns to the active list. */
  lemma {:induction false} FrozenForever(s: SessionView, inputs: seq<FrameInput>, i: nat)
    requires Inv(s) && i < |s.history|
    requires !s.history[i].active || i + 1 !in s.active
    ensures var s' := AfterFrames(s, inputs);
      i < |s'.history| && s'.history[i] == s.history[i] && i + 1 !in s'.active
    decreases |inputs|
  {
    if !s.history[i].active {
      forall j | 0 <= j < |s.active|
        ensures s.active[j] != i + 1
      {
        assert s.history[s.active[j] - 1].active;
      }
    }
    if inputs != [] {
      var n := |inputs| - 1;
      FrozenForever(s, inputs[..n], i);
      AfterFramesKeepsInv(s, inputs[..n]);
      UnlistedUnchanged(AfterFrames(s, inputs[..n]), inputs[n], i);
    }
  }

  // ---------------------------------------------------------------------------
  // Concrete runs

  /** Two objects created in frame 0 whose first tracker fails in frame 1: the
      first object is deactivated and the second one is passed over, whatever its
      tracker would have answered. */
  lemma LossSkipsNext(roi: Box, replies: nat -> Reply)
    requires roi != NoSelection && replies(1).Lost?
    ensures Advanced(Added(Added(Initial, roi), roi), replies)
      == SessionView(1, 2, [ObjectView(1, 0, 0, [], false), ObjectView(2, 0, 0, [], true)], [2])
  {
    var h0 := [ObjectView(1, 0, 0, [], true), ObjectView(2, 0, 0, [], true)];
    assert Added(Added(Initial, roi), roi) == SessionView(0, 2, h0, [1, 2]);
    assert Updated(h0, {1}, replies, 1) == [ObjectView(1, 0, 0, [], false), h0[1]];
    var m := [true, false];
    assert Consulted([1, 2], replies) == m by {
      assert [1, 2][2..] == [];
    }
    assert ConsultedIds([1, 2], m) == {1} by {
      assert [1, 2][..1] == [1] && m[..1] == [true];
    }
    assert Filter([1, 2], Kept([1, 2], m, replies)) == [2] by {
      assert Kept([1, 2], m, replies) == [false, true];
      assert [1, 2][..1] == [1] && [false, true][..1] == [false];
    }
  }

  /** The second object of `LossSkipsNext`, found in frame 2: one position, last
      seen in frame 2. */
  lemma FoundAfterSkip(replies: nat -> Reply, box: Box)
    requires replies(2) == Found(box)
    ensures Advanced(SessionView(1, 2, [ObjectView(1, 0, 0, [], false), ObjectView(2, 0, 0, [], true)], [2]), replies).history[1]
      == ObjectView(2, 0, 2, [Center(box)], true)
  {
    assert Consulted([2], replies) == [true];
    assert ConsultedIds([2], [true]) == {2} by {
      assert [2][..0] == [] && [true][..0] == [];
    }
    assert [] + [Center(box)] == [Center(box)];
  }

  /** The two frames above: the second object has been alive for two frames but
      holds one position, so one position per frame since creation does not hold
      for the loop as written. */
  lemma SkippedObjectMissesAPosition(roi: Box, replies1: nat -> Reply, replies2: nat -> Reply, box: Box)
    requires roi != NoSelection && replies1(1).Lost? && replies2(2) == Found(box)
    ensures var s0 := Added(Added(Initial, roi), roi);
      var s1 := Advanced(s0, replies1);
      var s2 := Advanced(s1, replies2);
      && s1.history[1] == s0.history[1]
      && s2.history[1].endFrame - s2.history[1].startFrame == 2
      && |s2.history[1].positions| == 1
  {
    LossSkipsNext(roi, replies1);
    FoundAfterSkip(replies2, box);
  }

  /** An object created in frame 3 whose tracker fails on the very next update keeps
      no position and its last frame stays 3: it leaves the session with a lifetime
      of zero frames. */
  lemma LostOnFirstUpdate(roi: Box)
    requires roi != NoSelection
    ensures var s := Advanced(Added(SessionView(3, 0, [], []), roi), (id: nat) => Lost);
      && |s.history| == 1
      && s.history[0] == ObjectView(1, 3, 3, [], false)
      && s.active == []
  {
    var s0 := Added(SessionView(3, 0, [], []), roi);
    var r := (id: nat) => Lost;
    assert Consulted(s0.active, r) == [true];
    assert ConsultedIds(s0.active, [true]) == {1};
    assert Filter(s0.active, Kept(s0.active, [true], r)) == [];
  }
}
