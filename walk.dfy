/** The update loop of Main.py, lines 44-59, as it runs: a position walks the live
    active list, and the list shrinks under it whenever a tracker fails. This is the
    definition the class method follows step by step; `WalkIsAdvanced` proves that
    it computes exactly the closed form `Advanced` of SessionSpec. */
module FrameWalk {
  import opened Lists
  import opened Objects
  import opened Commands
  import opened SessionSpec

  /** Every id of the active list names an entry of the history. */
  ghost predicate InRange(s: SessionView)
  {
    forall id :: id in s.active ==> 1 <= id <= |s.history|
  }

  /** Entry `j` of the history carries id `j + 1`. */
  ghost predicate Numbered(h: seq<ObjectView>)
  {
    forall j :: 0 <= j < |h| ==> h[j].id == j + 1
  }

  /** What the walk needs of a session: ids in range, in increasing order, naming
      entries whose flag is set. */
  ghost predicate Walkable(s: SessionView)
  {
    && InRange(s) && Increasing(s.active) && Numbered(s.history)
    && (forall id :: id in s.active ==> s.history[id - 1].active)
  }

  /** The session invariant provides it. */
  lemma InvWalkable(s: SessionView)
    requires Inv(s)
    ensures Walkable(s)
  {
    forall j | 0 <= j < |s.history|
      ensures s.history[j].id == j + 1
    {
      assert EntryOk(s.history[j], j, s.frameCount);
    }
    forall id | id in s.active
      ensures 1 <= id <= |s.history| && s.history[id - 1].active
    {
      var j :| 0 <= j < |s.active| && s.active[j] == id;
    }
  }

  /** One pass of the loop body at position `i`: the object there is skipped when
      its flag is clear; otherwise its tracker's reply either extends its trajectory,
      or clears its flag and removes the first occurrence of its id from the list. */
  function Visit(s: SessionView, i: nat, replies: nat -> Reply): (r: SessionView)
    requires InRange(s) && i < |s.active|
    ensures InRange(r) && |r.history| == |s.history| && r.frameCount == s.frameCount && r.objectId == s.objectId
    ensures |s.active| - 1 <= |r.active| <= |s.active|
    ensures r.active == s.active || r.active == RemoveFirst(s.active, s.active[i])
  {
    var id := s.active[i];
    assert id in s.active;
    var v := s.history[id - 1];
    if !v.active then s
    else match replies(id)
      case Found(_) => s.(history := s.history[id - 1 := Advance(v, replies(id), s.frameCount)])
      case Lost => s.(history := s.history[id - 1 := Advance(v, Lost, s.frameCount)], active := RemoveFirst(s.active, id))
  }

  /** The loop from position `i` on, in the frame `s.frameCount`: each pass works on
      the list as it now is and moves on to the next position. */
  function Walk(s: SessionView, i: nat, replies: nat -> Reply): (r: SessionView)
    requires InRange(s)
    ensures |r.history| == |s.history| && r.frameCount == s.frameCount && r.objectId == s.objectId
    decreases |s.active| - i
  {
    if i >= |s.active| then s else Walk(Visit(s, i, replies), i + 1, replies)
  }

  /** Advancing one more entry whose id is not yet consulted changes exactly that entry. */
  lemma UpdatedStep(h: seq<ObjectView>, c: set<nat>, id: nat, replies: nat -> Reply, frame: int)
    requires 1 <= id <= |h| && id !in c
    requires Numbered(h)
    ensures Updated(h, c + {id}, replies, frame) == Updated(h, c, replies, frame)[id - 1 := Advance(h[id - 1], replies(id), frame)]
  {
  }

  /** A pass at a position whose entry is still active applies its tracker's reply. */
  lemma VisitActive(st: SessionView, p: nat, replies: nat -> Reply)
    requires InRange(st) && p < |st.active| && 1 <= st.active[p] <= |st.history| && st.history[st.active[p] - 1].active
    ensures var id := st.active[p]; var h' := st.history[id - 1 := Advance(st.history[id - 1], replies(id), st.frameCount)];
      Visit(st, p, replies) == if replies(id).Found? then st.(history := h') else st.(history := h', active := RemoveFirst(st.active, id))
  {
  }

  /** The state the walk has reached after the first `q` entries of the original
      list: the kept ones among them, then the rest of the list untouched, and the
      history with every consulted entry among them advanced. */
  function Reached(s: SessionView, replies: nat -> Reply, q: nat): (r: SessionView)
    requires InRange(s) && q <= |s.active|
    ensures |r.history| == |s.history| && InRange(r)
  {
    var m := Consulted(s.active, replies);
    var keep := Kept(s.active, m, replies);
    var f := Filter(s.active[..q], keep[..q]);
    FilterWithin(s.active[..q], keep[..q]);
    assert forall id :: id in f + s.active[q..] ==> id in s.active by {
      forall id | id in f + s.active[q..]
        ensures id in s.active
      {
          if id in f {
          assert id in s.active[..q];
        } else {
          assert id in s.active[q..];
        }
      }
    }
    SessionView(s.frameCount + 1, s.objectId,
      Updated(s.history, ConsultedIds(s.active[..q], m[..q]), replies, s.frameCount + 1),
      f + s.active[q..])
  }

  /** The kept entries among the first `q`, and where the walk stands after them. */
  function Prefix(s: SessionView, replies: nat -> Reply, q: nat): (f: seq<nat>)
    requires q <= |s.active|
    ensures |f| <= q
  {
    var m := Consulted(s.active, replies);
    Filter(s.active[..q], Kept(s.active, m, replies)[..q])
  }

  /** At the walk's position stands the `q`-th entry of the original list; its
      history entry is untouched so far and still active. */
  lemma ReachedAt(s: SessionView, replies: nat -> Reply, q: nat)
    requires Walkable(s) && q < |s.active|
    ensures var st := Reached(s, replies, q); var id := s.active[q];
      && |Prefix(s, replies, q)| < |st.active| && st.active[|Prefix(s, replies, q)|] == id
      && 1 <= id <= |s.history| && st.history[id - 1] == s.history[id - 1] && s.history[id - 1].active
      && id !in ConsultedIds(s.active[..q], Consulted(s.active, replies)[..q])
  {
    var a := s.active;
    var m := Consulted(a, replies);
    assert a[q] in a;
    NotYetConsulted(a, m, q);
  }

  /** Consulting the entry at `q` advances exactly its history entry. */
  lemma ReachedHistoryStep(s: SessionView, replies: nat -> Reply, q: nat)
    requires Walkable(s) && q < |s.active| && Consulted(s.active, replies)[q]
    ensures var id := s.active[q];
      1 <= id <= |s.history| &&
      Reached(s, replies, q + 1).history
      == Reached(s, replies, q).history[id - 1 := Advance(s.history[id - 1], replies(id), s.frameCount + 1)]
  {
    var a := s.active;
    var m := Consulted(a, replies);
    ReachedAt(s, replies, q);
    ConsultedIdsStep(a, m, q);
    UpdatedStep(s.history, ConsultedIds(a[..q], m[..q]), a[q], replies, s.frameCount + 1);
  }

  /** An entry that is kept extends the kept prefix and leaves the reached list as it was. */
  lemma ReachedActiveKept(s: SessionView, replies: nat -> Reply, q: nat)
    requires q < |s.active| && Kept(s.active, Consulted(s.active, replies), replies)[q]
    ensures Prefix(s, replies, q + 1) == Prefix(s, replies, q) + [s.active[q]]
    ensures Prefix(s, replies, q + 1) + s.active[q + 1..] == Prefix(s, replies, q) + s.active[q..]
  {
    var a := s.active;
    var keep := Kept(a, Consulted(a, replies), replies);
    var p, p' := Prefix(s, replies, q), Prefix(s, replies, q + 1);
    assert p' == p + [a[q]] by {
      FilterStep(a, keep, q);
    }
    assert a[q..] == [a[q]] + a[q + 1..];
    assert p' + a[q + 1..] == p + ([a[q]] + a[q + 1..]);
  }

  /** The pass at the walk's position applies the reply for the `q`-th entry to the
      reached state: its history becomes the one reached after `q + 1` entries, and
      on a failure the id leaves the list. */
  lemma VisitReached(s: SessionView, replies: nat -> Reply, q: nat)
    requires Walkable(s) && q < |s.active| && Consulted(s.active, replies)[q]
    ensures var st := Reached(s, replies, q); var p := |Prefix(s, replies, q)|; var id := s.active[q];
      && p < |st.active| && id in st.active
      && Visit(st, p, replies)
         == if replies(id).Found? then st.(history := Reached(s, replies, q + 1).history)
            else st.(history := Reached(s, replies, q + 1).history, active := RemoveFirst(st.active, id))
  {
    ReachedAt(s, replies, q);
    VisitActive(Reached(s, replies, q), |Prefix(s, replies, q)|, replies);
    ReachedHistoryStep(s, replies, q);
  }

  /** A tracker that answers: one step of the walk reaches the state after `q + 1` entries. */
  lemma StepFound(s: SessionView, replies: nat -> Reply, q: nat)
    requires Walkable(s) && q < |s.active| && Consulted(s.active, replies)[q] && replies(s.active[q]).Found?
    ensures Walk(Reached(s, replies, q), |Prefix(s, replies, q)|, replies)
      == Walk(Reached(s, replies, q + 1), |Prefix(s, replies, q + 1)|, replies)
    ensures q + 1 < |s.active| ==> Consulted(s.active, replies)[q + 1]
  {
    if q + 1 < |s.active| {
      ConsultedRule(s.active, replies, q + 1);
    }
    VisitReached(s, replies, q);
    ReachedActiveKept(s, replies, q);
  }

  /** A tracker that fails: its id leaves the reached list at the walk's position,
      and the kept prefix does not grow. */
  lemma ReachedActiveLost(s: SessionView, replies: nat -> Reply, q: nat)
    requires Walkable(s) && q < |s.active| && Consulted(s.active, replies)[q] && replies(s.active[q]).Lost?
    ensures s.active[q] in Reached(s, replies, q).active
    ensures RemoveFirst(Reached(s, replies, q).active, s.active[q]) == Prefix(s, replies, q) + s.active[q + 1..]
    ensures Prefix(s, replies, q + 1) == Prefix(s, replies, q)
  {
    var a := s.active;
    var keep := Kept(a, Consulted(a, replies), replies);
    var f := Prefix(s, replies, q);
    var id := a[q];
    ReachedAt(s, replies, q);
    assert id !in f by {
      FilterWithin(a[..q], keep[..q]);
      forall x | x in a[..q]
        ensures x < id
      {
      }
    }
    assert (f + a[q..])[..|f|] == f;
    RemoveFirstAt(f + a[q..], id, |f|);
    assert (f + a[q..])[|f| + 1..] == a[q + 1..];
    FilterStep(a, keep, q);
  }

  /** A tracker that fails: one step of the walk drops its id and advances its entry. */
  lemma StepLost(s: SessionView, replies: nat -> Reply, q: nat)
    requires Walkable(s) && q < |s.active| && Consulted(s.active, replies)[q] && replies(s.active[q]).Lost?
    ensures var st' := Reached(s, replies, q + 1).(active := Prefix(s, replies, q) + s.active[q + 1..]);
      && InRange(st')
      && Walk(Reached(s, replies, q), |Prefix(s, replies, q)|, replies) == Walk(st', |Prefix(s, replies, q)| + 1, replies)
  {
    VisitReached(s, replies, q);
    ReachedActiveLost(s, replies, q);
  }

  /** After a failing tracker that was not the last entry, the walk stands at the
      reached state two entries on: the entry it passed over is kept and not consulted. */
  lemma LostThenSkip(s: SessionView, replies: nat -> Reply, q: nat)
    requires Walkable(s) && q + 1 < |s.active| && Consulted(s.active, replies)[q] && replies(s.active[q]).Lost?
    ensures Reached(s, replies, q + 1).(active := Prefix(s, replies, q) + s.active[q + 1..]) == Reached(s, replies, q + 2)
    ensures |Prefix(s, replies, q)| + 1 == |Prefix(s, replies, q + 2)|
    ensures q + 2 < |s.active| ==> Consulted(s.active, replies)[q + 2]
  {
    var a := s.active;
    var m := Consulted(a, replies);
    assert !m[q + 1] by {
      ConsultedRule(a, replies, q + 1);
    }
    assert Reached(s, replies, q + 2).history == Reached(s, replies, q + 1).history by {
      ConsultedIdsStep(a, m, q + 1);
    }
    assert Prefix(s, replies, q + 1) == Prefix(s, replies, q) by {
      FilterStep(a, Kept(a, m, replies), q);
    }
    ReachedActiveKept(s, replies, q + 1);
    if q + 2 < |a| {
      ConsultedRule(a, replies, q + 2);
    }
  }

  /** After a failing tracker in the last entry, the walk stands at the closed form. */
  lemma LostAtEnd(s: SessionView, replies: nat -> Reply, q: nat)
    requires Walkable(s) && q + 1 == |s.active| && Consulted(s.active, replies)[q] && replies(s.active[q]).Lost?
    ensures Reached(s, replies, q + 1).(active := Prefix(s, replies, q) + s.active[q + 1..]) == Advanced(s, replies)
  {
    var a := s.active;
    var m := Consulted(a, replies);
    var keep := Kept(a, m, replies);
    ReachedActiveLost(s, replies, q);
    assert a[..q + 1] == a && m[..q + 1] == m && keep[..q + 1] == keep;
    assert a[q + 1..] == [];
  }

  /** Past the last entry the reached state is the closed form, and the walk's
      position is past the end of the list. */
  lemma ReachedAll(s: SessionView, replies: nat -> Reply)
    requires InRange(s)
    ensures Reached(s, replies, |s.active|) == Advanced(s, replies)
    ensures |Prefix(s, replies, |s.active|)| == |Advanced(s, replies).active|
  {
    var a := s.active;
    var m := Consulted(a, replies);
    assert a[..|a|] == a && m[..|a|] == m && Kept(a, m, replies)[..|a|] == Kept(a, m, replies);
    assert a[|a|..] == [];
  }

  /** From the reached state at the position the walk is at, the walk ends in the
      closed form `Advanced`. */
  lemma {:induction false} WalkFrom(s: SessionView, replies: nat -> Reply, q: nat)
    requires Walkable(s) && q <= |s.active|
    requires q < |s.active| ==> Consulted(s.active, replies)[q]
    ensures Walk(Reached(s, replies, q), |Prefix(s, replies, q)|, replies) == Advanced(s, replies)
    decreases |s.active| - q, 1
  {
    if q == |s.active| {
      ReachedAll(s, replies);
    } else if replies(s.active[q]).Found? {
      StepFound(s, replies, q);
      WalkFrom(s, replies, q + 1);
    } else {
      WalkFromLost(s, replies, q);
    }
  }

  /** `WalkFrom` at an entry whose tracker fails: the walk goes on two entries later,
      or ends when it was the last one. */
  lemma {:induction false} WalkFromLost(s: SessionView, replies: nat -> Reply, q: nat)
    requires Walkable(s) && q < |s.active| && Consulted(s.active, replies)[q] && replies(s.active[q]).Lost?
    ensures Walk(Reached(s, replies, q), |Prefix(s, replies, q)|, replies) == Advanced(s, replies)
    decreases |s.active| - q, 0
  {
    StepLost(s, replies, q);
    if q + 1 < |s.active| {
      LostThenSkip(s, replies, q);
      WalkFrom(s, replies, q + 2);
    } else {
      LostAtEnd(s, replies, q);
    }
  }

  /** Before the first entry nothing is consulted or dropped: the reached state is
      the session in the next frame. */
  lemma WalkStart(s: SessionView, replies: nat -> Reply)
    requires Walkable(s)
    ensures Reached(s, replies, 0) == s.(frameCount := s.frameCount + 1)
    ensures Prefix(s, replies, 0) == []
  {
    var c := ConsultedIds(s.active[..0], Consulted(s.active, replies)[..0]);
    assert c == {};
    assert Updated(s.history, c, replies, s.frameCount + 1) == s.history;
    assert s.active[0..] == s.active;
  }

  /** The loop as written computes the closed form: walking the active list from
      position 0 in the next frame gives `Advanced`. */
  lemma WalkIsAdvanced(s: SessionView, replies: nat -> Reply)
    requires Inv(s)
    ensures InRange(s.(frameCount := s.frameCount + 1))
    ensures Walk(s.(frameCount := s.frameCount + 1), 0, replies) == Advanced(s, replies)
  {
    InvWalkable(s);
    WalkStart(s, replies);
    if 0 < |s.active| {
      ConsultedRule(s.active, replies, 0);
    }
    WalkFrom(s, replies, 0);
  }
}
