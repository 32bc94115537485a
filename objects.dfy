/** The per-object record of Main.py, lines 19-27: an object created by the source's
    constructor and then changed in place by the frame loop. */
module Objects {
  import opened Geometry
  import opened Lists

  /** A tracked region: its identity, the ROI it was selected with and the frame at
      which it was created never change; its trajectory, last successful frame and
      activity flag are updated in place. The tracker handle is not part of this
      model: the frame loop receives the tracker's answers as input. */
  class TrackedObject {
    const roi: Box
    const id: nat
    const startFrame: int
    var positions: seq<Point>
    var endFrame: int
    var active: bool

    /** A new object has no positions yet, has not moved past its start frame, and is active. */
    constructor (roi: Box, id: nat, startFrame: int)
      ensures this.roi == roi && this.id == id && this.startFrame == startFrame
      ensures positions == [] && endFrame == startFrame && active
    {
      this.roi := roi;
      this.id := id;
      this.startFrame := startFrame;
      positions := [];
      endFrame := startFrame;
      active := true;
    }
  }

  /** The value of a tracked object at one moment. */
  datatype ObjectView = ObjectView(id: nat, startFrame: int, endFrame: int, positions: seq<Point>, active: bool)

  function ViewOf(o: TrackedObject): (v: ObjectView)
    reads o
  {
    ObjectView(o.id, o.startFrame, o.endFrame, o.positions, o.active)
  }

  /** The values of a list of objects, element by element. */
  function Views(objs: seq<TrackedObject>): (vs: seq<ObjectView>)
    reads objs
    ensures |vs| == |objs|
    ensures forall k :: 0 <= k < |objs| ==> vs[k] == ViewOf(objs[k])
  {
    if objs == [] then [] else [ViewOf(objs[0])] + Views(objs[1..])
  }

  /** The ids of a list of objects. */
  function Ids(objs: seq<TrackedObject>): seq<nat>
  {
    seq(|objs|, k requires 0 <= k < |objs| => objs[k].id)
  }

  /** Every object of `active` is the object of `all` that carries its id; ids are
      constant, so this is a property of the two lists alone. */
  ghost predicate Linked(active: seq<TrackedObject>, all: seq<TrackedObject>)
  {
    forall j :: 0 <= j < |active| ==> 1 <= active[j].id <= |all| && active[j] == all[active[j].id - 1]
  }

  /** Appending an object with the next id to both lists keeps them linked. */
  lemma LinkedAppend(active: seq<TrackedObject>, all: seq<TrackedObject>, o: TrackedObject)
    requires Linked(active, all) && o.id == |all| + 1
    ensures Linked(active + [o], all + [o])
  {
    var active', all' := active + [o], all + [o];
    forall j | 0 <= j < |active'|
      ensures 1 <= active'[j].id <= |all'| && active'[j] == all'[active'[j].id - 1]
    {
      if j < |active| {
        assert active'[j] == active[j];
      }
    }
  }

  /** A list whose objects all come from a linked list is linked too. */
  lemma LinkedSublist(active: seq<TrackedObject>, active': seq<TrackedObject>, all: seq<TrackedObject>)
    requires Linked(active, all) && forall o :: o in active' ==> o in active
    ensures Linked(active', all)
  {
    forall j | 0 <= j < |active'|
      ensures 1 <= active'[j].id <= |all| && active'[j] == all[active'[j].id - 1]
    {
      assert active'[j] in active;
    }
  }

  /** Appending an object appends its value. */
  lemma ViewsAppend(objs: seq<TrackedObject>, o: TrackedObject)
    ensures Views(objs + [o]) == Views(objs) + [ViewOf(o)]
  {
  }

  /** On a linked list, equal ids mean the same object: removing an object removes
      its id from the ids. */
  lemma {:induction false} IdsRemoveFirst(objs: seq<TrackedObject>, all: seq<TrackedObject>, x: TrackedObject)
    requires Linked(objs, all) && x in objs
    ensures x.id in Ids(objs)
    ensures Ids(RemoveFirst(objs, x)) == RemoveFirst(Ids(objs), x.id)
    decreases |objs|
  {
    var ids := Ids(objs);
    assert ids[0] == objs[0].id;
    assert ids[1..] == Ids(objs[1..]);
    if objs[0] != x {
      assert objs[0].id != x.id by {
        var j :| 0 <= j < |objs| && objs[j] == x;
      }
      assert Ids(RemoveFirst(objs, x)) == [objs[0].id] + RemoveFirst(ids[1..], x.id) by {
        assert x in objs[1..] by {
          assert objs == [objs[0]] + objs[1..];
        }
        LinkedSublist(objs, objs[1..], all);
        IdsRemoveFirst(objs[1..], all, x);
        var r := RemoveFirst(objs[1..], x);
        assert Ids([objs[0]] + r) == [objs[0].id] + Ids(r);
      }
    }
  }

  /** The values of a list whose objects have the values of `vs`, except the one at
      position `k`. */
  lemma ViewsReplace(objs: seq<TrackedObject>, vs: seq<ObjectView>, k: nat)
    requires |vs| == |objs| && k < |objs|
    requires forall j :: 0 <= j < |objs| && j != k ==> ViewOf(objs[j]) == vs[j]
    ensures Views(objs) == vs[k := ViewOf(objs[k])]
  {
  }
}
