/** The post-session statistics of Main.py, lines 117-139: for every object of
    `all_trackers`, in order, its lifetime, the length of its path and its average
    speed, and the trajectories that get plotted. The Euclidean norm is a parameter
    `norm`, applied to the difference of two consecutive positions as the source
    applies it; the rounding to two decimals is not modelled. */
module Statistics {
  import opened Geometry
  import opened Objects
  import opened SessionSpec
  import opened Lists

  /** One row of the statistics table. */
  datatype StatRecord = StatRecord(id: nat, totalDistance: real, averageSpeed: real)

  /** One plotted path: the object's id and its positions, first to last. */
  datatype Trajectory = Trajectory(id: nat, points: seq<Point>)

  /** What every norm satisfies, and all the model assumes of `norm`. */
  ghost predicate NonNegative(norm: (int, int) -> real)
  {
    forall dx, dy :: norm(dx, dy) >= 0.0
  }

  /** Line 119: frames between creation and the last successful update. */
  function Lifetime(v: ObjectView): int
  {
    v.endFrame - v.startFrame
  }

  /** Lines 121-122: the length of each step between consecutive positions. */
  function Steps(ps: seq<Point>, norm: (int, int) -> real): (d: seq<real>)
    requires |ps| > 0
    ensures |d| == |ps| - 1
    ensures NonNegative(norm) ==> forall i :: 0 <= i < |d| ==> d[i] >= 0.0
  {
    seq(|ps| - 1, i requires 0 <= i < |ps| - 1 => norm(ps[i + 1].x - ps[i].x, ps[i + 1].y - ps[i].y))
  }

  /** Python's `sum`, adding from the left. */
  function Sum(xs: seq<real>): (r: real)
    ensures (forall i :: 0 <= i < |xs| ==> xs[i] >= 0.0) ==> r >= 0.0
    decreases |xs|
  {
    if xs == [] then 0.0 else Sum(xs[..|xs| - 1]) + xs[|xs| - 1]
  }

  /** Lines 120-123 and 131-132: the path length when there are at least two
      positions, zero otherwise. */
  function TotalDistance(ps: seq<Point>, norm: (int, int) -> real): (d: real)
    ensures NonNegative(norm) ==> d >= 0.0
    ensures |ps| <= 1 ==> d == 0.0
  {
    if |ps| > 1 then Sum(Steps(ps, norm)) else 0.0
  }

  /** Line 133: distance per frame of lifetime, zero for a lifetime that is not positive. */
  function AverageSpeed(total: real, lifetime: int): (r: real)
    ensures lifetime > 0 ==> r * lifetime as real == total
    ensures lifetime <= 0 ==> r == 0.0
    ensures total >= 0.0 ==> r >= 0.0
  {
    if lifetime > 0 then total / lifetime as real else 0.0
  }

  /** Lines 119-139 for one object. */
  function RecordOf(v: ObjectView, norm: (int, int) -> real): StatRecord
  {
    var total := TotalDistance(v.positions, norm);
    StatRecord(v.id, total, AverageSpeed(total, Lifetime(v)))
  }

  /** Lines 117-139: one record per object, in history order, carrying its id. */
  function StatsOf(h: seq<ObjectView>, norm: (int, int) -> real): (r: seq<StatRecord>)
    ensures |r| == |h|
    ensures forall i :: 0 <= i < |h| ==>
      && r[i].id == h[i].id
      && r[i].totalDistance == TotalDistance(h[i].positions, norm)
      && r[i].averageSpeed == AverageSpeed(r[i].totalDistance, Lifetime(h[i]))
    decreases |h|
  {
    if h == [] then [] else StatsOf(h[..|h| - 1], norm) + [RecordOf(h[|h| - 1], norm)]
  }

  /** Lines 120 and 126-129: a trajectory for exactly the objects with more than one
      position, in history order. */
  function Trajectories(h: seq<ObjectView>): (r: seq<Trajectory>)
    ensures |r| <= |h|
    ensures forall t :: t in r ==> |t.points| > 1
    ensures forall i :: 0 <= i < |h| ==> (Trajectory(h[i].id, h[i].positions) in r <==> |h[i].positions| > 1)
    ensures forall t :: t in r ==> exists i :: 0 <= i < |h| && |h[i].positions| > 1 && t == Trajectory(h[i].id, h[i].positions)
    decreases |h|
  {
    if h == [] then []
    else
      var n := |h| - 1;
      var last := h[n];
      var r := Trajectories(h[..n]) + (if |last.positions| > 1 then [Trajectory(last.id, last.positions)] else []);
      assert forall t :: t in r ==> exists i :: 0 <= i < |h| && |h[i].positions| > 1 && t == Trajectory(h[i].id, h[i].positions) by {
        forall t | t in r
          ensures exists i :: 0 <= i < |h| && |h[i].positions| > 1 && t == Trajectory(h[i].id, h[i].positions)
        {
          if t in Trajectories(h[..n]) {
            var i :| 0 <= i < n && |h[..n][i].positions| > 1 && t == Trajectory(h[..n][i].id, h[..n][i].positions);
            assert h[i] == h[..n][i];
          } else {
            assert |h[n].positions| > 1 && t == Trajectory(h[n].id, h[n].positions);
          }
        }
      }
      r
  }

  /** Every object's path, in history order. */
  function Paths(h: seq<ObjectView>): seq<Trajectory>
  {
    seq(|h|, i requires 0 <= i < |h| => Trajectory(h[i].id, h[i].positions))
  }

  /** Which objects have more than one position. */
  function Plotted(h: seq<ObjectView>): seq<bool>
  {
    seq(|h|, i requires 0 <= i < |h| => |h[i].positions| > 1)
  }

  /** The plotted trajectories are the objects' paths, kept exactly for the objects
      with more than one position and in history order. */
  lemma {:induction false} TrajectoriesAreFiltered(h: seq<ObjectView>)
    ensures Trajectories(h) == Filter(Paths(h), Plotted(h))
    decreases |h|
  {
    if h != [] {
      var n := |h| - 1;
      TrajectoriesAreFiltered(h[..n]);
      assert Paths(h)[..n] == Paths(h[..n]);
      assert Plotted(h)[..n] == Plotted(h[..n]);
    }
  }

  /** Lines 117-139 as the source runs them: one pass over `all_trackers`, appending
      a record for every object and a trajectory for those with more than one position. */
  method CollectStatistics(objs: seq<TrackedObject>, norm: (int, int) -> real)
    returns (stats: seq<StatRecord>, plots: seq<Trajectory>)
    ensures stats == StatsOf(Views(objs), norm)
    ensures plots == Trajectories(Views(objs))
  {
    ghost var vs := Views(objs);
    stats, plots := [], [];
    for i := 0 to |objs|
      invariant stats == StatsOf(vs[..i], norm)
      invariant plots == Trajectories(vs[..i])
    {
      assert vs[..i + 1][..i] == vs[..i];
      var v := ViewOf(objs[i]);
      var total := TotalDistance(v.positions, norm);
      if |v.positions| > 1 {
        plots := plots + [Trajectory(v.id, v.positions)];
      }
      stats := stats + [StatRecord(v.id, total, AverageSpeed(total, Lifetime(v)))];
    }
    assert vs[..|objs|] == vs;
  }

  /** For the history of any session: one record per object with ids 1, 2, 3, ...;
      lifetimes are never negative, distances and speeds never negative, and the
      speed is zero whenever the lifetime is. */
  lemma StatisticsOfSession(s: SessionView, norm: (int, int) -> real)
    requires Inv(s) && NonNegative(norm)
    ensures var r := StatsOf(s.history, norm);
      && |r| == s.objectId
      && forall i :: 0 <= i < |r| ==>
           && r[i].id == i + 1
           && Lifetime(s.history[i]) >= 0
           && r[i].totalDistance >= 0.0
           && r[i].averageSpeed >= 0.0
           && (Lifetime(s.history[i]) == 0 ==> r[i].averageSpeed == 0.0)
  {
    var r := StatsOf(s.history, norm);
    forall i | 0 <= i < |r|
      ensures r[i].id == i + 1 && Lifetime(s.history[i]) >= 0
    {
      assert EntryOk(s.history[i], i, s.frameCount);
    }
  }

  /** An object created in frame 10 and found in frames 11 to 15 at (0,0), (10,0),
      (10,10), (20,10), (20,20) has travelled 40 pixels in 5 frames, 8 per frame, for
      any norm that measures an axis-parallel step by its length. */
  lemma StraightStepsScenario(norm: (int, int) -> real)
    requires forall d: int :: d >= 0 ==> norm(d, 0) == d as real && norm(0, d) == d as real
    ensures var v := ObjectView(1, 10, 15, [Point(0, 0), Point(10, 0), Point(10, 10), Point(20, 10), Point(20, 20)], true);
      Lifetime(v) == 5 && RecordOf(v, norm) == StatRecord(1, 40.0, 8.0)
  {
    var ps := [Point(0, 0), Point(10, 0), Point(10, 10), Point(20, 10), Point(20, 20)];
    var d := Steps(ps, norm);
    assert norm(10, 0) == 10.0 && norm(0, 10) == 10.0;
    assert d == [10.0, 10.0, 10.0, 10.0];
    assert d[..3] == [10.0, 10.0, 10.0];
    assert d[..3][..2] == [10.0, 10.0];
    assert d[..3][..2][..1] == [10.0];
    assert Sum([10.0]) == 10.0 by { assert [10.0][..0] == []; }
    assert Sum([10.0, 10.0]) == 20.0 by { assert [10.0, 10.0][..1] == [10.0]; }
    assert Sum([10.0, 10.0, 10.0]) == 30.0 by { assert [10.0, 10.0, 10.0][..2] == [10.0, 10.0]; }
    assert Sum(d) == Sum([10.0, 10.0, 10.0]) + 10.0;
    assert Sum(d) == 40.0;
  }
}
