/** A whole run of Main.py's loop (lines 34-110) as values: the iterations go on
    until the camera has no more frames (lines 35-37) or until the one in which 'q'
    was pressed, which still runs in full before the loop ends (line 110). The
    stopping rule does not depend on what an iteration does, so it is stated for
    any `step` and then applied to the session's. */
module Runs {
  import opened Commands
  import opened SessionSpec
  import Recording
  import opened Statistics

  /** The tracking state and the recorder together. */
  datatype Machine = Machine(view: SessionView, rec: Recording.Recorder)

  /** One iteration: the tracking part and the recorder's part. */
  function Iterate(m: Machine, input: FrameInput): Machine
  {
    Machine(AfterFrame(m.view, input), Recording.AfterFrame(m.rec, input.key))
  }

  /** The state after each input in turn. */
  function Fold<S>(step: (S, FrameInput) -> S, s: S, inputs: seq<FrameInput>): S
    decreases |inputs|
  {
    if inputs == [] then s else step(Fold(step, s, inputs[..|inputs| - 1]), inputs[|inputs| - 1])
  }

  /** The number of iterations that run: up to and including the first 'q', or all. */
  function RunLength(inputs: seq<FrameInput>): (n: nat)
    ensures n <= |inputs|
    ensures forall i :: 0 <= i < n - 1 ==> !inputs[i].key.Quit?
    ensures n < |inputs| ==> 0 < n && inputs[n - 1].key.Quit?
    decreases |inputs|
  {
    if inputs == [] then 0
    else if inputs[0].key.Quit? then 1
    else 1 + RunLength(inputs[1..])
  }

  /** The iterations from the first input on, stopping after the first 'q'. */
  function RunFrom<S>(step: (S, FrameInput) -> S, s: S, inputs: seq<FrameInput>): S
    decreases |inputs|
  {
    if inputs == [] then s
    else if inputs[0].key.Quit? then step(s, inputs[0])
    else RunFrom(step, step(s, inputs[0]), inputs[1..])
  }

  /** Taking the first input first is folding the rest from the state it leaves. */
  lemma {:induction false} FoldCons<S>(step: (S, FrameInput) -> S, s: S, x: FrameInput, rest: seq<FrameInput>)
    ensures Fold(step, s, [x] + rest) == Fold(step, step(s, x), rest)
    decreases |rest|
  {
    if rest == [] {
      assert ([x] + rest)[..0] == [];
    } else {
      var n := |rest| - 1;
      assert ([x] + rest)[..n + 1] == [x] + rest[..n];
      FoldCons(step, s, x, rest[..n]);
    }
  }

  /** A run is the fold of its first `RunLength` inputs. */
  lemma {:induction false} RunFromIsPrefix<S>(step: (S, FrameInput) -> S, s: S, inputs: seq<FrameInput>)
    ensures RunFrom(step, s, inputs) == Fold(step, s, inputs[..RunLength(inputs)])
    decreases |inputs|
  {
    if inputs == [] {
      assert inputs[..0] == [];
    } else {
      var x := inputs[0];
      if x.key.Quit? {
        assert inputs[..1] == [x] + [];
        FoldCons(step, s, x, []);
      } else {
        var rest := inputs[1..];
        var n' := RunLength(rest);
        RunFromIsPrefix(step, step(s, x), rest);
        assert inputs[..n' + 1] == [x] + rest[..n'];
        FoldCons(step, s, x, rest[..n']);
      }
    }
  }

  /** Folding `Iterate` runs the tracking state and the recorder side by side. */
  lemma {:induction false} FoldIterate(m: Machine, inputs: seq<FrameInput>)
    ensures Fold(Iterate, m, inputs) == Machine(AfterFrames(m.view, inputs), Recording.AfterFrames(m.rec, Keys(inputs)))
    decreases |inputs|
  {
    if inputs != [] {
      var n := |inputs| - 1;
      FoldIterate(m, inputs[..n]);
      assert Keys(inputs)[..n] == Keys(inputs[..n]);
    }
  }

  /** From the start, a run leaves the session and the recorder as the
      iterations of its first `RunLength` inputs do. */
  lemma RunIsPrefix(inputs: seq<FrameInput>)
    ensures var n := RunLength(inputs);
      RunFrom(Iterate, Machine(Initial, Recording.Idle), inputs)
      == Machine(AfterFrames(Initial, inputs[..n]), Recording.AfterFrames(Recording.Idle, Keys(inputs[..n])))
  {
    RunFromIsPrefix(Iterate, Machine(Initial, Recording.Idle), inputs);
    FoldIterate(Machine(Initial, Recording.Idle), inputs[..RunLength(inputs)]);
  }

  /** A run that the camera ends, with no 'q', handles every input, and when it is
      recording at that point the current writer is still open and unreleased. */
  lemma EndOfStreamLeavesWriterOpen(inputs: seq<FrameInput>)
    requires forall i :: 0 <= i < |inputs| ==> !inputs[i].key.Quit?
    ensures RunLength(inputs) == |inputs|
    ensures var r := Recording.AfterFrames(Recording.Idle, Keys(inputs));
      r.recording ==> r.writerOpen && r.starts == r.released + 1
  {
    Recording.ReleasedOncePerStart(Keys(inputs));
  }

  /** What a whole session ends with: one statistics row per selection other than
      (0, 0, 0, 0) among the iterations that ran, with ids 1, 2, 3, ...; the writer
      released once per start but the current one, and closed when the run ended
      with 'q'. */
  lemma SessionOutcome(inputs: seq<FrameInput>, norm: (int, int) -> real)
    ensures var n := RunLength(inputs);
      var stats := StatsOf(AfterFrames(Initial, inputs[..n]).history, norm);
      var r := Recording.AfterFrames(Recording.Idle, Keys(inputs[..n]));
      && |stats| == Selections(inputs[..n])
      && (forall i :: 0 <= i < |stats| ==> stats[i].id == i + 1)
      && r.released <= r.starts <= r.released + 1
      && (0 < n && inputs[n - 1].key.Quit? ==> !r.writerOpen)
  {
    var n := RunLength(inputs);
    IdsFollowSelections(inputs[..n]);
    Recording.ReleasedOncePerStart(Keys(inputs[..n]));
    if 0 < n {
      Recording.QuitClosesWriter(Keys(inputs[..n]));
    }
  }
}
