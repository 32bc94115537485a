/** The recording state machine of Main.py: the `recording` flag and the video
    writer (lines 12-13), the per-frame write (lines 62-63) and the 'r', 'x' and 'q'
    handlers (lines 92-110). The writer is abstracted to whether it is open and how
    many writers were opened, how many were released and how many frames went in. */
module Recording {
  import opened Commands

  datatype Recorder = Recorder(recording: bool, writerOpen: bool, starts: nat, released: nat, written: nat)

  /** Before the loop: not recording, no writer. */
  const Idle := Recorder(false, false, 0, 0, 0)

  /** Line 62-63: the frame is written only while recording. */
  function WriteFrame(r: Recorder): Recorder
  {
    if r.recording then r.(written := r.written + 1) else r
  }

  /** Lines 92-95: 'r' opens a new writer and starts recording, unless already recording. */
  function Start(r: Recorder): Recorder
  {
    if r.recording then r else r.(recording := true, writerOpen := true, starts := r.starts + 1)
  }

  /** Lines 99-101 ('x') and 106-108 ('q'): release the writer, only when recording. */
  function Stop(r: Recorder): Recorder
  {
    if r.recording then r.(recording := false, writerOpen := false, released := r.released + 1) else r
  }

  /** The recorder's part of one key press. */
  function OnKey(r: Recorder, key: Key): Recorder
  {
    match key
    case Record => Start(r)
    case StopRecording => Stop(r)
    case Quit => Stop(r)
    case _ => r
  }

  /** One loop iteration: the write comes before the key is handled. */
  function AfterFrame(r: Recorder, key: Key): Recorder
  {
    OnKey(WriteFrame(r), key)
  }

  /** A run of iterations, one key per frame. */
  function AfterFrames(r: Recorder, keys: seq<Key>): Recorder
    decreases |keys|
  {
    if keys == [] then r else AfterFrame(AfterFrames(r, keys[..|keys| - 1]), keys[|keys| - 1])
  }

  /** The writer is open exactly while recording, and every writer but the current
      one has been released exactly once. */
  ghost predicate Consistent(r: Recorder)
  {
    r.writerOpen == r.recording && r.starts == r.released + (if r.recording then 1 else 0)
  }

  /** Every iteration keeps the recorder consistent; start only opens when idle,
      stop and quit only release when recording, and a frame is counted only when
      recording was on at the time of the write. */
  lemma FrameKeepsConsistent(r: Recorder, key: Key)
    requires Consistent(r)
    ensures var r' := AfterFrame(r, key);
      && Consistent(r')
      && r'.written == r.written + (if r.recording then 1 else 0)
      && r'.starts == r.starts + (if key.Record? && !r.recording then 1 else 0)
      && r'.released == r.released + (if (key.StopRecording? || key.Quit?) && r.recording then 1 else 0)
      && (key.Quit? ==> !r'.writerOpen)
  {
  }

  /** Over any run of keys the writer is released at most once per start: the
      number of releases is the number of starts, or one fewer while recording. */
  lemma {:induction false} ReleasedOncePerStart(keys: seq<Key>)
    ensures var r := AfterFrames(Idle, keys);
      Consistent(r) && r.released <= r.starts <= r.released + 1
    decreases |keys|
  {
    if keys != [] {
      ReleasedOncePerStart(keys[..|keys| - 1]);
      FrameKeepsConsistent(AfterFrames(Idle, keys[..|keys| - 1]), keys[|keys| - 1]);
    }
  }

  /** A run that ends with 'q' ends with the writer closed, whatever came before. */
  lemma QuitClosesWriter(keys: seq<Key>)
    requires |keys| > 0
    ensures keys[|keys| - 1].Quit? ==> !AfterFrames(Idle, keys).writerOpen
  {
    var n := |keys| - 1;
    ReleasedOncePerStart(keys[..n]);
    FrameKeepsConsistent(AfterFrames(Idle, keys[..n]), keys[n]);
  }

  /** 'r' and then a plain frame, after which the camera stops: the loop leaves by
      its end-of-stream exit, which releases nothing, so the writer is still open
      and the one frame recorded is never followed by a release. */
  lemma {:induction false} StreamEndsWhileRecording()
    ensures AfterFrames(Idle, [Record, Other]) == Recorder(true, true, 1, 0, 1)
  {
    var keys := [Record, Other];
    assert keys[..1] == [Record] && keys[..1][..0] == [];
    assert AfterFrames(Idle, keys[..1]) == Recorder(true, true, 1, 0, 0);
  }

  /** 'r' in one frame, four plain frames, 'x' in the sixth and 'x' again: frames
      two to six are written (the 'x' frame is written before its key is handled),
      exactly one writer is opened and released, and the second 'x' changes nothing. */
  lemma {:induction false} RecordFiveFrames()
    ensures var r := AfterFrames(Idle, [Record, Other, Other, Other, Other, StopRecording, StopRecording]);
      r == Recorder(false, false, 1, 1, 5)
  {
    var keys := [Record, Other, Other, Other, Other, StopRecording, StopRecording];
    assert keys[..1] == [Record];
    assert AfterFrames(Idle, keys[..1]) == Recorder(true, true, 1, 0, 0) by {
      assert keys[..1][..0] == [];
    }
    assert keys[..2][..1] == keys[..1];
    assert AfterFrames(Idle, keys[..2]) == Recorder(true, true, 1, 0, 1);
    assert keys[..3][..2] == keys[..2];
    assert AfterFrames(Idle, keys[..3]) == Recorder(true, true, 1, 0, 2);
    assert keys[..4][..3] == keys[..3];
    assert AfterFrames(Idle, keys[..4]) == Recorder(true, true, 1, 0, 3);
    assert keys[..5][..4] == keys[..4];
    assert AfterFrames(Idle, keys[..5]) == Recorder(true, true, 1, 0, 4);
    assert keys[..6][..5] == keys[..5];
    assert AfterFrames(Idle, keys[..6]) == Recorder(false, false, 1, 1, 5);
    assert keys[..7][..6] == keys[..6];
    assert keys[..7] == keys;
  }
}
