/** What the frame loop receives from outside each iteration: the tracker's answer
    for every object it consults (Main.py, line 46) and the key the user pressed,
    with the region chosen when that key asks for a selection (lines 72-78). */
module Commands {
  import opened Geometry

  /** The tracker's `(success, box)` pair: a box in integer pixels, or failure. */
  datatype Reply = Found(box: Box) | Lost

  /** The keys the loop reacts to: 's' (with the region the selector returned),
      'u', 'r', 'x', 'q', and any other key or none. */
  datatype Key = Select(roi: Box) | Unselect | Record | StopRecording | Quit | Other

  /** One iteration's inputs. The tracker is consulted by object id; each object is
      consulted at most once per frame, so a function of the id is enough. */
  datatype FrameInput = FrameInput(replies: nat -> Reply, key: Key)

  /** The keys of a run of iterations, in order. */
  function Keys(inputs: seq<FrameInput>): seq<Key>
  {
    seq(|inputs|, i requires 0 <= i < |inputs| => inputs[i].key)
  }
}
