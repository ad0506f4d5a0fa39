/**
 * The blink detector over a run of frames: the detector is called once
 * per rendered frame, so these functions fold `Step` over a sequence of
 * frames and the lemmas state what holds for every run.
 */
module BlinkRuns {
  import opened Wrappers
  import opened EyeHistory
  import opened BlinkDetector

  /** The state after processing `frames` in order. */
  function Final(env: Env, s: DetectorState, frames: seq<seq<Face>>): (f: DetectorState)
    requires ValidState(s)
    ensures ValidState(f)
    decreases |frames|
  {
    if frames == [] then s else Final(env, Step(env, s, frames[0]).next, frames[1..])
  }

  /** The number of blink events reported during the run. */
  function Blinks(env: Env, s: DetectorState, frames: seq<seq<Face>>): nat
    requires ValidState(s)
    decreases |frames|
  {
    if frames == [] then 0
    else
      var o := Step(env, s, frames[0]);
      (if o.event.Blink? then 1 else 0) + Blinks(env, o.next, frames[1..])
  }

  /** The number of frames on which the retained state went from closed back to open. */
  function Reopenings(env: Env, s: DetectorState, frames: seq<seq<Face>>): nat
    requires ValidState(s)
    decreases |frames|
  {
    if frames == [] then 0
    else
      var o := Step(env, s, frames[0]);
      (if s.eyeState == Closed && o.next.eyeState == Open then 1 else 0)
        + Reopenings(env, o.next, frames[1..])
  }

  /** The gaps of the frames the detector processed, oldest first. */
  function AcceptedGaps(env: Env, s: DetectorState, frames: seq<seq<Face>>): seq<Gaps>
    requires ValidState(s)
    decreases |frames|
  {
    if frames == [] then []
    else
      var rest := AcceptedGaps(env, Step(env, s, frames[0]).next, frames[1..]);
      match Accepted(env, frames[0])
      case Some(g) => [g] + rest
      case None => rest
  }

  /** One eye's gaps from `gaps`, newest first. */
  function NewestFirst(gaps: seq<Gaps>, eye: Eye): (r: seq<real>)
    ensures |r| == |gaps|
  {
    if gaps == [] then [] else NewestFirst(gaps[1..], eye) + [gaps[0].Of(eye)]
  }

  /**
   * Edge triggering over a whole run: every blink after the first needs
   * a reopening of the eyes before it, so a run reports at most one more
   * blink than it has reopenings, and none more when it starts closed.
   */
  lemma {:induction false} BlinksNeedReopening(env: Env, s: DetectorState, frames: seq<seq<Face>>)
    requires ValidState(s)
    ensures Blinks(env, s, frames) <= Reopenings(env, s, frames) + (if s.eyeState == Open then 1 else 0)
    decreases |frames|
  {
    if frames != [] {
      var o := Step(env, s, frames[0]);
      BlinkIffEdge(env, s, frames[0]);
      BlinksNeedReopening(env, o.next, frames[1..]);
    }
  }

  /** Taking one eye's gaps newest first puts the oldest gap last. */
  lemma NewestFirstCons(g: Gaps, rest: seq<Gaps>, eye: Eye)
    ensures NewestFirst([g] + rest, eye) == NewestFirst(rest, eye) + [g.Of(eye)]
  {
    assert ([g] + rest)[1..] == rest;
  }

  /** Pushing onto a history and then keeping the newest ten commutes with prepending newer gaps. */
  lemma PushUnderWindow(newer: seq<real>, h: seq<real>, gap: real)
    ensures Take(newer + Push(h, gap), Capacity) == Take((newer + [gap]) + h, Capacity)
  {
    TakeAppendTake(newer, [gap] + h, Capacity);
    assert newer + ([gap] + h) == (newer + [gap]) + h;
  }

  /**
   * After any run each history is the newest ten values among this
   * run's processed gaps (newest first) followed by the history the run
   * started from; rejected and faulty frames leave no trace.
   */
  lemma {:induction false} HistoryWindow(env: Env, s: DetectorState, frames: seq<seq<Face>>, eye: Eye)
    requires ValidState(s)
    ensures Final(env, s, frames).History(eye)
      == Take(NewestFirst(AcceptedGaps(env, s, frames), eye) + s.History(eye), Capacity)
    decreases |frames|
  {
    if frames == [] {
      assert |s.History(eye)| <= Capacity;
    } else {
      var next := Step(env, s, frames[0]).next;
      var rest := AcceptedGaps(env, next, frames[1..]);
      HistoryWindow(env, next, frames[1..], eye);
      match Accepted(env, frames[0])
      case None =>
        IgnoredFrameKeepsState(env, s, frames[0]);
      case Some(g) =>
        HistoryUpdate(env, s, frames[0], eye);
        PushUnderWindow(NewestFirst(rest, eye), s.History(eye), g.Of(eye));
        NewestFirstCons(g, rest, eye);
    }
  }

  /** Starting from the initial state, each history is the run's last ten gaps, padded by the seed 0. */
  lemma HistoryFromStart(env: Env, frames: seq<seq<Face>>, eye: Eye)
    ensures Final(env, Initial(), frames).History(eye)
      == Take(NewestFirst(AcceptedGaps(env, Initial(), frames), eye) + [0.0], Capacity)
  {
    HistoryWindow(env, Initial(), frames, eye);
  }
}
