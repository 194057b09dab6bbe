/** The frame/pixel capture policy of the testbench's main loop, stated on the
    trace of signal samples the ULA shows after each full clock cycle.
    One loop iteration compares the VSync level seen before the cycle with the
    level after it, counts a falling edge as a finished frame, and while the
    frame counter is 2 writes the pixel code of every video-enabled cycle. */
module Capture {
  import Pixel

  /** The loop runs while fewer frames than this have finished. */
  const TargetFrames: nat := 3
  /** Pixels are written only while the frame counter has this value. */
  const CaptureFrame: nat := 2

  /** The ULA outputs the loop reads after a cycle. */
  datatype Sample = Sample(vSync: bool, hSync: bool, ceVid: bool, rx: nat, gx: nat, bx: nat)

  /** The samples read after each cycle of the loop: f(k) after cycle k + 1. */
  type Trace = nat -> Sample

  /** The 16-bit code the loop writes for the outputs in sample x. */
  function Code(x: Sample): nat
  {
    Pixel.Encode(x.vSync, x.hSync, x.rx, x.gx, x.bx)
  }

  /** The loop's variables: the frame counter, the VSync level last read, and
      the codes written to the output file so far. */
  datatype Progress = Progress(frames: nat, vsync: bool, video: seq<nat>)

  /** What one iteration writes: the sample's code when the frame counter is
      CaptureFrame and the ULA signals a video cycle, nothing otherwise. */
  function Emitted(frames: nat, x: Sample): (e: seq<nat>)
    ensures e != [] <==> frames == CaptureFrame && x.ceVid
    ensures e == [] || e == [Code(x)]
  {
    if frames == CaptureFrame && x.ceVid then [Code(x)] else []
  }

  /** One iteration of the loop, given the samples after its cycle: a falling
      VSync edge finishes a frame, and the output grows by what is emitted. */
  function Iterate(p: Progress, x: Sample): (q: Progress)
    ensures q.vsync == x.vSync
    ensures q.frames == p.frames + 1 <==> p.vsync && !x.vSync
    ensures q.frames == p.frames <==> !(p.vsync && !x.vSync)
  {
    var frames := if p.vsync && !x.vSync then p.frames + 1 else p.frames;
    Progress(frames, x.vSync, p.video + Emitted(frames, x))
  }

  /** The loop variables after the first n iterations over trace f. */
  function Run(p: Progress, f: Trace, n: nat): Progress
  {
    if n == 0 then p else Iterate(Run(p, f, n - 1), f(n - 1))
  }

  /** The frame counter after the iteration of sample k. */
  function FrameAt(p: Progress, f: Trace, k: nat): nat
  {
    Run(p, f, k + 1).frames
  }

  /** The codes of the video-enabled samples f(i), ..., f(j - 1), in order.
      This is the reference VideoIsCapturedFrame compares the loop's output
      against. It is stated without a frame counter, so it does not reuse
      Emitted, which decides on the counter the loop keeps. */
  function Kept(f: Trace, i: nat, j: nat): (codes: seq<nat>)
    requires i <= j
    ensures |codes| <= j - i
    ensures (forall k :: i <= k < j ==> !f(k).ceVid) ==> codes == []
    ensures (forall k :: i <= k < j ==> f(k).ceVid) ==> |codes| == j - i
  {
    if i == j then [] else Kept(f, i, j - 1) + (if f(j - 1).ceVid then [Code(f(j - 1))] else [])
  }

  function Bit(b: bool): nat
  {
    if b then 1 else 0
  }

  /** The frame counter never decreases, grows by at most one per cycle, and
      two falling edges always have a rising edge between them, so counting
      k frames takes about 2k cycles. */
  lemma {:induction false} RunFramesBounds(p: Progress, f: Trace, n: nat)
    ensures p.frames <= Run(p, f, n).frames <= p.frames + n
    ensures 2 * (Run(p, f, n).frames - p.frames) + Bit(Run(p, f, n).vsync) <= n + Bit(p.vsync)
  {
    if n > 0 {
      RunFramesBounds(p, f, n - 1);
    }
  }

  /** The frame counter after fewer iterations is never above that after more. */
  lemma {:induction false} RunFramesMonotone(p: Progress, f: Trace, i: nat, n: nat)
    requires i <= n
    ensures Run(p, f, i).frames <= Run(p, f, n).frames
  {
    if i < n {
      RunFramesMonotone(p, f, i, n - 1);
    }
  }

  /** If the counter is below the target after k - 1 iterations, it was below
      the target after every earlier number of iterations as well. */
  lemma BelowTargetBefore(p: Progress, f: Trace, k: nat)
    requires k > 0 ==> Run(p, f, k - 1).frames < TargetFrames
    ensures forall j :: 0 <= j < k ==> Run(p, f, j).frames < TargetFrames
  {
    forall j | 0 <= j < k
      ensures Run(p, f, j).frames < TargetFrames
    {
      RunFramesMonotone(p, f, j, k - 1);
    }
  }

  /** Holding VSync at the level last read finishes no frame, however long. */
  lemma {:induction false} StableVSyncFinishesNoFrame(p: Progress, f: Trace, n: nat)
    requires forall k :: 0 <= k < n ==> f(k).vSync == p.vsync
    ensures Run(p, f, n).frames == p.frames
  {
    if n > 0 {
      StableVSyncFinishesNoFrame(p, f, n - 1);
    }
  }

  /** Starting below the target, a run that reaches it passes through exactly
      the target at some cycle k right after a cycle still below it: the
      counter never jumps over 3. With BelowTargetBefore, every cycle before
      k is below the target, so the loop stops after exactly k iterations. */
  lemma {:induction false} TargetReachedExactly(p: Progress, f: Trace, n: nat)
    requires p.frames < TargetFrames <= Run(p, f, n).frames
    ensures exists k :: 0 < k <= n && Run(p, f, k).frames == TargetFrames &&
              Run(p, f, k - 1).frames < TargetFrames
  {
    if Run(p, f, n - 1).frames >= TargetFrames {
      TargetReachedExactly(p, f, n - 1);
    }
  }

  /** Cycles whose frame counter is CaptureFrame form one contiguous stretch. */
  lemma CaptureFrameContiguous(p: Progress, f: Trace, i: nat, k: nat, j: nat)
    requires i <= k <= j
    requires FrameAt(p, f, i) == CaptureFrame && FrameAt(p, f, j) == CaptureFrame
    ensures FrameAt(p, f, k) == CaptureFrame
  {
    RunFramesMonotone(p, f, i + 1, k + 1);
    RunFramesMonotone(p, f, k + 1, j + 1);
  }

  /** The number of iterations among the first n that write a code: those
      whose frame counter is CaptureFrame and whose sample is a video cycle. */
  function Writes(p: Progress, f: Trace, n: nat): nat
  {
    if n == 0 then 0
    else Writes(p, f, n - 1) + (if FrameAt(p, f, n - 1) == CaptureFrame && f(n - 1).ceVid then 1 else 0)
  }

  /** The output holds exactly one code per writing iteration. */
  lemma {:induction false} VideoLengthCountsWrites(p: Progress, f: Trace, n: nat)
    ensures |Run(p, f, n).video| == |p.video| + Writes(p, f, n)
  {
    if n > 0 {
      VideoLengthCountsWrites(p, f, n - 1);
      var e := Emitted(FrameAt(p, f, n - 1), f(n - 1));
      assert Run(p, f, n).video == Run(p, f, n - 1).video + e;
    }
  }

  /** The last iteration of a run, given the output before it: it adds the
      last sample's code exactly when that sample ends the capture window. */
  lemma VideoLastStep(p: Progress, f: Trace, n: nat, i: nat, j: nat, i': nat, j': nat)
    requires 0 < n && i <= j <= n
    requires i' == (if i < n - 1 then i else n - 1) && j' == (if j < n - 1 then j else n - 1)
    requires FrameAt(p, f, n - 1) == CaptureFrame <==> i <= n - 1 < j
    requires Run(p, f, n - 1).video == p.video + Kept(f, i', j')
    ensures Run(p, f, n).video == p.video + Kept(f, i, j)
  {
  }

  /** If, among the first n cycles, those at positions i until j are exactly
      the ones with frame counter CaptureFrame, the output after n iterations
      is the codes of the video-enabled samples among them, in order, and
      nothing else. */
  lemma {:induction false} VideoIsCapturedFrame(p: Progress, f: Trace, n: nat, i: nat, j: nat)
    requires i <= j <= n
    requires forall k :: 0 <= k < n ==> (FrameAt(p, f, k) == CaptureFrame <==> i <= k < j)
    ensures Run(p, f, n).video == p.video + Kept(f, i, j)
  {
    if n > 0 {
      var i', j' := if i < n - 1 then i else n - 1, if j < n - 1 then j else n - 1;
      VideoIsCapturedFrame(p, f, n - 1, i', j');
      VideoLastStep(p, f, n, i, j, i', j');
    }
  }

  /** Among the first n iterations, those with frame counter CaptureFrame are
      exactly the ones at positions i until j, for some window [i, j). */
  lemma {:induction false} WindowExists(p: Progress, f: Trace, n: nat) returns (i: nat, j: nat)
    ensures i <= j <= n
    ensures forall k :: 0 <= k < n ==> (FrameAt(p, f, k) == CaptureFrame <==> i <= k < j)
  {
    if n == 0 {
      i, j := 0, 0;
    } else {
      var i0, j0 := WindowExists(p, f, n - 1);
      if FrameAt(p, f, n - 1) == CaptureFrame {
        if i0 < j0 {
          CaptureFrameContiguous(p, f, i0, j0, n - 1);
          i, j := i0, n;
        } else {
          i, j := n - 1, n;
        }
      } else {
        i, j := i0, j0;
      }
    }
  }

  /** The output after n iterations is one frame: the codes of the
      video-enabled samples of one contiguous window, the window of
      iterations whose frame counter is CaptureFrame, in order. */
  lemma OneFrame(p: Progress, f: Trace, n: nat) returns (i: nat, j: nat)
    ensures i <= j <= n
    ensures forall k :: 0 <= k < n ==> (FrameAt(p, f, k) == CaptureFrame <==> i <= k < j)
    ensures Run(p, f, n).video == p.video + Kept(f, i, j)
  {
    i, j := WindowExists(p, f, n);
    VideoIsCapturedFrame(p, f, n, i, j);
  }
}
