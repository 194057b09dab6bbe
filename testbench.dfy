/** The testbench proper (tb/ula_tb.cpp): the tick driver that clocks the ULA
    and serves its video-RAM reads, the two-cycle bring-up, and the capture
    loop that counts frames on VSync falling edges and writes the pixel codes
    of the third frame. */
module Testbench {
  import opened Hardware
  import opened Capture
  import Pixel

  /** The fixed surroundings of a run: the circuit's step function and the RAM image. */
  datatype Bench<!S> = Bench(logic: (S, Inputs) -> (S, Outputs), ram: seq<byte>)

  /** The RAM image has its full size. */
  predicate WellFormed<S>(b: Bench<S>)
  {
    |b.ram| == RamSize
  }

  /** One half cycle: drive the clock, evaluate, and on the high phase put the
      byte at the requested address on the data bus. */
  function Ticked<S>(b: Bench<S>, m: Machine<S>, c: bool): (m': Machine<S>)
    requires WellFormed(b)
    ensures m'.inp.clkSys == c
    ensures Config(m'.inp) == Config(m.inp)
    ensures c ==> m'.inp.vramDout == b.ram[m'.out.vramAddr]
    ensures !c ==> m'.inp.vramDout == m.inp.vramDout
    ensures (m'.core, m'.out) == b.logic(m.core, m.inp.(clkSys := c))
  {
    var e := Evaluated(b.logic, m.(inp := m.inp.(clkSys := c)));
    if c then e.(inp := e.inp.(vramDout := b.ram[e.out.vramAddr])) else e
  }

  /** One full clock cycle: the high phase, then the low phase. */
  function Cycled<S>(b: Bench<S>, m: Machine<S>): Machine<S>
    requires WellFormed(b)
  {
    Ticked(b, Ticked(b, m, true), false)
  }

  /** The state after n full cycles. */
  function After<S>(b: Bench<S>, m: Machine<S>, n: nat): Machine<S>
    requires WellFormed(b)
  {
    if n == 0 then m else Cycled(b, After(b, m, n - 1))
  }

  /** The ULA outputs the capture loop reads. */
  function SampleOf<S>(m: Machine<S>): Sample
  {
    Sample(m.out.vSync, m.out.hSync, m.out.ceVid, m.out.rx, m.out.gx, m.out.bx)
  }

  /** The samples the capture loop reads from state m on: f(k) after cycle k + 1. */
  function Samples<S>(b: Bench<S>, m: Machine<S>): Trace
    requires WellFormed(b)
  {
    (k: nat) => SampleOf(After(b, m, k + 1))
  }

  /** The configuration `main` selects in bring-up and keeps for the capture loop. */
  const Spectrum48: (bool, bool, bool, nat) := (false, true, false, 1)

  /** The bring-up: one idle cycle, one cycle in reset with the Spectrum 48K
      configuration and border colour 1, then reset released. */
  function BroughtUp<S>(b: Bench<S>, m: Machine<S>): (m': Machine<S>)
    requires WellFormed(b)
    ensures Config(m'.inp) == Spectrum48
  {
    var m1 := Cycled(b, m);
    var m2 := Cycled(b, m1.(inp := m1.inp.(reset := true, mZX := true, m128 := false, borderColor := 1)));
    m2.(inp := m2.inp.(reset := false))
  }

  /** The loop variables on entry to the capture loop. */
  function Start<S>(m: Machine<S>): Progress
  {
    Progress(0, m.out.vSync, [])
  }

  /** The capture loop's frame counter after n cycles from state m. */
  ghost function FramesAfter<S>(b: Bench<S>, m: Machine<S>, n: nat): nat
    requires WellFormed(b)
  {
    Run(Start(m), Samples(b, m), n).frames
  }

  /** The hardware's side of the bargain: from state m, some number of cycles
      shows three VSync falling edges. */
  ghost predicate FinishesThreeFrames<S>(b: Bench<S>, m: Machine<S>)
    requires WellFormed(b)
  {
    exists n: nat :: FramesAfter(b, m, n) >= TargetFrames
  }

  /** The first n trace timestamps, in the order they are handed out. */
  function Stamps(n: nat): (t: seq<int>)
    ensures |t| == n
  {
    if n == 0 then [] else Stamps(n - 1) + [n - 1]
  }

  /** Timestamp k is k: every snapshot has its own, strictly increasing stamp. */
  lemma {:induction false} StampsAt(n: nat, k: nat)
    requires k < n
    ensures Stamps(n)[k] == k
  {
    if k < n - 1 {
      StampsAt(n - 1, k);
    }
  }

  /** What the testbench drives on a half cycle: the clock and the configuration. */
  function Control(i: Inputs): (bool, (bool, bool, bool, nat))
  {
    (i.clkSys, Config(i))
  }

  function Controls(s: seq<Inputs>): (r: seq<(bool, (bool, bool, bool, nat))>)
    ensures |r| == |s|
  {
    seq(|s|, k requires 0 <= k < |s| => Control(s[k]))
  }

  /** n full cycles, high phase first, all under configuration `config`. */
  function Cycles(n: nat, config: (bool, bool, bool, nat)): (r: seq<(bool, (bool, bool, bool, nat))>)
    ensures |r| == 2 * n
  {
    if n == 0 then [] else Cycles(n - 1, config) + [(true, config), (false, config)]
  }

  lemma {:induction false} CyclesAt(n: nat, config: (bool, bool, bool, nat), k: nat)
    requires k < 2 * n
    ensures Cycles(n, config)[k] == (k % 2 == 0, config)
  {
    if k < 2 * (n - 1) {
      CyclesAt(n - 1, config, k);
    }
  }

  lemma CyclesNext(log: seq<(bool, (bool, bool, bool, nat))>, n: nat, config: (bool, bool, bool, nat))
    ensures log + Cycles(n, config) + Cycles(1, config) == log + Cycles(n + 1, config)
  {
  }

  lemma {:induction false} ControlsAppend(s: seq<Inputs>, i: Inputs)
    ensures Controls(s + [i]) == Controls(s) + [Control(i)]
  {
  }

  /** Reading a whole run's log of half cycles: the clock alternates high, low
      from the first half cycle on, and reset is seen exactly by the two half
      cycles of the second bring-up cycle. */
  lemma RunLog(seen: seq<Inputs>, cycles: nat)
    requires Controls(seen) ==
               Cycles(1, Config(Idle)) + Cycles(1, (true, true, false, 1)) + Cycles(cycles, Spectrum48)
    ensures |seen| == 4 + 2 * cycles
    ensures forall k :: 0 <= k < |seen| ==> (seen[k].reset <==> 2 <= k < 4)
    ensures forall k :: 0 <= k < |seen| ==> seen[k].clkSys == (k % 2 == 0)
  {
    var log := Controls(seen);
    forall k | 0 <= k < |seen|
      ensures (seen[k].reset <==> 2 <= k < 4) && seen[k].clkSys == (k % 2 == 0)
    {
      assert log[k] == Control(seen[k]);
      if k < 2 {
        CyclesAt(1, Config(Idle), k);
      } else if k < 4 {
        CyclesAt(1, (true, true, false, 1), k - 2);
      } else {
        CyclesAt(cycles, Spectrum48, k - 4);
      }
    }
  }

  /** The global state of the testbench: the model, the RAM image it reads,
      the trace timestamp counter, and the output file's content. */
  class Harness<S> {
    const tb: Ula<S>
    const ram: array<byte>
    var tickcount: nat
    /** The timestamps handed to the waveform recorder, in order. */
    var dumps: seq<int>
    /** The pixel codes written to video.rgb, in order. */
    var video: seq<nat>

    ghost function Setup(): Bench<S>
      reads ram
    {
      Bench(tb.logic, ram[..])
    }

    /** The RAM image has its full size, and the waveform recorder has been
        handed exactly the timestamps 0, 1, ..., tickcount - 1, in order. */
    ghost predicate Valid()
      reads this, ram
    {
      WellFormed(Setup()) && dumps == Stamps(tickcount)
    }

    constructor (ram: array<byte>, tb: Ula<S>)
      requires WellFormed(Bench(tb.logic, ram[..]))
      ensures this.ram == ram && this.tb == tb
      ensures Valid()
      ensures tickcount == 0 && dumps == [] && video == []
    {
      this.ram := ram;
      this.tb := tb;
      tickcount := 0;
      dumps := [];
      video := [];
    }

    /** tick(c): one half cycle, traced at the current timestamp. */
    method Tick(c: bool)
      requires Valid()
      modifies this, tb
      ensures tb.State() == Ticked(Setup(), old(tb.State()), c)
      ensures c ==> tb.vramDout == ram[tb.vramAddr]
      ensures !c ==> tb.vramDout == old(tb.vramDout)
      ensures ram[..] == old(ram[..])
      ensures tb.seen == old(tb.seen) + [old(tb.InputSignals()).(clkSys := c)]
      ensures Controls(tb.seen) == Controls(old(tb.seen)) + [(c, Config(old(tb.InputSignals())))]
      ensures Valid()
      ensures tickcount == old(tickcount) + 1
      ensures dumps == old(dumps) + [old(tickcount)]
      ensures video == old(video)
    {
      ControlsAppend(tb.seen, tb.InputSignals().(clkSys := c));
      tb.clkSys := c;
      tb.Eval();
      dumps := dumps + [tickcount];
      tickcount := tickcount + 1;
      if c {
        tb.vramDout := ram[tb.vramAddr];
      }
    }

    /** One full clock cycle: tick(1), then tick(0). */
    method Cycle()
      requires Valid()
      modifies this, tb
      ensures tb.State() == Cycled(Setup(), old(tb.State()))
      ensures Valid()
      ensures tickcount == old(tickcount) + 2
      ensures video == old(video)
      ensures Controls(tb.seen) == Controls(old(tb.seen)) + Cycles(1, Config(old(tb.InputSignals())))
    {
      ghost var config := Config(tb.InputSignals());
      Tick(true);
      Tick(false);
      assert Cycles(1, config) == [(true, config), (false, config)];
    }

    /** The bring-up sequence before the capture loop. */
    method BringUp()
      requires Valid()
      modifies this, tb
      ensures tb.State() == BroughtUp(Setup(), old(tb.State()))
      ensures Valid()
      ensures tickcount == old(tickcount) + 4
      ensures video == old(video)
      ensures Controls(tb.seen) ==
                Controls(old(tb.seen)) + Cycles(1, Config(old(tb.InputSignals()))) + Cycles(1, (true, true, false, 1))
    {
      ghost var b := Setup();
      ghost var m0 := tb.State();
      ghost var log0 := Controls(tb.seen);
      Cycle();
      ghost var m1 := tb.State();
      ghost var log1 := Controls(tb.seen);
      tb.reset := true;
      tb.mZX := true;
      tb.m128 := false;
      tb.borderColor := 1;
      assert tb.State() == m1.(inp := m1.inp.(reset := true, mZX := true, m128 := false, borderColor := 1));
      assert Controls(tb.seen) == log1;
      Cycle();
      ghost var m2 := tb.State();
      tb.reset := false;
      assert tb.State() == m2.(inp := m2.inp.(reset := false));
    }

    /** The rest of a capture-loop iteration, after its cycle: a falling VSync
        edge since the level `vsync` read before the cycle finishes a frame,
        and while the counter is 2 a video cycle's pixel code is written. */
    method Record(vsync: bool, frames: nat) returns (frames': nat)
      requires Valid()
      modifies this
      ensures Progress(frames', tb.vSync, video) == Iterate(Progress(frames, vsync, old(video)), SampleOf(tb.State()))
      ensures Valid()
      ensures tickcount == old(tickcount)
    {
      frames' := frames;
      if !tb.vSync && vsync {
        frames' := frames' + 1;
      }
      if frames' == CaptureFrame && tb.ceVid {
        var rgb := Pixel.Encode(tb.vSync, tb.hSync, tb.rx, tb.gx, tb.bx);
        video := video + [rgb];
      }
    }

    /** The capture loop: runs full cycles until the third VSync falling edge,
        writing the pixel codes of every video-enabled cycle while the frame
        counter is 2. It stops after exactly the number of cycles at which the
        replayed counter first reaches 3. */
    method Capture() returns (frames: nat, ghost cycles: nat)
      requires Valid()
      requires FinishesThreeFrames(Setup(), tb.State())
      modifies this, tb
      ensures frames == TargetFrames
      ensures FramesAfter(Setup(), old(tb.State()), cycles) == TargetFrames
      ensures forall j :: 0 <= j < cycles ==> FramesAfter(Setup(), old(tb.State()), j) < TargetFrames
      ensures video == Run(Start(old(tb.State())), Samples(Setup(), old(tb.State())), cycles).video
      ensures tb.State() == After(Setup(), old(tb.State()), cycles)
      ensures Valid()
      ensures tickcount == old(tickcount) + 2 * cycles
      ensures Controls(tb.seen) == Controls(old(tb.seen)) + Cycles(cycles, Config(old(tb.InputSignals())))
    {
      ghost var b := Setup();
      ghost var m0 := tb.State();
      ghost var start := Start(m0);
      ghost var f := Samples(b, m0);
      ghost var n: nat :| FramesAfter(b, m0, n) >= TargetFrames;
      ghost var t0 := tickcount;
      ghost var log0 := Controls(tb.seen);
      ghost var config0 := Config(tb.InputSignals());

      video := [];
      frames := 0;
      cycles := 0;
      var vsync: bool;
      while frames < TargetFrames
        invariant frames <= TargetFrames
        invariant tb.State() == After(b, m0, cycles)
        invariant Run(start, f, cycles) == Progress(frames, tb.vSync, video)
        invariant cycles > 0 ==> FramesAfter(b, m0, cycles - 1) < TargetFrames
        invariant cycles <= n
        invariant tickcount == t0 + 2 * cycles
        invariant Valid()
        invariant Controls(tb.seen) == log0 + Cycles(cycles, config0)
        invariant Config(tb.InputSignals()) == config0
        decreases n - cycles
      {
        assert cycles < n by {
          if n <= cycles {
            RunFramesMonotone(start, f, n, cycles);
          }
        }
        CyclesNext(log0, cycles, config0);
        vsync := tb.vSync;
        Cycle();
        cycles := cycles + 1;
        assert f(cycles - 1) == SampleOf(tb.State());
        frames := Record(vsync, frames);
      }
      BelowTargetBefore(start, f, cycles);
    }
  }

  /** The set-up part of `main`: a fresh model in its initial state, the RAM
      image loaded into a fresh 16 KB buffer, and no timestamp handed out yet. */
  method NewHarness<S>(logic: (S, Inputs) -> (S, Outputs), core: S, out: Outputs, image: seq<byte>)
    returns (h: Harness<S>)
    requires WellFormed(Bench(logic, image))
    ensures fresh(h) && fresh(h.tb) && fresh(h.ram)
    ensures h.Valid() && h.Setup() == Bench(logic, image)
    ensures h.tb.State() == Machine(core, Idle, out) && Controls(h.tb.seen) == []
    ensures h.tickcount == 0 && h.video == []
  {
    var ram := new byte[RamSize](k requires 0 <= k < RamSize => image[k]);
    assert ram[..] == image;
    var tb := new Ula(logic, core, out);
    h := new Harness(ram, tb);
  }

  /** The whole run of `main`, from a model in its initial state and a RAM
      image: bring-up, then capture. The trace timestamps are 0, 1, 2, ...
      (4 on entry to the loop), reset is seen by exactly the two half cycles
      of the second bring-up cycle, and the output is the replayed capture
      over the cycles after bring-up, stopping at the third VSync falling edge.
      That output is one frame: the codes of the video-enabled cycles first
      until last, which are exactly the loop's cycles with frame counter 2. */
  method RunTestbench<S>(logic: (S, Inputs) -> (S, Outputs), core: S, out: Outputs, image: seq<byte>)
    returns (video: seq<nat>, stamps: seq<int>, ghost seen: seq<Inputs>, ghost cycles: nat,
             ghost first: nat, ghost last: nat)
    requires WellFormed(Bench(logic, image))
    requires FinishesThreeFrames(Bench(logic, image), BroughtUp(Bench(logic, image), Machine(core, Idle, out)))
    ensures var b := Bench(logic, image);
            var m := BroughtUp(b, Machine(core, Idle, out));
            video == Run(Start(m), Samples(b, m), cycles).video &&
            FramesAfter(b, m, cycles) == TargetFrames &&
            forall j :: 0 <= j < cycles ==> FramesAfter(b, m, j) < TargetFrames
    ensures var b := Bench(logic, image);
            var m := BroughtUp(b, Machine(core, Idle, out));
            first <= last <= cycles &&
            (forall k :: 0 <= k < cycles ==> (FrameAt(Start(m), Samples(b, m), k) == CaptureFrame <==> first <= k < last)) &&
            video == Kept(Samples(b, m), first, last)
    ensures stamps == Stamps(4 + 2 * cycles)
    ensures |seen| == 4 + 2 * cycles
    ensures forall k :: 0 <= k < |seen| ==> (seen[k].reset <==> 2 <= k < 4)
    ensures forall k :: 0 <= k < |seen| ==> seen[k].clkSys == (k % 2 == 0)
  {
    var h := NewHarness(logic, core, out, image);
    var tb := h.tb;
    h.BringUp();
    ghost var log := Controls(tb.seen);
    assert log == Cycles(1, Config(Idle)) + Cycles(1, (true, true, false, 1));
    assert h.tickcount == 4;
    assert Config(tb.InputSignals()) == Spectrum48;
    var frames;
    frames, cycles := h.Capture();
    video, stamps, seen := h.video, h.dumps, tb.seen;
    assert Controls(seen) == log + Cycles(cycles, Spectrum48);
    RunLog(seen, cycles);
    ghost var m := BroughtUp(Bench(logic, image), Machine(core, Idle, out));
    first, last := OneFrame(Start(m), Samples(Bench(logic, image), m), cycles);
  }
}
