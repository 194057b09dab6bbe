/** The simulated ULA as the testbench sees it: an object whose input signals
    the testbench writes, whose output signals it reads, and whose `eval`
    recomputes the outputs (and the hidden circuit state) from the inputs.
    The circuit itself is not modelled: `logic` is any total step function over
    a hidden state of type S. */
module Hardware {

  newtype byte = x: int | 0 <= x < 256

  /** Size of the video RAM image served to the ULA. */
  const RamSize: nat := 16 * 1024

  /** A video-RAM address. The testbench indexes its RAM with the address the
      circuit drives without any check, so the circuit is taken to drive only
      addresses inside the 16 KB image. */
  type Addr = a: nat | a < RamSize

  /** The input ports the testbench drives. */
  datatype Inputs = Inputs(clkSys: bool, reset: bool, mZX: bool, m128: bool, borderColor: nat, vramDout: byte)

  /** The output ports the testbench reads. */
  datatype Outputs = Outputs(vramAddr: Addr, vSync: bool, hSync: bool, ceVid: bool, rx: nat, gx: nat, bx: nat)

  /** Everything `eval` depends on and produces. */
  datatype Machine<S> = Machine(core: S, inp: Inputs, out: Outputs)

  /** Inputs of a freshly constructed model: every port inactive. */
  const Idle: Inputs := Inputs(false, false, false, false, 0, 0)

  /** The configuration part of the inputs: everything but the clock and the data bus. */
  function Config(i: Inputs): (bool, bool, bool, nat)
  {
    (i.reset, i.mZX, i.m128, i.borderColor)
  }

  /** One evaluation: outputs and hidden state follow from the inputs, which
      themselves are left as they are. */
  function Evaluated<S>(logic: (S, Inputs) -> (S, Outputs), m: Machine<S>): Machine<S>
  {
    var r := logic(m.core, m.inp);
    Machine(r.0, m.inp, r.1)
  }

  class Ula<S> {
    var clkSys: bool
    var reset: bool
    var mZX: bool
    var m128: bool
    var borderColor: nat
    var vramDout: byte

    var vramAddr: Addr
    var vSync: bool
    var hSync: bool
    var ceVid: bool
    var rx: nat
    var gx: nat
    var bx: nat

    /** The circuit's hidden state and its step function. */
    var core: S
    const logic: (S, Inputs) -> (S, Outputs)

    /** The inputs every evaluation so far has seen, oldest first. */
    ghost var seen: seq<Inputs>

    function InputSignals(): Inputs
      reads this
    {
      Inputs(clkSys, reset, mZX, m128, borderColor, vramDout)
    }

    function OutputSignals(): Outputs
      reads this
    {
      Outputs(vramAddr, vSync, hSync, ceVid, rx, gx, bx)
    }

    function State(): Machine<S>
      reads this
    {
      Machine(core, InputSignals(), OutputSignals())
    }

    constructor (logic: (S, Inputs) -> (S, Outputs), core: S, out: Outputs)
      ensures this.logic == logic
      ensures State() == Machine(core, Idle, out)
      ensures seen == []
    {
      this.logic := logic;
      this.core := core;
      clkSys, reset, mZX, m128, borderColor, vramDout := false, false, false, false, 0, 0;
      vramAddr, vSync, hSync, ceVid, rx, gx, bx := out.vramAddr, out.vSync, out.hSync, out.ceVid, out.rx, out.gx, out.bx;
      seen := [];
    }

    /** Evaluates the circuit on the current inputs. */
    method Eval()
      modifies this
      ensures State() == Evaluated(logic, old(State()))
      ensures seen == old(seen) + [old(InputSignals())]
    {
      var inp := InputSignals();
      var r := logic(core, inp);
      var out := r.1;
      seen, core, vramAddr, vSync, hSync, ceVid, rx, gx, bx :=
        seen + [inp], r.0, out.vramAddr, out.vSync, out.hSync, out.ceVid, out.rx, out.gx, out.bx;
      assert InputSignals() == inp;
    }
  }
}
