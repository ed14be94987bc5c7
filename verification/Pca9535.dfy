/** The PCA9535 GPIO expander: shadow registers that must agree with the device. */
module Pca9535 {
  import opened Bytes

  // A 16-bit port is a sequence of bits indexed by pin; each half fits one device register.
  type Half = s: seq<bool> | |s| == 8 witness seq(8, _ => false)
  type Word = s: seq<bool> | |s| == 16 witness seq(16, _ => false)

  const OUTPUT0: nat := 2
  const POLARITY0: nat := 4
  const CONFIG0: nat := 6
  const NUM_REGISTERS: nat := 8

  // Pin modes
  const INPUT: bv32 := 0x0
  const INVERTED: bv32 := 0x100

  type Registers = s: seq<Half> | |s| == NUM_REGISTERS witness seq(NUM_REGISTERS, _ => seq(8, _ => false))

  datatype Write = Write(reg: nat, value: Half)

  /** The device: its registers and every write it has received. */
  datatype Device = Device(regs: Registers, log: seq<Write>)

  /** The wanted value of a port, and the value last written to the device if any. */
  datatype RegData = RegData(value: Word, last: Option<Word>)

  function Lower(w: Word): Half { w[..8] }

  function Upper(w: Word): Half { w[8..] }

  function AllPins(b: bool): Word { seq(16, _ => b) }

  /** Setting or clearing the bit 1 << pin of a 16-bit value; from bit 16 on it is lost. */
  function SetBit(w: Word, pin: nat, b: bool): Word {
    if pin < 16 then w[pin := b] else w
  }

  function Written(d: Device, reg: nat, value: Half): Device
    requires reg < NUM_REGISTERS
  {
    Device(d.regs[reg := value], d.log + [Write(reg, value)])
  }

  /** Each half is written only if it changed or was never written. */
  function Flushed(d: Device, reg: nat, rd: RegData): Device
    requires reg + 1 < NUM_REGISTERS
  {
    var d1 := if rd.last.None? || Lower(rd.last.value) != Lower(rd.value)
              then Written(d, reg, Lower(rd.value)) else d;
    if rd.last.None? || Upper(rd.last.value) != Upper(rd.value)
    then Written(d1, reg + 1, Upper(rd.value)) else d1
  }

  datatype Chip = Chip(dev: Device, output: RegData, inversion: RegData, cfg: RegData)

  function Settled(value: Word): RegData {
    RegData(value, Some(value))
  }

  /** The inversion port is flushed first, then the configuration port. */
  function PinConfigFlushed(c: Chip): Chip {
    var d1 := Flushed(c.dev, POLARITY0, c.inversion);
    c.(dev := Flushed(d1, CONFIG0, c.cfg),
       inversion := Settled(c.inversion.value), cfg := Settled(c.cfg.value))
  }

  function Start(powerOn: Registers): Chip {
    PinConfigFlushed(Chip(Device(powerOn, []), RegData(AllPins(false), None),
                          RegData(AllPins(false), None), RegData(AllPins(true), None)))
  }

  /** Input is the empty mode, so the test for it never succeeds: whatever the mode, the pin's
      configuration bit is cleared and the inversion port is left alone. */
  function PinConfigured(c: Chip, pin: nat): Chip {
    PinConfigFlushed(c.(cfg := c.cfg.(value := SetBit(c.cfg.value, pin, false))))
  }

  function PinSet(c: Chip, pin: nat, asserted: bool): Chip {
    var rd := c.output.(value := SetBit(c.output.value, pin, asserted));
    c.(dev := Flushed(c.dev, OUTPUT0, rd), output := Settled(rd.value))
  }

  // ---------- The driver ----------

  class Pca9535 {
    var outputPort: RegData
    var inversionPort: RegData
    var cfgPort: RegData
    /// the device at the other end of the bus; every write succeeds
    var device: Device

    function View(): Chip
      reads this
    {
      Chip(device, outputPort, inversionPort, cfgPort)
    }

    constructor (powerOn: Registers)
      ensures View() == Start(powerOn)
    {
      device := Device(powerOn, []);
      outputPort := RegData(AllPins(false), None);
      inversionPort := RegData(AllPins(false), None);
      cfgPort := RegData(AllPins(true), None);
      new;
      UpdatePinConfig();
    }

    method WriteReg(reg: nat, value: Half)
      requires reg < NUM_REGISTERS
      modifies this`device
      ensures device == Written(old(device), reg, value)
    {
      device := Device(device.regs[reg := value], device.log + [Write(reg, value)]);
    }

    method WriteReg16(reg: nat, value: Word)
      requires reg + 1 < NUM_REGISTERS
      modifies this`device
      ensures device == Written(Written(old(device), reg, Lower(value)), reg + 1, Upper(value))
    {
      WriteReg(reg, value[..8]);
      WriteReg(reg + 1, value[8..]);
    }

    method UpdatePartialRegister(reg: nat, regData: RegData) returns (updated: RegData)
      requires reg + 1 < NUM_REGISTERS
      modifies this`device
      ensures device == Flushed(old(device), reg, regData)
      ensures updated == Settled(regData.value)
    {
      var lowerDirty, upperDirty := false, false;
      if regData.last == None {
        lowerDirty := true;
        upperDirty := true;
      } else {
        var last := regData.last.value;
        lowerDirty := last[..8] != regData.value[..8];
        upperDirty := last[8..] != regData.value[8..];
      }
      if lowerDirty && upperDirty {
        WriteReg16(reg, regData.value);
      } else {
        if lowerDirty {
          WriteReg(reg, regData.value[..8]);
        } else if upperDirty {
          WriteReg(reg + 1, regData.value[8..]);
        }
      }
      updated := regData.(last := Some(regData.value));
    }

    method UpdatePinConfig()
      modifies this`device, this`inversionPort, this`cfgPort
      ensures View() == PinConfigFlushed(old(View()))
    {
      inversionPort := UpdatePartialRegister(POLARITY0, inversionPort);
      cfgPort := UpdatePartialRegister(CONFIG0, cfgPort);
    }

    method ConfigurePin(pin: nat, mode: bv32)
      requires pin < 32
      modifies this
      ensures View() == PinConfigured(old(View()), pin)
    {
      var input, inverted := mode & INPUT != 0, mode & INVERTED != 0;
      cfgPort := cfgPort.(value := SetBit(cfgPort.value, pin, input));
      inversionPort := if input then inversionPort.(value := SetBit(inversionPort.value, pin, inverted))
                       else inversionPort;
      UpdatePinConfig();
    }

    method SetPinState(pin: nat, asserted: bool)
      requires pin < 32
      modifies this
      ensures View() == PinSet(old(View()), pin, asserted)
    {
      outputPort := outputPort.(value := SetBit(outputPort.value, pin, asserted));
      outputPort := UpdatePartialRegister(OUTPUT0, outputPort);
    }
  }

  // ---------- Over any run ----------

  datatype Call = Configure(pin: nat, mode: bv32) | SetPin(pin: nat, asserted: bool)

  function Next(c: Chip, call: Call): Chip {
    match call
    case Configure(pin, mode) => PinConfigured(c, pin)
    case SetPin(pin, asserted) => PinSet(c, pin, asserted)
  }

  function Run(powerOn: Registers, calls: seq<Call>): Chip {
    if calls == [] then Start(powerOn)
    else Next(Run(powerOn, calls[..|calls| - 1]), calls[|calls| - 1])
  }

  lemma RunSnoc(powerOn: Registers, calls: seq<Call>, call: Call)
    ensures Run(powerOn, calls + [call]) == Next(Run(powerOn, calls), call)
  {
    hide Next, Start;
    assert (calls + [call])[..|calls|] == calls;
  }

  /** The value last written to a register, if any. */
  function LastOf(log: seq<Write>, reg: nat): Option<Half> {
    if log == [] then None
    else if log[|log| - 1].reg == reg then Some(log[|log| - 1].value)
    else LastOf(log[..|log| - 1], reg)
  }

  /** No write repeats the value that its register was given last. */
  predicate Lean(log: seq<Write>) {
    log == [] ||
    (Lean(log[..|log| - 1]) && LastOf(log[..|log| - 1], log[|log| - 1].reg) != Some(log[|log| - 1].value))
  }

  /** The log explains the registers, and the shadow of a port tells what was written. */
  ghost predicate Faithful(d: Device, powerOn: Registers) {
    && Lean(d.log)
    && forall r :: 0 <= r < NUM_REGISTERS ==>
         d.regs[r] == match LastOf(d.log, r) case None => powerOn[r] case Some(v) => v
  }

  ghost predicate Shadowed(d: Device, reg: nat, last: Option<Word>)
    requires reg + 1 < NUM_REGISTERS
  {
    match last
    case None => LastOf(d.log, reg) == None && LastOf(d.log, reg + 1) == None
    case Some(w) => LastOf(d.log, reg) == Some(Lower(w)) && LastOf(d.log, reg + 1) == Some(Upper(w))
  }

  lemma WrittenLog(d: Device, reg: nat, value: Half, r: nat)
    requires reg < NUM_REGISTERS
    ensures LastOf(Written(d, reg, value).log, r) == if r == reg then Some(value) else LastOf(d.log, r)
    ensures Lean(d.log) && LastOf(d.log, reg) != Some(value) ==> Lean(Written(d, reg, value).log)
  {
    assert (d.log + [Write(reg, value)])[..|d.log|] == d.log;
  }

  lemma WrittenFaithful(d: Device, reg: nat, value: Half, powerOn: Registers)
    requires reg < NUM_REGISTERS && Faithful(d, powerOn) && LastOf(d.log, reg) != Some(value)
    ensures Faithful(Written(d, reg, value), powerOn)
  {
    forall r | 0 <= r < NUM_REGISTERS
      ensures LastOf(Written(d, reg, value).log, r) == if r == reg then Some(value) else LastOf(d.log, r)
    {
      WrittenLog(d, reg, value, r);
    }
    WrittenLog(d, reg, value, reg);
  }

  lemma FlushedFaithful(d: Device, reg: nat, rd: RegData, powerOn: Registers)
    requires reg + 1 < NUM_REGISTERS && Faithful(d, powerOn) && Shadowed(d, reg, rd.last)
    ensures Faithful(Flushed(d, reg, rd), powerOn)
    ensures Shadowed(Flushed(d, reg, rd), reg, Some(rd.value))
    ensures forall r :: r != reg && r != reg + 1 ==> LastOf(Flushed(d, reg, rd).log, r) == LastOf(d.log, r)
  {
    hide Faithful, Lean, LastOf, Written;
    var d1 := d;
    forall r, v
      ensures LastOf(Written(d, reg, v).log, r) == if r == reg then Some(v) else LastOf(d.log, r)
    {
      WrittenLog(d, reg, v, r);
    }
    if rd.last.None? || Lower(rd.last.value) != Lower(rd.value) {
      d1 := Written(d, reg, Lower(rd.value));
      WrittenFaithful(d, reg, Lower(rd.value), powerOn);
    }
    forall r, v
      ensures LastOf(Written(d1, reg + 1, v).log, r) == if r == reg + 1 then Some(v) else LastOf(d1.log, r)
    {
      WrittenLog(d1, reg + 1, v, r);
    }
    if rd.last.None? || Upper(rd.last.value) != Upper(rd.value) {
      WrittenFaithful(d1, reg + 1, Upper(rd.value), powerOn);
    }
  }

  ghost predicate Coherent(c: Chip, powerOn: Registers) {
    && Faithful(c.dev, powerOn)
    && Shadowed(c.dev, OUTPUT0, c.output.last)
    && Shadowed(c.dev, POLARITY0, c.inversion.last)
    && Shadowed(c.dev, CONFIG0, c.cfg.last)
  }

  lemma PinConfigFlushedCoherent(c: Chip, powerOn: Registers)
    requires Coherent(c, powerOn)
    ensures Coherent(PinConfigFlushed(c), powerOn)
  {
    hide Faithful, LastOf, Flushed;
    FlushedFaithful(c.dev, POLARITY0, c.inversion, powerOn);
    FlushedFaithful(Flushed(c.dev, POLARITY0, c.inversion), CONFIG0, c.cfg, powerOn);
  }

  lemma PinSetCoherent(c: Chip, pin: nat, asserted: bool, powerOn: Registers)
    requires Coherent(c, powerOn)
    ensures Coherent(PinSet(c, pin, asserted), powerOn)
  {
    hide Faithful, LastOf, Flushed;
    FlushedFaithful(c.dev, OUTPUT0, c.output.(value := SetBit(c.output.value, pin, asserted)), powerOn);
  }

  lemma {:induction false} RunCoherent(powerOn: Registers, calls: seq<Call>)
    ensures Coherent(Run(powerOn, calls), powerOn)
  {
    hide Flushed, PinConfigFlushed;
    if calls == [] {
      var c := Chip(Device(powerOn, []), RegData(AllPins(false), None),
                    RegData(AllPins(false), None), RegData(AllPins(true), None));
      assert Coherent(c, powerOn);
      PinConfigFlushedCoherent(c, powerOn);
    } else {
      var init, call := calls[..|calls| - 1], calls[|calls| - 1];
      RunCoherent(powerOn, init);
      var c := Run(powerOn, init);
      match call {
        case Configure(pin, mode) =>
          PinConfigFlushedCoherent(c.(cfg := c.cfg.(value := SetBit(c.cfg.value, pin, false))), powerOn);
        case SetPin(pin, asserted) =>
          PinSetCoherent(c, pin, asserted, powerOn);
      }
    }
  }

  /** The state of a pin after the last call that set it; false before. */
  function LastSet(calls: seq<Call>, pin: nat): bool {
    if calls == [] then false
    else
      var call := calls[|calls| - 1];
      if call.SetPin? && call.pin == pin then call.asserted else LastSet(calls[..|calls| - 1], pin)
  }

  predicate EverConfigured(calls: seq<Call>, pin: nat) {
    exists i :: 0 <= i < |calls| && calls[i].Configure? && calls[i].pin == pin
  }

  predicate EverSet(calls: seq<Call>) {
    exists i :: 0 <= i < |calls| && calls[i].SetPin?
  }

  /** What a run makes of the three ports. */
  lemma {:induction false} RunValues(powerOn: Registers, calls: seq<Call>)
    ensures var c := Run(powerOn, calls);
            && c.cfg == Settled(c.cfg.value) && c.inversion == Settled(AllPins(false))
            && c.output.last == (if EverSet(calls) then Some(c.output.value) else None)
            && forall p :: 0 <= p < 16 ==>
                 && (c.cfg.value[p] <==> !EverConfigured(calls, p))
                 && (c.output.value[p] <==> LastSet(calls, p))
  {
    hide Flushed;
    if calls != [] {
      var init, call := calls[..|calls| - 1], calls[|calls| - 1];
      RunValues(powerOn, init);
      forall p
        ensures EverConfigured(calls, p) <==> EverConfigured(init, p) || (call.Configure? && call.pin == p)
        ensures EverSet(calls) <==> EverSet(init) || call.SetPin?
      {
        assert forall i :: 0 <= i < |init| ==> calls[i] == init[i];
      }
    }
  }

  /** After any run every flushed port agrees with the device in both halves, and no half was
      ever written with the value it already had been given. */
  lemma RunInSync(powerOn: Registers, calls: seq<Call>)
    ensures var c := Run(powerOn, calls);
            && Lean(c.dev.log)
            && c.dev.regs[6] == c.cfg.value[..8] && c.dev.regs[7] == c.cfg.value[8..]
            && c.dev.regs[4] == c.dev.regs[5] == seq(8, _ => false)
            && if EverSet(calls)
               then c.dev.regs[2] == c.output.value[..8] && c.dev.regs[3] == c.output.value[8..]
               else c.dev.regs[2] == powerOn[2] && c.dev.regs[3] == powerOn[3]
  {
    hide Run, Lean, LastOf, EverSet;
    RunCoherent(powerOn, calls);
    RunValues(powerOn, calls);
    assert Lower(AllPins(false)) == seq(8, _ => false) == Upper(AllPins(false));
  }

  /** In the device a pin is an input after a run if and only if it was never configured, so
      configuring a pin as an input makes it an output. */
  lemma InputOnlyIfUntouched(powerOn: Registers, calls: seq<Call>, pin: nat)
    requires pin < 16
    ensures Run(powerOn, calls).dev.regs[6 + pin / 8][pin % 8] <==> !EverConfigured(calls, pin)
  {
    hide Run, Lean, LastOf, EverConfigured;
    RunInSync(powerOn, calls);
    RunValues(powerOn, calls);
  }

  /** Once any pin has been set, each output bit in the device is the state its pin was given last. */
  lemma OutputFollows(powerOn: Registers, calls: seq<Call>, pin: nat)
    requires pin < 16 && EverSet(calls)
    ensures Run(powerOn, calls).dev.regs[2 + pin / 8][pin % 8] <==> LastSet(calls, pin)
  {
    hide Run, Lean, LastOf, LastSet;
    RunInSync(powerOn, calls);
    RunValues(powerOn, calls);
  }

  function AllEqual(b: bool): Half {
    seq(8, _ => b)
  }

  /** At the start no pin is inverted, then every pin is made an input, lower half first. */
  lemma StartLog(powerOn: Registers)
    ensures Start(powerOn).dev.log ==
            [Write(4, AllEqual(false)), Write(5, AllEqual(false)), Write(6, AllEqual(true)), Write(7, AllEqual(true))]
  {
    assert Lower(AllPins(false)) == Upper(AllPins(false)) == AllEqual(false);
    assert Lower(AllPins(true)) == Upper(AllPins(true)) == AllEqual(true);
  }

  lemma {:induction false} NeverSet(calls: seq<Call>)
    requires !EverSet(calls)
    ensures forall p :: !LastSet(calls, p)
  {
    if calls != [] {
      var init := calls[..|calls| - 1];
      assert forall i :: 0 <= i < |init| ==> calls[i] == init[i];
      NeverSet(init);
    }
  }

  /** The first pin set writes both output registers, lower half first; other pins stay low. */
  lemma FirstSetLog(powerOn: Registers, calls: seq<Call>, pin: nat, asserted: bool)
    requires !EverSet(calls) && pin < 16
    ensures var w := AllPins(false)[pin := asserted];
            Run(powerOn, calls + [SetPin(pin, asserted)]).dev.log ==
            Run(powerOn, calls).dev.log + [Write(2, w[..8]), Write(3, w[8..])]
  {
    hide Run;
    RunSnoc(powerOn, calls, SetPin(pin, asserted));
    RunValues(powerOn, calls);
    NeverSet(calls);
    var c := Run(powerOn, calls);
    assert c.output.value == AllPins(false) by {
      assert forall p :: 0 <= p < 16 ==> (c.output.value[p] <==> LastSet(calls, p));
    }
  }
}
