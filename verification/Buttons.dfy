/** Polled front panel buttons: a stream of changes that must rebuild the state. */
module Buttons {
  import opened Bytes
  import Pca9535

  datatype Button = ModeCc | ModeCv | ModeCw | ModeExt | LoadOn | Menu | Select

  type Bits = s: seq<bool> | |s| == 32 witness seq(32, _ => false)

  function NoBits(): Bits {
    seq(32, _ => false)
  }

  /** Enabled lines, their polarity (true is active high) and the button behind each line. */
  datatype Config = Config(bits: Bits, polarity: Bits, lines: map<nat, Button>)

  /** Every enabled line has a button, and no two enabled lines have the same one. */
  predicate Valid(cfg: Config) {
    && (forall i :: 0 <= i < 32 && cfg.bits[i] ==> i in cfg.lines)
    && (forall i, j :: 0 <= i < j < 32 && cfg.bits[i] && cfg.bits[j] ==> cfg.lines[i] != cfg.lines[j])
  }

  function Masked(cfg: Config, raw: Bits): Bits {
    seq(32, i requires 0 <= i < 32 => raw[i] && cfg.bits[i])
  }

  predicate IsLine(cfg: Config, b: Button, i: nat)
    requires Valid(cfg)
  {
    i < 32 && cfg.bits[i] && cfg.lines[i] == b
  }

  ghost predicate Connected(cfg: Config, b: Button)
    requires Valid(cfg)
  {
    exists i :: IsLine(cfg, b, i)
  }

  ghost function LineOf(cfg: Config, b: Button): nat
    requires Valid(cfg) && Connected(cfg, b)
    ensures IsLine(cfg, b, LineOf(cfg, b))
  {
    var i :| IsLine(cfg, b, i);
    i
  }

  /** Which buttons are held, with the polarity of each line corrected. */
  ghost function Held(cfg: Config, raw: Bits): map<Button, bool>
    requires Valid(cfg)
  {
    map b: Button | Connected(cfg, b) :: raw[LineOf(cfg, b)] == cfg.polarity[LineOf(cfg, b)]
  }

  /** The buttons whose line changed, with their new state. */
  ghost function Delta(cfg: Config, before: Bits, now: Bits): map<Button, bool>
    requires Valid(cfg)
  {
    map b: Button | Connected(cfg, b) && before[LineOf(cfg, b)] != now[LineOf(cfg, b)]
      :: now[LineOf(cfg, b)] == cfg.polarity[LineOf(cfg, b)]
  }

  lemma LineUnique(cfg: Config, b: Button, i: nat)
    requires Valid(cfg) && IsLine(cfg, b, i)
    ensures Connected(cfg, b) && LineOf(cfg, b) == i
  {}

  function ButtonBits(): Bits {
    seq(32, i => i < 7)
  }

  const BUTTON_MAP: map<nat, Button> :=
    map[0 := ModeCc, 1 := LoadOn, 2 := Select, 3 := ModeCw, 4 := ModeCv, 5 := ModeExt, 6 := Menu]

  function LineNumber(b: Button): nat {
    match b
    case ModeCc => 0
    case LoadOn => 1
    case Select => 2
    case ModeCw => 3
    case ModeCv => 4
    case ModeExt => 5
    case Menu => 6
  }

  lemma LineNumbered(i: nat)
    requires i < 7
    ensures i in BUTTON_MAP && LineNumber(BUTTON_MAP[i]) == i
  {}

  lemma HardwiredValid()
    ensures Valid(Config(ButtonBits(), ButtonBits(), BUTTON_MAP))
  {
    hide LineNumber;
    var m := BUTTON_MAP;
    forall i | 0 <= i < 32 && ButtonBits()[i]
      ensures i in m && LineNumber(m[i]) == i
    {
      LineNumbered(i);
    }
  }

  /** The event of one poll: none if nothing changed. */
  ghost function Event(cfg: Config, before: Bits, now: Bits): Option<map<Button, bool>>
    requires Valid(cfg)
  {
    if now == before then None else Some(Delta(cfg, before, now))
  }

  lemma MaskedTwice(cfg: Config, raw: Bits)
    ensures Masked(cfg, Masked(cfg, raw)) == Masked(cfg, raw)
  {}

  function InitCalls(n: nat): seq<Pca9535.Call> {
    seq(n, (i: nat) => Pca9535.Configure(i, Pca9535.INPUT))
  }

  /** Two different masked states differ on an enabled line. */
  lemma SomethingChanged(cfg: Config, before: Bits, now: Bits)
    requires Valid(cfg) && before != now
    requires Masked(cfg, before) == before && Masked(cfg, now) == now
    ensures Delta(cfg, before, now) != map[]
  {
    var i :| 0 <= i < 32 && before[i] != now[i];
    assert Masked(cfg, before)[i] == before[i] && Masked(cfg, now)[i] == now[i];
    LineUnique(cfg, cfg.lines[i], i);
    assert cfg.lines[i] in Delta(cfg, before, now);
  }

  /** A button is held if its line is at the level the polarity names. */
  lemma HeldByPolarity(cfg: Config, i: nat, raw: Bits)
    requires Valid(cfg) && i < 32 && cfg.bits[i]
    ensures cfg.lines[i] in Held(cfg, raw)
    ensures Held(cfg, raw)[cfg.lines[i]] == if cfg.polarity[i] then raw[i] else !raw[i]
  {
    LineUnique(cfg, cfg.lines[i], i);
  }

  lemma EveryButton(cfg: Config)
    requires cfg.lines == BUTTON_MAP
    ensures cfg.lines[0] == ModeCc && cfg.lines[1] == LoadOn && cfg.lines[2] == Select && cfg.lines[3] == ModeCw
    ensures cfg.lines[4] == ModeCv && cfg.lines[5] == ModeExt && cfg.lines[6] == Menu
  {}

  /** The hard-wired lines, one by one: all active high, and nothing held at the start. */
  lemma HardwiredHeld(raw: Bits)
    ensures var cfg := Config(ButtonBits(), ButtonBits(), BUTTON_MAP);
            && Valid(cfg)
            && Held(cfg, raw) == map[ModeCc := raw[0], LoadOn := raw[1], Select := raw[2], ModeCw := raw[3],
                                     ModeCv := raw[4], ModeExt := raw[5], Menu := raw[6]]
            && forall b :: b in Held(cfg, NoBits()) ==> !Held(cfg, NoBits())[b]
  {
    hide Valid, Held, LineOf;
    var cfg := Config(ButtonBits(), ButtonBits(), BUTTON_MAP);
    HardwiredValid();
    EveryButton(cfg);
    forall b: Button
      ensures b in Held(cfg, raw) && Held(cfg, raw)[b] == raw[LineNumber(b)]
      ensures b in Held(cfg, NoBits()) && !Held(cfg, NoBits())[b]
    {
      HeldByPolarity(cfg, LineNumber(b), raw);
      HeldByPolarity(cfg, LineNumber(b), NoBits());
    }
  }

  // ---------- The driver ----------

  class Direct {
    var cfg: Config
    var buttonLastState: Bits

    /** The lines are hard-wired; each is handed to the expander as an input. */
    constructor (gpio: Pca9535.Pca9535, ghost powerOn: Pca9535.Registers, ghost calls: seq<Pca9535.Call>)
      requires gpio.View() == Pca9535.Run(powerOn, calls)
      modifies gpio
      ensures cfg == Config(ButtonBits(), ButtonBits(), BUTTON_MAP) && Valid(cfg)
      ensures buttonLastState == NoBits()
      ensures gpio.View() == Pca9535.Run(powerOn, calls + InitCalls(7))
    {
      cfg := Config(ButtonBits(), ButtonBits(), BUTTON_MAP);
      buttonLastState := NoBits();
      new;
      hide Valid, ButtonBits, Pca9535.Run;
      HardwiredValid();
      InitGpio(gpio, powerOn, calls);
    }

    method InitGpio(gpio: Pca9535.Pca9535, ghost powerOn: Pca9535.Registers, ghost calls: seq<Pca9535.Call>)
      requires cfg.bits == ButtonBits() && gpio.View() == Pca9535.Run(powerOn, calls)
      modifies gpio
      ensures gpio.View() == Pca9535.Run(powerOn, calls + InitCalls(7))
    {
      hide Pca9535.Run, Pca9535.PinConfigured;
      assert calls + InitCalls(0) == calls;
      for i := 0 to 32
        invariant gpio.View() == Pca9535.Run(powerOn, calls + InitCalls(Min(i, 7)))
      {
        if cfg.bits[i] {
          Pca9535.RunSnoc(powerOn, calls + InitCalls(i), Pca9535.Configure(i, Pca9535.INPUT));
          assert calls + InitCalls(i + 1) == calls + InitCalls(i) + [Pca9535.Configure(i, Pca9535.INPUT)];
          gpio.ConfigurePin(i, Pca9535.INPUT);
        }
      }
    }

    /** The loop over the lines: what changed against the last state. */
    method CollectChanges(current: Bits) returns (changes: map<Button, bool>)
      requires Valid(cfg)
      ensures changes == Delta(cfg, buttonLastState, current)
    {
      changes := map[];
      for i := 0 to 32
        invariant forall b :: b in changes <==>
                    Connected(cfg, b) && LineOf(cfg, b) < i
                    && buttonLastState[LineOf(cfg, b)] != current[LineOf(cfg, b)]
        invariant forall b :: b in changes ==>
                    changes[b] == (current[LineOf(cfg, b)] == cfg.polarity[LineOf(cfg, b)])
      {
        if !cfg.bits[i] || buttonLastState[i] == current[i] {
          continue;
        }
        var btnType := cfg.lines[i];
        LineUnique(cfg, btnType, i);
        var state := if cfg.polarity[i] then current[i] else !current[i];
        if btnType !in changes {
          changes := changes[btnType := state];
        }
      }
    }

    /** One poll. The result is the change event sent, if any. */
    method UpdateButtonState(pins: Bits) returns (threw: bool, sent: Option<map<Button, bool>>)
      requires Valid(cfg)
      requires Masked(cfg, buttonLastState) == buttonLastState
      modifies this`buttonLastState
      ensures !threw && buttonLastState == Masked(cfg, pins)
      ensures forall i :: 0 <= i < 32 ==> buttonLastState[i] == (pins[i] && cfg.bits[i])
      ensures Masked(cfg, buttonLastState) == buttonLastState
      ensures sent == Event(cfg, old(buttonLastState), Masked(cfg, pins))
      ensures sent.Some? ==> sent.value != map[]
    {
      hide Delta, Valid;
      var current := Masked(cfg, pins);
      MaskedTwice(cfg, pins);
      if current == buttonLastState {
        return false, None;
      }
      var changes := CollectChanges(current);
      SomethingChanged(cfg, buttonLastState, current);
      threw, sent := changes == map[], Some(changes);
      if !threw {
        buttonLastState := current;
      }
    }
  }

  /** The expander drives all seven button lines once they have been set up as inputs. */
  lemma ButtonLinesDriven(powerOn: Pca9535.Registers, calls: seq<Pca9535.Call>, i: nat)
    requires i < 7
    ensures !Pca9535.Run(powerOn, calls + InitCalls(7)).dev.regs[6][i]
  {
    hide Pca9535.Run;
    Pca9535.InputOnlyIfUntouched(powerOn, calls + InitCalls(7), i);
    assert (calls + InitCalls(7))[|calls| + i] == Pca9535.Configure(i, Pca9535.INPUT);
  }

  // ---------- Replaying the events ----------

  /** The stored state after a sequence of polls. */
  function StateAfter(cfg: Config, polls: seq<Bits>): Bits {
    if polls == [] then NoBits() else Masked(cfg, polls[|polls| - 1])
  }

  function AsList<T>(x: Option<T>): seq<T> {
    match x
    case None => []
    case Some(v) => [v]
  }

  /** The events a sequence of polls sends, as UpdateButtonState sends them. */
  ghost function Events(cfg: Config, polls: seq<Bits>): seq<map<Button, bool>>
    requires Valid(cfg)
  {
    if polls == [] then []
    else
      Events(cfg, polls[..|polls| - 1])
      + AsList(Event(cfg, StateAfter(cfg, polls[..|polls| - 1]), StateAfter(cfg, polls)))
  }

  function Replay(start: map<Button, bool>, events: seq<map<Button, bool>>): map<Button, bool> {
    if events == [] then start else Replay(start, events[..|events| - 1]) + events[|events| - 1]
  }

  /** An event tells exactly the buttons whose state differs, each with its new state. */
  lemma DeltaExact(cfg: Config, before: Bits, now: Bits, b: Button)
    requires Valid(cfg)
    ensures b in Delta(cfg, before, now) <==>
            b in Held(cfg, before) && b in Held(cfg, now) && Held(cfg, before)[b] != Held(cfg, now)[b]
    ensures b in Delta(cfg, before, now) ==> Delta(cfg, before, now)[b] == Held(cfg, now)[b]
  {
    hide Valid;
  }

  lemma ReplayOneMore(start: map<Button, bool>, events: seq<map<Button, bool>>, event: map<Button, bool>)
    ensures Replay(start, events + [event]) == Replay(start, events) + event
  {
    assert (events + [event])[..|events|] == events;
  }

  lemma DeltaRebuilds(cfg: Config, before: Bits, now: Bits)
    requires Valid(cfg)
    ensures Held(cfg, before) + Delta(cfg, before, now) == Held(cfg, now)
  {
    hide Valid;
  }

  lemma StateIsMasked(cfg: Config, polls: seq<Bits>)
    ensures Masked(cfg, StateAfter(cfg, polls)) == StateAfter(cfg, polls)
  {
    if polls != [] { MaskedTwice(cfg, polls[|polls| - 1]); }
  }

  lemma NothingPolled(cfg: Config)
    ensures StateAfter(cfg, []) == NoBits()
  {}

  /** One poll more: the event it sends, if any, keeps a listener up to date. */
  lemma EventRebuilds(cfg: Config, start: map<Button, bool>, events: seq<map<Button, bool>>, before: Bits, now: Bits)
    requires Valid(cfg) && Masked(cfg, before) == before && Masked(cfg, now) == now
    requires Replay(start, events) == Held(cfg, before)
    ensures Replay(start, events + AsList(Event(cfg, before, now))) == Held(cfg, now)
    ensures Event(cfg, before, now) != Some(map[])
  {
    hide Held, Delta, Valid, Masked, Replay;
    if before == now {
      assert events + [] == events;
    } else {
      SomethingChanged(cfg, before, now);
      DeltaRebuilds(cfg, before, now);
      ReplayOneMore(start, events, Delta(cfg, before, now));
    }
  }

  /** A listener that starts from the initial state and applies every event knows exactly
      which buttons are held, and no event it gets is empty. */
  lemma {:induction false} EventsRebuildState(cfg: Config, polls: seq<Bits>)
    requires Valid(cfg)
    ensures Replay(Held(cfg, NoBits()), Events(cfg, polls)) == Held(cfg, StateAfter(cfg, polls))
    ensures forall i :: 0 <= i < |Events(cfg, polls)| ==> Events(cfg, polls)[i] != map[]
    ensures |Events(cfg, polls)| <= |polls|
  {
    hide Held, Event, Valid, Masked, NoBits, StateAfter;
    if polls == [] {
      assert StateAfter(cfg, polls) == NoBits() by { NothingPolled(cfg); }
    } else {
      hide Replay;
      var init := polls[..|polls| - 1];
      EventsRebuildState(cfg, init);
      StateIsMasked(cfg, init);
      StateIsMasked(cfg, polls);
      EventRebuilds(cfg, Held(cfg, NoBits()), Events(cfg, init), StateAfter(cfg, init), StateAfter(cfg, polls));
    }
  }

  /** A poll sends an event if and only if some enabled line differs from the poll before. */
  lemma EventIffChanged(cfg: Config, polls: seq<Bits>, raw: Bits)
    requires Valid(cfg)
    ensures |Events(cfg, polls + [raw])| > |Events(cfg, polls)| <==>
            exists i :: 0 <= i < 32 && cfg.bits[i] && raw[i] != StateAfter(cfg, polls)[i]
  {
    hide Delta, Valid;
    assert (polls + [raw])[..|polls|] == polls;
    StateIsMasked(cfg, polls);
    var before, now := StateAfter(cfg, polls), Masked(cfg, raw);
    if before != now {
      var i :| 0 <= i < 32 && before[i] != now[i];
      assert Masked(cfg, before)[i] == before[i];
    }
  }
}
