/** An indicator update on its way from the GUI to the LED registers. */
module IndicatorPath {
  import opened Bytes
  import opened Cbor
  import opened Indicators
  import opened LedManager
  import Pca9955

  /** The key under which pinballd looks an indicator up. */
  function KeyName(which: Indicator): string {
    match which
    case Status => "status"
    case Trigger => "trigger"
    case Overheat => "overheat"
    case Overcurrent => "overcurrent"
    case Error => "error"
    case BtnModeCc => "modeCc"
    case BtnModeCv => "modeCv"
    case BtnModeCw => "modeCw"
    case BtnModeExt => "modeExt"
    case BtnLoadOn => "loadOn"
    case BtnMenu => "menu"
  }

  /** The keys, one by one. */
  lemma Keys()
    ensures KeyName(Status) == "status" && KeyName(Trigger) == "trigger" && KeyName(Overheat) == "overheat"
    ensures KeyName(Overcurrent) == "overcurrent" && KeyName(Error) == "error" && KeyName(BtnModeCc) == "modeCc"
    ensures KeyName(BtnModeCv) == "modeCv" && KeyName(BtnModeCw) == "modeCw" && KeyName(BtnModeExt) == "modeExt"
    ensures KeyName(BtnLoadOn) == "loadOn" && KeyName(BtnMenu) == "menu"
  {}

  // ---------- Receiving: pinballd ----------

  datatype Request = Nothing | Set(update: Update) | Invalid

  function ColorRequest(items: seq<Item>): Request {
    if |items| !in {1, 2, 3} || exists i :: 0 <= i < |items| && !items[i].Float? then Invalid
    else Set(Color(items[0].number,
                   if |items| > 1 then items[1].number else 0.0,
                   if |items| > 2 then items[2].number else 0.0))
  }

  function ReadRequest(value: Item): Request {
    match value
    case Bool(on) => Set(Brightness(if on then 1.0 else 0.0))
    case Float(x) => Set(Brightness(Clamp(x)))
    case Array(items) => ColorRequest(items)
    case _ => Invalid
  }

  /** What a payload asks of one indicator. */
  function RequestFor(item: Item, which: Indicator): Request {
    match Get(item, KeyName(which))
    case None => Nothing
    case Some(value) => ReadRequest(value)
  }

  /** The accepted values, one by one; missing colour components are zero. */
  lemma Requests(value: Item, r: Item, g: Item, b: Item)
    ensures ReadRequest(Bool(true)) == Set(Brightness(1.0)) && ReadRequest(Bool(false)) == Set(Brightness(0.0))
    ensures value.Float? ==>
              ReadRequest(value) == Set(Brightness(if value.number < 0.0 then 0.0
                                                   else if value.number > 1.0 then 1.0 else value.number))
    ensures r.Float? ==> ReadRequest(Array([r])) == Set(Color(r.number, 0.0, 0.0))
    ensures r.Float? && g.Float? ==> ReadRequest(Array([r, g])) == Set(Color(r.number, g.number, 0.0))
    ensures r.Float? && g.Float? && b.Float? ==>
              ReadRequest(Array([r, g, b])) == Set(Color(r.number, g.number, b.number))
    ensures value.Uint? || value.Str? || value.Null? || value.Map? ==> ReadRequest(value) == Invalid
    ensures value.Array? ==>
              (ReadRequest(value) == Invalid <==>
               value.items == [] || |value.items| > 3 || exists i :: 0 <= i < |value.items| && !value.items[i].Float?)
  {
    if value.Array? && 1 <= |value.items| <= 3 && forall i :: 0 <= i < |value.items| ==> value.items[i].Float? {
      assert ReadRequest(value).Set?;
    }
  }

  predicate Throws(panel: Panel, item: Item, which: Indicator) {
    match RequestFor(item, which)
    case Nothing => false
    case Invalid => true
    case Set(u) => Refused(panel, which, u)
  }

  function Step(panel: Panel, item: Item, which: Indicator): Panel {
    match RequestFor(item, which)
    case Set(u) => Show(panel, which, u)
    case _ => panel
  }

  /** Indicators are visited in the given order; the first exception ends the visit. */
  function Run(panel: Panel, order: seq<Indicator>, item: Item): (r: (Panel, bool))
    decreases |order|
  {
    if order == [] then (panel, false)
    else if Throws(panel, item, order[0]) then (panel, true)
    else Run(Step(panel, item, order[0]), order[1..], item)
  }

  /** The call that a decoded value leads to, or the exception it causes. */
  method Apply(led: LedManager, indicator: Indicator, request: Request) returns (threw: bool)
    requires led.Valid()
    modifies led.Devices()`regs
    ensures led.Valid()
    ensures threw <==> request.Invalid? || (request.Set? && Refused(old(led.View()), indicator, request.update))
    ensures led.View() == if request.Set? && !threw then Show(old(led.View()), indicator, request.update)
                          else old(led.View())
  {
    hide Show, Owner;
    match request {
      case Nothing =>
        return false;
      case Invalid =>
        return true;
      case Set(Brightness(level)) =>
        led.SetBrightness(indicator, level);
        return false;
      case Set(Color(red, green, blue)) =>
        threw := led.SetColor(indicator, red, green, blue);
    }
  }

  /** The body of the loop over the name table. */
  method UpdateIndicator(led: LedManager, item: Item, indicator: Indicator) returns (threw: bool)
    requires led.Valid()
    modifies led.Devices()`regs
    ensures led.Valid() && threw == Throws(old(led.View()), item, indicator)
    ensures led.View() == if threw then old(led.View()) else Step(old(led.View()), item, indicator)
  {
    hide KeyName, Get, Show, Refused, ReadRequest, Owner, Has, Pca9955.Disjoint;
    var value := CborMapGet(item, KeyName(indicator));
    if value == None {
      return false;
    }
    threw := Apply(led, indicator, ReadRequest(value.value));
  }

  /** order is the iteration order of the name table, which the language leaves open. */
  method UpdateIndicators(led: LedManager, item: Item, order: seq<Indicator>) returns (threw: bool)
    requires led.Valid()
    modifies led.Devices()`regs
    ensures led.Valid()
    ensures (led.View(), threw) == Run(old(led.View()), order, item)
  {
    hide Throws, Step;
    ghost var start := led.View();
    assert order[0..] == order;
    for i := 0 to |order|
      invariant led.Valid()
      invariant Run(start, order, item) == Run(led.View(), order[i..], item)
    {
      assert order[i..][0] == order[i] && order[i..][1..] == order[i + 1..];
      var failed := UpdateIndicator(led, item, order[i]);
      if failed {
        return true;
      }
    }
    return false;
  }

  // ---------- Any visiting order gives the same result ----------

  /** The parts of the panel that updates never touch. */
  predicate SameShape(p: Panel, q: Panel) {
    && |p| == |q|
    && forall i :: 0 <= i < |p| ==>
         (p[i].Gone? && q[i].Gone?) || (p[i].Live? && q[i].Live? && p[i].channels == q[i].channels)
  }

  /** Every driver's allocation was accepted. */
  predicate Sound(panel: Panel) {
    forall i :: 0 <= i < |panel| && panel[i].Live? ==> Pca9955.Disjoint(panel[i].channels)
  }

  /** Every panel behind a valid manager is sound. */
  lemma ValidIsSound(led: LedManager)
    requires led.Valid()
    ensures Sound(led.View())
  {}

  /** The value an indicator's update puts in register r of driver i, if any. */
  function Effect(panel: Panel, item: Item, which: Indicator, i: nat, r: nat): Option<byte> {
    var request := RequestFor(item, which);
    if request.Set? && i < |panel| && i == Owner(panel, which)
    then Pca9955.Writes(panel[i].channels[which], request.update, r)
    else None
  }

  lemma {:induction false} OwnerOfShape(p: Panel, q: Panel, which: Indicator)
    requires SameShape(p, q)
    ensures Owner(p, which) == Owner(q, which)
  {
    var i := Owner(p, which);
    assert forall j :: 0 <= j < |p| ==> Has(p[j], which) == Has(q[j], which);
    OwnerUnique(q, which, i);
  }

  lemma StepKeepsShape(panel: Panel, item: Item, which: Indicator)
    ensures SameShape(panel, Step(panel, item, which))
  {
    hide RequestFor, Pca9955.Paint;
  }

  lemma StepEffect(panel: Panel, item: Item, which: Indicator, i: nat, r: nat)
    requires i < |panel| && panel[i].Live? && r < Pca9955.NUM_REGISTERS
    ensures SameShape(panel, Step(panel, item, which))
    ensures Step(panel, item, which)[i].regs[r] ==
            match Effect(panel, item, which, i, r)
            case Some(v) => v
            case None => panel[i].regs[r]
  {
    hide RequestFor, Pca9955.Writes;
  }

  /** Channel disjointness: no register is written for two indicators. */
  lemma EffectExclusive(panel: Panel, item: Item, a: Indicator, b: Indicator, i: nat, r: nat)
    requires Sound(panel) && a != b
    requires Effect(panel, item, a, i, r).Some?
    ensures Effect(panel, item, b, i, r).None?
  {
    hide RequestFor;
  }

  lemma EffectOfShape(p: Panel, q: Panel, item: Item, which: Indicator, i: nat, r: nat)
    requires SameShape(p, q)
    ensures Effect(p, item, which, i, r) == Effect(q, item, which, i, r)
    ensures Throws(p, item, which) == Throws(q, item, which)
  {
    hide RequestFor;
    OwnerOfShape(p, q, which);
  }

  /** A run throws if and only if some visited indicator's update does. */
  lemma {:induction false} RunThrows(panel: Panel, order: seq<Indicator>, item: Item)
    ensures SameShape(panel, Run(panel, order, item).0)
    ensures Run(panel, order, item).1 <==> exists w :: w in order && Throws(panel, item, w)
    decreases |order|
  {
    hide Throws, Step;
    if order != [] && !Throws(panel, item, order[0]) {
      var next := Step(panel, item, order[0]);
      StepKeepsShape(panel, item, order[0]);
      RunThrows(next, order[1..], item);
      forall w
        ensures Throws(panel, item, w) == Throws(next, item, w)
      {
        EffectOfShape(panel, next, item, w, 0, 0);
      }
      assert forall w :: w in order <==> w == order[0] || w in order[1..];
    }
  }

  /** What a complete run leaves in one register. */
  lemma {:induction false} RunEffect(panel: Panel, order: seq<Indicator>, item: Item, i: nat, r: nat)
    requires Sound(panel) && NoDup(order) && !Run(panel, order, item).1
    requires i < |panel| && panel[i].Live? && r < Pca9955.NUM_REGISTERS
    ensures SameShape(panel, Run(panel, order, item).0)
    ensures forall w :: w in order && Effect(panel, item, w, i, r).Some? ==>
              Run(panel, order, item).0[i].regs[r] == Effect(panel, item, w, i, r).value
    ensures (forall w :: w in order ==> Effect(panel, item, w, i, r).None?) ==>
              Run(panel, order, item).0[i].regs[r] == panel[i].regs[r]
    decreases |order|
  {
    hide Throws, Step, Effect, Pca9955.Disjoint;
    RunThrows(panel, order, item);
    if order != [] {
      var first, rest := order[0], order[1..];
      var next := Step(panel, item, first);
      StepEffect(panel, item, first, i, r);
      forall w
        ensures Effect(panel, item, w, i, r) == Effect(next, item, w, i, r)
      {
        EffectOfShape(panel, next, item, w, i, r);
      }
      assert Sound(next);
      assert first !in rest by {
        assert forall k :: 0 <= k < |rest| ==> rest[k] == order[k + 1];
      }
      assert NoDup(rest) by {
        assert forall k :: 0 <= k < |rest| ==> rest[k] == order[k + 1];
      }
      RunEffect(next, rest, item, i, r);
      if Effect(panel, item, first, i, r).Some? {
        forall w | w in rest
          ensures Effect(next, item, w, i, r).None?
        {
          EffectExclusive(panel, item, first, w, i, r);
        }
      }
      assert forall w :: w in order <==> w == first || w in rest;
    }
  }

  /** Visiting the same indicators in another order throws in exactly the same cases, and
      otherwise leaves every register of every driver the same. */
  lemma OrderIndependent(panel: Panel, item: Item, p: seq<Indicator>, q: seq<Indicator>)
    requires Sound(panel) && NoDup(p) && NoDup(q)
    requires forall w :: w in p <==> w in q
    ensures Run(panel, p, item).1 == Run(panel, q, item).1
    ensures !Run(panel, p, item).1 ==> Run(panel, p, item).0 == Run(panel, q, item).0
  {
    hide Run, Effect, Throws, Pca9955.Disjoint;
    RunThrows(panel, p, item);
    RunThrows(panel, q, item);
    if !Run(panel, p, item).1 {
      var a, b := Run(panel, p, item).0, Run(panel, q, item).0;
      forall i | 0 <= i < |panel|
        ensures a[i] == b[i]
      {
        if panel[i].Live? {
          forall r | 0 <= r < Pca9955.NUM_REGISTERS
            ensures a[i].regs[r] == b[i].regs[r]
          {
            RunEffect(panel, p, item, i, r);
            RunEffect(panel, q, item, i, r);
          }
          assert a[i].regs == b[i].regs;
        }
      }
    }
  }

  // ---------- Exactly when the order shows ----------

  /** No two orders of visiting the same indicators differ in result or registers. */
  ghost predicate OrderInvisible(panel: Panel, item: Item, keys: set<Indicator>) {
    forall p, q :: Lists(p, keys) && Lists(q, keys) ==> Run(panel, p, item) == Run(panel, q, item)
  }

  /** The update throws, or it leaves every register as it is. */
  predicate Quiet(panel: Panel, item: Item, which: Indicator) {
    Throws(panel, item, which) || Step(panel, item, which) == panel
  }

  lemma {:induction false} QuietRun(panel: Panel, order: seq<Indicator>, item: Item)
    requires forall w :: w in order ==> Quiet(panel, item, w)
    ensures Run(panel, order, item).0 == panel
    decreases |order|
  {
    hide Throws, Step;
    if order != [] && !Throws(panel, item, order[0]) {
      assert Quiet(panel, item, order[0]);
      QuietRun(panel, order[1..], item);
    }
  }

  ghost function AnyOrder(keys: set<Indicator>): (order: seq<Indicator>)
    ensures Lists(order, keys)
  {
    if keys == {} then []
    else
      var w :| w in keys;
      [w] + AnyOrder(keys - {w})
  }

  /** Visited first, an update that throws hides one that changes a register; visited second, it
      does not. */
  lemma OrderShows(panel: Panel, item: Item, a: Indicator, b: Indicator, rest: seq<Indicator>)
    requires Throws(panel, item, a) && !Quiet(panel, item, b)
    ensures Run(panel, [a, b] + rest, item) == (panel, true)
    ensures Run(panel, [b, a] + rest, item) == (Step(panel, item, b), true)
    ensures Step(panel, item, b) != panel
  {
    hide Throws, Step;
    var next := Step(panel, item, b);
    StepKeepsShape(panel, item, b);
    EffectOfShape(panel, next, item, a, 0, 0);
    assert ([b, a] + rest)[1..][0] == a;
    assert Run(panel, [b, a] + rest, item) == Run(next, ([b, a] + rest)[1..], item);
  }

  lemma OrderShowsAmong(panel: Panel, item: Item, keys: set<Indicator>, a: Indicator, b: Indicator)
    requires a in keys && b in keys
    requires Throws(panel, item, a) && !Quiet(panel, item, b)
    ensures !OrderInvisible(panel, item, keys)
  {
    hide Throws, Step, Run;
    var rest := AnyOrder(keys - {a, b});
    OrderShows(panel, item, a, b, rest);
    assert Lists([a, b] + rest, keys) && Lists([b, a] + rest, keys);
  }

  lemma OrderHidden(panel: Panel, item: Item, keys: set<Indicator>, p: seq<Indicator>, q: seq<Indicator>)
    requires Sound(panel) && Lists(p, keys) && Lists(q, keys)
    requires (forall w :: w in keys ==> !Throws(panel, item, w)) || (forall w :: w in keys ==> Quiet(panel, item, w))
    ensures Run(panel, p, item) == Run(panel, q, item)
  {
    hide Throws, Step, Run, Quiet, Sound;
    OrderIndependent(panel, item, p, q);
    if Run(panel, p, item).1 {
      RunThrows(panel, p, item);
      QuietRun(panel, p, item);
      QuietRun(panel, q, item);
    }
  }

  /** The visiting order cannot be seen if and only if no update throws or every update that does
      not throw leaves all registers as they are. */
  lemma OrderInvisibleIff(panel: Panel, item: Item, keys: set<Indicator>)
    requires Sound(panel)
    ensures OrderInvisible(panel, item, keys) <==>
            || (forall w :: w in keys ==> !Throws(panel, item, w))
            || (forall w :: w in keys ==> Quiet(panel, item, w))
  {
    hide Throws, Run, Quiet, Sound, Lists;
    if (forall w :: w in keys ==> !Throws(panel, item, w)) || (forall w :: w in keys ==> Quiet(panel, item, w)) {
      forall p, q | Lists(p, keys) && Lists(q, keys)
        ensures Run(panel, p, item) == Run(panel, q, item)
      {
        OrderHidden(panel, item, keys, p, q);
      }
    } else {
      var a :| a in keys && Throws(panel, item, a);
      var b :| b in keys && !Quiet(panel, item, b);
      OrderShowsAmong(panel, item, keys, a, b);
    }
  }

  /** A payload with one value that is accepted and one that is malformed. */
  function MixedPayload(): Item {
    Map([Pair(Str("overheat"), Bool(true)), Pair(Str("error"), Null)])
  }

  lemma MixedRequests()
    ensures RequestFor(MixedPayload(), Overheat) == Set(Brightness(1.0))
    ensures RequestFor(MixedPayload(), Error) == Invalid
  {
    hide Lookup;
    var pairs := MixedPayload().pairs;
    assert |"overheat"| != |"error"|;
    FirstUnique(pairs, "overheat", Some(Bool(true))) by {
      assert KeyIs(pairs[0], "overheat");
    }
    FirstUnique(pairs, "error", Some(Null)) by {
      assert KeyIs(pairs[1], "error") && !KeyIs(pairs[0], "error");
    }
  }

  /** For such a payload the order shows: one LED may or may not have been updated before the
      malformed value was met. */
  lemma OrderShowsOnError(regs: Pca9955.Registers)
    requires regs[Pca9955.PWM0] == 0
    ensures var panel := [Live(map[Overheat := [0], Error := [1]], regs)];
            var item := MixedPayload();
            && Sound(panel)
            && Run(panel, [Overheat, Error], item).1 && Run(panel, [Error, Overheat], item).1
            && Run(panel, [Overheat, Error], item).0 != Run(panel, [Error, Overheat], item).0
  {
    hide Run, RequestFor, MixedPayload;
    var panel := [Live(map[Overheat := [0], Error := [1]], regs)];
    var item := MixedPayload();
    MixedRequests();
    assert Step(panel, item, Overheat) != panel by {
      StepEffect(panel, item, Overheat, 0, Pca9955.PWM0);
    }
    OrderShows(panel, item, Error, Overheat, []);
    assert [Error, Overheat] + [] == [Error, Overheat] && [Overheat, Error] + [] == [Overheat, Error];
  }

  /** An update changes duty cycle registers of its own indicator's channels only: never a
      current setting, an output mode or another indicator's duty cycle. */
  lemma ShowIsolated(panel: Panel, which: Indicator, u: Update, i: nat, r: nat)
    requires Sound(panel) && i < |panel| && panel[i].Live? && r < Pca9955.NUM_REGISTERS
    requires Show(panel, which, u)[i].regs[r] != panel[i].regs[r]
    ensures i == Owner(panel, which) && Pca9955.PWM0 <= r < Pca9955.PWM0 + Pca9955.NUM_CHANNELS
    ensures forall other :: other in panel[i].channels ==>
              (r - Pca9955.PWM0 in panel[i].channels[other] <==> other == which)
  {}

  // ---------- Sending: the GUI ----------

  datatype Value = On(on: bool) | Dim(level: real) | Rgb(red: real, green: real, blue: real)

  datatype Change = Change(which: Indicator, value: Value)

  /** The key under which the GUI sends an indicator; each program has its own table. */
  function GuiName(which: Indicator): string {
    match which
    case Status => "status"
    case Trigger => "trigger"
    case Overheat => "overheat"
    case Overcurrent => "overcurrent"
    case Error => "error"
    case BtnModeCc => "modeCc"
    case BtnModeCv => "modeCv"
    case BtnModeCw => "modeCw"
    case BtnModeExt => "modeExt"
    case BtnLoadOn => "loadOn"
    case BtnMenu => "menu"
  }

  /** pinballd finds an indicator under the GUI's name for another if and only if they are the
      same. */
  lemma NamesMatch(sent: Indicator, wanted: Indicator)
    ensures GuiName(sent) == KeyName(wanted) <==> sent == wanted
  {
    var s, t := GuiName(sent), KeyName(wanted);
    if s == t {
      assert |s| == |t| && s[0] == t[0] && s[|s| - 1] == t[|t| - 1];
    }
  }

  function Encode(v: Value): Item {
    match v
    case On(on) => Bool(on)
    case Dim(level) => Float(level)
    case Rgb(r, g, b) => Array([Float(r), Float(g), Float(b)])
  }

  function PairOf(c: Change): Pair {
    Pair(Str(GuiName(c.which)), Encode(c.value))
  }

  /** The map sent for a list of changes: every change is appended, repeated keys included. */
  function Payload(changes: seq<Change>): Item {
    Map(seq(|changes|, i requires 0 <= i < |changes| => PairOf(changes[i])))
  }

  method SetIndicatorState(changes: seq<Change>) returns (packet: Option<Item>)
    ensures packet == if changes == [] then None else Some(Payload(changes))
  {
    if changes == [] {
      return None;
    }
    var root: seq<Pair> := [];
    for i := 0 to |changes|
      invariant |root| == i && forall k :: 0 <= k < i ==> root[k] == PairOf(changes[k])
    {
      root := root + [PairOf(changes[i])];
    }
    assert root == Payload(changes).pairs;
    return Some(Map(root));
  }

  // ---------- The first change listed for an indicator is the one that counts ----------

  function FirstFor(changes: seq<Change>, which: Indicator): Option<Value> {
    if changes == [] then None
    else if changes[0].which == which then Some(changes[0].value)
    else FirstFor(changes[1..], which)
  }

  /** The changes without those for an indicator already listed. */
  function Firsts(changes: seq<Change>): seq<Change> {
    if changes == [] then []
    else
      var init, last := changes[..|changes| - 1], changes[|changes| - 1];
      if FirstFor(init, last.which).Some? then Firsts(init) else Firsts(init) + [last]
  }

  /** What a value means to the LEDs. */
  function Meaning(v: Value): Update {
    match v
    case On(on) => Brightness(if on then 1.0 else 0.0)
    case Dim(level) => Brightness(Clamp(level))
    case Rgb(r, g, b) => Color(r, g, b)
  }

  lemma {:induction false} LookupOfPayload(changes: seq<Change>, which: Indicator)
    ensures Get(Payload(changes), KeyName(which)) ==
            match FirstFor(changes, which)
            case None => None
            case Some(v) => Some(Encode(v))
  {
    hide KeyName, GuiName;
    if changes != [] {
      LookupOfPayload(changes[1..], which);
      assert Payload(changes).pairs[1..] == Payload(changes[1..]).pairs;
      NamesMatch(changes[0].which, which);
    }
  }

  /** pinballd reads out of the payload exactly the first change for each indicator. */
  lemma RequestOfPayload(changes: seq<Change>, which: Indicator)
    ensures RequestFor(Payload(changes), which) ==
            match FirstFor(changes, which)
            case None => Nothing
            case Some(v) => Set(Meaning(v))
  {
    hide KeyName, Payload;
    LookupOfPayload(changes, which);
  }

  lemma {:induction false} FirstForAppend(changes: seq<Change>, last: Change, which: Indicator)
    ensures FirstFor(changes + [last], which) ==
            if FirstFor(changes, which).None? && last.which == which then Some(last.value)
            else FirstFor(changes, which)
  {
    if changes == [] {
      assert (changes + [last])[1..] == [];
    } else {
      assert (changes + [last])[1..] == changes[1..] + [last];
      FirstForAppend(changes[1..], last, which);
    }
  }

  lemma {:induction false} FirstOfFirsts(changes: seq<Change>, which: Indicator)
    ensures FirstFor(Firsts(changes), which) == FirstFor(changes, which)
  {
    if changes != [] {
      var init, last := changes[..|changes| - 1], changes[|changes| - 1];
      FirstOfFirsts(init, which);
      assert changes == init + [last];
      FirstForAppend(init, last, which);
      FirstForAppend(Firsts(init), last, which);
    }
  }

  lemma {:induction false} Listed(changes: seq<Change>, j: nat)
    requires j < |changes|
    ensures FirstFor(changes, changes[j].which).Some?
  {
    if j > 0 {
      assert changes[1..][j - 1] == changes[j];
      Listed(changes[1..], j - 1);
    }
  }

  /** Firsts really lists every indicator at most once. */
  lemma {:induction false} FirstsDistinct(changes: seq<Change>)
    ensures forall j, k :: 0 <= j < k < |Firsts(changes)| ==> Firsts(changes)[j].which != Firsts(changes)[k].which
  {
    if changes != [] {
      var init, last := changes[..|changes| - 1], changes[|changes| - 1];
      FirstsDistinct(init);
      forall j | 0 <= j < |Firsts(init)|
        ensures FirstFor(init, Firsts(init)[j].which).Some?
      {
        FirstOfFirsts(init, Firsts(init)[j].which);
        Listed(Firsts(init), j);
      }
    }
  }

  /** A run depends on a payload only through the requests read from it. */
  lemma {:induction false} RunOfRequests(panel: Panel, order: seq<Indicator>, a: Item, b: Item)
    requires forall w :: RequestFor(a, w) == RequestFor(b, w)
    ensures Run(panel, order, a) == Run(panel, order, b)
    decreases |order|
  {
    hide RequestFor, Show, Refused;
    if order != [] && !Throws(panel, a, order[0]) {
      RunOfRequests(Step(panel, a, order[0]), order[1..], a, b);
    }
  }

  /** Sending a list of changes has the effect of sending only the first change listed for
      each indicator, in any visiting order, exceptions included. */
  lemma FirstChangeWins(panel: Panel, order: seq<Indicator>, changes: seq<Change>)
    ensures Run(panel, order, Payload(changes)) == Run(panel, order, Payload(Firsts(changes)))
  {
    hide RequestFor, Run, Payload;
    forall w
      ensures RequestFor(Payload(changes), w) == RequestFor(Payload(Firsts(changes)), w)
    {
      RequestOfPayload(changes, w);
      RequestOfPayload(Firsts(changes), w);
      FirstOfFirsts(changes, w);
    }
    RunOfRequests(panel, order, Payload(changes), Payload(Firsts(changes)));
  }

  /** From the GUI's list to the registers: after a complete visit the k-th channel of an
      indicator holds the duty cycle of the first change listed for it. */
  lemma DeliveredToChannel(panel: Panel, order: seq<Indicator>, changes: seq<Change>, which: Indicator, k: nat)
    requires Sound(panel) && NoDup(order) && which in order
    requires !Run(panel, order, Payload(changes)).1
    requires FirstFor(changes, which).Some? && Owner(panel, which) < |panel|
    requires k < |panel[Owner(panel, which)].channels[which]|
    ensures var i := Owner(panel, which);
            && SameShape(panel, Run(panel, order, Payload(changes)).0)
            && panel[i].channels[which][k] < Pca9955.NUM_CHANNELS
            && Run(panel, order, Payload(changes)).0[i].regs[Pca9955.PWM0 + panel[i].channels[which][k]]
               == Pca9955.Duty(Level(Meaning(FirstFor(changes, which).value), k))
               == (match FirstFor(changes, which).value
                   case On(on) => if on then 255 else 0
                   case Dim(level) => Pca9955.Duty(level)
                   case Rgb(red, green, blue) =>
                     if k == 0 then Pca9955.Duty(red) else if k == 1 then Pca9955.Duty(green) else Pca9955.Duty(blue))
  {
    hide Run, RequestFor, Payload, Pca9955.Duty, Pca9955.Disjoint;
    var i := Owner(panel, which);
    var indices := panel[i].channels[which];
    Pca9955.ChannelsValid(panel[i].channels, which);
    RequestOfPayload(changes, which);
    RunEffect(panel, order, Payload(changes), i, Pca9955.PWM0 + indices[k]);
    Pca9955.IndexOfUnique(indices, k);
    Pca9955.DutyValue(0.0);
    Pca9955.DutyValue(1.0);
    match FirstFor(changes, which).value {
      case Dim(level) => Pca9955.DutyOfClamped(level);
      case _ =>
    }
  }
}
