/** Button and touch messages on their way from the drivers to the GUI's event queue. */
module GuiEvents {
  import opened Bytes
  import opened Cbor
  import Buttons
  import Ft6336

  type int16 = x: int | -0x8000 <= x < 0x8000

  /** A place on the screen, with the sign the GUI gives it. */
  datatype Spot = Spot(x: int16, y: int16)

  function AsInt16(v: uint16): int16 {
    if v < 0x8000 then v else v - 0x1_0000
  }

  function SpotOf(pos: Ft6336.Position): Spot {
    Spot(AsInt16(pos.x), AsInt16(pos.y))
  }

  datatype Event =
    | ButtonEvent(button: Buttons.Button, down: bool)
    | TouchEvent(pos: Spot, down: bool)

  // ---------- Buttons ----------

  function ButtonName(b: Buttons.Button): string {
    match b
    case ModeCc => "modeCc"
    case ModeCv => "modeCv"
    case ModeCw => "modeCw"
    case ModeExt => "modeExt"
    case LoadOn => "loadOn"
    case Menu => "menu"
    case Select => "select"
  }

  /** The names, one by one. */
  lemma ButtonNames()
    ensures ButtonName(Buttons.ModeCc) == "modeCc" && ButtonName(Buttons.ModeCv) == "modeCv"
    ensures ButtonName(Buttons.ModeCw) == "modeCw" && ButtonName(Buttons.ModeExt) == "modeExt"
    ensures ButtonName(Buttons.LoadOn) == "loadOn" && ButtonName(Buttons.Menu) == "menu"
    ensures ButtonName(Buttons.Select) == "select"
  {}

  function ButtonPair(b: Buttons.Button, down: bool): Pair {
    Pair(Str(ButtonName(b)), Bool(down))
  }

  function ButtonMessage(changes: map<Buttons.Button, bool>, order: seq<Buttons.Button>): Item
    requires forall i :: 0 <= i < |order| ==> order[i] in changes
  {
    Map([Pair(Str("type"), Str("button")),
         Pair(Str("buttonData"),
              Map(seq(|order|, i requires 0 <= i < |order| => ButtonPair(order[i], changes[order[i]]))))])
  }

  /** The message for one change. */
  lemma ButtonMessageLayout(b: Buttons.Button, down: bool)
    ensures ButtonMessage(map[b := down], [b]) ==
            Map([Pair(Str("type"), Str("button")),
                 Pair(Str("buttonData"), Map([Pair(Str(ButtonName(b)), Bool(down))]))])
  {
    hide ButtonName;
    var pairs := ButtonMessage(map[b := down], [b]).pairs;
    assert pairs[1].value.pairs == [Pair(Str(ButtonName(b)), Bool(down))];
  }

  method SendUpdate(changes: map<Buttons.Button, bool>, order: seq<Buttons.Button>)
    returns (threw: bool, root: Item)
    requires Lists(order, changes.Keys)
    ensures threw <==> changes == map[]
    ensures !threw ==> (forall i :: 0 <= i < |order| ==> order[i] in changes) && root == ButtonMessage(changes, order)
  {
    if changes == map[] {
      return true, Null;
    }
    var pairs: seq<Pair> := [];
    assert forall i :: 0 <= i < |order| ==> order[i] in order;
    for i := 0 to |order|
      invariant |pairs| == i && forall k :: 0 <= k < i ==> pairs[k] == ButtonPair(order[k], changes[order[k]])
    {
      pairs := pairs + [ButtonPair(order[i], changes[order[i]])];
    }
    assert pairs == ButtonMessage(changes, order).pairs[1].value.pairs;
    return false, Map([Pair(Str("type"), Str("button")), Pair(Str("buttonData"), Map(pairs))]);
  }

  function EventFor(pair: Pair): seq<Event> {
    if pair.key == Str("menu") && pair.value.Bool? then [ButtonEvent(Buttons.Menu, pair.value.on)]
    else if pair.key == Str("select") && pair.value.Bool? then [ButtonEvent(Buttons.Select, pair.value.on)]
    else []
  }

  /** Events up to the first malformed pair, and whether there is one. */
  function ButtonEvents(pairs: seq<Pair>): (seq<Event>, bool) {
    if pairs == [] then ([], false)
    else if !pairs[0].key.Str? || !pairs[0].value.Bool? then ([], true)
    else
      var (rest, threw) := ButtonEvents(pairs[1..]);
      (EventFor(pairs[0]) + rest, threw)
  }

  /** What each pair of a button message does. */
  lemma ButtonPairRead(key: Item, value: Item, rest: seq<Pair>)
    ensures var (events, threw) := ButtonEvents([Pair(key, value)] + rest);
            if !key.Str? || !value.Bool? then events == [] && threw
            else
              && threw == ButtonEvents(rest).1
              && events == (if key == Str("menu") then [ButtonEvent(Buttons.Menu, value.on)]
                            else if key == Str("select") then [ButtonEvent(Buttons.Select, value.on)]
                            else []) + ButtonEvents(rest).0
  {
    assert ([Pair(key, value)] + rest)[1..] == rest;
  }

  /** What the GUI makes of a button message. */
  function ButtonResult(root: Item): (seq<Event>, bool) {
    match Get(root, "buttonData")
    case Some(Map(pairs)) => ButtonEvents(pairs)
    case _ => ([], true)
  }

  method ProcessUiButtonEvent(root: Item) returns (threw: bool, events: seq<Event>)
    ensures (events, threw) == ButtonResult(root)
  {
    hide EventFor, Lookup;
    var buttonData := CborMapGet(root, "buttonData");
    events := [];
    if buttonData == None || !buttonData.value.Map? {
      return true, [];
    }
    var buttons := buttonData.value.pairs;
    assert buttons[0..] == buttons;
    for j := 0 to |buttons|
      invariant ButtonEvents(buttons).0 == events + ButtonEvents(buttons[j..]).0
      invariant ButtonEvents(buttons).1 == ButtonEvents(buttons[j..]).1
    {
      assert buttons[j..][0] == buttons[j] && buttons[j..][1..] == buttons[j + 1..];
      if !buttons[j].key.Str? || !buttons[j].value.Bool? {
        assert events + [] == events;
        return true, events;
      }
      assert events + (EventFor(buttons[j]) + ButtonEvents(buttons[j + 1..]).0)
          == events + EventFor(buttons[j]) + ButtonEvents(buttons[j + 1..]).0;
      events := events + EventFor(buttons[j]);
    }
    assert events + [] == events;
    return false, events;
  }

  /** The GUI's idea of a button after a list of events, starting from what it believed. */
  function Believed(events: seq<Event>, b: Buttons.Button, before: bool): bool {
    if events == [] then before
    else
      var last := events[|events| - 1];
      if last.ButtonEvent? && last.button == b then last.down else Believed(events[..|events| - 1], b, before)
  }

  predicate ForGui(b: Buttons.Button) {
    b.Menu? || b.Select?
  }

  function EventsOfList(order: seq<Buttons.Button>, changes: map<Buttons.Button, bool>): seq<Event>
    requires forall i :: 0 <= i < |order| ==> order[i] in changes
  {
    if order == [] then []
    else (if ForGui(order[0]) then [ButtonEvent(order[0], changes[order[0]])] else [])
         + EventsOfList(order[1..], changes)
  }

  lemma EventForButton(b: Buttons.Button, down: bool)
    ensures EventFor(ButtonPair(b, down)) == if ForGui(b) then [ButtonEvent(b, down)] else []
  {
    assert |"menu"| == 4 && |"select"| == 6 && |"modeCc"| == 6 && |"modeCv"| == 6 && |"modeCw"| == 6;
    assert |"modeExt"| == 7 && |"loadOn"| == 6 && "loadOn"[0] != "select"[0] && "modeCc"[0] != "select"[0];
    assert "modeCv"[0] != "select"[0] && "modeCw"[0] != "select"[0];
  }

  lemma {:induction false} MessageEvents(order: seq<Buttons.Button>, changes: map<Buttons.Button, bool>)
    requires forall i :: 0 <= i < |order| ==> order[i] in changes
    ensures ButtonEvents(seq(|order|, i requires 0 <= i < |order| => ButtonPair(order[i], changes[order[i]])))
            == (EventsOfList(order, changes), false)
  {
    hide ButtonName, EventFor;
    var pairs := seq(|order|, i requires 0 <= i < |order| => ButtonPair(order[i], changes[order[i]]));
    if order != [] {
      var rest := order[1..];
      MessageEvents(rest, changes);
      assert pairs[1..] == seq(|rest|, i requires 0 <= i < |rest| => ButtonPair(rest[i], changes[rest[i]]));
      EventForButton(order[0], changes[order[0]]);
    }
  }

  lemma {:induction false} BelievedConcat(a: seq<Event>, c: seq<Event>, b: Buttons.Button, before: bool)
    ensures Believed(a + c, b, before) == Believed(c, b, Believed(a, b, before))
  {
    if c == [] {
      assert a + c == a;
    } else {
      assert (a + c)[..|a + c| - 1] == a + c[..|c| - 1];
      BelievedConcat(a, c[..|c| - 1], b, before);
    }
  }

  /** Whatever the iteration order, the GUI ends up believing what the change event says. */
  lemma {:induction false} BelievedAfterMessage(order: seq<Buttons.Button>, changes: map<Buttons.Button, bool>,
                                                b: Buttons.Button, before: bool)
    requires forall i :: 0 <= i < |order| ==> order[i] in changes
    requires ForGui(b)
    ensures Believed(EventsOfList(order, changes), b, before) ==
            if b in order then changes[b] else before
  {
    if order != [] {
      var first := if ForGui(order[0]) then [ButtonEvent(order[0], changes[order[0]])] else [];
      var rest := order[1..];
      BelievedConcat(first, EventsOfList(rest, changes), b, before);
      BelievedAfterMessage(rest, changes, b, Believed(first, b, before));
      assert b in order <==> b == order[0] || b in rest;
      if first != [] { assert first[..0] == []; }
    }
  }

  /** The receiver understands every message the sender makes. */
  lemma ButtonMessageUnderstood(changes: map<Buttons.Button, bool>, order: seq<Buttons.Button>)
    requires forall i :: 0 <= i < |order| ==> order[i] in changes
    ensures ButtonResult(ButtonMessage(changes, order)) == (EventsOfList(order, changes), false)
  {
    hide ButtonPair, EventFor;
    var pairs := ButtonMessage(changes, order).pairs;
    assert |"type"| == 4 && |"buttonData"| == 10;
    assert KeyIs(pairs[1], "buttonData");
    FirstUnique(pairs, "buttonData", Some(pairs[1].value));
    MessageEvents(order, changes);
  }

  /** All events the GUI reads out of the messages for a sequence of change events, each sent in
      its own order. */
  function EventsOfRun(events: seq<map<Buttons.Button, bool>>, orders: seq<seq<Buttons.Button>>): seq<Event>
    requires |orders| == |events|
    requires forall n, i :: 0 <= n < |events| && 0 <= i < |orders[n]| ==> orders[n][i] in events[n]
  {
    if events == [] then []
    else EventsOfRun(events[..|events| - 1], orders[..|events| - 1])
         + ButtonResult(ButtonMessage(events[|events| - 1], orders[|events| - 1])).0
  }

  lemma {:induction false} BelievedAfterRun(start: map<Buttons.Button, bool>, events: seq<map<Buttons.Button, bool>>,
                                            orders: seq<seq<Buttons.Button>>, b: Buttons.Button)
    requires |orders| == |events| && forall n :: 0 <= n < |events| ==> Lists(orders[n], events[n].Keys)
    requires forall n, i :: 0 <= n < |events| && 0 <= i < |orders[n]| ==> orders[n][i] in events[n]
    requires ForGui(b) && b in start
    ensures b in Buttons.Replay(start, events)
    ensures Believed(EventsOfRun(events, orders), b, start[b]) == Buttons.Replay(start, events)[b]
  {
    hide ButtonResult, ButtonMessage;
    if events != [] {
      var n := |events| - 1;
      BelievedAfterRun(start, events[..n], orders[..n], b);
      var before := EventsOfRun(events[..n], orders[..n]);
      ButtonMessageUnderstood(events[n], orders[n]);
      BelievedConcat(before, EventsOfList(orders[n], events[n]), b, start[b]);
      BelievedAfterMessage(orders[n], events[n], b, Believed(before, b, start[b]));
    }
  }

  /** From the lines to the GUI: after any sequence of polls, the last event that the GUI reads out
      of the driver's messages for a button it handles says whether that button is held. */
  lemma GuiKnowsButtons(cfg: Buttons.Config, polls: seq<Buttons.Bits>, orders: seq<seq<Buttons.Button>>, b: Buttons.Button)
    requires Buttons.Valid(cfg) && Buttons.Connected(cfg, b) && ForGui(b)
    requires |orders| == |Buttons.Events(cfg, polls)|
    requires forall n :: 0 <= n < |orders| ==> Lists(orders[n], Buttons.Events(cfg, polls)[n].Keys)
    requires forall n, i :: 0 <= n < |orders| && 0 <= i < |orders[n]| ==> orders[n][i] in Buttons.Events(cfg, polls)[n]
    ensures var initially := Buttons.Held(cfg, Buttons.NoBits())[b];
            Believed(EventsOfRun(Buttons.Events(cfg, polls), orders), b, initially) ==
            Buttons.Held(cfg, Buttons.StateAfter(cfg, polls))[b]
  {
    hide Buttons.Events, Buttons.Replay, Buttons.Valid;
    Buttons.EventsRebuildState(cfg, polls);
    BelievedAfterRun(Buttons.Held(cfg, Buttons.NoBits()), Buttons.Events(cfg, polls), orders, b);
  }

  // ---------- Touch ----------

  function PositionItem(pos: Option<Ft6336.Position>): Item {
    match pos
    case None => Null
    case Some(p) => Map([Pair(Str("position"), Array([Uint(p.x), Uint(p.y)]))])
  }

  function TouchMessage(m: Ft6336.Message): Item {
    Map([Pair(Str("type"), Str("touch")),
         Pair(Str("touchData"), Map([Pair(Uint(0), PositionItem(m.first)), Pair(Uint(1), PositionItem(m.second))]))])
  }

  /** The message for an update: touches 0 and 1, each null or with its position. */
  lemma TouchMessageLayout(p: Ft6336.Position)
    ensures TouchMessage(Ft6336.Message(Some(p), None)) ==
            Map([Pair(Str("type"), Str("touch")),
                 Pair(Str("touchData"), Map([Pair(Uint(0), Map([Pair(Str("position"), Array([Uint(p.x), Uint(p.y)]))])),
                                             Pair(Uint(1), Null)]))])
    ensures TouchMessage(Ft6336.Message(None, Some(p))) ==
            Map([Pair(Str("type"), Str("touch")),
                 Pair(Str("touchData"), Map([Pair(Uint(0), Null),
                                             Pair(Uint(1), Map([Pair(Str("position"), Array([Uint(p.x), Uint(p.y)]))]))]))])
  {}

  /** An array of at least two numbers, cut to sixteen bits each. */
  function PositionOf(value: Item): Option<Spot> {
    match Get(value, "position")
    case Some(Array(items)) =>
      if |items| >= 2 && items[0].Uint? && items[1].Uint?
      then Some(Spot(AsInt16(items[0].value % 0x1_0000), AsInt16(items[1].value % 0x1_0000))) else None
    case _ => None
  }

  predicate WellTyped(pair: Pair) {
    pair.key.Uint? && (pair.value.Map? || pair.value.Bool? || pair.value.Float? || pair.value.Null?)
  }

  /** Only touch 0 counts. A touch that went up is reported where it was last seen. */
  function TouchEvents(pairs: seq<Pair>, lastPos: Spot): (seq<Event>, bool) {
    if pairs == [] then ([], false)
    else if !WellTyped(pairs[0]) then ([], true)
    else if pairs[0].key.value != 0 then TouchEvents(pairs[1..], lastPos)
    else if pairs[0].value.Null? then
      var (rest, threw) := TouchEvents(pairs[1..], lastPos);
      ([TouchEvent(lastPos, false)] + rest, threw)
    else
      var pos := PositionOf(pairs[0].value);
      if pos.None? then ([], true)
      else
        var (rest, threw) := TouchEvents(pairs[1..], pos.value);
        ([TouchEvent(pos.value, true)] + rest, threw)
  }

  /** What each pair of a touch message does. */
  lemma TouchPairRead(key: Item, value: Item, rest: seq<Pair>, lastPos: Spot)
    ensures var (events, threw) := TouchEvents([Pair(key, value)] + rest, lastPos);
            if !key.Uint? || value.Uint? || value.Str? || value.Array? then events == [] && threw
            else if key.value > 0 then (events, threw) == TouchEvents(rest, lastPos)
            else if value.Null? then
              && events == [TouchEvent(lastPos, false)] + TouchEvents(rest, lastPos).0
              && threw == TouchEvents(rest, lastPos).1
            else if value.Bool? || value.Float? then events == [] && threw
            else
              match Lookup(value.pairs, "position")
              case Some(Array(items)) =>
                if |items| < 2 || !items[0].Uint? || !items[1].Uint? then events == [] && threw
                else
                  && events != [] && events[0].TouchEvent? && events[0].down
                  && (events[0].pos.x - items[0].value) % 65536 == 0
                  && (events[0].pos.y - items[1].value) % 65536 == 0
                  && events[1..] == TouchEvents(rest, events[0].pos).0
                  && threw == TouchEvents(rest, events[0].pos).1
              case _ => events == [] && threw
  {
    hide Lookup;
    assert ([Pair(key, value)] + rest)[1..] == rest;
    if key.Uint? && value.Map? && PositionOf(value).Some? {
      var pos := PositionOf(value).value;
      assert ([TouchEvent(pos, true)] + TouchEvents(rest, pos).0)[1..] == TouchEvents(rest, pos).0;
    }
  }

  /** The position remembered after a message: it survives errors further on. */
  function LastSeen(pairs: seq<Pair>, lastPos: Spot): Spot {
    if pairs == [] || !WellTyped(pairs[0]) then lastPos
    else if pairs[0].key.value != 0 || pairs[0].value.Null? then LastSeen(pairs[1..], lastPos)
    else match PositionOf(pairs[0].value)
      case None => lastPos
      case Some(pos) => LastSeen(pairs[1..], pos)
  }

  /** What the GUI makes of a touch message, and the position it remembers. */
  function TouchResult(root: Item, lastPos: Spot): (seq<Event>, bool, Spot) {
    match Get(root, "touchData")
    case Some(Map(pairs)) =>
      var (events, threw) := TouchEvents(pairs, lastPos);
      (events, threw, LastSeen(pairs, lastPos))
    case _ => ([], true, lastPos)
  }

  class TouchReceiver {
    var lastTouchPos: Spot

    constructor ()
      ensures lastTouchPos == Spot(0, 0)
    {
      lastTouchPos := Spot(0, 0);
    }

    method ProcessUiTouchEvent(root: Item) returns (threw: bool, events: seq<Event>)
      modifies this
      ensures (events, threw, lastTouchPos) == TouchResult(root, old(lastTouchPos))
    {
      hide PositionOf;
      var touchData := CborMapGet(root, "touchData");
      events := [];
      if touchData == None || !touchData.value.Map? {
        return true, [];
      }
      var touches := touchData.value.pairs;
      assert touches[0..] == touches;
      for j := 0 to |touches|
        invariant TouchEvents(touches, old(lastTouchPos)).0 == events + TouchEvents(touches[j..], lastTouchPos).0
        invariant TouchEvents(touches, old(lastTouchPos)).1 == TouchEvents(touches[j..], lastTouchPos).1
        invariant LastSeen(touches, old(lastTouchPos)) == LastSeen(touches[j..], lastTouchPos)
      {
        assert touches[j..][0] == touches[j] && touches[j..][1..] == touches[j + 1..];
        if !WellTyped(touches[j]) {
          assert events + [] == events;
          return true, events;
        }
        if touches[j].key.value != 0 {
          continue;
        }
        var event;
        if touches[j].value.Null? {
          event := TouchEvent(lastTouchPos, false);
        } else {
          var pos := PositionOf(touches[j].value);
          if pos == None {
            assert events + [] == events;
            return true, events;
          }
          lastTouchPos := pos.value;
          event := TouchEvent(pos.value, true);
        }
        assert events + ([event] + TouchEvents(touches[j + 1..], lastTouchPos).0)
            == events + [event] + TouchEvents(touches[j + 1..], lastTouchPos).0;
        events := events + [event];
      }
      assert events + [] == events;
      return false, events;
    }
  }

  /** Where the last of some events put the finger; before them it was at lastPos. */
  function LastDown(events: seq<Event>, lastPos: Spot): Spot {
    if events == [] then lastPos
    else
      var last := events[|events| - 1];
      if last.TouchEvent? && last.down then last.pos else LastDown(events[..|events| - 1], lastPos)
  }

  lemma {:induction false} LastDownConcat(a: seq<Event>, b: seq<Event>, lastPos: Spot)
    ensures LastDown(a + b, lastPos) == LastDown(b, LastDown(a, lastPos))
  {
    if b == [] {
      assert a + b == a;
    } else {
      assert (a + b)[..|a + b| - 1] == a + b[..|b| - 1];
      LastDownConcat(a, b[..|b| - 1], lastPos);
    }
  }

  /** Every release is reported where the finger was last put down. */
  ghost predicate ReleasedInPlace(events: seq<Event>, lastPos: Spot) {
    forall i :: 0 <= i < |events| && events[i].TouchEvent? && !events[i].down ==>
      events[i].pos == LastDown(events[..i], lastPos)
  }

  lemma ReleasedInPlaceConcat(a: seq<Event>, b: seq<Event>, lastPos: Spot)
    requires ReleasedInPlace(a, lastPos) && ReleasedInPlace(b, LastDown(a, lastPos))
    ensures ReleasedInPlace(a + b, lastPos)
  {
    hide LastDown;
    forall i | 0 <= i < |a + b| && (a + b)[i].TouchEvent? && !(a + b)[i].down
      ensures (a + b)[i].pos == LastDown((a + b)[..i], lastPos)
    {
      if i < |a| {
        assert (a + b)[..i] == a[..i];
      } else {
        assert (a + b)[..i] == a + b[..i - |a|];
        LastDownConcat(a, b[..i - |a|], lastPos);
      }
    }
  }

  lemma NoTouchEvents(lastPos: Spot)
    ensures LastDown([], lastPos) == lastPos && ReleasedInPlace([], lastPos)
  {}

  lemma OneTouchEvent(e: Event, lastPos: Spot)
    requires e.TouchEvent? && (e.down || e.pos == lastPos)
    ensures ReleasedInPlace([e], lastPos)
    ensures LastDown([e], lastPos) == e.pos
  {
    assert [e][..0] == [];
  }

  /** Whatever the message, malformed ones included: the receiver remembers where the last press
      it reported was, and reports every release there. */
  lemma {:induction false} TouchEventsInPlace(pairs: seq<Pair>, lastPos: Spot)
    ensures LastSeen(pairs, lastPos) == LastDown(TouchEvents(pairs, lastPos).0, lastPos)
    ensures ReleasedInPlace(TouchEvents(pairs, lastPos).0, lastPos)
  {
    hide PositionOf, LastDown, ReleasedInPlace;
    NoTouchEvents(lastPos);
    if pairs != [] && WellTyped(pairs[0]) {
      if pairs[0].key.value != 0 {
        TouchEventsInPlace(pairs[1..], lastPos);
      } else if pairs[0].value.Null? || PositionOf(pairs[0].value).Some? {
        var e := if pairs[0].value.Null? then TouchEvent(lastPos, false)
                 else TouchEvent(PositionOf(pairs[0].value).value, true);
        var rest := TouchEvents(pairs[1..], e.pos).0;
        TouchEventsInPlace(pairs[1..], e.pos);
        OneTouchEvent(e, lastPos);
        LastDownConcat([e], rest, lastPos);
        ReleasedInPlaceConcat([e], rest, lastPos);
      }
    }
  }

  /** All events read out of the messages a receiver got, and the position it remembers in the
      end. */
  function TouchRun(roots: seq<Item>, lastPos: Spot): (seq<Event>, Spot) {
    if roots == [] then ([], lastPos)
    else
      var (events, seen) := TouchRun(roots[..|roots| - 1], lastPos);
      var (more, _, last) := TouchResult(roots[|roots| - 1], seen);
      (events + more, last)
  }

  lemma TouchResultInPlace(root: Item, lastPos: Spot)
    ensures var (events, threw, seen) := TouchResult(root, lastPos);
            seen == LastDown(events, lastPos) && ReleasedInPlace(events, lastPos)
  {
    hide LastDown, ReleasedInPlace, TouchEvents, LastSeen;
    NoTouchEvents(lastPos);
    match Get(root, "touchData") {
      case Some(Map(pairs)) =>
        TouchEventsInPlace(pairs, lastPos);
      case _ =>
    }
  }

  /** Over any sequence of messages every release is where the last press was. */
  lemma {:induction false} ReleaseFollowsPress(roots: seq<Item>, lastPos: Spot)
    ensures TouchRun(roots, lastPos).1 == LastDown(TouchRun(roots, lastPos).0, lastPos)
    ensures ReleasedInPlace(TouchRun(roots, lastPos).0, lastPos)
  {
    hide TouchResult, LastDown, ReleasedInPlace;
    if roots == [] {
      NoTouchEvents(lastPos);
    } else {
      var init, last := roots[..|roots| - 1], roots[|roots| - 1];
      ReleaseFollowsPress(init, lastPos);
      var (events, seen) := TouchRun(init, lastPos);
      TouchResultInPlace(last, seen);
      LastDownConcat(events, TouchResult(last, seen).0, lastPos);
      ReleasedInPlaceConcat(events, TouchResult(last, seen).0, lastPos);
    }
  }

  lemma PositionUnderstood(p: Ft6336.Position)
    ensures PositionOf(PositionItem(Some(p))) == Some(SpotOf(p))
  {
    var pairs := PositionItem(Some(p)).pairs;
    assert KeyIs(pairs[0], "position");
    FirstUnique(pairs, "position", Some(pairs[0].value));
  }

  function EventOf(m: Ft6336.Message, lastPos: Spot): Event {
    match m.first
    case Some(pos) => TouchEvent(SpotOf(pos), true)
    case None => TouchEvent(lastPos, false)
  }

  /** An update becomes one GUI event: down at the first touch's position, or up. */
  lemma TouchMessageUnderstood(m: Ft6336.Message, lastPos: Spot)
    ensures var e := EventOf(m, lastPos);
            TouchResult(TouchMessage(m), lastPos) == ([e], false, e.pos)
  {
    var pairs := TouchMessage(m).pairs;
    assert |"type"| == 4 && |"touchData"| == 9;
    assert KeyIs(pairs[1], "touchData");
    FirstUnique(pairs, "touchData", Some(pairs[1].value));
    var inner := pairs[1].value.pairs;
    assert inner[1..][1..] == [] && inner[1..][0] == inner[1];
    if m.first.Some? {
      PositionUnderstood(m.first.value);
    }
    var event := EventOf(m, lastPos);
    assert [event] + [] == [event];
    assert TouchEvents(inner[1..], event.pos) == ([], false) && LastSeen(inner[1..], event.pos) == event.pos;
  }

  /** The messages that the touch driver sends over a sequence of polls. */
  function Messages(start: Ft6336.State, polls: seq<seq<Ft6336.Point>>): seq<Item>
    requires Ft6336.Shaped(start) && Ft6336.AllReadable(polls)
  {
    if polls == [] then []
    else
      var init, last := polls[..|polls| - 1], polls[|polls| - 1];
      Messages(start, init) +
      match Ft6336.Polled(Ft6336.StateAfter(start, init), last).1
      case Update(m) => [TouchMessage(m)]
      case _ => []
  }

  /** Where the finger is, as far as the GUI has been told. */
  function FingerAt(events: seq<Event>): Option<Spot> {
    if events == [] then None
    else
      var last := events[|events| - 1];
      if last.ButtonEvent? then FingerAt(events[..|events| - 1])
      else if last.down then Some(last.pos)
      else None
  }

  function FirstTouch(points: seq<Ft6336.Point>): Option<Spot> {
    if points == [] then None else Some(SpotOf(points[0].pos))
  }

  /** From the panel to the GUI: as long as touch ids agree with slots, after any sequence of polls
      the events that the GUI reads out of the driver's messages leave the finger exactly where the
      first touch is, or lifted if there is none. */
  lemma {:induction false} GuiFollowsTouch(start: Ft6336.State, polls: seq<seq<Ft6336.Point>>, lastPos: Spot)
    requires Ft6336.Fresh(start) && Ft6336.AllReadable(polls)
    requires forall i :: 0 <= i < |polls| ==> Ft6336.InPlace(polls[i])
    ensures FingerAt(TouchRun(Messages(start, polls), lastPos).0) == FirstTouch(Ft6336.LastPoll(polls))
  {
    hide Ft6336.Polled, Ft6336.StateAfter, Ft6336.InPlace, TouchResult, TouchMessage;
    if polls != [] {
      var init, last := polls[..|polls| - 1], polls[|polls| - 1];
      GuiFollowsTouch(start, init, lastPos);
      Ft6336.UpdatesAreTrue(start, init, last);
      var sent := Messages(start, init);
      var m := Ft6336.Truth(last);
      var (events, seen) := TouchRun(sent, lastPos);
      TouchMessageUnderstood(m, seen);
      assert (sent + [TouchMessage(m)])[..|sent|] == sent;
      assert sent + [] == sent;
    }
  }
}
