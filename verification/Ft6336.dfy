/** The FT6336 touch controller driver: two slots, touch ids and the updates it sends. */
module Ft6336 {
  import opened Bytes

  datatype Position = Position(x: uint16, y: uint16)

  /** One touch as the controller reports it, in the slot it occupies. */
  datatype Point = Point(id: nat, pos: Position)

  const NO_ID: nat := 0xff

  /** A twelve-bit coordinate from its two registers. */
  function Coordinate(high: byte, low: byte): uint16 {
    high % 0x10 * 0x100 + low
  }

  type Quarters = x: int | 0 <= x < 4

  /** How the panel is mounted: its height, and its rotation in units of 90 degrees. */
  datatype Mounting = Mounting(height: uint16, rotation: Quarters)

  function Swapped(pos: Position): Position {
    Position(pos.y, pos.x)
  }

  /** The code as it is: half a turn mirrors one axis only. Differences wrap at sixteen bits. */
  function Rotated(m: Mounting, pos: Position): Position {
    var flipped := Position(pos.x, (m.height - pos.y) % 0x1_0000);
    match m.rotation
    case 1 => Swapped(pos)
    case 2 => flipped
    case 3 => Swapped(flipped)
    case _ => pos
  }

  /** The rotation that takes a position back. */
  function RotatedBack(m: Mounting, pos: Position): Position {
    if m.rotation == 3 then Rotated(m.(rotation := 2), Swapped(pos)) else Rotated(m, pos)
  }

  lemma DifferenceUndone(h: uint16, y: uint16)
    ensures (h - (h - y) % 0x1_0000) % 0x1_0000 == y
  {}

  lemma RotationUndone(m: Mounting, pos: Position)
    ensures RotatedBack(m, Rotated(m, pos)) == pos
    ensures Rotated(m, RotatedBack(m, pos)) == pos
  {
    DifferenceUndone(m.height, pos.x);
    DifferenceUndone(m.height, pos.y);
  }

  /** Slot data as read from the six registers of a point. */
  function DecodedPoint(m: Mounting, reg: seq<byte>): Point
    requires |reg| == 6
  {
    var raw := Position(Coordinate(reg[0], reg[1]), Coordinate(reg[2], reg[3]));
    Point(reg[2] / 0x10, Rotated(m, raw))
  }

  function PointsOf(m: Mounting, status: byte, buffer: seq<byte>): seq<Point>
    requires |buffer| == 12
  {
    if status % 0x10 == 0 then []
    else if status % 0x10 == 1 then [DecodedPoint(m, buffer[..6])]
    else [DecodedPoint(m, buffer[..6]), DecodedPoint(m, buffer[6..])]
  }

  /** Six registers hold the event and a coordinate, the id and the other coordinate, and two more
      bytes; the coordinates come out as the rotation says. */
  lemma PointRead(m: Mounting, x: nat, y: nat, id: nat, event: nat, unused: nat, weight: byte, misc: byte)
    requires x < 0x1000 && y < 0x1000 && id < 0x10 && event < 4 && unused < 4
    ensures var reg: seq<byte> := [event * 0x40 + unused * 0x10 + x / 0x100, x % 0x100,
                                   id * 0x10 + y / 0x100, y % 0x100, weight, misc];
            var flipped := if y <= m.height then m.height - y else m.height - y + 0x1_0000;
            DecodedPoint(m, reg) ==
            match m.rotation
            case 0 => Point(id, Position(x, y))
            case 1 => Point(id, Position(y, x))
            case 2 => Point(id, Position(x, flipped))
            case _ => Point(id, Position(flipped, x))
  {
    var h := x / 0x100;
    assert (event * 0x40 + unused * 0x10 + h) % 0x10 == h;
    assert (id * 0x10 + y / 0x100) / 0x10 == id && (id * 0x10 + y / 0x100) % 0x10 == y / 0x100;
  }

  /** The low four bits of the status count the points; the first six registers are the first. */
  lemma PointsRead(m: Mounting, high: nat, first: seq<byte>, second: seq<byte>)
    requires high < 0x10 && |first| == 6 && |second| == 6
    ensures PointsOf(m, high * 0x10, first + second) == []
    ensures PointsOf(m, high * 0x10 + 1, first + second) == [DecodedPoint(m, first)]
    ensures PointsOf(m, high * 0x10 + 2, first + second) == [DecodedPoint(m, first), DecodedPoint(m, second)]
  {
    hide DecodedPoint;
    assert (first + second)[..6] == first && (first + second)[6..] == second;
    assert (high * 0x10) % 0x10 == 0 && (high * 0x10 + 1) % 0x10 == 1 && (high * 0x10 + 2) % 0x10 == 2;
  }

  /** A touch update: for each touch index its position, or null. */
  datatype Message = Message(first: Option<Position>, second: Option<Position>)

  datatype State = State(ids: seq<nat>, positions: seq<Position>, has: seq<bool>)

  predicate Shaped(s: State) {
    |s.ids| == 2 && |s.positions| == 2 && |s.has| == 2
  }

  // ---------- One poll, on values ----------

  /** The slot is looked for among the touch ids, but only in the first place. */
  function Cleared(s: State, point: nat): (t: State)
    requires Shaped(s) && point < 2
    ensures Shaped(t)
  {
    var idx := if s.ids[0] == point then 0 else 1;
    s.(has := s.has[idx := false], ids := s.ids[idx := NO_ID])
  }

  /** Ids index a two-entry table without a check. */
  function Taken(s: State, slot: nat, p: Point): (t: State)
    requires Shaped(s) && slot < 2 && p.id < 2
    ensures Shaped(t)
  {
    s.(ids := s.ids[p.id := slot], positions := s.positions[slot := p.pos], has := s.has[slot := true])
  }

  /** An entry with data whose stored slot number is neither 0xff nor a slot. */
  predicate BadEntry(s: State, i: nat)
    requires Shaped(s) && i < 2
  {
    s.has[i] && s.ids[i] != NO_ID && s.ids[i] >= 2
  }

  function Entry(s: State, i: nat): Option<Position>
    requires Shaped(s) && i < 2 && !BadEntry(s, i)
  {
    if s.has[i] && s.ids[i] != NO_ID then Some(s.positions[s.ids[i]]) else None
  }

  /** What a poll sends: nothing, an update, or an exception from the position table. Wild: an id
      was written outside the id table, and what follows is undefined. */
  datatype Sent = Silent | Update(message: Message) | Failed | Wild

  function Report(s: State): Sent
    requires Shaped(s)
  {
    if BadEntry(s, 0) || BadEntry(s, 1) then Failed else Update(Message(Entry(s, 0), Entry(s, 1)))
  }

  predicate Readable(points: seq<Point>) {
    |points| <= 2 && forall i :: 0 <= i < |points| ==> points[i].id < 2
  }

  function Polled(s: State, points: seq<Point>): (r: (State, Sent))
    requires Shaped(s) && Readable(points)
    ensures Shaped(r.0)
  {
    if points == [] then
      var s1 := if s.has[0] then Cleared(s, 0) else s;
      var s2 := if s1.has[1] then Cleared(s1, 1) else s1;
      (s2, if s.has[0] || s1.has[1] then Report(s2) else Silent)
    else
      var s1 := Taken(s, 0, points[0]);
      var s2 := if |points| == 2 then Taken(s1, 1, points[1])
                else if s1.has[1] then Cleared(s1, 1) else s1;
      (s2, Report(s2))
  }

  // ---------- The driver ----------

  class Ft6336 {
    const mounting: Mounting
    var touchIds: seq<nat>
    var touchPositions: seq<Position>
    var p1HasData: bool
    var p2HasData: bool

    function View(): State
      reads this
    {
      State(touchIds, touchPositions, [p1HasData, p2HasData])
    }

    predicate Valid()
      reads this
    {
      |touchIds| == 2 && |touchPositions| == 2
    }

    /** The id and position tables start with whatever was in memory. */
    constructor (mounted: Mounting, ids: seq<nat>, positions: seq<Position>)
      requires |ids| == 2 && |positions| == 2
      ensures Valid() && View() == State(ids, positions, [false, false]) && mounting == mounted
    {
      mounting := mounted;
      touchIds, touchPositions := ids, positions;
      p1HasData, p2HasData := false, false;
    }

    method ClearTouchPoint(point: nat)
      requires Valid() && point < 2
      modifies this
      ensures Valid() && View() == Cleared(old(View()), point)
      ensures if old(touchIds[0]) == point
              then !p1HasData && p2HasData == old(p2HasData) && touchIds == [0xff, old(touchIds[1])]
              else p1HasData == old(p1HasData) && !p2HasData && touchIds == [old(touchIds[0]), 0xff]
    {
      var idx := if touchIds[0] == point then 0 else 1;
      if idx == 0 {
        p1HasData := false;
      } else if idx == 1 {
        p2HasData := false;
      }
      touchIds := touchIds[idx := NO_ID];
    }

    method TransformTouchPosition(touched: Position) returns (pos: Position)
      ensures pos == Rotated(mounting, touched)
    {
      pos := touched;
      match mounting.rotation {
        case 1 =>
          pos := Position(pos.y, pos.x);
        case 2 =>
          pos := pos.(y := (mounting.height - pos.y) % 0x1_0000);
        case 3 =>
          pos := pos.(y := (mounting.height - pos.y) % 0x1_0000);
          pos := Position(pos.y, pos.x);
        case _ =>
      }
    }

    method DecodeTouchPoint(point: nat, regData: seq<byte>) returns (wild: bool)
      requires Valid() && point < 2 && |regData| == 6
      modifies this
      ensures Valid() && (wild <==> DecodedPoint(mounting, regData).id >= 2)
      ensures !wild ==> View() == Taken(old(View()), point, DecodedPoint(mounting, regData))
    {
      var touchId := regData[2] / 0x10;
      var pos := Position(Coordinate(regData[0], regData[1]), Coordinate(regData[2], regData[3]));
      if mounting.rotation != 0 {
        pos := TransformTouchPosition(pos);
      }
      if touchId >= 2 {
        return true;  // the id table has two entries and is indexed without a check
      }
      touchIds := touchIds[touchId := point];
      touchPositions := touchPositions[point := pos];
      if point == 0 {
        p1HasData := true;
      } else if point == 1 {
        p2HasData := true;
      }
      return false;
    }

    method UpdateTouchState(status: byte, buffer: seq<byte>) returns (threw: bool, sent: Sent)
      requires Valid() && |buffer| == 12
      modifies this
      ensures Valid() && (threw <==> status % 0x10 > 2)
      ensures if threw then View() == old(View()) && sent == Silent
              else if !Readable(PointsOf(mounting, status, buffer)) then sent == Wild
              else (View(), sent) == Polled(old(View()), PointsOf(mounting, status, buffer))
    {
      var numPoints := status % 0x10;
      if numPoints == 0 {
        var changed := false;
        if p1HasData {
          changed := true;
          ClearTouchPoint(0);
        }
        if p2HasData {
          changed := true;
          ClearTouchPoint(1);
        }
        if changed {
          sent := SendTouchStateUpdate();
          return false, sent;
        }
        return false, Silent;
      } else if numPoints > 2 {
        return true, Silent;
      }
      assert PointsOf(mounting, status, buffer)[0] == DecodedPoint(mounting, buffer[..6]);
      var wild := DecodeTouchPoint(0, buffer[..6]);
      if wild {
        return false, Wild;
      }
      if numPoints == 2 {
        assert PointsOf(mounting, status, buffer)[1] == DecodedPoint(mounting, buffer[6..]);
        wild := DecodeTouchPoint(1, buffer[6..]);
        if wild {
          return false, Wild;
        }
      } else if p2HasData {
        ClearTouchPoint(1);
      }
      sent := SendTouchStateUpdate();
      return false, sent;
    }

    method SendTouchStateUpdate() returns (sent: Sent)
      requires Valid()
      ensures sent == Report(View())
      ensures sent.Failed? <==>
              || (p1HasData && touchIds[0] != 0xff && touchIds[0] > 1)
              || (p2HasData && touchIds[1] != 0xff && touchIds[1] > 1)
      ensures !sent.Failed? ==>
                sent == Update(Message(
                  if p1HasData && touchIds[0] != 0xff then Some(touchPositions[touchIds[0]]) else None,
                  if p2HasData && touchIds[1] != 0xff then Some(touchPositions[touchIds[1]]) else None))
    {
      var first, second := None, None;
      if p1HasData && touchIds[0] != NO_ID {
        if touchIds[0] >= 2 {
          return Failed;
        }
        first := Some(touchPositions[touchIds[0]]);
      }
      if p2HasData && touchIds[1] != NO_ID {
        if touchIds[1] >= 2 {
          return Failed;
        }
        second := Some(touchPositions[touchIds[1]]);
      }
      return Update(Message(first, second));
    }
  }

  // ---------- Over any run ----------

  predicate AllReadable(polls: seq<seq<Point>>) {
    forall i :: 0 <= i < |polls| ==> Readable(polls[i])
  }

  /** The driver's state after a sequence of polls. */
  function StateAfter(start: State, polls: seq<seq<Point>>): (s: State)
    requires Shaped(start) && AllReadable(polls)
    ensures Shaped(s)
  {
    if polls == [] then start
    else Polled(StateAfter(start, polls[..|polls| - 1]), polls[|polls| - 1]).0
  }

  /** Touch ids agree with the slots they are reported in. */
  predicate InPlace(points: seq<Point>) {
    forall i :: 0 <= i < |points| ==> points[i].id == i
  }

  /** What the hardware reports, as an update. */
  function Truth(points: seq<Point>): Message {
    Message(if |points| > 0 then Some(points[0].pos) else None,
            if |points| > 1 then Some(points[1].pos) else None)
  }

  predicate Fresh(s: State) {
    Shaped(s) && !s.has[0] && !s.has[1]
  }

  /** The tables mirror the last poll. */
  predicate Mirrors(s: State, points: seq<Point>) {
    && Shaped(s)
    && s.has == [|points| > 0, |points| > 1]
    && (|points| > 0 ==> s.ids[0] == 0 && s.positions[0] == points[0].pos)
    && (|points| > 1 ==> s.ids[1] == 1 && s.positions[1] == points[1].pos)
  }

  function LastPoll(polls: seq<seq<Point>>): seq<Point> {
    if polls == [] then [] else polls[|polls| - 1]
  }

  lemma PollMirrors(s: State, before: seq<Point>, points: seq<Point>)
    requires Mirrors(s, before) && Readable(points) && InPlace(points)
    ensures Mirrors(Polled(s, points).0, points)
    ensures Polled(s, points).1 == if points == [] && before == [] then Silent else Update(Truth(points))
  {}

  lemma {:induction false} RunMirrors(start: State, polls: seq<seq<Point>>)
    requires Fresh(start) && AllReadable(polls)
    requires forall i :: 0 <= i < |polls| ==> InPlace(polls[i])
    ensures Mirrors(StateAfter(start, polls), LastPoll(polls))
  {
    hide Polled;
    if polls != [] {
      var init := polls[..|polls| - 1];
      RunMirrors(start, init);
      PollMirrors(StateAfter(start, init), LastPoll(init), polls[|polls| - 1]);
    }
  }

  /** As long as ids agree with slots, every update is the truth, and a poll is silent exactly if
      nothing is touched and nothing was touched before: no touch is invented, lost or left. */
  lemma UpdatesAreTrue(start: State, polls: seq<seq<Point>>, points: seq<Point>)
    requires Fresh(start) && AllReadable(polls) && Readable(points) && InPlace(points)
    requires forall i :: 0 <= i < |polls| ==> InPlace(polls[i])
    ensures Polled(StateAfter(start, polls), points).1 ==
            if points == [] && LastPoll(polls) == [] then Silent else Update(Truth(points))
  {
    hide Polled;
    RunMirrors(start, polls);
    PollMirrors(StateAfter(start, polls), LastPoll(polls), points);
  }

  function Nothing(n: nat): seq<seq<Point>> {
    seq(n, _ => [])
  }

  /** Two fingers reported under each other's id: when they lift, one of them stays on the
      screen for ever, in an update with every poll. */
  lemma {:induction false} SwappedTouchLingers(start: State, p: Position, q: Position, n: nat)
    requires Fresh(start) && n > 0
    ensures var polls := [[Point(1, p), Point(0, q)]] + Nothing(n);
            && AllReadable(polls)
            && StateAfter(start, polls).has == [true, false]
            && StateAfter(start, polls).ids[0] == 1 && StateAfter(start, polls).positions[1] == q
            && Polled(StateAfter(start, polls), []).1 == Update(Message(Some(q), None))
  {
    var polls := [[Point(1, p), Point(0, q)]] + Nothing(n);
    var init := polls[..|polls| - 1];
    if n == 1 {
      assert init == [[Point(1, p), Point(0, q)]];
      assert init[..0] == [];
    } else {
      assert init == [[Point(1, p), Point(0, q)]] + Nothing(n - 1);
      SwappedTouchLingers(start, p, q, n - 1);
    }
  }

  /** What the hardware reports, with each touch under its own id. */
  function PosOf(points: seq<Point>, id: nat): Option<Position>
  {
    if |points| > 0 && points[0].id == id then Some(points[0].pos)
    else if |points| > 1 && points[1].id == id then Some(points[1].pos)
    else None
  }

  predicate Tells(sent: Sent, before: seq<Point>, points: seq<Point>) {
    sent == if before == [] && points == [] then Silent
            else Update(Message(PosOf(points, 0), PosOf(points, 1)))
  }

  predicate DistinctIds(points: seq<Point>) {
    |points| == 2 ==> points[0].id != points[1].id
  }

  /** A poll and the release after it are both reported right, touch by touch, if and only if
      the controller numbered the touches by slot. */
  lemma TrueIffInPlace(s: State, before: seq<Point>, points: seq<Point>)
    requires Mirrors(s, before) && Readable(points)
    requires DistinctIds(points)
    ensures Tells(Polled(s, points).1, before, points)
            && Tells(Polled(Polled(s, points).0, []).1, points, [])
            <==> InPlace(points)
  {
    if InPlace(points) {
      PollMirrors(s, before, points);
      PollMirrors(Polled(s, points).0, points, []);
    }
  }

  // ---------- Exactly when a run is reported right ----------

  /** Two touches under each other's id. */
  predicate Crossed(points: seq<Point>) {
    |points| == 2 && points[0].id == 1 && points[1].id == 0
  }

  predicate LoneSecond(points: seq<Point>) {
    |points| == 1 && points[0].id == 1
  }

  /** What may follow a poll: after crossed touches something stays down, and a lone touch with
      id 1 comes after crossed touches only. */
  predicate MayFollow(before: seq<Point>, points: seq<Point>) {
    && (points == [] ==> !Crossed(before))
    && (LoneSecond(points) ==> Crossed(before))
  }

  /** The state a poll that is reported right leaves behind. */
  predicate Holds(s: State, points: seq<Point>) {
    && Shaped(s)
    && if points == [] then s.has == [false, false]
       else if LoneSecond(points) then s.has == [false, true] && s.ids == [NO_ID, 0]
       else if Crossed(points) then s.has == [true, true] && s.ids == [1, 0]
       else s.has == [true, |points| == 2] && s.ids[0] == 0 && (|points| == 2 ==> s.ids[1] == 1)
  }

  lemma PollTold(s: State, before: seq<Point>, points: seq<Point>)
    requires Holds(s, before) && Readable(before) && DistinctIds(before)
    requires Readable(points) && DistinctIds(points)
    ensures Tells(Polled(s, points).1, before, points) <==> MayFollow(before, points)
    ensures MayFollow(before, points) ==> Holds(Polled(s, points).0, points)
  {}

  /** Poll k is reported as it is. */
  predicate PollRight(start: State, polls: seq<seq<Point>>, k: nat)
    requires Shaped(start) && AllReadable(polls) && k < |polls|
  {
    Tells(Polled(StateAfter(start, polls[..k]), polls[k]).1, LastPoll(polls[..k]), polls[k])
  }

  predicate InSequence(polls: seq<seq<Point>>, k: nat)
    requires k < |polls|
  {
    MayFollow(LastPoll(polls[..k]), polls[k])
  }

  lemma LastFits(polls: seq<seq<Point>>, k: nat)
    requires AllReadable(polls) && k <= |polls|
    requires forall i :: 0 <= i < |polls| ==> DistinctIds(polls[i])
    ensures Readable(LastPoll(polls[..k])) && DistinctIds(LastPoll(polls[..k]))
  {}

  lemma {:induction false} HoldsSoFar(start: State, polls: seq<seq<Point>>, n: nat)
    requires Fresh(start) && AllReadable(polls) && n <= |polls|
    requires forall i :: 0 <= i < |polls| ==> DistinctIds(polls[i])
    requires forall k :: 0 <= k < n ==> InSequence(polls, k)
    ensures Holds(StateAfter(start, polls[..n]), LastPoll(polls[..n]))
  {
    hide Polled, Tells, MayFollow, DistinctIds, Readable;
    if n > 0 {
      var k := n - 1;
      HoldsSoFar(start, polls, k);
      LastFits(polls, k);
      assert InSequence(polls, k);
      assert polls[..n][..k] == polls[..k] && polls[..n][k] == polls[k];
      PollTold(StateAfter(start, polls[..k]), LastPoll(polls[..k]), polls[k]);
    }
  }

  lemma PollRightIff(start: State, polls: seq<seq<Point>>, k: nat)
    requires Fresh(start) && AllReadable(polls) && k < |polls|
    requires forall i :: 0 <= i < |polls| ==> DistinctIds(polls[i])
    requires forall j :: 0 <= j < k ==> InSequence(polls, j)
    ensures PollRight(start, polls, k) <==> InSequence(polls, k)
  {
    hide Polled, Tells, MayFollow, DistinctIds, Readable, Holds;
    HoldsSoFar(start, polls, k);
    LastFits(polls, k);
    PollTold(StateAfter(start, polls[..k]), LastPoll(polls[..k]), polls[k]);
  }

  lemma {:induction false} InSequenceSoFar(start: State, polls: seq<seq<Point>>, n: nat)
    requires Fresh(start) && AllReadable(polls) && n <= |polls|
    requires forall i :: 0 <= i < |polls| ==> DistinctIds(polls[i])
    requires forall k :: 0 <= k < n ==> PollRight(start, polls, k)
    ensures forall k :: 0 <= k < n ==> InSequence(polls, k)
  {
    hide PollRight, InSequence, DistinctIds, Readable;
    if n > 0 {
      InSequenceSoFar(start, polls, n - 1);
      PollRightIff(start, polls, n - 1);
    }
  }

  /** Over any run from rest, every poll is reported right if and only if no crossed touches are
      lifted together and a lone touch has id 1 only directly after crossed touches. */
  lemma RunRightIff(start: State, polls: seq<seq<Point>>)
    requires Fresh(start) && AllReadable(polls)
    requires forall i :: 0 <= i < |polls| ==> DistinctIds(polls[i])
    ensures (forall k :: 0 <= k < |polls| ==> PollRight(start, polls, k))
            <==> (forall k :: 0 <= k < |polls| ==> InSequence(polls, k))
  {
    hide PollRight, InSequence, DistinctIds;
    if forall k :: 0 <= k < |polls| ==> PollRight(start, polls, k) {
      InSequenceSoFar(start, polls, |polls|);
    }
    if forall k :: 0 <= k < |polls| ==> InSequence(polls, k) {
      forall k | 0 <= k < |polls|
        ensures PollRight(start, polls, k)
      {
        PollRightIff(start, polls, k);
      }
    }
  }

  // ---------- Exactly when a run is reported right whenever it ends ----------

  /** Poll k, and a release if it came right after it, are both reported as they are. */
  predicate ToldRight(start: State, polls: seq<seq<Point>>, k: nat)
    requires Shaped(start) && AllReadable(polls) && k < |polls|
  {
    && Tells(Polled(StateAfter(start, polls[..k]), polls[k]).1, LastPoll(polls[..k]), polls[k])
    && Tells(Polled(StateAfter(start, polls[..k + 1]), []).1, polls[k], [])
  }

  lemma ToldRightIff(start: State, polls: seq<seq<Point>>, k: nat)
    requires Fresh(start) && AllReadable(polls) && k < |polls| && DistinctIds(polls[k])
    requires forall i :: 0 <= i < k ==> InPlace(polls[i])
    ensures ToldRight(start, polls, k) <==> InPlace(polls[k])
  {
    hide Polled, Tells, InPlace;
    RunMirrors(start, polls[..k]);
    assert polls[..k + 1][..k] == polls[..k];
    TrueIffInPlace(StateAfter(start, polls[..k]), LastPoll(polls[..k]), polls[k]);
  }

  lemma {:induction false} InPlaceSoFar(start: State, polls: seq<seq<Point>>, n: nat)
    requires Fresh(start) && AllReadable(polls) && n <= |polls|
    requires forall i :: 0 <= i < |polls| ==> DistinctIds(polls[i])
    requires forall k :: 0 <= k < n ==> ToldRight(start, polls, k)
    ensures forall k :: 0 <= k < n ==> InPlace(polls[k])
  {
    hide ToldRight, InPlace, Fresh;
    if n > 0 {
      InPlaceSoFar(start, polls, n - 1);
      ToldRightIff(start, polls, n - 1);
    }
  }

  /** Over any run, every poll and every release that could follow one are reported right if and
      only if the controller always numbers the touches by slot. */
  lemma RunTrueIffInPlace(start: State, polls: seq<seq<Point>>)
    requires Fresh(start) && AllReadable(polls)
    requires forall i :: 0 <= i < |polls| ==> DistinctIds(polls[i])
    ensures (forall k :: 0 <= k < |polls| ==> ToldRight(start, polls, k))
            <==> (forall k :: 0 <= k < |polls| ==> InPlace(polls[k]))
  {
    hide ToldRight, InPlace;
    if forall k :: 0 <= k < |polls| ==> ToldRight(start, polls, k) {
      InPlaceSoFar(start, polls, |polls|);
    }
    if forall k :: 0 <= k < |polls| ==> InPlace(polls[k]) {
      forall k | 0 <= k < |polls|
        ensures ToldRight(start, polls, k)
      {
        ToldRightIff(start, polls, k);
      }
    }
  }
}
