/** Broadcasts to subscribed clients, over any run of the server. */
module Broadcasts {
  import opened Bytes
  import opened Cbor

  datatype Kind = Touch | Button | Encoder

  type Packet = seq<byte>

  function KindName(kind: Kind): string {
    match kind
    case Touch => "touch"
    case Button => "button"
    case Encoder => "encoder"
  }

  function SettingOf(value: Option<Item>): Option<bool> {
    match value
    case Some(Bool(on)) => Some(on)
    case Some(Null) => Some(false)
    case _ => None
  }

  /** What a configuration message says about one kind. Control values other than true read as
      false; anything that is no control value is passed over. */
  function Setting(item: Item, kind: Kind): Option<bool> {
    SettingOf(Get(item, KindName(kind)))
  }

  /** The control values, one by one. */
  lemma SettingValues(value: Item, kind: Kind)
    ensures SettingOf(Some(Bool(true))) == Some(true) && SettingOf(Some(Bool(false))) == Some(false)
    ensures SettingOf(Some(Null)) == Some(false) && SettingOf(None) == None
    ensures value.Uint? || value.Str? || value.Float? || value.Array? || value.Map? ==> SettingOf(Some(value)) == None
    ensures KindName(kind) == if kind == Touch then "touch" else if kind == Button then "button" else "encoder"
  {}

  // ---------- What the run so far means for one client ----------

  datatype Event =
    | Accepted(id: int)
    | Released(id: int)
    | Configured(id: int, message: Item)
    | Broadcast(kind: Kind, packet: Packet)

  predicate Connected(run: seq<Event>, id: int) {
    run != [] &&
    match run[|run| - 1]
    case Accepted(i) => i == id || Connected(run[..|run| - 1], id)
    case Released(i) => i != id && Connected(run[..|run| - 1], id)
    case _ => Connected(run[..|run| - 1], id)
  }

  /** The last explicit setting since the client connected; nothing is wanted before. */
  predicate Subscribed(run: seq<Event>, id: int, kind: Kind) {
    Connected(run, id) &&
    var init := run[..|run| - 1];
    match run[|run| - 1]
    case Configured(i, message) =>
      if i == id && Setting(message, kind).Some? then Setting(message, kind).value
      else Subscribed(init, id, kind)
    case _ => Subscribed(init, id, kind)
  }

  /** The broadcasts made since the client connected, each kept if it was wanted at the time. */
  function Received(run: seq<Event>, id: int): seq<Packet> {
    if !Connected(run, id) then []
    else
      var init := run[..|run| - 1];
      match run[|run| - 1]
      case Broadcast(kind, packet) =>
        Received(init, id) + if Subscribed(init, id, kind) then [packet] else []
      case _ => Received(init, id)
  }

  lemma BroadcastStep(run: seq<Event>, id: int, kind: Kind, packet: Packet)
    ensures var next := run + [Broadcast(kind, packet)];
            && Connected(next, id) == Connected(run, id)
            && (forall k :: Subscribed(next, id, k) == Subscribed(run, id, k))
            && Received(next, id) == Received(run, id) + if Subscribed(run, id, kind) then [packet] else []
  {
    assert (run + [Broadcast(kind, packet)])[..|run|] == run;
  }

  /** Connecting again on a connection that is still in the table changes nothing; a new connection
      starts with nothing wanted and nothing received. */
  lemma AcceptStep(run: seq<Event>, id: int, fd: int)
    ensures var next := run + [Accepted(fd)];
            && Connected(next, id) == (Connected(run, id) || id == fd)
            && (forall kind :: Subscribed(next, id, kind) == Subscribed(run, id, kind))
            && Received(next, id) == Received(run, id)
  {
    assert (run + [Accepted(fd)])[..|run|] == run;
  }

  lemma ReleaseStep(run: seq<Event>, id: int, gone: int)
    ensures var next := run + [Released(gone)];
            && Connected(next, id) == (Connected(run, id) && id != gone)
            && (forall kind :: Subscribed(next, id, kind) == (Subscribed(run, id, kind) && id != gone))
            && Received(next, id) == if id == gone then [] else Received(run, id)
  {
    assert (run + [Released(gone)])[..|run|] == run;
  }

  lemma ConfigureStep(run: seq<Event>, id: int, from: int, message: Item, kind: Kind)
    requires Connected(run, from)
    ensures var next := run + [Configured(from, message)];
            && Connected(next, id) == Connected(run, id)
            && Subscribed(next, id, kind) ==
               (if id == from && Setting(message, kind).Some? then Setting(message, kind).value
                else Subscribed(run, id, kind))
            && Received(next, id) == Received(run, id)
  {
    assert (run + [Configured(from, message)])[..|run|] == run;
  }

  // ---------- The server ----------

  class Client {
    const socket: int
    var wantsTouchEvents: bool
    var wantsButtonEvents: bool
    var wantsEncoderEvents: bool
    /// everything sent over the connection
    var sent: seq<Packet>

    constructor (fd: int)
      ensures socket == fd && sent == [] && forall kind :: !Wants(kind)
    {
      socket, sent := fd, [];
      wantsTouchEvents, wantsButtonEvents, wantsEncoderEvents := false, false, false;
    }

    predicate Wants(kind: Kind)
      reads this`wantsTouchEvents, this`wantsButtonEvents, this`wantsEncoderEvents
    {
      match kind
      case Touch => wantsTouchEvents
      case Button => wantsButtonEvents
      case Encoder => wantsEncoderEvents
    }

    method MaybeBroadcast(kind: Kind, packet: Packet)
      modifies this`sent
      ensures sent == old(sent) + if Wants(kind) then [packet] else []
    {
      if !Wants(kind) {
        return;
      }
      sent := sent + [packet];
    }

    method UpdateBroadcastConfig(item: Item)
      modifies this`wantsTouchEvents, this`wantsButtonEvents, this`wantsEncoderEvents
      ensures forall kind :: Wants(kind) ==
                match Setting(item, kind) case Some(on) => on case None => old(Wants(kind))
    {
      hide Get;
      var touch := CborMapGet(item, KindName(Touch));
      if SettingOf(touch).Some? {
        wantsTouchEvents := SettingOf(touch).value;
      }
      var button := CborMapGet(item, KindName(Button));
      if SettingOf(button).Some? {
        wantsButtonEvents := SettingOf(button).value;
      }
      var encoder := CborMapGet(item, KindName(Encoder));
      if SettingOf(encoder).Some? {
        wantsEncoderEvents := SettingOf(encoder).value;
      }
    }
  }

  lemma NewcomerHasNothing(run: seq<Event>, id: int)
    requires !Connected(run, id)
    ensures Received(run + [Accepted(id)], id) == []
    ensures forall kind :: !Subscribed(run + [Accepted(id)], id, kind)
  {
    assert (run + [Accepted(id)])[..|run|] == run;
  }

  class Server {
    var clients: map<int, Client>
    ghost var run: seq<Event>

    /** The client table and every client in it are what the run so far calls for. */
    ghost predicate Valid()
      reads this, clients.Values
    {
      && (forall id :: id in clients <==> Connected(run, id))
      && (forall id :: id in clients ==>
            && clients[id].socket == id
            && clients[id].sent == Received(run, id)
            && forall kind :: clients[id].Wants(kind) == Subscribed(run, id, kind))
    }

    constructor ()
      ensures Valid() && run == []
    {
      clients, run := map[], [];
    }

    method AcceptClient(fd: int)
      requires Valid()
      modifies this
      ensures Valid() && run == old(run) + [Accepted(fd)]
    {
      ghost var before := run;
      run := run + [Accepted(fd)];
      assert run[..|before|] == before;
      var cl := new Client(fd);
      if cl.socket !in clients {
        clients := clients[cl.socket := cl];
      }
      if !Connected(before, fd) {
        NewcomerHasNothing(before, fd);
      }
    }

    method ReleaseClient(clientId: int) returns (threw: bool)
      requires Valid()
      modifies this
      ensures Valid() && run == old(run) + [Released(clientId)]
      ensures threw <==> clientId !in old(clients)
    {
      ghost var before := run;
      run := run + [Released(clientId)];
      assert run[..|before|] == before;
      threw := clientId !in clients;
      clients := clients - {clientId};
    }

    /** A configuration message arrives on a client's connection. */
    method Configure(id: int, item: Item)
      requires Valid() && id in clients
      modifies this`run, clients.Values
      ensures Valid() && run == old(run) + [Configured(id, item)]
    {
      ghost var before := run;
      run := run + [Configured(id, item)];
      assert run[..|before|] == before;
      clients[id].UpdateBroadcastConfig(item);
    }

    /** order is the iteration order of the client table, which the language leaves open. */
    method SendToAll(kind: Kind, packet: Packet, order: seq<int>)
      requires Lists(order, clients.Keys)
      requires forall i, j :: i in clients && j in clients && i != j ==> clients[i] != clients[j]
      modifies clients.Values`sent
      ensures forall id :: id in clients ==>
                clients[id].sent == old(clients[id].sent) + if clients[id].Wants(kind) then [packet] else []
    {
      for n := 0 to |order|
        invariant clients == old(clients)
        invariant forall id :: id in clients ==>
                    clients[id].sent == old(clients[id].sent) +
                                        if id in order[..n] && clients[id].Wants(kind) then [packet] else []
      {
        assert order[n] in order && order[n] !in order[..n];
        ghost var next := order[n];
        assert forall id :: id in order[..n + 1] <==> id == next || id in order[..n];
        clients[order[n]].MaybeBroadcast(kind, packet);
      }
      assert order[..|order|] == order;
    }

    method BroadcastPacket(kind: Kind, packet: Packet, order: seq<int>)
      requires Valid() && Lists(order, clients.Keys)
      modifies this`run, clients.Values
      ensures Valid() && run == old(run) + [Broadcast(kind, packet)]
    {
      hide Connected, Subscribed, Received, Lists;
      ghost var before := run;
      SendToAll(kind, packet, order);
      run := run + [Broadcast(kind, packet)];
      forall id
        ensures Connected(run, id) == Connected(before, id)
        ensures forall k :: Subscribed(run, id, k) == Subscribed(before, id, k)
        ensures Received(run, id) == Received(before, id)
                                     + if Subscribed(before, id, kind) then [packet] else []
      {
        BroadcastStep(before, id, kind, packet);
      }
    }
  }

  // ---------- What a run guarantees each client ----------

  /** Message i is the one that turned the kind on: nothing since turned it off or ended the
      connection. */
  ghost predicate TurnedOn(run: seq<Event>, id: int, kind: Kind, i: nat) {
    && i < |run| && run[i].Configured? && run[i].id == id && Connected(run[..i], id)
    && Setting(run[i].message, kind) == Some(true)
    && forall j :: i < j < |run| ==>
         && run[j] != Released(id)
         && !(run[j].Configured? && run[j].id == id && Setting(run[j].message, kind) == Some(false))
  }

  lemma {:induction false} StillConnected(run: seq<Event>, id: int, i: nat)
    requires i <= |run| && Connected(run[..i], id)
    requires forall j :: i <= j < |run| ==> run[j] != Released(id)
    ensures Connected(run, id)
  {
    if i < |run| {
      var init := run[..|run| - 1];
      assert init[..i] == run[..i];
      StillConnected(init, id, i);
    } else {
      assert run[..i] == run;
    }
  }

  lemma {:induction false} TurnedOnConnected(run: seq<Event>, id: int, kind: Kind)
    ensures (exists i :: TurnedOn(run, id, kind, i)) ==> Connected(run, id)
  {
    hide Setting;
    if exists i :: TurnedOn(run, id, kind, i) {
      var i :| TurnedOn(run, id, kind, i);
      StillConnected(run, id, i);
    }
  }

  /** A kind is wanted if and only if the last message to mention it asked for it, however many
      messages without that key came later. */
  lemma {:induction false} SubscribedIffTurnedOn(run: seq<Event>, id: int, kind: Kind)
    ensures Subscribed(run, id, kind) <==> exists i :: TurnedOn(run, id, kind, i)
  {
    hide Setting;
    if run != [] {
      var init, last := run[..|run| - 1], run[|run| - 1];
      SubscribedIffTurnedOn(init, id, kind);
      forall i | 0 <= i < |init|
        ensures TurnedOn(run, id, kind, i) <==>
                && TurnedOn(init, id, kind, i) && last != Released(id)
                && !(last.Configured? && last.id == id && Setting(last.message, kind) == Some(false))
      {
        assert run[..i] == init[..i];
        assert forall j :: 0 <= j < |init| ==> run[j] == init[j];
      }
      assert run[..|init|] == init;
      TurnedOnConnected(init, id, kind);
      if Subscribed(run, id, kind) {
        if TurnedOn(run, id, kind, |init|) {
        } else {
          var i :| TurnedOn(init, id, kind, i);
          assert TurnedOn(run, id, kind, i);
        }
      }
    }
  }

  predicate Concerns(e: Event, id: int) {
    e.Broadcast? || e.id == id
  }

  /** The run without the other clients' comings, goings and settings. */
  function About(run: seq<Event>, id: int): seq<Event> {
    if run == [] then []
    else
      About(run[..|run| - 1], id) + if Concerns(run[|run| - 1], id) then [run[|run| - 1]] else []
  }

  /** What a client receives depends on the broadcasts and its own events only. */
  lemma {:induction false} OthersDoNotMatter(run: seq<Event>, id: int)
    ensures Connected(About(run, id), id) == Connected(run, id)
    ensures forall kind :: Subscribed(About(run, id), id, kind) == Subscribed(run, id, kind)
    ensures Received(About(run, id), id) == Received(run, id)
  {
    hide Setting;
    if run != [] {
      var init := run[..|run| - 1];
      OthersDoNotMatter(init, id);
      if Concerns(run[|run| - 1], id) {
        assert About(run, id)[..|About(init, id)|] == About(init, id);
      } else {
        assert About(run, id) == About(init, id);
      }
    }
  }

  // ---------- The GUI's subscription message ----------

  predicate MaskHas(mask: bv32, kind: Kind) {
    match kind
    case Touch => mask & 1 != 0
    case Button => mask & 2 != 0
    case Encoder => mask & 4 != 0
  }

  function Wish(mask: bv32, kind: Kind): Pair {
    Pair(Str(KindName(kind)), Bool(MaskHas(mask, kind)))
  }

  function DesiredBroadcasts(mask: bv32): Item {
    Map([Wish(mask, Touch), Wish(mask, Button), Wish(mask, Encoder)])
  }

  /** Bits 1, 2 and 4 stand for the three kinds; a union of masks asks for the union of kinds. */
  lemma MaskBits(m: bv32, n: bv32, kind: Kind)
    ensures MaskHas(1, kind) <==> kind == Touch
    ensures MaskHas(2, kind) <==> kind == Button
    ensures MaskHas(4, kind) <==> kind == Encoder
    ensures MaskHas(m | n, kind) <==> MaskHas(m, kind) || MaskHas(n, kind)
    ensures MaskHas(m & 0xffff_fff8, kind) <==> false
  {}

  method SetDesiredBroadcasts(mask: bv32) returns (packet: Item)
    ensures packet == DesiredBroadcasts(mask)
  {
    var root: seq<Pair> := [];
    root := root + [Pair(Str("touch"), Bool(mask & 1 != 0))];
    root := root + [Pair(Str("button"), Bool(mask & 2 != 0))];
    root := root + [Pair(Str("encoder"), Bool(mask & 4 != 0))];
    return Map(root);
  }

  lemma DesiredSettings(mask: bv32, kind: Kind)
    ensures Setting(DesiredBroadcasts(mask), kind) == Some(MaskHas(mask, kind))
  {
    hide MaskHas;
    var pairs := DesiredBroadcasts(mask).pairs;
    assert |"touch"| == 5 && |"button"| == 6 && |"encoder"| == 7;
    FirstUnique(pairs, KindName(kind), Some(Bool(MaskHas(mask, kind)))) by {
      assert KeyIs(pairs[0], KindName(Touch)) && KeyIs(pairs[1], KindName(Button)) && KeyIs(pairs[2], KindName(Encoder));
    }
  }

  /** However it was subscribed before, after the GUI's message a connected client wants exactly
      the kinds in the mask. */
  lemma MaskIsExact(run: seq<Event>, id: int, mask: bv32, kind: Kind)
    requires Connected(run, id)
    ensures Subscribed(run + [Configured(id, DesiredBroadcasts(mask))], id, kind) <==> MaskHas(mask, kind)
  {
    hide MaskHas, DesiredBroadcasts, Setting;
    assert (run + [Configured(id, DesiredBroadcasts(mask))])[..|run|] == run;
    DesiredSettings(mask, kind);
  }
}
