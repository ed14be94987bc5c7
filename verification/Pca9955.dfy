/** The PCA9955B LED driver: channel allocation and the registers behind each indicator. */
module Pca9955 {
  import opened Bytes
  import opened Cbor
  import opened Indicators

  const NUM_CHANNELS: nat := 16
  const NUM_REGISTERS: nat := 0x80
  const MODE1: nat := 0x00
  const MODE2: nat := 0x01
  const LEDOUT0: nat := 0x02
  const GROUP_DUTY_CYCLE: nat := 0x06
  const PWM0: nat := 0x08
  const IREF0: nat := 0x18
  const PWM_EDGE_OFFSET: nat := 0x3f
  const PWM_ALL: nat := 0x44

  type Registers = s: seq<byte> | |s| == NUM_REGISTERS witness seq(NUM_REGISTERS, _ => 0)

  // ---------- Currents ----------

  /** Milliamperes that a current setting stands for. */
  function CalculateCurrent(rext: nat, irefx: byte): real
    requires rext > 0
  {
    900.0 / rext as real * (irefx as real / 4.0)
  }

  /** Comparing currents is comparing multiples of 225 mA ohms. */
  lemma CurrentScale(rext: nat, irefx: byte, current: real)
    requires rext > 0
    ensures CalculateCurrent(rext, irefx) <= current <==> irefx as real <= current * rext as real / 225.0
  {
    var r, i := rext as real, irefx as real;
    var c := CalculateCurrent(rext, irefx);
    assert c * r == 225.0 * i by {
      assert 900.0 / r * r == 900.0;
      assert c * r == 900.0 / r * r * (i / 4.0);
    }
    if c <= current {
      assert c * r <= current * r;
    } else {
      assert c * r > current * r;
    }
  }

  function CalculateIref(rext: nat, current: real): byte
    requires rext > 0 && current >= 0.0
  {
    if current >= CalculateCurrent(rext, 0xff) then 0xff
    else
      CurrentScale(rext, 0xff, current);
      CurrentScale(rext, 0, current);
      (current * rext as real / 225.0).Floor
  }

  /** The setting chosen is the largest one whose current does not exceed the request. */
  lemma IrefOptimal(rext: nat, current: real, irefx: byte)
    requires rext > 0 && current >= 0.0
    ensures CalculateCurrent(rext, irefx) <= current <==> irefx <= CalculateIref(rext, current)
  {
    CurrentScale(rext, irefx, current);
    CurrentScale(rext, 0xff, current);
  }

  lemma IrefMonotone(rext: nat, low: real, high: real)
    requires rext > 0 && 0.0 <= low <= high
    ensures CalculateIref(rext, low) <= CalculateIref(rext, high)
  {
    IrefOptimal(rext, low, CalculateIref(rext, low));
    IrefOptimal(rext, high, CalculateIref(rext, low));
  }

  lemma CurrentExact(rext: nat, irefx: byte)
    requires rext > 0
    ensures CalculateCurrent(rext, irefx) * rext as real / 225.0 == irefx as real
  {
    var r, i := rext as real, irefx as real;
    assert 900.0 / r * r == 900.0;
    assert CalculateCurrent(rext, irefx) * r == 900.0 / r * r * (i / 4.0);
  }

  lemma IrefOfCurrent(rext: nat, irefx: byte)
    requires rext > 0
    ensures CalculateCurrent(rext, irefx) >= 0.0
    ensures CalculateIref(rext, CalculateCurrent(rext, irefx)) == irefx
  {
    var c := CalculateCurrent(rext, irefx);
    CurrentScale(rext, irefx, c);
    assert c >= 0.0 by {
      assert 900.0 / rext as real > 0.0;
    }
    var chosen := CalculateIref(rext, c);
    IrefOptimal(rext, c, irefx);
    IrefOptimal(rext, c, chosen);
    CurrentScale(rext, chosen, c);
    CurrentExact(rext, irefx);
  }

  // ---------- Channel allocation ----------

  type Channels = map<Indicator, seq<nat>>

  /** No channel serves two indicators, or one indicator twice. */
  predicate Disjoint(channels: Channels) {
    && (forall a :: a in channels ==> NoDup(channels[a]) && |channels[a]| <= 3
                                      && forall c :: c in channels[a] ==> c < NUM_CHANNELS)
    && (forall a, b, c :: a in channels && b in channels && a != b && c in channels[a] ==> c !in channels[b])
  }

  function KeyOf(key: Item): Option<Indicator> {
    if key.Uint? then FromCode(key.value) else None
  }

  function Numbers(items: seq<Item>): Option<seq<nat>> {
    if items == [] then Some([])
    else
      var last := items[|items| - 1];
      var rest := Numbers(items[..|items| - 1]);
      if last.Uint? && rest.Some? then Some(rest.value + [last.value]) else None
  }

  /** The channels an entry claims; None if the value is malformed. */
  function ChannelsOf(value: Item): Option<seq<nat>> {
    match value
    case Uint(n) => Some([n])
    case Array(items) => if |items| > 3 then None else Numbers(items)
    case Null => Some([])
    case _ => None
  }

  predicate WellFormed(entry: Pair) {
    KeyOf(entry.key).Some? && ChannelsOf(entry.value).Some?
  }

  /** Everything claimed, in order. */
  function Claims(entries: seq<Pair>): seq<nat> {
    if entries == [] then []
    else
      var cs := ChannelsOf(entries[|entries| - 1].value);
      Claims(entries[..|entries| - 1]) + if cs.Some? then cs.value else []
  }

  predicate Acceptable(entries: seq<Pair>) {
    (forall i :: 0 <= i < |entries| ==> WellFormed(entries[i])) && NoDup(Claims(entries))
  }

  lemma {:induction false} NumbersListed(items: seq<Item>)
    ensures Numbers(items).Some? <==> forall j :: 0 <= j < |items| ==> items[j].Uint?
    ensures Numbers(items).Some? ==>
              |Numbers(items).value| == |items|
              && forall j :: 0 <= j < |items| ==> items[j] == Uint(Numbers(items).value[j])
  {
    if items != [] { NumbersListed(items[..|items| - 1]); }
  }

  /** The channels of an entry, value by value. */
  lemma ChannelsListed(value: Item)
    ensures ChannelsOf(value).Some? <==>
            || value.Uint? || value.Null?
            || (value.Array? && |value.items| <= 3 && forall j :: 0 <= j < |value.items| ==> value.items[j].Uint?)
    ensures ChannelsOf(value).Some? ==>
              var cs := ChannelsOf(value).value;
              match value
              case Uint(n) => cs == [n]
              case Array(items) => |cs| == |items| && forall j :: 0 <= j < |items| ==> items[j] == Uint(cs[j])
              case _ => cs == []
  {
    if value.Array? { NumbersListed(value.items); }
  }

  function ClaimsOf(entry: Pair): seq<nat> {
    match ChannelsOf(entry.value)
    case Some(cs) => cs
    case None => []
  }

  predicate Claimed(entries: seq<Pair>, c: nat) {
    exists i :: 0 <= i < |entries| && c in ClaimsOf(entries[i])
  }

  lemma {:induction false} ClaimsListed(entries: seq<Pair>, c: nat)
    ensures c in Claims(entries) <==> Claimed(entries, c)
  {
    hide ChannelsOf;
    if entries != [] {
      var init, last := entries[..|entries| - 1], entries[|entries| - 1];
      ClaimsListed(init, c);
      assert forall i :: 0 <= i < |init| ==> entries[i] == init[i];
    }
  }

  lemma NoDupPrefix(some: seq<nat>, all: seq<nat>)
    requires some <= all && NoDup(all)
    ensures NoDup(some)
  {
    assert forall k :: 0 <= k < |some| ==> some[k] == all[k];
  }

  lemma NoDupConcat(a: seq<nat>, b: seq<nat>)
    ensures NoDup(a + b) <==> NoDup(a) && NoDup(b) && forall c :: c in b ==> c !in a
  {
    if NoDup(a + b) {
      NoDupPrefix(a, a + b);
      assert forall i :: 0 <= i < |b| ==> b[i] == (a + b)[|a| + i];
      forall c | c in b
        ensures c !in a
      {
        var j :| 0 <= j < |b| && b[j] == c;
        assert (a + b)[|a| + j] == c;
        assert forall i :: 0 <= i < |a| ==> (a + b)[i] == a[i];
      }
    }
    if NoDup(a) && NoDup(b) && forall c :: c in b ==> c !in a {
      forall i, j | 0 <= i < j < |a + b|
        ensures (a + b)[i] != (a + b)[j]
      {
        if i < |a| <= j {
          assert b[j - |a|] in b;
        }
      }
    }
  }

  /** No entry claims a channel twice, and no two entries claim the same one. */
  ghost predicate ClaimedOnce(entries: seq<Pair>) {
    && (forall i :: 0 <= i < |entries| ==> NoDup(ClaimsOf(entries[i])))
    && (forall i, j, c :: 0 <= i < j < |entries| && c in ClaimsOf(entries[i]) ==> c !in ClaimsOf(entries[j]))
  }

  lemma ClaimedOnceStep(entries: seq<Pair>)
    requires entries != []
    ensures var init, last := entries[..|entries| - 1], entries[|entries| - 1];
            ClaimedOnce(entries) <==>
            ClaimedOnce(init) && NoDup(ClaimsOf(last)) && forall c :: c in ClaimsOf(last) ==> !Claimed(init, c)
  {
    hide ClaimsOf;
    var n := |entries| - 1;
    var init, last := entries[..n], entries[n];
    assert forall i :: 0 <= i < n ==> entries[i] == init[i];
    if ClaimedOnce(init) && NoDup(ClaimsOf(last)) && forall c :: c in ClaimsOf(last) ==> !Claimed(init, c) {
      forall i, j, c | 0 <= i < j < |entries| && c in ClaimsOf(entries[i])
        ensures c !in ClaimsOf(entries[j])
      {
        assert c in ClaimsOf(init[i]);
      }
    }
  }

  lemma NothingClaimedOnce()
    ensures NoDup(Claims([])) && ClaimedOnce([])
  {}

  lemma {:induction false} ClaimedOnceIff(entries: seq<Pair>)
    ensures NoDup(Claims(entries)) <==> ClaimedOnce(entries)
  {
    hide ChannelsOf, KeyOf, ClaimedOnce, Claimed, NoDup;
    if entries == [] {
      NothingClaimedOnce();
    } else {
      var init, last := entries[..|entries| - 1], entries[|entries| - 1];
      ClaimedOnceIff(init);
      ClaimedOnceStep(entries);
      assert Claims(entries) == Claims(init) + ClaimsOf(last);
      NoDupConcat(Claims(init), ClaimsOf(last));
      forall c | c in ClaimsOf(last)
        ensures c in Claims(init) <==> Claimed(init, c)
      {
        ClaimsListed(init, c);
      }
    }
  }

  predicate Listed(entry: Pair) {
    && entry.key.Uint? && 1 <= entry.key.value % 4_294_967_296 <= 11
    && match entry.value
       case Uint(_) => true
       case Null => true
       case Array(items) => |items| <= 3 && forall j :: 0 <= j < |items| ==> items[j].Uint?
       case _ => false
  }

  lemma ListedIff(entry: Pair)
    ensures WellFormed(entry) <==> Listed(entry)
  {
    hide FromCode, ChannelsOf;
    ChannelsListed(entry.value);
    if entry.key.Uint? { Codes(entry.key.value); }
  }

  /** A map is accepted if and only if every key is one of the eleven codes, every value a channel,
      at most three channels or null, and no channel is claimed twice. */
  lemma AcceptableIff(entries: seq<Pair>)
    ensures Acceptable(entries) <==>
            (forall i :: 0 <= i < |entries| ==> Listed(entries[i])) && ClaimedOnce(entries)
  {
    hide ChannelsOf, KeyOf;
    forall i | 0 <= i < |entries|
      ensures WellFormed(entries[i]) <==> Listed(entries[i])
    {
      ListedIff(entries[i]);
    }
    ClaimedOnceIff(entries);
  }

  /** What an acceptable map assigns: for each indicator its first entry that is not null. */
  function Assigned(entries: seq<Pair>): Channels
    requires forall i :: 0 <= i < |entries| ==> WellFormed(entries[i])
  {
    if entries == [] then map[]
    else
      var m := Assigned(entries[..|entries| - 1]);
      var e := entries[|entries| - 1];
      assert WellFormed(e);
      var key := KeyOf(e.key).value;
      if e.value.Null? || key in m then m else m[key := ChannelsOf(e.value).value]
  }

  predicate ValueInRange(value: Item) {
    match value
    case Uint(n) => n < NUM_CHANNELS
    case Array(items) => forall j :: 0 <= j < |items| && items[j].Uint? ==> items[j].value < NUM_CHANNELS
    case _ => true
  }

  /** The channel bit set has sixteen bits and is indexed without a check. */
  predicate IndicesInRange(entries: seq<Pair>) {
    forall i :: 0 <= i < |entries| ==> ValueInRange(entries[i].value)
  }

  lemma {:induction false} NumbersInRange(items: seq<Item>)
    requires forall j :: 0 <= j < |items| && items[j].Uint? ==> items[j].value < NUM_CHANNELS
    ensures Numbers(items).Some? ==>
              |Numbers(items).value| == |items| && forall c :: c in Numbers(items).value ==> c < NUM_CHANNELS
  {
    if items != [] { NumbersInRange(items[..|items| - 1]); }
  }

  lemma EntryInRange(value: Item)
    requires ValueInRange(value) && ChannelsOf(value).Some?
    ensures |ChannelsOf(value).value| <= 3
    ensures forall c :: c in ChannelsOf(value).value ==> c < NUM_CHANNELS
  {
    if value.Array? { NumbersInRange(value.items); }
  }

  /** An accepted allocation never shares a channel. */
  lemma {:induction false} AssignedDisjoint(entries: seq<Pair>)
    requires IndicesInRange(entries) && Acceptable(entries)
    ensures Disjoint(Assigned(entries))
    ensures forall a, c :: a in Assigned(entries) && c in Assigned(entries)[a] ==> c in Claims(entries)
  {
    if entries != [] {
      var n := |entries| - 1;
      var init, e := entries[..n], entries[n];
      var cs := ChannelsOf(e.value).value;
      assert Claims(entries) == Claims(init) + cs;
      assert NoDup(Claims(init)) by {
        assert forall i :: 0 <= i < |Claims(init)| ==> Claims(init)[i] == Claims(entries)[i];
      }
      assert NoDup(cs) by {
        assert forall i :: 0 <= i < |cs| ==> cs[i] == Claims(entries)[|Claims(init)| + i];
      }
      forall c | c in cs
        ensures c !in Claims(init)
      {
        var j :| 0 <= j < |cs| && cs[j] == c;
        assert Claims(entries)[|Claims(init)| + j] == c;
        assert forall k :: 0 <= k < |Claims(init)| ==> Claims(entries)[k] == Claims(init)[k];
      }
      AssignedDisjoint(init);
      EntryInRange(e.value);
    }
  }

  lemma {:induction false} NotYetAssigned(entries: seq<Pair>, key: Indicator)
    requires forall k :: 0 <= k < |entries| ==> WellFormed(entries[k])
    requires forall k :: 0 <= k < |entries| ==> KeyOf(entries[k].key) != Some(key) || entries[k].value.Null?
    ensures key !in Assigned(entries)
  {
    if entries != [] { NotYetAssigned(entries[..|entries| - 1], key); }
  }

  /** Duplicate keys keep the first entry. */
  lemma {:induction false} FirstEntryWins(entries: seq<Pair>, i: nat)
    requires forall k :: 0 <= k < |entries| ==> WellFormed(entries[k])
    requires i < |entries| && !entries[i].value.Null? && WellFormed(entries[i])
    requires forall k :: 0 <= k < i ==> KeyOf(entries[k].key) != KeyOf(entries[i].key) || entries[k].value.Null?
    ensures var key := KeyOf(entries[i].key).value;
            key in Assigned(entries) && Assigned(entries)[key] == ChannelsOf(entries[i].value).value
  {
    var n := |entries| - 1;
    if i < n {
      FirstEntryWins(entries[..n], i);
    } else {
      NotYetAssigned(entries[..n], KeyOf(entries[i].key).value);
    }
  }

  lemma {:induction false} ClaimsOfPrefix(entries: seq<Pair>, i: nat)
    requires i <= |entries|
    ensures Claims(entries[..i]) <= Claims(entries)
  {
    if i < |entries| {
      ClaimsOfPrefix(entries[..|entries| - 1], i);
      assert entries[..|entries| - 1][..i] == entries[..i];
    } else {
      assert entries[..i] == entries;
    }
  }

  lemma NothingClaimed()
    ensures Claims([]) == [] && Assigned([]) == map[]
  {}

  lemma ClaimsStep(entries: seq<Pair>, i: nat)
    requires i < |entries| && ChannelsOf(entries[i].value).Some?
    ensures Claims(entries[..i + 1]) == Claims(entries[..i]) + ChannelsOf(entries[i].value).value
    ensures Acceptable(entries) ==> NoDup(Claims(entries[..i + 1]))
  {
    assert entries[..i + 1][..i] == entries[..i];
    ClaimsOfPrefix(entries, i + 1);
    if Acceptable(entries) {
      var some, all := Claims(entries[..i + 1]), Claims(entries);
      assert forall k :: 0 <= k < |some| ==> some[k] == all[k];
    }
  }

  lemma AssignedStep(entries: seq<Pair>, i: nat)
    requires i < |entries| && forall k :: 0 <= k < i + 1 ==> WellFormed(entries[k])
    ensures WellFormed(entries[i])
    ensures var m, key := Assigned(entries[..i]), KeyOf(entries[i].key).value;
            Assigned(entries[..i + 1]) ==
            if entries[i].value.Null? || key in m then m else m[key := ChannelsOf(entries[i].value).value]
  {
    assert entries[..i + 1][..i] == entries[..i];
  }

  lemma RepeatedClaim(claims: seq<nat>, idx: nat)
    requires idx in claims
    ensures !NoDup(claims + [idx])
  {
    var j :| 0 <= j < |claims| && claims[j] == idx;
    assert (claims + [idx])[j] == (claims + [idx])[|claims|];
  }

  lemma {:induction false} NumbersPrefix(items: seq<Item>, j: nat)
    requires j <= |items| && Numbers(items).Some?
    ensures Numbers(items[..j]).Some? && Numbers(items[..j]).value <= Numbers(items).value
    ensures |Numbers(items).value| == |items|
    ensures forall k :: 0 <= k < |items| ==> items[k].Uint? && items[k].value == Numbers(items).value[k]
  {
    if j < |items| {
      NumbersPrefix(items[..|items| - 1], j);
      assert items[..|items| - 1][..j] == items[..j];
    } else {
      assert items[..j] == items;
      if items != [] { NumbersPrefix(items[..|items| - 1], |items| - 1); }
    }
  }

  // ---------- Registers behind an indicator ----------

  function Duty(brightness: real): byte {
    (Clamp(brightness) * 255.0).Floor
  }

  /** The largest byte that is not above 255 times the brightness; brightness outside 0 to 1 is cut
      off. */
  lemma DutyValue(x: real)
    ensures x <= 0.0 ==> Duty(x) == 0
    ensures x >= 1.0 ==> Duty(x) == 255
    ensures 0.0 <= x <= 1.0 ==> Duty(x) as real <= 255.0 * x < Duty(x) as real + 1.0
  {}

  lemma DutyOfClamped(x: real)
    ensures Duty(Clamp(x)) == Duty(x)
  {}

  function IndexOf(s: seq<nat>, c: nat): (i: nat)
    requires c in s
    ensures i < |s| && s[i] == c
  {
    if s[0] == c then 0 else 1 + IndexOf(s[1..], c)
  }

  /** The value an update puts in register r, given the channels of its indicator. */
  function Writes(indices: seq<nat>, u: Update, r: nat): Option<byte> {
    if r >= PWM0 && r - PWM0 in indices then Some(Duty(Level(u, IndexOf(indices, r - PWM0)))) else None
  }

  /** The register file after an update: its channels' duty cycles, everything else as before. */
  function Paint(regs: Registers, indices: seq<nat>, u: Update): Registers {
    seq(NUM_REGISTERS, r requires 0 <= r < NUM_REGISTERS =>
      match Writes(indices, u, r)
      case Some(v) => v
      case None => regs[r])
  }

  predicate IsDuty(r: int) {
    PWM0 <= r < PWM0 + NUM_CHANNELS
  }

  /** A write of one register that the device passes on to every duty cycle register. */
  predicate AllChannels(start: nat, size: nat) {
    start == PWM_ALL && size == 1
  }

  /** The device's reaction to a write with auto-increment. */
  function Written(regs: Registers, start: nat, data: seq<byte>): Registers
    requires start + |data| <= NUM_REGISTERS
  {
    seq(NUM_REGISTERS, r requires 0 <= r < NUM_REGISTERS =>
      if AllChannels(start, |data|) && IsDuty(r) then data[0]
      else if start <= r < start + |data| then data[r - start]
      else regs[r])
  }

  datatype Outcome = Handled | NotMine | Threw

  lemma IndexOfUnique(s: seq<nat>, i: nat)
    requires NoDup(s) && i < |s|
    ensures IndexOf(s, s[i]) == i
  {}

  lemma PaintedChannels(before: Registers, after: Registers, indices: seq<nat>, u: Update)
    requires NoDup(indices) && forall k :: 0 <= k < |indices| ==> indices[k] < NUM_CHANNELS
    requires forall k :: 0 <= k < |indices| ==> after[PWM0 + indices[k]] == Duty(Level(u, k))
    requires forall r :: 0 <= r < NUM_REGISTERS && (r < PWM0 || r - PWM0 !in indices) ==> after[r] == before[r]
    ensures after == Paint(before, indices, u)
  {
    forall r | 0 <= r < NUM_REGISTERS
      ensures after[r] == Paint(before, indices, u)[r]
    {
      if r >= PWM0 && r - PWM0 in indices {
        IndexOfUnique(indices, IndexOf(indices, r - PWM0));
      }
    }
  }

  /** A colour, component by component. */
  lemma PaintedColor(regs: Registers, indices: seq<nat>, red: real, green: real, blue: real)
    requires NoDup(indices) && 1 <= |indices| <= 3
    requires forall k :: 0 <= k < |indices| ==> indices[k] < NUM_CHANNELS
    ensures var painted := Paint(regs, indices, Color(red, green, blue));
            && painted[0x08 + indices[0]] == Duty(red)
            && (|indices| > 1 ==> painted[0x08 + indices[1]] == Duty(green))
            && (|indices| > 2 ==> painted[0x08 + indices[2]] == Duty(blue))
  {
    hide Duty;
    forall k | 0 <= k < |indices|
      ensures IndexOf(indices, indices[k]) == k
    {
      IndexOfUnique(indices, k);
    }
  }

  lemma ChannelsValid(channels: Channels, which: Indicator)
    requires Disjoint(channels) && which in channels
    ensures NoDup(channels[which]) && |channels[which]| <= 3
    ensures forall k :: 0 <= k < |channels[which]| ==> channels[which][k] < NUM_CHANNELS
  {
    forall k | 0 <= k < |channels[which]|
      ensures channels[which][k] < NUM_CHANNELS
    {
      assert channels[which][k] in channels[which];
    }
  }

  class Pca9955 {
    /// current settings for the sixteen outputs
    var iref: seq<byte>
    /// mapping from indicator to its output channels
    var channels: Channels
    /// register file of the device on the bus
    var regs: Registers

    predicate Valid()
      reads this
    {
      Disjoint(channels) && |iref| == NUM_CHANNELS
    }

    constructor (currents: seq<byte>, powerOn: Registers)
      requires |currents| == NUM_CHANNELS
      ensures Valid() && channels == map[] && iref == currents && regs == powerOn
    {
      iref, channels, regs := currents, map[], powerOn;
    }

    /** The inner loop of ReadLedMap: claims the channels of one array. */
    static method ClaimArray(items: seq<Item>, taken0: seq<bool>, ghost claims: seq<nat>)
      returns (threw: bool, indices: seq<nat>, taken: seq<bool>)
      requires |taken0| == NUM_CHANNELS && NoDup(claims) && ValueInRange(Array(items))
      requires forall c :: 0 <= c < NUM_CHANNELS ==> (taken0[c] <==> c in claims)
      ensures threw <==> Numbers(items).None? || !NoDup(claims + Numbers(items).value)
      ensures !threw ==> Numbers(items) == Some(indices) && |taken| == NUM_CHANNELS
      ensures !threw ==> forall c :: 0 <= c < NUM_CHANNELS ==> (taken[c] <==> c in claims + indices)
    {
      indices, taken := [], taken0;
      for j := 0 to |items|
        invariant |taken| == NUM_CHANNELS
        invariant Numbers(items[..j]) == Some(indices)
        invariant forall c :: 0 <= c < NUM_CHANNELS ==> (taken[c] <==> c in claims + indices)
        invariant NoDup(claims + indices)
      {
        assert items[..j + 1][..j] == items[..j];
        if !items[j].Uint? {
          if Numbers(items).Some? { NumbersPrefix(items, j); }
          return true, [], [];
        }
        var idx := items[j].value;
        assert claims + indices + [idx] == claims + (indices + [idx]);
        if taken[idx] {
          if Numbers(items).Some? {
            NumbersPrefix(items, j + 1);
            RepeatedClaim(claims + indices, idx);
            if NoDup(claims + Numbers(items).value) {
              NoDupPrefix(claims + indices + [idx], claims + Numbers(items).value);
            }
          }
          return true, [], [];
        }
        indices := indices + [idx];
        taken := taken[idx := true];
      }
      assert items[..|items|] == items;
      return false, indices, taken;
    }

    method ReadLedMap(entries: seq<Pair>) returns (threw: bool)
      requires Valid() && channels == map[] && IndicesInRange(entries)
      modifies this`channels
      ensures threw <==> !Acceptable(entries)
      ensures !threw ==> Valid() && channels == Assigned(entries)
    {
      hide FromCode, KeyOf, Claims, Assigned, Numbers;
      var taken := seq(NUM_CHANNELS, _ => false);
      NothingClaimed();
      for i := 0 to |entries|
        invariant |taken| == NUM_CHANNELS
        invariant forall k :: 0 <= k < i ==> WellFormed(entries[k])
        invariant forall c :: 0 <= c < NUM_CHANNELS ==> (taken[c] <==> c in Claims(entries[..i]))
        invariant NoDup(Claims(entries[..i]))
        invariant channels == Assigned(entries[..i])
      {
        var e := entries[i];
        assert ValueInRange(e.value);
        var key := KeyOf(e.key);
        if key == None {
          assert !WellFormed(entries[i]);
          return true;
        }
        var indices: seq<nat> := [];
        match e.value {
          case Uint(idx) =>
            ClaimsStep(entries, i);
            assert Claims(entries[..i + 1])[|Claims(entries[..i])|] == idx;
            if taken[idx] {
              RepeatedClaim(Claims(entries[..i]), idx);
              return true;
            }
            indices := [idx];
            taken := taken[idx := true];
          case Array(items) =>
            if |items| > 3 {
              assert !WellFormed(entries[i]);
              return true;
            }
            var failed;
            failed, indices, taken := ClaimArray(items, taken, Claims(entries[..i]));
            if failed {
              if Numbers(items).Some? {
                ClaimsStep(entries, i);
              } else {
                assert !WellFormed(entries[i]);
              }
              return true;
            }
            ClaimsStep(entries, i);
          case Null =>
            ClaimsStep(entries, i);
            AssignedStep(entries, i);
            assert Claims(entries[..i]) + [] == Claims(entries[..i]);
            continue;
          case _ =>
            assert !WellFormed(entries[i]);
            return true;
        }
        AssignedStep(entries, i);
        if key.value !in channels {
          channels := channels[key.value := indices];
        }
      }
      assert entries[..|entries|] == entries;
      AssignedDisjoint(entries);
      return false;
    }

    method WriteRegister(start: nat, data: seq<byte>) returns (threw: bool)
      requires start + |data| <= NUM_REGISTERS
      modifies this`regs
      ensures threw <==> data == []
      ensures regs[start..start + |data|] == data
      ensures start == 0x44 && |data| == 1 ==> forall r :: 0x08 <= r < 0x18 ==> regs[r] == data[0]
      ensures forall r :: 0 <= r < NUM_REGISTERS && !(start <= r < start + |data|) ==>
                regs[r] == old(regs)[r] || (start == 0x44 && |data| == 1 && 0x08 <= r < 0x18)
    {
      if data == [] {
        return true;
      }
      regs := Written(regs, start, data);
      if start == 0x44 && |data| == 1 {
        forall r | 0x08 <= r < 0x18
          ensures regs[r] == data[0]
        {
          assert AllChannels(start, |data|) && IsDuty(r);
        }
      }
      assert forall i :: 0 <= i < |data| ==> !IsDuty(0x44) && regs[start..start + |data|][i] == data[i];
      return false;
    }

    /** The start-up sequence of the constructor. */
    method Initialise()
      requires Valid()
      modifies this`regs
      ensures regs[0x00] == 0x80 && regs[0x01] == 0x15 && regs[0x3f] == 12
      ensures regs[0x06] == 0xff
      ensures regs[0x18..0x28] == iref
      ensures forall r :: 0x08 <= r < 0x18 ==> regs[r] == 0
      ensures forall r :: 0x02 <= r < 0x06 ==> regs[r] == 0xff
      ensures regs[0x44] == 0
      ensures forall r :: r == 0x07 || 0x28 <= r < NUM_REGISTERS ==> r == 0x3f || r == 0x44 || regs[r] == old(regs)[r]
    {
      var _ := WriteRegister(MODE1, [0x80]);
      var _ := WriteRegister(MODE2, [0x15]);
      var _ := WriteRegister(PWM_EDGE_OFFSET, [12]);
      var _ := WriteRegister(GROUP_DUTY_CYCLE, [Duty(1.0)]);
      var _ := WriteRegister(IREF0, iref);
      var _ := WriteRegister(PWM_ALL, [0]);
      var _ := WriteRegister(LEDOUT0, [0xff, 0xff, 0xff, 0xff]);
      assert forall r :: 0x02 <= r < 0x06 ==> regs[r] == regs[0x02..0x06][r - 2];
    }

    method SetBrightness(channel: nat, brightness: real) returns (threw: bool)
      modifies this`regs
      ensures threw <==> channel >= 16
      ensures regs == if threw then old(regs) else old(regs)[0x08 + channel := Duty(brightness)]
    {
      if channel >= NUM_CHANNELS {
        return true;
      }
      var temp := Clamp(brightness) * 255.0;
      threw := WriteRegister(PWM0 + channel, [temp.Floor]);
    }

    method SetIndicatorBrightness(which: Indicator, brightness: real) returns (handled: bool)
      requires Valid()
      modifies this`regs
      ensures handled <==> which in channels
      ensures regs == if handled then Paint(old(regs), channels[which], Brightness(brightness)) else old(regs)
      ensures handled ==> forall k :: 0 <= k < |channels[which]| ==>
                channels[which][k] < 16 && regs[0x08 + channels[which][k]] == Duty(brightness)
    {
      if which !in channels {
        return false;
      }
      var indices := channels[which];
      ChannelsValid(channels, which);
      for k := 0 to |indices|
        invariant forall j :: 0 <= j < k ==> regs[PWM0 + indices[j]] == Duty(brightness)
        invariant forall r :: 0 <= r < NUM_REGISTERS && (r < PWM0 || r - PWM0 !in indices) ==> regs[r] == old(regs)[r]
      {
        var _ := SetBrightness(indices[k], brightness);
      }
      PaintedChannels(old(regs), regs, indices, Brightness(brightness));
      return true;
    }

    /** The fall-through switch over the number of channels. */
    method WriteComponents(indices: seq<nat>, red: real, green: real, blue: real)
      requires NoDup(indices) && 1 <= |indices| <= 3
      requires forall k :: 0 <= k < |indices| ==> indices[k] < NUM_CHANNELS
      modifies this`regs
      ensures regs == Paint(old(regs), indices, Color(red, green, blue))
    {
      hide Paint, Duty, IndexOf;
      if |indices| == 3 {
        var _ := SetBrightness(indices[2], blue);
      }
      if |indices| >= 2 {
        var _ := SetBrightness(indices[1], green);
      }
      var _ := SetBrightness(indices[0], red);
      PaintedChannels(old(regs), regs, indices, Color(red, green, blue));
    }

    method SetIndicatorColor(which: Indicator, red: real, green: real, blue: real) returns (r: Outcome)
      requires Valid()
      modifies this`regs
      ensures r.NotMine? <==> which !in channels
      ensures r.Threw? <==> which in channels && channels[which] == []
      ensures regs == if r.Handled? then Paint(old(regs), channels[which], Color(red, green, blue)) else old(regs)
      ensures r.Handled? ==>
                var c := channels[which];
                && 1 <= |c| <= 3 && (forall k :: 0 <= k < |c| ==> c[k] < 16)
                && regs[0x08 + c[0]] == Duty(red)
                && (|c| > 1 ==> regs[0x08 + c[1]] == Duty(green))
                && (|c| > 2 ==> regs[0x08 + c[2]] == Duty(blue))
    {
      if which !in channels {
        return NotMine;
      }
      hide Paint, Duty, Disjoint, IndexOf;
      var indices := channels[which];
      ChannelsValid(channels, which);
      if |indices| == 0 {
        return Threw;
      }
      WriteComponents(indices, red, green, blue);
      PaintedColor(old(regs), indices, red, green, blue);
      return Handled;
    }

    method SetIndicatorGlobalBrightness(brightness: real)
      modifies this`regs
      ensures regs == old(regs)[0x06 := Duty(brightness)]
    {
      var _ := WriteRegister(GROUP_DUTY_CYCLE, [Duty(brightness)]);
    }
  }
}
