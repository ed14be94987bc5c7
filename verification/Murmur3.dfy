/** MurmurHash3 (32-bit), as the boot loader applies it to the serial number. */
module Murmur3 {

  // ---------- 32-bit arithmetic steps ----------

  function TimesC1(x: bv32): bv32 {
    x * 0xcc9e2d51
  }

  function TimesC2(x: bv32): bv32 {
    x * 0x1b873593
  }

  function TimesM1(x: bv32): bv32 {
    x * 0x85ebca6b
  }

  function TimesM2(x: bv32): bv32 {
    x * 0xc2b2ae35
  }

  function Xor(x: bv32, y: bv32): bv32 {
    x ^ y
  }

  function Rotl32(x: bv32, r: bv6): bv32
    requires 0 < r < 32
  {
    (x << r) | (x >> (32 - r))
  }

  function XorShift(h: bv32, s: bv6): bv32
    requires s < 32
  {
    h ^ (h >> s)
  }

  function TimesFivePlus(h: bv32): bv32 {
    h * 5 + 0xe6546b64
  }

  function Octet(b: bv8): bv32 {
    b as bv32
  }

  /** The 32-bit word whose bytes, least significant first, start at data[pos]. */
  function GetBlock32(data: seq<bv8>, pos: nat): bv32
    requires pos + 4 <= |data|
  {
    Octet(data[pos]) | (Octet(data[pos + 1]) << 8) |
    (Octet(data[pos + 2]) << 16) | (Octet(data[pos + 3]) << 24)
  }

  // ---------- Reference definition: a left fold over little-endian blocks ----------

  function MixBlock(k: bv32): bv32 {
    TimesC2(Rotl32(TimesC1(k), 15))
  }

  function Round(h: bv32, k: bv32): bv32 {
    TimesFivePlus(Rotl32(Xor(h, MixBlock(k)), 13))
  }

  function Avalanche(h: bv32): bv32 {
    XorShift(TimesM2(XorShift(TimesM1(XorShift(h, 16)), 13)), 16)
  }

  function Body(h: bv32, data: seq<bv8>): bv32
    decreases |data|
  {
    if |data| < 4 then h else Body(Round(h, GetBlock32(data, 0)), data[4..])
  }

  /** The bytes after the last whole block, as a little-endian number. */
  function TailWord(tail: seq<bv8>): bv32
    requires |tail| < 4
  {
    if tail == [] then 0 else (TailWord(tail[1..]) << 8) | Octet(tail[0])
  }

  function TailStart(data: seq<bv8>): (n: nat)
    ensures n <= |data| < n + 4
  {
    |data| / 4 * 4
  }

  function Length32(length: nat): bv32 {
    (length % 0x1_0000_0000) as bv32
  }

  function WithTail(h: bv32, tail: seq<bv8>): bv32
    requires |tail| < 4
  {
    if tail == [] then h else Xor(h, MixBlock(TailWord(tail)))
  }

  function Finish(h: bv32, tail: seq<bv8>, length: nat): bv32
    requires |tail| < 4
  {
    Avalanche(Xor(WithTail(h, tail), Length32(length)))
  }

  function Hash(data: seq<bv8>, seed: bv32): bv32 {
    var t := TailStart(data);
    Finish(Body(seed, data[..t]), data[t..], |data|)
  }

  // ---------- The hash as it is computed ----------

  method Fmix32(h0: bv32) returns (h: bv32)
    ensures h == Avalanche(h0)
  {
    h := XorShift(h0, 16);
    h := TimesM1(h);
    h := XorShift(h, 13);
    h := TimesM2(h);
    h := XorShift(h, 16);
  }

  lemma BodyStep(h: bv32, data: seq<bv8>, pos: nat)
    requires pos + 4 <= TailStart(data)
    ensures Body(h, data[pos..TailStart(data)])
         == Body(Round(h, GetBlock32(data, pos)), data[pos + 4..TailStart(data)])
  {
    hide Round;
    var rest := data[pos..TailStart(data)];
    assert rest[4..] == data[pos + 4..TailStart(data)];
  }

  function OctetAt(tail: seq<bv8>, i: nat): bv8 {
    if i < |tail| then tail[i] else 0
  }

  function ThreeBytes(x: bv8, y: bv8, z: bv8): bv32 {
    (Octet(x) << 16) | (Octet(y) << 8) | Octet(z)
  }

  lemma TailWordUnrolled(tail: seq<bv8>)
    requires 0 < |tail| < 4
    ensures TailWord(tail) == ThreeBytes(OctetAt(tail, 2), OctetAt(tail, 1), tail[0])
  {
    var t1 := tail[1..];
    if |tail| >= 2 {
      var t2 := t1[1..];
      assert t1[0] == tail[1];
      if |tail| == 3 {
        assert t2[0] == tail[2] && t2[1..] == [];
      }
    }
  }

  lemma XorOfDisjointBytes(x: bv8, y: bv8, z: bv8)
    ensures (Octet(x) << 16) ^ (Octet(y) << 8) ^ Octet(z)
         == ThreeBytes(x, y, z)
  {}

  /** The block loop counts up from -nblocks, indexing backwards from the tail. */
  method HashBlocks(data: seq<bv8>, seed: bv32) returns (h1: bv32)
    ensures h1 == Body(seed, data[..TailStart(data)])
  {
    var nblocks := |data| / 4;
    h1 := seed;
    var blocks := nblocks * 4;
    var i := -nblocks;
    assert data[..blocks] == data[0..blocks];
    while i != 0
      invariant -nblocks <= i <= 0
      invariant Body(h1, data[blocks + 4 * i..blocks]) == Body(seed, data[..blocks])
    {
      var k1 := GetBlock32(data, blocks + 4 * i);
      BodyStep(h1, data, blocks + 4 * i);
      k1 := TimesC1(k1);
      k1 := Rotl32(k1, 15);
      k1 := TimesC2(k1);
      h1 := Xor(h1, k1);
      h1 := Rotl32(h1, 13);
      h1 := TimesFivePlus(h1);
      i := i + 1;
    }
  }

  /** The fall-through switch: each case also runs the ones below it. */
  method ReadTail(tail: seq<bv8>) returns (k1: bv32)
    requires 0 < |tail| < 4
    ensures k1 == TailWord(tail)
  {
    k1 := 0;
    if |tail| == 3 { k1 := k1 ^ (Octet(tail[2]) << 16); }
    if |tail| >= 2 { k1 := k1 ^ (Octet(tail[1]) << 8); }
    k1 := k1 ^ Octet(tail[0]);
    TailWordUnrolled(tail);
    XorOfDisjointBytes(OctetAt(tail, 2), OctetAt(tail, 1), tail[0]);
  }

  method DoHashMurmur3(data: seq<bv8>, seed: bv32) returns (h1: bv32)
    ensures h1 == Hash(data, seed)
  {
    h1 := HashBlocks(data, seed);
    var tail := data[TailStart(data)..];
    if |data| % 4 != 0 {
      var k1 := ReadTail(tail);
      k1 := TimesC1(k1);
      k1 := Rotl32(k1, 15);
      k1 := TimesC2(k1);
      h1 := Xor(h1, k1);
    }
    h1 := Xor(h1, Length32(|data|));
    h1 := Fmix32(h1);
  }

  // ---------- Every step can be undone ----------

  lemma XorUndone(x: bv32, y: bv32)
    ensures Xor(Xor(x, y), y) == x
  {
    assert Xor(x ^ y, y) == x;
  }

  lemma XorCommutes(x: bv32, y: bv32)
    ensures Xor(x, y) == Xor(y, x)
  {}

  // Each multiplier is odd, so it has an inverse modulo 2^32.

  function UnTimesC1(x: bv32): bv32 {
    x * 0xdee13bb1
  }

  lemma TimesC1Undone(x: bv32)
    ensures UnTimesC1(TimesC1(x)) == x
    ensures TimesC1(UnTimesC1(x)) == x
  {
    assert UnTimesC1(x * 0xcc9e2d51) == x;
    assert TimesC1(x * 0xdee13bb1) == x;
  }

  function UnTimesC2(x: bv32): bv32 {
    x * 0x56ed309b
  }

  lemma TimesC2Undone(x: bv32)
    ensures UnTimesC2(TimesC2(x)) == x
    ensures TimesC2(UnTimesC2(x)) == x
  {
    assert UnTimesC2(x * 0x1b873593) == x;
    assert TimesC2(x * 0x56ed309b) == x;
  }

  function UnTimesM1(x: bv32): bv32 {
    x * 0xa5cb9243
  }

  lemma TimesM1Undone(x: bv32)
    ensures UnTimesM1(TimesM1(x)) == x
    ensures TimesM1(UnTimesM1(x)) == x
  {
    assert UnTimesM1(x * 0x85ebca6b) == x;
    assert TimesM1(x * 0xa5cb9243) == x;
  }

  function UnTimesM2(x: bv32): bv32 {
    x * 0x7ed1b41d
  }

  lemma TimesM2Undone(x: bv32)
    ensures UnTimesM2(TimesM2(x)) == x
    ensures TimesM2(UnTimesM2(x)) == x
  {
    assert UnTimesM2(x * 0xc2b2ae35) == x;
    assert TimesM2(x * 0x7ed1b41d) == x;
  }

  function UnTimesFivePlus(h: bv32): bv32 {
    (h - 0xe6546b64) * 0xcccccccd
  }

  lemma TimesFivePlusUndone(h: bv32)
    ensures UnTimesFivePlus(TimesFivePlus(h)) == h
    ensures TimesFivePlus(UnTimesFivePlus(h)) == h
  {
    assert UnTimesFivePlus(h * 5 + 0xe6546b64) == h;
    assert TimesFivePlus((h - 0xe6546b64) * 0xcccccccd) == h;
  }

  lemma Rotl15Undone(x: bv32)
    ensures Rotl32(Rotl32(x, 15), 17) == x
    ensures Rotl32(Rotl32(x, 17), 15) == x
  {
    assert Rotl32((x << 15) | (x >> 17), 17) == x;
    assert Rotl32((x << 17) | (x >> 15), 15) == x;
  }

  lemma Rotl13Undone(x: bv32)
    ensures Rotl32(Rotl32(x, 13), 19) == x
    ensures Rotl32(Rotl32(x, 19), 13) == x
  {
    assert Rotl32((x << 13) | (x >> 19), 19) == x;
    assert Rotl32((x << 19) | (x >> 13), 13) == x;
  }

  lemma XorShift16Undone(h: bv32)
    ensures XorShift(XorShift(h, 16), 16) == h
  {
    assert XorShift(h ^ (h >> 16), 16) == h;
  }

  function UnXorShift13(h: bv32): bv32 {
    h ^ (h >> 13) ^ (h >> 26)
  }

  lemma XorShift13Undone(h: bv32)
    ensures UnXorShift13(XorShift(h, 13)) == h
    ensures XorShift(UnXorShift13(h), 13) == h
  {
    assert UnXorShift13(h ^ (h >> 13)) == h;
    assert XorShift(h ^ (h >> 13) ^ (h >> 26), 13) == h;
  }

  function UnMixBlock(m: bv32): bv32 {
    UnTimesC1(Rotl32(UnTimesC2(m), 17))
  }

  lemma MixBlockUndone(k: bv32)
    ensures UnMixBlock(MixBlock(k)) == k
  {
    TimesC1Undone(k);
    Rotl15Undone(TimesC1(k));
    TimesC2Undone(Rotl32(TimesC1(k), 15));
  }

  function UnRound(h: bv32, k: bv32): bv32 {
    Xor(Rotl32(UnTimesFivePlus(h), 19), MixBlock(k))
  }

  lemma RoundUndone(h: bv32, k: bv32)
    ensures UnRound(Round(h, k), k) == h
    ensures Round(UnRound(h, k), k) == h
  {
    var x := Xor(h, MixBlock(k));
    XorUndone(h, MixBlock(k));
    Rotl13Undone(x);
    TimesFivePlusUndone(Rotl32(x, 13));
    var y := UnTimesFivePlus(h);
    TimesFivePlusUndone(h);
    Rotl13Undone(y);
    XorUndone(Rotl32(y, 19), MixBlock(k));
  }

  function UnAvalanche(h: bv32): bv32 {
    XorShift(UnTimesM1(UnXorShift13(UnTimesM2(XorShift(h, 16)))), 16)
  }

  lemma AvalancheUndone(h: bv32)
    ensures UnAvalanche(Avalanche(h)) == h
  {
    var a := XorShift(h, 16);
    var b := TimesM1(a);
    var c := XorShift(b, 13);
    var d := TimesM2(c);
    XorShift16Undone(h);
    TimesM1Undone(a);
    XorShift13Undone(b);
    TimesM2Undone(c);
    XorShift16Undone(d);
  }

  lemma UnAvalancheUndone(h: bv32)
    ensures Avalanche(UnAvalanche(h)) == h
  {
    var a := XorShift(h, 16);
    var b := UnTimesM2(a);
    var c := UnXorShift13(b);
    var d := UnTimesM1(c);
    XorShift16Undone(h);
    TimesM2Undone(a);
    XorShift13Undone(b);
    TimesM1Undone(c);
    XorShift16Undone(d);
  }

  // ---------- The hash is a bijection of the seed ----------

  function UnBody(h: bv32, data: seq<bv8>): bv32
    decreases |data|
  {
    if |data| < 4 then h else UnRound(UnBody(h, data[4..]), GetBlock32(data, 0))
  }

  lemma {:induction false} BodyUndone(h: bv32, data: seq<bv8>)
    ensures UnBody(Body(h, data), data) == h
    ensures Body(UnBody(h, data), data) == h
    decreases |data|
  {
    if |data| >= 4 {
      var k := GetBlock32(data, 0);
      BodyUndone(Round(h, k), data[4..]);
      RoundUndone(h, k);
      BodyUndone(h, data[4..]);
      RoundUndone(UnBody(h, data[4..]), k);
    }
  }

  function UnFinish(h: bv32, tail: seq<bv8>, length: nat): bv32
    requires |tail| < 4
  {
    var mixed := Xor(UnAvalanche(h), Length32(length));
    if tail == [] then mixed else Xor(mixed, MixBlock(TailWord(tail)))
  }

  lemma FinishUndone(h: bv32, tail: seq<bv8>, length: nat)
    requires |tail| < 4
    ensures UnFinish(Finish(h, tail, length), tail, length) == h
    ensures Finish(UnFinish(h, tail, length), tail, length) == h
  {
    var m := MixBlock(TailWord(tail));
    var l := Length32(length);
    var mixed := if tail == [] then h else Xor(h, m);
    AvalancheUndone(Xor(mixed, l));
    XorUndone(mixed, l);
    XorUndone(h, m);
    var back := Xor(UnAvalanche(h), l);
    XorUndone(back, m);
    XorUndone(UnAvalanche(h), l);
    UnAvalancheUndone(h);
  }

  /** The one seed under which the given data hashes to h. */
  function SeedFor(data: seq<bv8>, h: bv32): bv32 {
    var t := TailStart(data);
    UnBody(UnFinish(h, data[t..], |data|), data[..t])
  }

  lemma HashIsBijectionOfSeed(data: seq<bv8>, seed: bv32, h: bv32)
    ensures SeedFor(data, Hash(data, seed)) == seed
    ensures Hash(data, SeedFor(data, h)) == h
  {
    var t := TailStart(data);
    FinishUndone(Body(seed, data[..t]), data[t..], |data|);
    BodyUndone(seed, data[..t]);
    FinishUndone(h, data[t..], |data|);
    BodyUndone(UnFinish(h, data[t..], |data|), data[..t]);
  }

  // ---------- The length is part of the hash ----------

  lemma NextWord(x: bv32)
    requires x < 0x100 && x as int < 0xff
    ensures x + 1 < 0x100 && (x + 1) as int == x as int + 1
  {}

  lemma {:induction false} ByteWord(n: nat) returns (w: bv32)
    requires n < 0x100
    ensures w < 0x100 && w as int == n
  {
    if n == 0 {
      w := 0;
    } else {
      var v := ByteWord(n - 1);
      NextWord(v);
      w := v + 1;
    }
  }

  lemma SecondByte(y: bv32, x: bv32) returns (w: bv32)
    requires x < 0x100 && y < 0x100
    ensures w < 0x1_0000 && w as int == 0x100 * (y as int) + x as int
  {
    w := (y << 8) | x;
  }

  lemma ThirdByte(y: bv32, x: bv32) returns (w: bv32)
    requires x < 0x1_0000 && y < 0x100
    ensures w < 0x100_0000 && w as int == 0x1_0000 * (y as int) + x as int
  {
    w := (y << 16) | x;
  }

  lemma FourthByte(y: bv32, x: bv32) returns (w: bv32)
    requires x < 0x100_0000 && y < 0x100
    ensures w as int == 0x100_0000 * (y as int) + x as int
  {
    w := (y << 24) | x;
  }

  lemma FourBytes(b0: nat, b1: nat, b2: nat, b3: nat) returns (w: bv32)
    requires b0 < 0x100 && b1 < 0x100 && b2 < 0x100 && b3 < 0x100
    ensures w as int == b0 + 0x100 * b1 + 0x1_0000 * b2 + 0x100_0000 * b3
  {
    w := ByteWord(b0);
    var w1 := ByteWord(b1);
    w := SecondByte(w1, w);
    var w2 := ByteWord(b2);
    w := ThirdByte(w2, w);
    var w3 := ByteWord(b3);
    w := FourthByte(w3, w);
  }

  function ByteOf(n: nat, i: nat): (b: nat)
    ensures b < 0x100
  {
    if i == 0 then n % 0x100 else ByteOf(n / 0x100, i - 1)
  }

  lemma BytesOf(n: nat)
    requires n < 0x1_0000_0000
    ensures n == ByteOf(n, 0) + 0x100 * ByteOf(n, 1) + 0x1_0000 * ByteOf(n, 2) + 0x100_0000 * ByteOf(n, 3)
  {
    var m := n / 0x100;
    var l := m / 0x100;
    assert ByteOf(n, 1) == ByteOf(m, 0) && ByteOf(n, 2) == ByteOf(m, 1) == ByteOf(l, 0);
    assert ByteOf(n, 3) == ByteOf(m, 2) == ByteOf(l, 1) == ByteOf(l / 0x100, 0);
  }

  /** Every number below 2^32 is the value of a word, put together byte by byte. */
  lemma SomeWord(n: nat) returns (w: bv32)
    requires n < 0x1_0000_0000
    ensures w as int == n
  {
    hide ByteOf;
    BytesOf(n);
    w := FourBytes(ByteOf(n, 0), ByteOf(n, 1), ByteOf(n, 2), ByteOf(n, 3));
  }

  lemma WordAsInt(w: bv32)
    ensures (w as int) as bv32 == w
  {}

  /** The number a word stands for. */
  function Value(w: bv32): nat {
    w as int
  }

  /** The length counts modulo 2^32, as a whole. */
  lemma LengthWord(length: nat)
    ensures Value(Length32(length)) == length % 0x1_0000_0000
  {
    var w := SomeWord(length % 0x1_0000_0000);
    WordAsInt(w);
    assert Length32(length) == w;
  }

  lemma LengthInjective(m: nat, n: nat)
    requires m < 0x1_0000_0000 && n < 0x1_0000_0000
    requires Length32(m) == Length32(n)
    ensures m == n
  {
    hide Length32, Value;
    LengthWord(m);
    LengthWord(n);
  }

  lemma FinishPeeled(h: bv32, tail: seq<bv8>, length: nat)
    requires |tail| < 4
    ensures UnAvalanche(Finish(h, tail, length)) == Xor(WithTail(h, tail), Length32(length))
  {
    hide Avalanche, UnAvalanche, Length32, WithTail, Xor;
    AvalancheUndone(Xor(WithTail(h, tail), Length32(length)));
  }

  lemma HashPeeled(data: seq<bv8>, seed: bv32)
    ensures var t := TailStart(data);
            UnAvalanche(Hash(data, seed)) == Xor(WithTail(Body(seed, data[..t]), data[t..]), Length32(|data|))
  {
    hide Finish, UnAvalanche, WithTail, Body, Length32, Xor;
    var t := TailStart(data);
    FinishPeeled(Body(seed, data[..t]), data[t..], |data|);
  }

  /** Undoing the finaliser of a hash leaves the state after blocks and tail, with the length mixed
      in. */
  lemma LengthIsMixed(data: seq<bv8>, seed: bv32) returns (w: bv32)
    requires |data| < 0x1_0000_0000
    ensures Value(w) == |data|
    ensures var t := TailStart(data);
            UnAvalanche(Hash(data, seed)) == Xor(WithTail(Body(seed, data[..t]), data[t..]), w)
  {
    hide *;
    w := Length32(|data|);
    HashPeeled(data, seed);
    LengthWord(|data|);
  }

  lemma XorInjective(x: bv32, y: bv32, z: bv32)
    requires Xor(x, y) == Xor(x, z)
    ensures y == z
  {
    XorCommutes(x, y);
    XorCommutes(x, z);
    XorUndone(y, x);
    XorUndone(z, x);
  }

  /** From one state and tail, two lengths below 2^32 hash alike only if they are equal. */
  lemma LengthChangeDetected(h: bv32, tail: seq<bv8>, m: nat, n: nat)
    requires |tail| < 4 && m < 0x1_0000_0000 && n < 0x1_0000_0000
    requires Finish(h, tail, m) == Finish(h, tail, n)
    ensures m == n
  {
    hide UnAvalanche, Length32, WithTail, Xor, Finish;
    FinishPeeled(h, tail, m);
    FinishPeeled(h, tail, n);
    XorInjective(WithTail(h, tail), Length32(m), Length32(n));
    LengthInjective(m, n);
  }

  // ---------- A change confined to one aligned word always changes the hash ----------

  /** A word as it lies in memory: four bytes, least significant first. */
  function WordBytes(w: bv32): (bytes: seq<bv8>)
    ensures |bytes| == 4
  {
    [(w & 0xff) as bv8, ((w >> 8) & 0xff) as bv8, ((w >> 16) & 0xff) as bv8, (w >> 24) as bv8]
  }

  lemma WordOfBytes(w: bv32)
    ensures GetBlock32(WordBytes(w), 0) == w
  {}

  lemma GetBlock32Bytes(data: seq<bv8>, pos: nat)
    requires pos + 4 <= |data|
    ensures WordBytes(GetBlock32(data, pos)) == data[pos..pos + 4]
  {}

  lemma ThreeBytesInMemory(x: bv8, y: bv8, z: bv8)
    ensures WordBytes(ThreeBytes(x, y, z)) == [z, y, x, 0]
  {}

  lemma TailWordBytes(tail: seq<bv8>)
    requires 0 < |tail| < 4
    ensures WordBytes(TailWord(tail))[..|tail|] == tail
  {
    hide WordBytes, TailWord, ThreeBytes;
    TailWordUnrolled(tail);
    ThreeBytesInMemory(OctetAt(tail, 2), OctetAt(tail, 1), tail[0]);
  }

  lemma MixInjective(h: bv32, k: bv32, k': bv32)
    requires Xor(h, MixBlock(k)) == Xor(h, MixBlock(k'))
    ensures k == k'
  {
    XorInjective(h, MixBlock(k), MixBlock(k'));
    MixBlockUndone(k);
    MixBlockUndone(k');
  }

  lemma RoundInjectiveInBlock(h: bv32, k: bv32, k': bv32)
    requires Round(h, k) == Round(h, k')
    ensures k == k'
  {
    var x, x' := Xor(h, MixBlock(k)), Xor(h, MixBlock(k'));
    TimesFivePlusUndone(Rotl32(x, 13));
    TimesFivePlusUndone(Rotl32(x', 13));
    Rotl13Undone(x);
    Rotl13Undone(x');
    MixInjective(h, k, k');
  }

  lemma FirstBlockDetermined(h: bv32, a: seq<bv8>, b: seq<bv8>)
    requires |a| == |b| >= 4 && a[4..] == b[4..]
    requires Body(h, a) == Body(h, b)
    ensures GetBlock32(a, 0) == GetBlock32(b, 0)
  {
    hide Round, GetBlock32;
    var ka, kb := GetBlock32(a, 0), GetBlock32(b, 0);
    BodyUndone(Round(h, ka), a[4..]);
    BodyUndone(Round(h, kb), b[4..]);
    RoundInjectiveInBlock(h, ka, kb);
  }

  lemma BlockOfSuffix(data: seq<bv8>, pos: nat)
    requires pos + 8 <= |data|
    ensures GetBlock32(data[4..], pos) == GetBlock32(data, pos + 4)
  {}

  lemma SameFirstBlock(a: seq<bv8>, b: seq<bv8>)
    requires |a| >= 4 && |b| >= 4
    requires a[0] == b[0] && a[1] == b[1] && a[2] == b[2] && a[3] == b[3]
    ensures GetBlock32(a, 0) == GetBlock32(b, 0)
  {}

  /** Two inputs that agree outside block j and leave the same state have the same block j. */
  lemma {:induction false} BodyDeterminesBlock(h: bv32, a: seq<bv8>, b: seq<bv8>, j: nat)
    requires |a| == |b| && 4 * j + 4 <= |a|
    requires forall i :: 0 <= i < |a| && i / 4 != j ==> a[i] == b[i]
    requires Body(h, a) == Body(h, b)
    ensures GetBlock32(a, 4 * j) == GetBlock32(b, 4 * j)
    decreases j
  {
    hide Round, GetBlock32;
    if j == 0 {
      assert forall i :: 4 <= i < |a| ==> i / 4 != 0;
      assert a[4..] == b[4..];
      FirstBlockDetermined(h, a, b);
    } else {
      assert 0 / 4 != j && 1 / 4 != j && 2 / 4 != j && 3 / 4 != j;
      SameFirstBlock(a, b);
      forall i | 0 <= i < |a| - 4 && i / 4 != j - 1
        ensures a[4..][i] == b[4..][i]
      {
        assert (i + 4) / 4 != j;
      }
      BodyDeterminesBlock(Round(h, GetBlock32(a, 0)), a[4..], b[4..], j - 1);
      BlockOfSuffix(a, 4 * (j - 1));
      BlockOfSuffix(b, 4 * (j - 1));
    }
  }

  lemma FinishInjectiveInTail(h: bv32, a: seq<bv8>, b: seq<bv8>, length: nat)
    requires |a| == |b| < 4
    requires Finish(h, a, length) == Finish(h, b, length)
    ensures a == b
  {
    if |a| > 0 {
      var l := Length32(length);
      var xa, xb := Xor(h, MixBlock(TailWord(a))), Xor(h, MixBlock(TailWord(b)));
      AvalancheUndone(Xor(xa, l));
      AvalancheUndone(Xor(xb, l));
      XorUndone(xa, l);
      XorUndone(xb, l);
      MixInjective(h, TailWord(a), TailWord(b));
      TailWordBytes(a);
      TailWordBytes(b);
    }
  }

  lemma SameBlockSameData(a: seq<bv8>, b: seq<bv8>, j: nat)
    requires |a| == |b| && 4 * j + 4 <= |a|
    requires forall i :: 0 <= i < |a| && i / 4 != j ==> a[i] == b[i]
    requires GetBlock32(a, 4 * j) == GetBlock32(b, 4 * j)
    ensures a == b
  {
    hide GetBlock32, WordBytes;
    GetBlock32Bytes(a, 4 * j);
    GetBlock32Bytes(b, 4 * j);
    forall i | 0 <= i < |a|
      ensures a[i] == b[i]
    {
      if i / 4 == j {
        assert a[i] == a[4 * j..4 * j + 4][i - 4 * j];
        assert b[i] == b[4 * j..4 * j + 4][i - 4 * j];
      }
    }
  }

  lemma PrefixBlock(data: seq<bv8>, t: nat, pos: nat)
    requires pos + 4 <= t <= |data|
    ensures GetBlock32(data[..t], pos) == GetBlock32(data, pos)
  {}

  lemma BlockChangeDetected(a: seq<bv8>, b: seq<bv8>, j: nat, seed: bv32)
    requires |a| == |b| && 4 * j + 4 <= TailStart(a)
    requires forall i :: 0 <= i < |a| && i / 4 != j ==> a[i] == b[i]
    requires Hash(a, seed) == Hash(b, seed)
    ensures GetBlock32(a, 4 * j) == GetBlock32(b, 4 * j)
  {
    hide Finish, UnFinish, Round, GetBlock32;
    var t := TailStart(a);
    assert a[t..] == b[t..];
    FinishUndone(Body(seed, a[..t]), a[t..], |a|);
    FinishUndone(Body(seed, b[..t]), a[t..], |a|);
    PrefixBlock(a, t, 4 * j);
    PrefixBlock(b, t, 4 * j);
    BodyDeterminesBlock(seed, a[..t], b[..t], j);
  }

  /** Two inputs of one length that agree outside aligned word j (which may be the shorter
      tail) and have the same hash are equal: a change to one word is always detected. */
  lemma OneWordChangeDetected(a: seq<bv8>, b: seq<bv8>, j: nat, seed: bv32)
    requires |a| == |b|
    requires forall i :: 0 <= i < |a| && i / 4 != j ==> a[i] == b[i]
    requires Hash(a, seed) == Hash(b, seed)
    ensures a == b
  {
    hide Finish, Body, GetBlock32;
    var t := TailStart(a);
    if 4 * j + 4 <= t {
      BlockChangeDetected(a, b, j, seed);
      SameBlockSameData(a, b, j);
    } else {
      assert a[..t] == b[..t];
      FinishInjectiveInTail(Body(seed, a[..t]), a[t..], b[t..], |a|);
      assert a == a[..t] + a[t..] && b == b[..t] + b[t..];
    }
  }

  // ---------- Sanity ----------

  // Four known values of the algorithm. They prove nothing general: they guard the constants,
  // the byte order and the tail against slips in the definitions above.

  lemma HashOfNothing()
    ensures Hash([], 1) == 0x514e28b7
  {}

  lemma HashOfOneBlock()
    ensures Hash([0x74, 0x65, 0x73, 0x74], 0) == 0xba6bd213
  {
    var d: seq<bv8> := [0x74, 0x65, 0x73, 0x74];
    assert TailStart(d) == 4 && d[..4] == d && d[4..] == [];
    assert GetBlock32(d, 0) == 0x74736574;
    assert Length32(4) == 4;
    assert TimesC1(0x74736574) == 0x2ef07db4;
    assert Rotl32(0x2ef07db4, 15) == 0x3eda1778;
    assert TimesC2(0x3eda1778) == 0x465f51e8;
    assert MixBlock(0x74736574) == 0x465f51e8;
    assert Xor(0, 0x465f51e8) == 0x465f51e8;
    assert Rotl32(0x465f51e8, 13) == 0xea3d08cb;
    assert TimesFivePlus(0xea3d08cb) == 0x7985975b;
    assert Round(0, 0x74736574) == 0x7985975b;
    assert Xor(0x7985975b, 4) == 0x7985975f;
    assert XorShift(0x7985975f, 16) == 0x7985eeda;
    assert TimesM1(0x7985eeda) == 0xfd90d91e;
    assert XorShift(0xfd90d91e, 13) == 0xfd973598;
    assert TimesM2(0xfd973598) == 0xba6b6878;
    assert XorShift(0xba6b6878, 16) == 0xba6bd213;
    assert Avalanche(0x7985975f) == 0xba6bd213;
  }

  lemma HashOfTail()
    ensures Hash([0x61, 0x62, 0x63], 0) == 0xb3dd93fa
  {
    var t: seq<bv8> := [0x61, 0x62, 0x63];
    assert TailStart(t) == 0 && t[..0] == [] && t[0..] == t;
    TailWordUnrolled(t);
    assert TailWord(t) == 0x00636261;
    assert Length32(3) == 3;
    assert TimesC1(0x00636261) == 0x9b9b2db1;
    assert Rotl32(0x9b9b2db1, 15) == 0x96d8cdcd;
    assert TimesC2(0x96d8cdcd) == 0xa7349db7;
    assert MixBlock(0x00636261) == 0xa7349db7;
    assert Xor(0, 0xa7349db7) == 0xa7349db7;
    assert Xor(0xa7349db7, 3) == 0xa7349db4;
    assert XorShift(0xa7349db4, 16) == 0xa7343a80;
    assert TimesM1(0xa7343a80) == 0x4c7d7380;
    assert XorShift(0x4c7d7380, 13) == 0x4c7f106b;
    assert TimesM2(0x4c7f106b) == 0xb3dd2027;
    assert XorShift(0xb3dd2027, 16) == 0xb3dd93fa;
    assert Avalanche(0xa7349db4) == 0xb3dd93fa;
  }

  lemma SerialRound1()
    ensures Round(0x504c534e, 0x33323130) == 0x926d46c0
  {
    assert TimesC1(0x33323130) == 0xa1270030;
    assert Rotl32(0xa1270030, 15) == 0x80185093;
    assert TimesC2(0x80185093) == 0x9529b369;
    assert MixBlock(0x33323130) == 0x9529b369;
    assert Xor(0x504c534e, 0x9529b369) == 0xc565e027;
    assert Rotl32(0xc565e027, 13) == 0xbc04f8ac;
    assert TimesFivePlus(0xbc04f8ac) == 0x926d46c0;
  }

  lemma SerialRound2()
    ensures Round(0x926d46c0, 0x37363534) == 0x8d834a3c
  {
    assert TimesC1(0x37363534) == 0x4598f974;
    assert Rotl32(0x4598f974, 15) == 0x7cba22cc;
    assert TimesC2(0x7cba22cc) == 0x05aa3724;
    assert MixBlock(0x37363534) == 0x05aa3724;
    assert Xor(0x926d46c0, 0x05aa3724) == 0x97c771e4;
    assert Rotl32(0x97c771e4, 13) == 0xee3c92f8;
    assert TimesFivePlus(0xee3c92f8) == 0x8d834a3c;
  }

  lemma SerialRound3()
    ensures Round(0x8d834a3c, 0x3b3a3938) == 0x8ce2adca
  {
    assert TimesC1(0x3b3a3938) == 0xea0af2b8;
    assert Rotl32(0xea0af2b8, 15) == 0x795c7505;
    assert TimesC2(0x795c7505) == 0x10f43adf;
    assert MixBlock(0x3b3a3938) == 0x10f43adf;
    assert Xor(0x8d834a3c, 0x10f43adf) == 0x9d7770e3;
    assert Rotl32(0x9d7770e3, 13) == 0xee1c73ae;
    assert TimesFivePlus(0xee1c73ae) == 0x8ce2adca;
  }

  lemma SerialRound4()
    ensures Round(0x8ce2adca, 0x3f3e3d3c) == 0xb26673de
  {
    assert TimesC1(0x3f3e3d3c) == 0x8e7cebfc;
    assert Rotl32(0x8e7cebfc, 15) == 0x75fe473e;
    assert TimesC2(0x75fe473e) == 0x8174be9a;
    assert MixBlock(0x3f3e3d3c) == 0x8174be9a;
    assert Xor(0x8ce2adca, 0x8174be9a) == 0x0d961350;
    assert Rotl32(0x0d961350, 13) == 0xc26a01b2;
    assert TimesFivePlus(0xc26a01b2) == 0xb26673de;
  }

  /** Sixteen bytes, as long as a serial number, under the seed the boot loader uses. */
  function SampleSerial(): seq<bv8> {
    [0x30, 0x31, 0x32, 0x33, 0x34, 0x35, 0x36, 0x37, 0x38, 0x39, 0x3a, 0x3b, 0x3c, 0x3d, 0x3e, 0x3f]
  }

  lemma SerialBlocks()
    ensures var d := SampleSerial();
            && GetBlock32(d, 0) == 0x33323130 && GetBlock32(d[4..], 0) == 0x37363534
            && GetBlock32(d[8..], 0) == 0x3b3a3938 && GetBlock32(d[12..], 0) == 0x3f3e3d3c
  {}

  lemma SerialBody()
    ensures Body(0x504c534e, SampleSerial()) == 0xb26673de
  {
    hide Round, GetBlock32;
    var d := SampleSerial();
    SerialBlocks();
    SerialRound1();
    SerialRound2();
    SerialRound3();
    SerialRound4();
    assert d[4..][4..] == d[8..] && d[8..][4..] == d[12..];
    assert Body(0xb26673de, d[12..][4..]) == 0xb26673de;
    assert Body(0x8ce2adca, d[12..]) == 0xb26673de;
    assert Body(0x8d834a3c, d[8..]) == 0xb26673de;
    assert Body(0x926d46c0, d[4..]) == 0xb26673de;
  }

  lemma HashOfSampleSerial()
    ensures Hash(SampleSerial(), 0x504c534e) == 0x4372dbf6
  {
    hide Body;
    var d := SampleSerial();
    assert TailStart(d) == 16 && d[..16] == d && d[16..] == [];
    SerialBody();
    assert Length32(16) == 16;
    assert Xor(0xb26673de, 16) == 0xb26673ce;
    assert XorShift(0xb26673ce, 16) == 0xb266c1a8;
    assert TimesM1(0xb266c1a8) == 0xb2f98138;
    assert XorShift(0xb2f98138, 13) == 0xb2fc16f4;
    assert TimesM2(0xb2fc16f4) == 0x43729884;
    assert XorShift(0x43729884, 16) == 0x4372dbf6;
    assert Avalanche(0xb26673ce) == 0x4372dbf6;
  }
}
