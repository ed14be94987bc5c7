/** What the base32 coder promises: round trips, re-encoding and lenient input. */
module Base32Laws {
  import opened Bytes
  import opened BitStrings
  import opened Base32

  // ---------- Decoding undoes encoding, truncated or not ----------

  lemma LetterCode(d: nat)
    requires d < Shl(1, 5)
    ensures d < 32
    ensures Letter(d) as int == if d < 26 then 'A' as int + d else '2' as int + (d - 26)
  {
    PowersUsed();
  }

  lemma LetterIsDigit(digit: nat)
    requires digit < Shl(1, 5)
    ensures !Ignored(Letter(digit)) && Letter(digit) != '\0'
    ensures DigitOf(Corrected(Letter(digit))) == Some(digit)
  {
    hide Letter, Shl;
    LetterCode(digit);
  }

  lemma {:induction false} ScanOfLetters(digits: seq<nat>)
    requires AllBelow(digits, 5)
    ensures Scan(Letters(digits) + ['\0']) == (digits, false)
  {
    hide Letter, DigitOf, Corrected, Shl;
    var s := Letters(digits) + ['\0'];
    if digits != [] {
      LetterIsDigit(digits[0]);
      assert s[1..] == Letters(digits[1..]) + ['\0'];
      ScanOfLetters(digits[1..]);
      assert digits == [digits[0]] + digits[1..];
    }
  }

  /** Groups loses nothing: only zeros are added at the end, fewer than five. */
  lemma {:induction false} ExpandOfGroups(bits: seq<bool>)
    ensures 0 <= 5 * |Groups(bits)| - |bits| < 5
    ensures Expand(Groups(bits), 5) == bits + Zeros(5 * |Groups(bits)| - |bits|)
    decreases |bits|
  {
    hide Low, Expand, Value;
    if bits == [] {
      ExpandEmpty(5);
    } else if |bits| < 5 {
      var padded := bits + Zeros(5 - |bits|);
      ExpandOne(Value(padded), 5);
      LowOfValue(padded);
    } else {
      var rest := bits[5..];
      ExpandOfGroups(rest);
      ExpandConcat([Value(bits[..5])], Groups(rest), 5);
      ExpandOne(Value(bits[..5]), 5);
      LowOfValue(bits[..5]);
      assert bits == bits[..5] + rest;
    }
  }

  lemma ExpandPrefix5(digits: seq<nat>, k: nat)
    requires k <= |digits|
    ensures |Expand(digits, 5)| == 5 * |digits|
    ensures Expand(digits[..k], 5) == Expand(digits, 5)[..5 * k]
  {
    hide Expand;
    assert digits == digits[..k] + digits[k..];
    ExpandConcat(digits[..k], digits[k..], 5);
    ExpandLength(digits, 5);
    ExpandLength(digits[..k], 5);
  }

  lemma ExpandPrefix8(data: seq<byte>, q: nat)
    requires q <= |data|
    ensures |Expand(data, 8)| == 8 * |data|
    ensures Expand(data[..q], 8) == Expand(data, 8)[..8 * q]
  {
    hide Expand;
    assert data == data[..q] + data[q..];
    ExpandConcat(data[..q], data[q..], 8);
    ExpandLength(data, 8);
    ExpandLength(data[..q], 8);
  }

  /** The first k digits carry the first floor(5k/8) bytes. */
  lemma OctetsOfDigits(data: seq<byte>, k: nat)
    requires k <= |Digits(data)|
    ensures 5 * k / 8 <= |data|
    ensures Octets(Expand(Digits(data)[..k], 5)) == data[..5 * k / 8]
  {
    hide Expand, Low, Shl, Groups;
    var bits, digits, q := Expand(data, 8), Digits(data), 5 * k / 8;
    DigitCount(data);
    ExpandOfGroups(bits);
    ExpandPrefix5(digits, k);
    ExpandPrefix8(data, q);
    var all := bits + Zeros(5 * |digits| - |bits|);
    var left := all[8 * q..5 * k];
    assert all[..5 * k] == Expand(data[..q], 8) + left;
    PowersUsed();
    PackOfExpand(data[..q], left, 8);
    assert data[..q] + [] == data[..q];
  }

  /** Truncated round trip: whatever room encoding has, decoding its NUL-terminated output
      gives back the bytes that the written digits cover, as many as fit. */
  lemma DecodeEncoded(data: seq<byte>, room: nat, capacity: nat)
    ensures var k := Min(room, |Rfc4648(data)|);
            && 5 * k / 8 <= |data|
            && Decoded(Rfc4648(data)[..k] + ['\0'], capacity)
               == Some(data[..Min(capacity, 5 * k / 8)])
  {
    hide Groups, Letter, Octets;
    var digits := Digits(data);
    var k := Min(room, |digits|);
    OctetsOfDigits(data, k);
    assert Letters(digits[..k]) == Letters(digits)[..k];
    ScanOfLetters(digits[..k]);
    var q := 5 * k / 8;
    assert capacity <= q ==> data[..q][..capacity] == data[..capacity];
  }

  /** With room for the whole text and for the whole data nothing is lost. */
  lemma RoundTrip(data: seq<byte>, room: nat, capacity: nat)
    requires room >= |Rfc4648(data)| && capacity >= |data|
    ensures Decoded(Rfc4648(data)[..Min(room, |Rfc4648(data)|)] + ['\0'], capacity) == Some(data)
  {
    DecodeEncoded(data, room, capacity);
    DigitCount(data);
    assert data[..|data|] == data;
  }

  lemma {:induction false} ScanStopsAtNul(s: string, rest: string)
    ensures Scan(s + ['\0'] + rest) == Scan(s + ['\0'])
  {
    hide DigitOf, Corrected, Ignored;
    if s == [] {
      assert (s + ['\0'] + rest)[0] == '\0' && (s + ['\0'])[0] == '\0';
    } else {
      assert (s + ['\0'] + rest)[1..] == s[1..] + ['\0'] + rest;
      assert (s + ['\0'])[1..] == s[1..] + ['\0'];
      ScanStopsAtNul(s[1..], rest);
    }
  }

  /** Up to 2^28 bytes are encoded, as far as the buffer goes; what lies in the buffer, up to its
      NUL, decodes to the bytes that the written characters cover. More is refused. */
  lemma EncodedThenDecoded(data: seq<byte>, buf: string, capacity: nat)
    ensures var (count, out) := Encoded(data, buf);
            if |data| > 268_435_456 then count == -1 && out == buf
            else
              && count == Min(|buf|, (8 * |data| + 4) / 5) && |out| == |buf|
              && Decoded(out[..count] + ['\0'], capacity) == Some(data[..Min(capacity, 5 * count / 8)])
              && (count < |buf| ==>
                    && out[count] == '\0' && out[count + 1..] == buf[count + 1..]
                    && Decoded(out, capacity) == Some(data[..Min(capacity, 5 * count / 8)]))
  {
    hide Groups, Letter, Octets, Letters, Digits;
    if |data| <= 268_435_456 {
      DigitCount(data);
      DecodeEncoded(data, |buf|, capacity);
      var (count, out) := Encoded(data, buf);
      assert out[..count] == Rfc4648(data)[..count];
      if count < |buf| {
        assert out == out[..count] + ['\0'] + buf[count + 1..];
        ScanStopsAtNul(out[..count], buf[count + 1..]);
      }
    }
  }

  /** Equal texts come from equal data. */
  lemma Rfc4648Injective(a: seq<byte>, b: seq<byte>)
    requires Rfc4648(a) == Rfc4648(b)
    ensures a == b
  {
    var room, capacity := |Rfc4648(a)|, |a| + |b|;
    RoundTrip(a, room, capacity);
    RoundTrip(b, room, capacity);
  }

  // ---------- Encoding undoes decoding, exactly for canonical texts ----------

  predicate CanonicalLength(n: nat) {
    n % 8 in {0, 2, 4, 5, 7}
  }

  /** The bits that decoding drops because they do not fill a byte. */
  function LeftoverBits(digits: seq<nat>): seq<bool> {
    Leftover(Expand(digits, 5), 8)
  }

  lemma {:induction false} LeftoverLength(bits: seq<bool>)
    ensures |bits| == 8 * |Pack(bits, 8)| + |Leftover(bits, 8)|
    decreases |bits|
  {
    if |bits| >= 8 { LeftoverLength(bits[8..]); }
  }

  lemma LeftoverArithmetic(d: nat, n: nat, l: nat)
    requires 5 * d == 8 * n + l && l < 8
    ensures l < 5 <==> CanonicalLength(d)
    ensures l < 5 <==> (8 * n + 4) / 5 == d
  {
    var q, r := d / 8, d % 8;
    assert 5 * r == 8 * (n - 5 * q) + l;
  }

  /** Both texts on bits: data's bits, then either the dropped bits or fresh zeros. */
  lemma ReencodeBits(digits: seq<nat>)
    requires AllBelow(digits, 5)
    ensures var data, left := Octets(Expand(digits, 5)), LeftoverBits(digits);
            && Expand(digits, 5) == Expand(data, 8) + left
            && (|left| < 5 <==> CanonicalLength(|digits|))
            && (|left| < 5 <==> |Digits(data)| == |digits|)
            && (|left| < 5 ==> Expand(Digits(data), 5) == Expand(data, 8) + Zeros(|left|))
  {
    hide Expand, Low, Shl, Groups, AllBelow, CanonicalLength;
    var bits, left := Expand(digits, 5), LeftoverBits(digits);
    var data := Octets(bits);
    PowersUsed();
    ExpandOfPack(bits, 8);
    LeftoverLength(bits);
    ExpandLength(digits, 5);
    ExpandLength(data, 8);
    DigitCount(data);
    ExpandOfGroups(Expand(data, 8));
    LeftoverArithmetic(|digits|, |data|, |left|);
  }

  /** Re-encoding the bytes of a digit sequence gives the same digits back if and only if its
      length is one that encoding produces and its leftover bits are all zero. */
  lemma ReencodeDigits(digits: seq<nat>)
    requires AllBelow(digits, 5)
    ensures Digits(Octets(Expand(digits, 5))) == digits <==>
            CanonicalLength(|digits|) && LeftoverBits(digits) == Zeros(|LeftoverBits(digits)|)
  {
    hide Expand, Low, Shl, Groups, AllBelow, CanonicalLength, LeftoverBits, Octets, Digits;
    var left, data := LeftoverBits(digits), Octets(Expand(digits, 5));
    ReencodeBits(digits);
    if |left| < 5 {
      if left == Zeros(|left|) {
        ExpandInjective(Digits(data), digits, 5);
      }
      if Digits(data) == digits {
        assert left == (Expand(data, 8) + left)[|Expand(data, 8)|..];
        assert Zeros(|left|) == (Expand(data, 8) + Zeros(|left|))[|Expand(data, 8)|..];
      }
    }
  }

  // ---------- Lenient input ----------

  /** Upper case, with the mistyped characters put right. */
  function Canon(ch: char): char {
    var c := Corrected(ch);
    if 'a' <= c <= 'z' then (c as int - 'a' as int + 'A' as int) as char else c
  }

  /** The text before the NUL without separators, every character in canonical form. */
  function Canonical(s: string): string {
    if s == [] || s[0] == '\0' then ""
    else if Ignored(s[0]) then Canonical(s[1..])
    else [Canon(s[0])] + Canonical(s[1..])
  }

  lemma CanonReadsAlike(ch: char)
    requires ch != '\0' && !Ignored(ch)
    ensures Canon(ch) != '\0' && !Ignored(Canon(ch))
    ensures DigitOf(Corrected(Canon(ch))) == DigitOf(Corrected(ch))
  {
    var c := Corrected(ch);
    if 'a' <= c <= 'z' {
      assert Corrected(Canon(ch)) == Canon(ch);
    }
  }

  lemma {:induction false} CanonicalScansAlike(s: string)
    ensures Scan(Canonical(s)) == Scan(s)
  {
    hide DigitOf, Canon, Corrected;
    if s != [] && s[0] != '\0' {
      CanonicalScansAlike(s[1..]);
      if !Ignored(s[0]) {
        CanonReadsAlike(s[0]);
        assert ([Canon(s[0])] + Canonical(s[1..]))[1..] == Canonical(s[1..]);
      }
    }
  }

  /** Texts that differ only in separators, letter case and the 0/O, 1/L and 8/B mix-ups
      decode alike into any buffer, failures included. */
  lemma DecodeLenient(s: string, t: string, capacity: nat)
    requires Canonical(s) == Canonical(t)
    ensures Decoded(s, capacity) == Decoded(t, capacity)
  {
    CanonicalScansAlike(s);
    CanonicalScansAlike(t);
  }

  /** Inserting a separator anywhere, or replacing a character by one with the same canonical
      form, leaves the canonical text alone. */
  lemma {:induction false} CanonicalLocal(a: string, c: char, d: char, b: string)
    ensures Ignored(c) ==> Canonical(a + [c] + b) == Canonical(a + b)
    ensures !Ignored(c) && !Ignored(d) && c != '\0' && d != '\0' && Canon(c) == Canon(d) ==>
              Canonical(a + [c] + b) == Canonical(a + [d] + b)
  {
    hide Canon;
    if a == [] {
      assert (a + [c] + b)[1..] == b && (a + [d] + b)[1..] == b && a + b == b;
    } else {
      assert (a + [c] + b)[1..] == a[1..] + [c] + b;
      assert (a + [d] + b)[1..] == a[1..] + [d] + b;
      assert (a + b)[1..] == a[1..] + b;
      CanonicalLocal(a[1..], c, d, b);
    }
  }

  lemma CanonicalPairs(i: nat)
    requires i < 26
    ensures Canon(('a' as int + i) as char) == Canon(('A' as int + i) as char)
    ensures Canon('0') == Canon('O') && Canon('1') == Canon('L') && Canon('8') == Canon('B')
  {}

  // ---------- Which characters count ----------

  /** Blanks, tabs, line ends and hyphens may be inserted anywhere. */
  lemma {:induction false} SeparatorDropped(a: string, c: char, b: string, capacity: nat)
    requires c == ' ' || c == '\t' || c == '\r' || c == '\n' || c == '-'
    ensures Scan(a + [c] + b) == Scan(a + b)
    ensures Decoded(a + [c] + b, capacity) == Decoded(a + b, capacity)
  {
    hide DigitOf, Corrected;
    if a == [] {
      assert (a + [c] + b)[1..] == b && a + b == b;
    } else {
      assert (a + [c] + b)[1..] == a[1..] + [c] + b;
      assert (a + b)[1..] == a[1..] + b;
      SeparatorDropped(a[1..], c, b, capacity);
    }
  }

  /** What each accepted character stands for. */
  lemma CharacterRead(c: char, s: string)
    requires 'A' <= c <= 'Z' || 'a' <= c <= 'z' || '0' <= c <= '8'
    ensures var digit := if 'A' <= c <= 'Z' then c as int - 65
                         else if 'a' <= c <= 'z' then c as int - 97
                         else if c == '0' then 14 else if c == '1' then 11 else if c == '8' then 1
                         else c as int - 24;
            Scan([c] + s) == ([digit] + Scan(s).0, Scan(s).1)
  {
    assert ([c] + s)[1..] == s;
  }

  lemma {:induction false} ScanConcat(a: string, b: string)
    requires '\0' !in a
    ensures Scan(a + b) == if Scan(a).1 then Scan(a) else (Scan(a).0 + Scan(b).0, Scan(b).1)
  {
    hide DigitOf, Corrected, Ignored;
    if a == [] {
      assert a + b == b && [] + Scan(b).0 == Scan(b).0;
    } else {
      assert (a + b)[0] == a[0] && (a + b)[1..] == a[1..] + b;
      ScanConcat(a[1..], b);
      var d := DigitOf(Corrected(a[0]));
      assert d.Some? ==> [d.value] + (Scan(a[1..]).0 + Scan(b).0) == [d.value] + Scan(a[1..]).0 + Scan(b).0;
    }
  }

  /** Any other character ends the decoding: it is an error unless the characters before it fill
      the buffer. */
  lemma OtherCharacterInvalid(a: string, c: char, b: string, capacity: nat)
    requires '\0' !in a && c != '\0'
    requires !(c == ' ' || c == '\t' || c == '\r' || c == '\n' || c == '-')
    requires !('A' <= c <= 'Z' || 'a' <= c <= 'z' || '0' <= c <= '8')
    ensures var before := Decoded(a + ['\0'], capacity);
            Decoded(a + [c] + b, capacity) ==
            if before.Some? && |before.value| == capacity then before else None
  {
    hide Octets, Expand;
    assert a + [c] + b == a + ([c] + b);
    ScanConcat(a, [c] + b);
    ScanConcat(a, ['\0']);
    assert Scan([c] + b) == ([], true);
    assert Scan(['\0']) == ([], false);
    assert Scan(a).0 + [] == Scan(a).0;
  }

  lemma LetterOfDigit(ch: char)
    requires DigitOf(Corrected(ch)).Some?
    ensures Letter(DigitOf(Corrected(ch)).value) == Canon(ch)
  {
    hide Letter, Shl;
    LetterCode(DigitOf(Corrected(ch)).value);
  }

  lemma {:induction false} LettersOfScan(s: string)
    requires !Scan(s).1
    ensures Letters(Scan(s).0) == Canonical(s)
  {
    hide Letter, DigitOf, Canon, Corrected;
    if s != [] && s[0] != '\0' {
      LettersOfScan(s[1..]);
      if !Ignored(s[0]) {
        LetterOfDigit(s[0]);
      }
    }
  }

  lemma LettersInjective(a: seq<nat>, b: seq<nat>)
    requires AllBelow(a, 5) && AllBelow(b, 5)
    requires Letters(a) == Letters(b)
    ensures a == b
  {
    hide Letter;
    ScanOfLetters(a);
    ScanOfLetters(b);
  }

  /** Decode then encode gives the canonical text back exactly when that text has a length
      encoding can produce and its leftover bits are zero. */
  lemma Reencode(s: string, capacity: nat)
    requires !Scan(s).1 && capacity >= |Octets(Expand(Scan(s).0, 5))|
    ensures var digits := Scan(s).0;
            && Decoded(s, capacity).Some?
            && (Rfc4648(Decoded(s, capacity).value) == Canonical(s) <==>
                CanonicalLength(|Canonical(s)|)
                && LeftoverBits(digits) == Zeros(|LeftoverBits(digits)|))
  {
    hide Expand, Groups, Letter, Octets, AllBelow, CanonicalLength, LeftoverBits, Canonical, Scan;
    var digits := Scan(s).0;
    var data := Octets(Expand(digits, 5));
    assert data[..|data|] == data;
    ReencodeDigits(digits);
    LettersOfScan(s);
    if Letters(Digits(data)) == Letters(digits) {
      LettersInjective(Digits(data), digits);
    }
  }
}
