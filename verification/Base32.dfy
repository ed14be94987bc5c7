/** The base32 coder of pinballd: section 6 of RFC 4648 without padding characters. */
module Base32 {
  import opened Bytes
  import opened BitStrings

  const K_CHARS := "ABCDEFGHIJKLMNOPQRSTUVWXYZ234567"
  const MAX_INPUT: nat := 0x1000_0000  // 1 << 28

  // ---------- Specification of encoding ----------

  /** RFC 4648, section 6: the bits in groups of five, the last one completed with zeros. */
  function Groups(bits: seq<bool>): (digits: seq<nat>)
    ensures AllBelow(digits, 5)
    ensures |digits| == (|bits| + 4) / 5
  {
    if bits == [] then []
    else if |bits| < 5 then [Value(bits + Zeros(5 - |bits|))]
    else [Value(bits[..5])] + Groups(bits[5..])
  }

  function Letter(digit: nat): char
    requires digit < Shl(1, 5)
  {
    K_CHARS[digit]
  }

  function Letters(digits: seq<nat>): (s: string)
    requires AllBelow(digits, 5)
    ensures |s| == |digits|
  {
    seq(|digits|, i requires 0 <= i < |digits| => Letter(digits[i]))
  }

  function Digits(data: seq<byte>): (digits: seq<nat>)
    ensures AllBelow(digits, 5)
  {
    Groups(Expand(data, 8))
  }

  function Rfc4648(data: seq<byte>): string {
    Letters(Digits(data))
  }

  /** The return value and the whole output buffer that encoding leaves behind. */
  function Encoded(data: seq<byte>, buf: string): (r: (int, string)) {
    if |data| > MAX_INPUT then (-1, buf)
    else
      var k := Min(|buf|, |Rfc4648(data)|);
      (k, Rfc4648(data)[..k] + if k < |buf| then ['\0'] + buf[k + 1..] else "")
  }

  // ---------- Encoding ----------

  /** What is still to be written when the buffer holds bitsLeft unwritten bits. */
  function Pending(buffer: nat, bitsLeft: nat, rest: seq<byte>): (digits: seq<nat>)
    ensures AllBelow(digits, 5)
  {
    Groups(Low(buffer, bitsLeft) + Expand(rest, 8))
  }

  lemma Refill(buffer: nat, bitsLeft: nat, input: seq<byte>, next: nat)
    requires next < |input| && bitsLeft < 5
    ensures Shl(buffer, 8) % 0x1_0000_0000 + input[next] < 0x1_0000_0000
    ensures Pending(buffer, bitsLeft, input[next..]) ==
            Pending(Shl(buffer, 8) % 0x1_0000_0000 + input[next], bitsLeft + 8, input[next + 1..])
  {
    hide Groups, Low, Expand;
    PowersUsed();
    ShiftIn(buffer, input[next], bitsLeft, 8);
    assert input[next..] == [input[next]] + input[next + 1..];
    ExpandConcat([input[next]], input[next + 1..], 8);
    ExpandOne(input[next], 8);
    assert Low(buffer, bitsLeft) + Expand(input[next..], 8) ==
           Low(buffer, bitsLeft) + Low(input[next], 8) + Expand(input[next + 1..], 8);
  }

  lemma PadOut(buffer: nat, bitsLeft: nat)
    requires 0 < bitsLeft < 5
    ensures Pending(buffer, bitsLeft, []) ==
            Pending(Shl(buffer, 5 - bitsLeft) % 0x1_0000_0000, 5, [])
  {
    hide Low;
    var b := Shl(buffer, 5 - bitsLeft) % 0x1_0000_0000;
    assert Shl(1, 5 - bitsLeft) > 0 by { ShlRemainder(1, 1, 5 - bitsLeft); }
    ShiftIn(buffer, 0, bitsLeft, 5 - bitsLeft);
    LowOfZero(5 - bitsLeft);
    var bits := Low(buffer, bitsLeft);
    assert Low(b, 5) == bits + Zeros(5 - bitsLeft);
    assert bits + [] == bits && Low(b, 5) + [] == Low(b, 5);
    assert Low(b, 5)[5..] == [] && Low(b, 5)[..5] == Low(b, 5);
  }

  lemma Emit(digits: seq<nat>, buffer: nat, bitsLeft: nat, rest: seq<byte>)
    requires 5 <= bitsLeft
    ensures Shr(buffer, bitsLeft - 5) % 0x20 < Shl(1, 5)
    ensures digits + Pending(buffer, bitsLeft, rest) ==
            digits + [Shr(buffer, bitsLeft - 5) % 0x20] + Pending(buffer, bitsLeft - 5, rest)
  {
    hide Low, Expand, Value, Shl;
    PowersUsed();
    var y := Shr(buffer, bitsLeft - 5);
    LowSplit(buffer, 5, bitsLeft - 5);
    LowOfRemainder(y, 5, 5, 0x20);
    ValueOfLow(y % 0x20, 5);
    var bits := Low(buffer, bitsLeft) + Expand(rest, 8);
    assert bits[..5] == Low(y, 5);
    assert bits[5..] == Low(buffer, bitsLeft - 5) + Expand(rest, 8);
    assert Pending(buffer, bitsLeft, rest) == [y % 0x20] + Pending(buffer, bitsLeft - 5, rest);
  }

  lemma FirstByte(input: seq<byte>)
    requires input != []
    ensures Pending(input[0], 8, input[1..]) == Digits(input)
  {
    hide Groups, Low, Expand;
    assert input == [input[0]] + input[1..];
    ExpandConcat([input[0]], input[1..], 8);
    ExpandOne(input[0], 8);
  }

  lemma NothingPending(buffer: nat)
    ensures Pending(buffer, 0, []) == []
  {
    ExpandEmpty(8);
  }

  lemma NoDigits()
    ensures Digits([]) == [] && AllBelow([], 5) && Letters([]) == []
  {
    ExpandEmpty(8);
  }

  lemma LettersOfPrefix(digits: seq<nat>, more: seq<nat>)
    requires AllBelow(digits, 5) && AllBelow(digits + more, 5)
    ensures Letters(digits) == Letters(digits + more)[..|digits|]
  {
    hide Letter;
    assert forall i :: 0 <= i < |digits| ==> digits[i] == (digits + more)[i];
  }

  lemma LettersAppend(digits: seq<nat>, digit: nat)
    requires AllBelow(digits, 5) && digit < Shl(1, 5)
    ensures AllBelow(digits + [digit], 5)
    ensures Letters(digits + [digit]) == Letters(digits) + [Letter(digit)]
  {
    hide Letter;
  }

  lemma DigitCount(data: seq<byte>)
    ensures |Digits(data)| == (8 * |data| + 4) / 5
  {
    ExpandLength(data, 8);
  }

  lemma EncodedAssembled(data: seq<byte>, buf: string, digits: seq<nat>, out: string)
    requires |data| <= MAX_INPUT && AllBelow(digits, 5) && digits <= Digits(data)
    requires |digits| == |buf| || digits == Digits(data)
    requires |out| == |buf| && |digits| <= |buf| && out[..|digits|] == Letters(digits)
    requires |digits| < |buf| ==> out[|digits|] == '\0' && out[|digits| + 1..] == buf[|digits| + 1..]
    ensures (|digits|, out) == Encoded(data, buf)
  {
    hide Groups, Letter;
    var k := |digits|;
    assert digits + Digits(data)[k..] == Digits(data);
    LettersOfPrefix(digits, Digits(data)[k..]);
    assert k == Min(|buf|, |Rfc4648(data)|);
    assert out[..k] == Rfc4648(data)[..k];
    if k < |buf| {
      assert out == out[..k] + (['\0'] + buf[k + 1..]);
    } else {
      assert out == out[..k] + "";
    }
  }

  method Encode(input: seq<byte>, output: array<char>) returns (count: int)
    modifies output
    ensures (count, output[..]) == Encoded(input, old(output[..]))
    ensures -1 <= count < 0x8000_0000
  {
    hide Groups, Low, Expand, Shl, Shr, Pending, Letter, Letters, AllBelow, Digits, Rfc4648;
    var length, bufSize := |input|, output.Length;
    if length > MAX_INPUT {
      return -1;
    }
    ghost var was := output[..];
    ghost var digits: seq<nat> := [];
    NoDigits();
    count := 0;
    if length > 0 {
      var buffer: nat := input[0];
      var next := 1;
      var bitsLeft: nat := 8;
      FirstByte(input);
      while count < bufSize && (bitsLeft > 0 || next < length)
        invariant 0 <= count == |digits| <= bufSize && 1 <= next <= length
        invariant bitsLeft <= 8 && buffer < 0x1_0000_0000
        invariant AllBelow(digits, 5)
        invariant digits + Pending(buffer, bitsLeft, input[next..]) == Digits(input)
        invariant output[..count] == Letters(digits)
        invariant forall i :: count <= i < bufSize ==> output[i] == was[i]
        decreases 8 * (length - next) + bitsLeft
      {
        if bitsLeft < 5 {
          if next < length {
            Refill(buffer, bitsLeft, input, next);
            buffer := Shl(buffer, 8) % 0x1_0000_0000;
            buffer := buffer + input[next];  // the low eight bits are clear
            next := next + 1;
            bitsLeft := bitsLeft + 8;
          } else {
            var pad := 5 - bitsLeft;
            assert input[next..] == [];
            PadOut(buffer, bitsLeft);
            buffer := Shl(buffer, pad) % 0x1_0000_0000;
            bitsLeft := bitsLeft + pad;
          }
        }
        Emit(digits, buffer, bitsLeft, input[next..]);
        var index := Shr(buffer, bitsLeft - 5) % 0x20;
        bitsLeft := bitsLeft - 5;
        LettersAppend(digits, index);
        output[count] := Letter(index);
        count := count + 1;
        digits := digits + [index];
      }
      NothingPending(buffer);
      assert next == length ==> input[next..] == [];
    }
    if count < bufSize {
      output[count] := '\0';
    }
    DigitCount(input);
    EncodedAssembled(input, was, digits, output[..]);
  }

  // ---------- Specification of decoding ----------

  predicate Ignored(ch: char) {
    ch == ' ' || ch == '\t' || ch == '\r' || ch == '\n' || ch == '-'
  }

  /** Commonly mistyped characters. */
  function Corrected(ch: char): char {
    if ch == '0' then 'O' else if ch == '1' then 'L' else if ch == '8' then 'B' else ch
  }

  function DigitOf(ch: char): (d: Option<nat>)
    ensures d.Some? ==> d.value < Shl(1, 5)
  {
    if 'A' <= ch <= 'Z' || 'a' <= ch <= 'z' then
      PowersUsed();
      Some(ch as int % 0x20 - 1)
    else if '2' <= ch <= '7' then
      PowersUsed();
      Some(ch as int - '2' as int + 26)
    else None
  }

  /** The digits up to the NUL, and whether an invalid character cut them short. */
  function Scan(s: string): (r: (seq<nat>, bool))
    ensures AllBelow(r.0, 5)
  {
    if s == [] || s[0] == '\0' then ([], false)
    else if Ignored(s[0]) then Scan(s[1..])
    else match DigitOf(Corrected(s[0]))
      case None => ([], true)
      case Some(d) => var (ds, bad) := Scan(s[1..]); ([d] + ds, bad)
  }

  function Octets(bits: seq<bool>): (data: seq<byte>)
  {
    PowersUsed();
    Pack(bits, 8)
  }

  /** Decoding into a buffer of the given size. It stops as soon as the buffer is full, so an
      invalid character is an error only while there is room left. */
  function Decoded(s: string, capacity: nat): Option<seq<byte>> {
    var (digits, bad) := Scan(s);
    var data := Octets(Expand(digits, 5));
    if |data| >= capacity then Some(data[..capacity])
    else if bad then None
    else Some(data)
  }

  // ---------- Decoding ----------

  lemma Accept(buffer: nat, bitsLeft: nat, digits: seq<nat>, digit: nat, data: seq<byte>)
    requires bitsLeft < 8 && digit < Shl(1, 5)
    requires Expand(digits, 5) == Expand(data, 8) + Low(buffer, bitsLeft)
    ensures Shl(buffer, 5) % 0x1_0000_0000 + digit < 0x1_0000_0000
    ensures Expand(digits + [digit], 5) ==
            Expand(data, 8) + Low(Shl(buffer, 5) % 0x1_0000_0000 + digit, bitsLeft + 5)
  {
    hide Low, Expand, Shl;
    ShiftIn(buffer, digit, bitsLeft, 5);
    ExpandConcat(digits, [digit], 5);
    ExpandOne(digit, 5);
    assert Expand(data, 8) + Low(buffer, bitsLeft) + Low(digit, 5) ==
           Expand(data, 8) + (Low(buffer, bitsLeft) + Low(digit, 5));
  }

  lemma TakeOctet(buffer: nat, bitsLeft: nat, bits: seq<bool>, data: seq<byte>)
    requires 8 <= bitsLeft
    requires bits == Expand(data, 8) + Low(buffer, bitsLeft)
    ensures var octet: byte := Shr(buffer, bitsLeft - 8) % 0x100;
            bits == Expand(data + [octet], 8) + Low(buffer, bitsLeft - 8)
  {
    hide Low, Expand, Shl;
    PowersUsed();
    var y := Shr(buffer, bitsLeft - 8);
    LowSplit(buffer, 8, bitsLeft - 8);
    LowOfRemainder(y, 8, 8, 0x100);
    ExpandConcat(data, [y % 0x100], 8);
    ExpandOne(y % 0x100, 8);
    assert Expand(data, 8) + (Low(y, 8) + Low(buffer, bitsLeft - 8)) ==
           Expand(data, 8) + Low(y, 8) + Low(buffer, bitsLeft - 8);
  }

  /** Bytes taken out so far are the first bytes of the whole decoding. */
  lemma OctetsSoFar(digits: seq<nat>, more: seq<nat>, data: seq<byte>, left: seq<bool>)
    requires Expand(digits, 5) == Expand(data, 8) + left
    ensures data <= Octets(Expand(digits + more, 5))
    ensures more == [] && |left| < 8 ==> data == Octets(Expand(digits + more, 5))
  {
    hide Low, Expand, Shl;
    PowersUsed();
    ExpandConcat(digits, more, 5);
    assert Expand(data, 8) + left + Expand(more, 5) == Expand(data, 8) + (left + Expand(more, 5));
    PackOfExpand(data, left + Expand(more, 5), 8);
    ExpandEmpty(5);
  }

  /** The digits read so far are the first ones of the scan. */
  ghost predicate ReadSoFar(s: string, at: nat, digits: seq<nat>) {
    at <= |s| && Scan(s).0 == digits + Scan(s[at..]).0 && Scan(s).1 == Scan(s[at..]).1
  }

  lemma ReadNext(s: string, at: nat, digits: seq<nat>)
    requires ReadSoFar(s, at, digits) && at < |s|
    ensures s[at] == '\0' ==> Scan(s) == (digits, false) && ReadSoFar(s, at, digits)
    ensures s[at] != '\0' && Ignored(s[at]) ==> ReadSoFar(s, at + 1, digits)
    ensures s[at] != '\0' && !Ignored(s[at]) ==>
              match DigitOf(Corrected(s[at]))
              case None => Scan(s) == (digits, true)
              case Some(d) => ReadSoFar(s, at + 1, digits + [d])
  {
    hide DigitOf, Corrected;
    assert s[at..][0] == s[at] && s[at..][1..] == s[at + 1..];
    assert digits + [] == digits;
    var d, more := DigitOf(Corrected(s[at])), Scan(s[at + 1..]).0;
    assert d.Some? ==> digits + ([d.value] + more) == digits + [d.value] + more;
  }

  /** The data taken out is the result: the buffer is full, or the whole text was read. */
  lemma DecodedSoFar(s: string, at: nat, digits: seq<nat>, data: seq<byte>, left: seq<bool>, capacity: nat)
    requires ReadSoFar(s, at, digits) && |left| < 8 && |data| <= capacity
    requires Expand(digits, 5) == Expand(data, 8) + left
    requires |data| == capacity || Scan(s) == (digits, false)
    ensures Decoded(s, capacity) == Some(data)
  {
    hide Expand, Octets;
    OctetsSoFar(digits, Scan(s[at..]).0, data, left);
    if |data| < capacity {
      OctetsSoFar(digits, [], data, left);
      assert digits + [] == digits;
    } else {
      assert Octets(Expand(Scan(s).0, 5))[..capacity] == data;
    }
  }

  lemma NothingRead(s: string)
    ensures ReadSoFar(s, 0, [])
    ensures Expand([], 5) == Expand([], 8) + Low(0, 0)
  {
    assert s[0..] == s && [] + Scan(s).0 == Scan(s).0;
  }

  lemma InvalidRead(s: string, digits: seq<nat>, data: seq<byte>, left: seq<bool>, capacity: nat)
    requires Scan(s) == (digits, true) && |left| < 8 && |data| < capacity
    requires Expand(digits, 5) == Expand(data, 8) + left
    ensures Octets(Expand(Scan(s).0, 5)) == data && Decoded(s, capacity) == None
  {
    hide Expand, Octets;
    OctetsSoFar(digits, [], data, left);
    assert digits + [] == digits;
  }

  method Decode(input: string, outBuf: array<byte>) returns (count: int)
    requires '\0' in input
    modifies outBuf
    ensures match Decoded(input, outBuf.Length)
            case Some(data) =>
              && count == |data| <= outBuf.Length
              && outBuf[..count] == data
              && (count < outBuf.Length ==>
                    outBuf[count] == 0 && outBuf[count + 1..] == old(outBuf[count + 1..]))
            case None =>
              // what was decoded before the invalid character has been stored
              var data := Octets(Expand(Scan(input).0, 5));
              && count == -1 && |data| < outBuf.Length
              && outBuf[..|data|] == data && outBuf[|data|..] == old(outBuf[|data|..])
  {
    hide Low, Expand, Shl, Shr, DigitOf, Octets, AllBelow, Corrected, Ignored, Scan, ReadSoFar, Decoded;
    var bufSize := outBuf.Length;
    var buffer: nat, bitsLeft: nat := 0, 0;
    var ptr := 0;
    count := 0;
    ghost var was := outBuf[..];
    ghost var digits: seq<nat> := [];
    NothingRead(input);
    while count < bufSize && input[ptr] != '\0'
      invariant 0 <= count <= bufSize && 0 <= ptr <= |input| && '\0' in input[ptr..]
      invariant bitsLeft < 8 && buffer < 0x1_0000_0000
      invariant Expand(digits, 5) == Expand(outBuf[..count], 8) + Low(buffer, bitsLeft)
      invariant ReadSoFar(input, ptr, digits)
      invariant forall i :: count <= i < bufSize ==> outBuf[i] == was[i]
      decreases |input| - ptr
    {
      var ch := input[ptr];
      ReadNext(input, ptr, digits);
      assert input[ptr..] == [ch] + input[ptr + 1..];
      ptr := ptr + 1;
      if Ignored(ch) {
        continue;
      }
      ghost var unshifted := buffer;
      buffer := Shl(buffer, 5) % 0x1_0000_0000;
      var digit := DigitOf(Corrected(ch));
      if digit == None {
        InvalidRead(input, digits, outBuf[..count], Low(unshifted, bitsLeft), bufSize);
        assert outBuf[count..] == was[count..];
        return -1;
      }
      Accept(unshifted, bitsLeft, digits, digit.value, outBuf[..count]);
      buffer := buffer + digit.value;  // the low five bits are clear
      bitsLeft := bitsLeft + 5;
      digits := digits + [digit.value];
      if bitsLeft >= 8 {
        TakeOctet(buffer, bitsLeft, Expand(digits, 5), outBuf[..count]);
        ghost var before := outBuf[..count];
        outBuf[count] := Shr(buffer, bitsLeft - 8) % 0x100;
        count := count + 1;
        assert outBuf[..count] == before + [outBuf[count - 1]];
        bitsLeft := bitsLeft - 8;
      }
    }
    if count < bufSize { ReadNext(input, ptr, digits); }
    DecodedSoFar(input, ptr, digits, outBuf[..count], Low(buffer, bitsLeft), bufSize);
    if count < bufSize {
      outBuf[count] := 0;
    }
  }
}
