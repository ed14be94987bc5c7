/** How serial numbers become text: the boot loader shows a base32-encoded hash, pinballd the
    base32-encoded serial itself. */
module SerialNumber {
  import opened Bytes
  import opened BitStrings
  import opened Base32
  import opened Base32Laws
  import Murmur3

  // ---------- The boot loader's copy of the encoder ----------

  method DoEncodeBase32(input: seq<byte>, output: array<char>) returns (count: int)
    modifies output
    ensures (count, output[..]) == Encoded(input, old(output[..]))
  {
    hide Groups, Low, Expand, Shl, Shr, Pending, Letter, Letters, AllBelow, Digits, Rfc4648;
    var inDataBytes, outputBytes := |input|, output.Length;
    if inDataBytes > MAX_INPUT {
      return -1;
    }
    ghost var was := output[..];
    ghost var digits: seq<nat> := [];
    NoDigits();
    count := 0;
    if inDataBytes > 0 {
      var buffer: nat := input[0];
      var next := 1;
      var bitsLeft: nat := 8;
      FirstByte(input);
      while count < outputBytes && (bitsLeft > 0 || next < inDataBytes)
        invariant 0 <= count == |digits| <= outputBytes && 1 <= next <= inDataBytes
        invariant bitsLeft <= 8 && buffer < 0x1_0000_0000
        invariant AllBelow(digits, 5)
        invariant digits + Pending(buffer, bitsLeft, input[next..]) == Digits(input)
        invariant output[..count] == Letters(digits)
        invariant forall i :: count <= i < outputBytes ==> output[i] == was[i]
        decreases 8 * (inDataBytes - next) + bitsLeft
      {
        if bitsLeft < 5 {
          if next < inDataBytes {
            Refill(buffer, bitsLeft, input, next);
            buffer := Shl(buffer, 8) % 0x1_0000_0000;
            buffer := buffer + input[next];
            next := next + 1;
            bitsLeft := bitsLeft + 8;
          } else {
            var pad := 5 - bitsLeft;
            assert input[next..] == [];
            PadOut(buffer, bitsLeft);
            buffer := Shl(buffer, pad) % 0x1_0000_0000;
            bitsLeft := bitsLeft + pad;
          }
        }
        Emit(digits, buffer, bitsLeft, input[next..]);
        var index := Shr(buffer, bitsLeft - 5) % 0x20;
        bitsLeft := bitsLeft - 5;
        LettersAppend(digits, index);
        output[count] := Letter(index);
        count := count + 1;
        digits := digits + [index];
      }
      NothingPending(buffer);
      assert next == inDataBytes ==> input[next..] == [];
    }
    if count < outputBytes {
      output[count] := '\0';
    }
    DigitCount(input);
    EncodedAssembled(input, was, digits, output[..]);
  }

  /** Both encoders return the same count and leave equal buffers equal. */
  method EncodersAgree(input: seq<byte>, a: array<char>, b: array<char>) returns (inC: int, inCpp: int)
    requires a != b && a[..] == b[..]
    modifies a, b
    ensures inC == inCpp && a[..] == b[..]
  {
    inC := DoEncodeBase32(input, a);
    inCpp := Encode(input, b);
  }

  // ---------- The serial number the boot loader displays ----------

  const SERIAL_STR_LEN: nat := 10
  const SEED: bv32 := 0x504c534e  // 'PLSN'

  /** The four bytes of a word in memory order. */
  function MemoryBytes(w: bv32): (bytes: seq<byte>)
    ensures |bytes| == 4
  {
    var m := Murmur3.WordBytes(w);
    [m[0] as int, m[1] as int, m[2] as int, m[3] as int]
  }

  /** The text that ends up in front of the NUL. */
  function Displayed(serial: seq<bv8>): string {
    Rfc4648(MemoryBytes(Murmur3.Hash(serial, SEED)))
  }

  lemma DisplayedLength(serial: seq<bv8>)
    ensures |Displayed(serial)| == 7 && '\0' !in Displayed(serial)
  {
    hide Letter, Groups;
    var digits := Digits(MemoryBytes(Murmur3.Hash(serial, SEED)));
    DigitCount(MemoryBytes(Murmur3.Hash(serial, SEED)));
    forall i | 0 <= i < |digits|
      ensures Letters(digits)[i] != '\0'
    {
      LetterIsDigit(digits[i]);
    }
  }

  method FormatSerialNumber(serial: seq<bv8>, gDeviceSerial: array<char>)
    requires gDeviceSerial.Length == SERIAL_STR_LEN
    modifies gDeviceSerial
    ensures gDeviceSerial[..] == Displayed(serial) + ['\0', '\0', '\0']
    ensures |Displayed(serial)| == 7 && '\0' !in Displayed(serial)
  {
    hide Rfc4648, MemoryBytes;
    var value := Murmur3.DoHashMurmur3(serial, SEED);
    for i := 0 to SERIAL_STR_LEN
      invariant forall j :: 0 <= j < i ==> gDeviceSerial[j] == '\0'
    {
      gDeviceSerial[i] := '\0';
    }
    var bytes := MemoryBytes(value);
    var count := DoEncodeBase32(bytes, gDeviceSerial);
    DisplayedLength(serial);
  }

  lemma MemoryBytesInjective(v: bv32, w: bv32)
    requires MemoryBytes(v) == MemoryBytes(w)
    ensures v == w
  {
    hide Murmur3.WordBytes;
    var m, n := Murmur3.WordBytes(v), Murmur3.WordBytes(w);
    assert MemoryBytes(v)[0] == MemoryBytes(w)[0] && MemoryBytes(v)[1] == MemoryBytes(w)[1];
    assert MemoryBytes(v)[2] == MemoryBytes(w)[2] && MemoryBytes(v)[3] == MemoryBytes(w)[3];
    OctetsDistinct(m[0], n[0]);
    OctetsDistinct(m[1], n[1]);
    OctetsDistinct(m[2], n[2]);
    OctetsDistinct(m[3], n[3]);
    Murmur3.WordOfBytes(v);
    Murmur3.WordOfBytes(w);
  }

  /** The displayed text shows the whole hash: it decodes to the hash's bytes, and no two
      hashes look alike. */
  lemma DisplayedShowsHash(a: seq<bv8>, b: seq<bv8>)
    ensures Decoded(Displayed(a) + ['\0'], 4) == Some(MemoryBytes(Murmur3.Hash(a, SEED)))
    ensures Displayed(a) == Displayed(b) <==> Murmur3.Hash(a, SEED) == Murmur3.Hash(b, SEED)
  {
    hide MemoryBytes, Rfc4648;
    var x, y := MemoryBytes(Murmur3.Hash(a, SEED)), MemoryBytes(Murmur3.Hash(b, SEED));
    RoundTrip(x, |Rfc4648(x)|, 4);
    assert Rfc4648(x)[..|Rfc4648(x)|] == Rfc4648(x);
    if Displayed(a) == Displayed(b) {
      Rfc4648Injective(x, y);
      MemoryBytesInjective(Murmur3.Hash(a, SEED), Murmur3.Hash(b, SEED));
    }
  }

  /** Serials of one length that agree outside one aligned word are displayed alike only if
      they are equal. */
  lemma OneWordChangeVisible(a: seq<bv8>, b: seq<bv8>, j: nat)
    requires |a| == |b|
    requires forall i :: 0 <= i < |a| && i / 4 != j ==> a[i] == b[i]
    ensures Displayed(a) == Displayed(b) <==> a == b
  {
    hide Displayed, Murmur3.Hash;
    if Displayed(a) == Displayed(b) {
      DisplayedShowsHash(a, b);
      Murmur3.OneWordChangeDetected(a, b, j, SEED);
    }
  }

  lemma SampleBytes()
    ensures MemoryBytes(0x4372dbf6) == [0xf6, 0xdb, 0x72, 0x43]
  {}

  // Sanity: the seed and the byte order, for one known serial. The text is 63NXEQY.
  lemma DisplayedSample()
    ensures Displayed(Murmur3.SampleSerial()) == Rfc4648([0xf6, 0xdb, 0x72, 0x43])
  {
    hide Murmur3.Hash, Murmur3.SampleSerial, Rfc4648, MemoryBytes;
    Murmur3.HashOfSampleSerial();
    SampleBytes();
  }

  // ---------- The serial number pinballd reports ----------

  function Reported(snBytes: seq<byte>): string {
    Rfc4648(snBytes)[..Min(|snBytes|, |Rfc4648(snBytes)|)]
  }

  /** The text buffer is only as long as the serial itself, so the text is cut short. */
  method ReadSerial(snBytes: seq<byte>) returns (hwSerial: Option<string>)
    ensures hwSerial == if |snBytes| > MAX_INPUT then None
                        else Some(Reported(snBytes))
  {
    hide Rfc4648;
    var snChars := new char[|snBytes|](_ => '\0');
    var totalBytes := Encode(snBytes, snChars);
    if totalBytes < 0 {
      return None;
    }
    return Some(snChars[..totalBytes]);
  }

  lemma ReportedBits(a: seq<byte>)
    ensures |a| <= |Digits(a)| && 5 * |a| <= |Expand(a, 8)|
    ensures AllBelow(Digits(a)[..|a|], 5)
    ensures Reported(a) == Letters(Digits(a)[..|a|])
    ensures Expand(Digits(a)[..|a|], 5) == Expand(a, 8)[..5 * |a|]
  {
    hide Expand, Letter, Groups;
    DigitCount(a);
    ExpandLength(a, 8);
    ExpandOfGroups(Expand(a, 8));
    ExpandPrefix5(Digits(a), |a|);
  }

  /** Of an n-byte serial pinballd reports n characters: two serials of one length are
      reported alike if and only if their first 5n bits agree, decoding the report gives the
      first floor(5n/8) bytes only, and the report is the whole text only for an empty serial. */
  lemma ReportedShowsPrefix(a: seq<byte>, b: seq<byte>, capacity: nat)
    requires |a| == |b|
    ensures |Expand(a, 8)| == |Expand(b, 8)| == 8 * |a|
    ensures |Reported(a)| == |a|
    ensures Reported(a) == Reported(b) <==>
            Expand(a, 8)[..5 * |a|] == Expand(b, 8)[..5 * |a|]
    ensures Decoded(Reported(a) + ['\0'], capacity) == Some(a[..Min(capacity, 5 * |a| / 8)])
    ensures Reported(a) == Rfc4648(a) <==> a == []
  {
    hide Expand, Letter, Groups, AllBelow;
    var n, da, db := |a|, Digits(a), Digits(b);
    ExpandLength(a, 8);
    ExpandLength(b, 8);
    DigitCount(a);
    DigitCount(b);
    DecodeEncoded(a, n, capacity);
    ReportedBits(a);
    ReportedBits(b);
    if Reported(a) == Reported(b) {
      LettersInjective(da[..n], db[..n]);
    }
    if Expand(a, 8)[..5 * n] == Expand(b, 8)[..5 * n] {
      ExpandInjective(da[..n], db[..n], 5);
    }
  }
}
