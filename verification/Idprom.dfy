/** Writing the identification PROM page by page. */
module Idprom {
  import opened Bytes

  const PAGE_SIZE: nat := 32
  const MEMORY_SIZE: nat := 0x1_0000

  /** The EEPROM behind a 16-bit address. */
  type Memory = s: seq<byte> | |s| == MEMORY_SIZE witness seq(MEMORY_SIZE, _ => 0)

  // ---------- Specification ----------

  /** One write of the whole data, byte after byte; addresses are truncated to 16 bits. */
  function Flat(mem: Memory, base: nat, data: seq<byte>): Memory
    decreases |data|
  {
    if data == [] then mem
    else Flat(mem[base % MEMORY_SIZE := data[0]], base + 1, data[1..])
  }

  /** BadSubspan: the code takes a slice beyond the end of the data, which is undefined. */
  datatype Status = Done | Threw | BadSubspan

  predicate FitsPage(base: nat, size: nat) {
    base % PAGE_SIZE + size <= PAGE_SIZE
  }

  /** Full pages from an address on, then whatever is left, even if that is nothing. */
  function Pages(mem: Memory, base: nat, data: seq<byte>): (Status, Memory)
    decreases |data|
  {
    var n := Min(|data|, PAGE_SIZE);
    if !FitsPage(base, n) then (Threw, mem)
    else if |data| < PAGE_SIZE then (Done, Flat(mem, base, data))
    else Pages(Flat(mem, base, data[..n]), base + n, data[n..])
  }

  /** What the writer does, with the amount it advances by after a leading partial page. */
  function Outcome(mem: Memory, base: nat, data: seq<byte>): (Status, Memory) {
    var p := base % PAGE_SIZE;
    if p == 0 then Pages(mem, base, data)
    else if |data| < PAGE_SIZE - p then (BadSubspan, mem)
    else
      var mem1 := Flat(mem, base, data[..PAGE_SIZE - p]);
      if |data| < p then (BadSubspan, mem1) else Pages(mem1, base + p, data[p..])
  }

  // ---------- The writer ----------

  lemma TruncatedSum(base: nat, n: nat)
    ensures (base % MEMORY_SIZE + n) % MEMORY_SIZE == (base + n) % MEMORY_SIZE
  {
    var q, r := base / MEMORY_SIZE, base % MEMORY_SIZE;
    var t, u := (r + n) / MEMORY_SIZE, (r + n) % MEMORY_SIZE;
    assert base + n == MEMORY_SIZE * (q + t) + u;
  }

  lemma {:induction false} FlatTruncated(mem: Memory, base: nat, data: seq<byte>)
    ensures Flat(mem, base % MEMORY_SIZE, data) == Flat(mem, base, data)
    decreases |data|
  {
    if data != [] {
      var next := mem[base % MEMORY_SIZE := data[0]];
      FlatTruncated(next, base % MEMORY_SIZE + 1, data[1..]);
      FlatTruncated(next, base + 1, data[1..]);
      TruncatedSum(base, 1);
    }
  }

  lemma TruncatedOffset(base: nat)
    ensures base % MEMORY_SIZE % PAGE_SIZE == base % PAGE_SIZE
  {
    var q, r := base / MEMORY_SIZE, base % MEMORY_SIZE;
    var t, u := r / PAGE_SIZE, r % PAGE_SIZE;
    assert base == PAGE_SIZE * (2048 * q + t) + u;
  }

  lemma PagesStep(mem: Memory, base: nat, data: seq<byte>, at: nat)
    requires at + PAGE_SIZE <= |data|
    ensures var page, address := data[at..at + PAGE_SIZE], (base + at) % MEMORY_SIZE;
            Pages(mem, base + at, data[at..]) ==
            if FitsPage(address, PAGE_SIZE)
            then Pages(Flat(mem, address, page), base + (at + PAGE_SIZE), data[at + PAGE_SIZE..])
            else (Threw, mem)
  {
    hide Flat;
    var rest := data[at..];
    assert rest[..PAGE_SIZE] == data[at..at + PAGE_SIZE] && rest[PAGE_SIZE..] == data[at + PAGE_SIZE..];
    FlatTruncated(mem, base + at, rest[..PAGE_SIZE]);
    TruncatedOffset(base + at);
  }

  lemma PagesEnd(mem: Memory, base: nat, data: seq<byte>, at: nat)
    requires at <= |data| < at + PAGE_SIZE
    ensures var rest, address := data[at..], (base + at) % MEMORY_SIZE;
            Pages(mem, base + at, rest) ==
            if FitsPage(address, |rest|) then (Done, Flat(mem, address, rest)) else (Threw, mem)
    ensures data == [] ==> Pages(mem, base + at, data[at..]) == (Done, mem)
  {
    FlatTruncated(mem, base + at, data[at..]);
    TruncatedOffset(base + at);
  }

  class Eeprom {
    var mem: Memory

    constructor (contents: Memory)
      ensures mem == contents
    {
      mem := contents;
    }

    method WriteIdpromPage(base: nat, data: seq<byte>) returns (threw: bool)
      requires base < MEMORY_SIZE
      modifies this
      ensures threw <==> base % 32 + |data| > 32
      ensures mem == if threw then old(mem) else Flat(old(mem), base, data)
    {
      if |data| > PAGE_SIZE {
        return true;
      } else if base % PAGE_SIZE + |data| > PAGE_SIZE {
        return true;
      }
      mem := Flat(mem, base, data);
      return false;
    }

    method WriteIdprom(base: nat, data: seq<byte>) returns (status: Status)
      requires base < MEMORY_SIZE
      modifies this
      ensures (status, mem) == Outcome(old(mem), base, data)
    {
      hide Flat, Pages;
      var bytesWritten := 0;
      if base % PAGE_SIZE != 0 {
        if PAGE_SIZE - base % PAGE_SIZE > |data| {
          return BadSubspan;
        }
        var _ := WriteIdpromPage(base, data[..PAGE_SIZE - base % PAGE_SIZE]);
        bytesWritten := bytesWritten + base % PAGE_SIZE;
        if bytesWritten > |data| {
          return BadSubspan;  // the page count underflows and the first slice is out of range
        }
      }
      assert data[0..] == data;
      status := WriteRemaining(base, data, bytesWritten);
    }

    /** The full pages and the partial page at the end. */
    method WriteRemaining(base: nat, data: seq<byte>, start: nat) returns (status: Status)
      requires start <= |data|
      modifies this
      ensures (status, mem) == Pages(old(mem), base + start, data[start..])
    {
      hide Flat, Pages;
      var bytesWritten := start;
      var totalNumPages := (|data| - bytesWritten) / PAGE_SIZE;
      for i := 0 to totalNumPages
        invariant start <= bytesWritten == start + PAGE_SIZE * i <= |data|
        invariant Pages(old(mem), base + start, data[start..]) ==
                  Pages(mem, base + bytesWritten, data[bytesWritten..])
      {
        var page := data[bytesWritten..bytesWritten + PAGE_SIZE];
        PagesStep(mem, base, data, bytesWritten);
        var threw := WriteIdpromPage((base + bytesWritten) % MEMORY_SIZE, page);
        if threw {
          return Threw;
        }
        bytesWritten := bytesWritten + PAGE_SIZE;
      }
      PagesEnd(mem, base, data, bytesWritten);
      if totalNumPages < |data| {
        var threw := WriteIdpromPage((base + bytesWritten) % MEMORY_SIZE, data[bytesWritten..]);
        if threw {
          return Threw;
        }
      }
      return Done;
    }
  }

  // ---------- When the writer equals one flat write ----------

  lemma {:induction false} FlatConcat(mem: Memory, base: nat, a: seq<byte>, b: seq<byte>)
    ensures Flat(mem, base, a + b) == Flat(Flat(mem, base, a), base + |a|, b)
    decreases |a|
  {
    if a == [] {
      assert a + b == b;
    } else {
      assert (a + b)[1..] == a[1..] + b;
      FlatConcat(mem[base % MEMORY_SIZE := a[0]], base + 1, a[1..], b);
    }
  }

  /** From a page boundary on, page by page is the same as all at once. */
  lemma {:induction false} AlignedPages(mem: Memory, base: nat, data: seq<byte>)
    requires base % PAGE_SIZE == 0
    ensures Pages(mem, base, data) == (Done, Flat(mem, base, data))
    decreases |data|
  {
    hide Flat;
    if |data| >= PAGE_SIZE {
      var page, rest := data[..PAGE_SIZE], data[PAGE_SIZE..];
      AlignedPages(Flat(mem, base, page), base + PAGE_SIZE, rest);
      assert data == page + rest;
      FlatConcat(mem, base, page, rest);
    }
  }

  lemma OffsetZero(base: nat, address: nat)
    requires address < MEMORY_SIZE
    ensures (address - base) % MEMORY_SIZE == 0 <==> address == base % MEMORY_SIZE
    ensures (address - base) % MEMORY_SIZE > 0 ==>
              (address - (base + 1)) % MEMORY_SIZE == (address - base) % MEMORY_SIZE - 1
    ensures (address - base) % MEMORY_SIZE == 0 ==> (address - (base + 1)) % MEMORY_SIZE == MEMORY_SIZE - 1
  {
    var q, r := base / MEMORY_SIZE, base % MEMORY_SIZE;
    assert address - base == address - r - MEMORY_SIZE * q;
    var p, i := (address - base) / MEMORY_SIZE, (address - base) % MEMORY_SIZE;
    assert address - base == MEMORY_SIZE * p + i;
    assert address - r - i == MEMORY_SIZE * (p + q);
    assert address - (base + 1) == MEMORY_SIZE * p + (i - 1);
  }

  /** The byte of data that ends up at an address, for data that does not lap the memory. */
  lemma {:induction false} FlatAt(mem: Memory, base: nat, data: seq<byte>, address: nat)
    requires address < MEMORY_SIZE && |data| <= MEMORY_SIZE
    ensures var i := (address - base) % 65536;
            Flat(mem, base, data)[address] == if i < |data| then data[i] else mem[address]
    decreases |data|
  {
    var i := (address - base) % MEMORY_SIZE;
    OffsetZero(base, address);
    if data != [] {
      FlatAt(mem[base % MEMORY_SIZE := data[0]], base + 1, data[1..], address);
    }
  }

  /** Writing the end of the data a second time changes nothing. */
  lemma WriteTailAgain(mem: Memory, base: nat, data: seq<byte>, k: nat)
    requires k <= |data| <= PAGE_SIZE
    ensures Flat(Flat(mem, base, data), base + k, data[k..]) == Flat(mem, base, data)
  {
    hide Flat;
    var once := Flat(mem, base, data);
    var start := Flat(mem, base, data[..k]);
    assert data == data[..k] + data[k..];
    FlatConcat(mem, base, data[..k], data[k..]);
    forall address | 0 <= address < MEMORY_SIZE
      ensures Flat(once, base + k, data[k..])[address] == once[address]
    {
      FlatAt(once, base + k, data[k..], address);
      FlatAt(start, base + k, data[k..], address);
    }
  }

  /** The inputs for which the amount advanced by after a leading partial page is right, or is
      wrong without consequence. */
  predicate WritesCorrectly(base: nat, size: nat) {
    var p := base % PAGE_SIZE;
    p == 0 || (p == PAGE_SIZE / 2 && size >= p) || (p < PAGE_SIZE / 2 && size == PAGE_SIZE - p)
  }

  ghost predicate EqualsFlatWrite(base: nat, data: seq<byte>) {
    forall mem: Memory :: Outcome(mem, base, data) == (Done, Flat(mem, base, data))
  }

  /** Where the second write starts within its page. */
  lemma MidPage(base: nat)
    ensures var p := base % PAGE_SIZE;
            (base + p) % PAGE_SIZE == if p < PAGE_SIZE / 2 then 2 * p else 2 * p - PAGE_SIZE
  {
    var q, p := base / PAGE_SIZE, base % PAGE_SIZE;
    assert base + p == PAGE_SIZE * q + 2 * p;
  }

  lemma CorrectFromHalfPage(mem: Memory, base: nat, data: seq<byte>)
    requires base % PAGE_SIZE == PAGE_SIZE / 2 && |data| >= PAGE_SIZE / 2
    ensures Outcome(mem, base, data) == (Done, Flat(mem, base, data))
  {
    hide Flat, Pages;
    var p := PAGE_SIZE / 2;
    var head, rest := data[..p], data[p..];
    assert data == head + rest;
    FlatConcat(mem, base, head, rest);
    MidPage(base);
    AlignedPages(Flat(mem, base, head), base + p, rest);
  }

  lemma CorrectToPageEnd(mem: Memory, base: nat, data: seq<byte>)
    requires 0 < base % PAGE_SIZE < PAGE_SIZE / 2 && |data| == PAGE_SIZE - base % PAGE_SIZE
    ensures Outcome(mem, base, data) == (Done, Flat(mem, base, data))
  {
    hide Flat;
    var p := base % PAGE_SIZE;
    assert data[..PAGE_SIZE - p] == data;
    MidPage(base);
    assert FitsPage(base + p, |data[p..]|);
    WriteTailAgain(mem, base, data, p);
  }

  lemma CorrectWrite(mem: Memory, base: nat, data: seq<byte>)
    requires WritesCorrectly(base, |data|)
    ensures Outcome(mem, base, data) == (Done, Flat(mem, base, data))
  {
    hide Flat, Pages;
    var p := base % PAGE_SIZE;
    if p == 0 {
      AlignedPages(mem, base, data);
    } else if p == PAGE_SIZE / 2 {
      CorrectFromHalfPage(mem, base, data);
    } else {
      CorrectToPageEnd(mem, base, data);
    }
  }

  lemma OffsetOf(base: nat, q: nat, address: nat)
    requires q < MEMORY_SIZE && address == (base + q) % MEMORY_SIZE
    ensures (address - base) % MEMORY_SIZE == q
  {
    var k := (base + q) / MEMORY_SIZE;
    assert address - base == q - MEMORY_SIZE * k;
  }

  lemma OffsetBefore(base: nat, q: nat, p: nat, address: nat)
    requires q < p <= PAGE_SIZE && address == (base + q) % MEMORY_SIZE
    ensures (address - (base + p)) % MEMORY_SIZE >= MEMORY_SIZE - PAGE_SIZE
  {
    var k := (base + q) / MEMORY_SIZE;
    assert address - (base + p) == MEMORY_SIZE - (p - q) - MEMORY_SIZE * (k + 1);
  }

  lemma SkippedByte(mem: Memory, base: nat, data: seq<byte>)
    requires PAGE_SIZE / 2 < base % PAGE_SIZE <= |data| && Outcome(mem, base, data).0 == Done
    requires mem[(base + (PAGE_SIZE - base % PAGE_SIZE)) % MEMORY_SIZE] != data[PAGE_SIZE - base % PAGE_SIZE]
    ensures Outcome(mem, base, data).1 != Flat(mem, base, data)
  {
    hide Flat;
    var p := base % PAGE_SIZE;
    var q := PAGE_SIZE - p;
    var head, tail := data[..q], data[p..];
    MidPage(base);
    var mem1 := Flat(mem, base, head);
    assert Outcome(mem, base, data) == (Done, Flat(mem1, base + p, tail));
    assert |data| <= 2 * PAGE_SIZE - p;
    var address := (base + q) % MEMORY_SIZE;
    FlatAt(mem, base, data, address);
    FlatAt(mem, base, head, address);
    FlatAt(mem1, base + p, tail, address);
    OffsetOf(base, q, address);
    OffsetBefore(base, q, p, address);
  }

  /** Otherwise the write fails, or it skips bytes: on a memory that does not already hold them
      the result is wrong. */
  lemma IncorrectWrite(base: nat, data: seq<byte>)
    requires !WritesCorrectly(base, |data|)
    ensures !EqualsFlatWrite(base, data)
  {
    hide Flat;
    var p := base % PAGE_SIZE;
    var q := PAGE_SIZE - p;
    MidPage(base);
    var clean: Memory := seq(MEMORY_SIZE, _ => if q < |data| && data[q] == 0 then 1 else 0);
    var outcome := Outcome(clean, base, data);
    if q <= |data| && p <= |data| {
      if p < PAGE_SIZE / 2 {
        assert outcome.0 == Threw;
      } else if outcome.0 == Done {
        SkippedByte(clean, base, data);
      }
    }
  }

  /** The writer equals one flat write, whatever the memory held, if and only if the base is page
      aligned, or half-way into a page with at least half a page of data, or in the first half of
      a page with data that ends exactly with the page. */
  lemma WriteIdpromCorrectIff(base: nat, data: seq<byte>)
    ensures EqualsFlatWrite(base, data) <==>
            || base % 32 == 0
            || (base % 32 == 16 && |data| >= 16)
            || (base % 32 < 16 && |data| == 32 - base % 32)
  {
    hide Flat, Outcome;
    if WritesCorrectly(base, |data|) {
      forall mem: Memory
        ensures Outcome(mem, base, data) == (Done, Flat(mem, base, data))
      {
        CorrectWrite(mem, base, data);
      }
    } else {
      IncorrectWrite(base, data);
    }
  }

  /** How the writer ends, for every base and size. */
  lemma OutcomeStatus(mem: Memory, base: nat, data: seq<byte>)
    ensures var p, n := base % 32, |data|;
            Outcome(mem, base, data).0 ==
            if p == 0 then Done
            else if n < 32 - p || n < p then BadSubspan
            else if p == 16 then Done
            else if n <= (if p < 16 then 32 - p else 64 - p) then Done
            else Threw
  {
    hide Flat;
    var p := base % 32;
    if p == 0 {
      AlignedPages(mem, base, data);
    } else if p == 16 && |data| >= 16 {
      CorrectFromHalfPage(mem, base, data);
    } else {
      MidPage(base);
    }
  }

  // ---------- Whatever the base, nothing wrong is written ----------

  /** Each changed byte is one of the data bytes, at its own address. */
  ghost predicate OnlyDataWritten(before: Memory, after: Memory, base: nat, data: seq<byte>) {
    forall a :: 0 <= a < MEMORY_SIZE && after[a] != before[a] ==>
      exists i :: 0 <= i < |data| && (base + i) % MEMORY_SIZE == a && after[a] == data[i]
  }

  lemma OnlyDataWrittenTwice(m0: Memory, m1: Memory, m2: Memory, base: nat, data: seq<byte>, n: nat, k: nat)
    requires n <= |data| && k <= |data|
    requires OnlyDataWritten(m0, m1, base, data[..n])
    requires OnlyDataWritten(m1, m2, base + k, data[k..])
    ensures OnlyDataWritten(m0, m2, base, data)
  {
    forall a | 0 <= a < MEMORY_SIZE && m2[a] != m0[a]
      ensures exists i :: 0 <= i < |data| && (base + i) % MEMORY_SIZE == a && m2[a] == data[i]
    {
      if m2[a] != m1[a] {
        var i :| 0 <= i < |data[k..]| && (base + k + i) % MEMORY_SIZE == a && m2[a] == data[k..][i];
        assert base + k + i == base + (k + i) && data[k + i] == data[k..][i];
      } else {
        var i :| 0 <= i < n && (base + i) % MEMORY_SIZE == a && m1[a] == data[..n][i];
        assert data[i] == data[..n][i];
      }
    }
  }

  lemma {:induction false} FlatWritesData(mem: Memory, base: nat, data: seq<byte>)
    ensures OnlyDataWritten(mem, Flat(mem, base, data), base, data)
    decreases |data|
  {
    if data != [] {
      var next := mem[base % MEMORY_SIZE := data[0]];
      assert OnlyDataWritten(mem, next, base, data[..1]) by {
        forall a | 0 <= a < MEMORY_SIZE && next[a] != mem[a]
          ensures (base + 0) % MEMORY_SIZE == a && next[a] == data[..1][0]
        {}
      }
      FlatWritesData(next, base + 1, data[1..]);
      OnlyDataWrittenTwice(mem, next, Flat(mem, base, data), base, data, 1, 1);
    }
  }

  lemma {:induction false} PagesWriteData(mem: Memory, base: nat, data: seq<byte>)
    ensures OnlyDataWritten(mem, Pages(mem, base, data).1, base, data)
    decreases |data|
  {
    hide Flat;
    var n := Min(|data|, PAGE_SIZE);
    FlatWritesData(mem, base, data);
    if FitsPage(base, n) && |data| >= PAGE_SIZE {
      FlatWritesData(mem, base, data[..n]);
      PagesWriteData(Flat(mem, base, data[..n]), base + n, data[n..]);
      OnlyDataWrittenTwice(mem, Flat(mem, base, data[..n]), Pages(mem, base, data).1, base, data, n, n);
    }
  }

  /** However the writer ends, each changed byte holds the data byte meant for its address. */
  lemma WriteIdpromWritesData(mem: Memory, base: nat, data: seq<byte>)
    ensures OnlyDataWritten(mem, Outcome(mem, base, data).1, base, data)
  {
    hide Flat, Pages;
    var p := base % PAGE_SIZE;
    if p == 0 {
      PagesWriteData(mem, base, data);
    } else if |data| >= PAGE_SIZE - p {
      var mem1 := Flat(mem, base, data[..PAGE_SIZE - p]);
      FlatWritesData(mem, base, data[..PAGE_SIZE - p]);
      if |data| < p {
        OnlyDataWrittenTwice(mem, mem1, mem1, base, data, PAGE_SIZE - p, 0);
      } else {
        PagesWriteData(mem1, base + p, data[p..]);
        OnlyDataWrittenTwice(mem, mem1, Outcome(mem, base, data).1, base, data, PAGE_SIZE - p, p);
      }
    }
  }
}
