/** Numbers, bytes and digits as strings of bits, most significant bit first. */
module BitStrings {

  /** The n least significant bits of x. */
  function Low(x: nat, n: nat): (bits: seq<bool>)
    ensures |bits| == n
  {
    if n == 0 then [] else Low(x / 2, n - 1) + [x % 2 == 1]
  }

  function Zeros(n: nat): (bits: seq<bool>)
    ensures |bits| == n
  {
    seq(n, _ => false)
  }

  // ---------- Shifting ----------

  function Shl(x: nat, k: nat): nat {
    if k == 0 then x else 2 * Shl(x, k - 1)
  }

  function Shr(x: nat, k: nat): nat {
    if k == 0 then x else Shr(x / 2, k - 1)
  }

  lemma {:induction false} ShlAsProduct(x: nat, k: nat)
    ensures Shl(x, k) == Shl(1, k) * x
  {
    if k > 0 {
      ShlAsProduct(x, k - 1);
      assert 2 * (Shl(1, k - 1) * x) == 2 * Shl(1, k - 1) * x;
    }
  }

  lemma {:induction false} ShlTwice(x: nat, j: nat, k: nat)
    ensures Shl(Shl(x, j), k) == Shl(x, j + k)
  {
    if k > 0 { ShlTwice(x, j, k - 1); }
  }

  lemma {:induction false} ShrOfSum(x: nat, b: nat, k: nat)
    requires b < Shl(1, k)
    ensures Shr(Shl(x, k) + b, k) == x
  {
    if k > 0 {
      ShrOfSum(x, b / 2, k - 1);
    }
  }

  /** Shifting right by k drops the k lowest bits. */
  lemma {:induction false} LowSplit(x: nat, n: nat, k: nat)
    ensures Low(x, n + k) == Low(Shr(x, k), n) + Low(x, k)
  {
    if k > 0 {
      LowSplit(x / 2, n, k - 1);
    }
  }

  /** Multiples of 2^k do not show in the k lowest bits. */
  lemma {:induction false} LowOfSum(x: nat, b: nat, n: nat, k: nat)
    requires n <= k
    ensures Low(Shl(x, k) + b, n) == Low(b, n)
  {
    if n > 0 {
      LowOfSum(x, b / 2, n - 1, k - 1);
    }
  }

  lemma LowOfShifted(x: nat, b: nat, n: nat, k: nat)
    requires b < Shl(1, k)
    ensures Low(Shl(x, k) + b, n + k) == Low(x, n) + Low(b, k)
  {
    LowSplit(Shl(x, k) + b, n, k);
    ShrOfSum(x, b, k);
    LowOfSum(x, b, k, k);
  }

  lemma {:induction false} LowOfZero(n: nat)
    ensures Low(0, n) == Zeros(n)
  {
    if n > 0 { LowOfZero(n - 1); }
  }

  lemma PowersUsed()
    ensures Shl(1, 5) == 0x20 && Shl(1, 8) == 0x100 && Shl(1, 32) == 0x1_0000_0000
  {
    ShlTwice(1, 24, 8);
    ShlTwice(1, 16, 8);
    ShlTwice(1, 8, 8);
    ShlAsProduct(0x100, 8);
    ShlAsProduct(0x1_0000, 8);
    ShlAsProduct(0x100_0000, 8);
  }

  lemma LowOfRemainder(x: nat, n: nat, k: nat, p: nat)
    requires n <= k && p == Shl(1, k) && p > 0
    ensures Low(x % p, n) == Low(x, n)
  {
    hide Low, Shl;
    ShlAsProduct(x / p, k);
    assert x == p * (x / p) + x % p;
    LowOfSum(x / p, x % p, n, k);
  }

  lemma ProductMonotone(a: nat, b: nat, d: nat)
    requires a <= b
    ensures a * d <= b * d
  {}

  lemma Quotient(x: nat, d: nat, q: nat, r: nat)
    requires r < d && x == q * d + r
    ensures x / d == q && x % d == r
  {
    var p := x / d;
    if p + 1 <= q {
      ProductMonotone(p + 1, q, d);
    } else if q + 1 <= p {
      ProductMonotone(q + 1, p, d);
    }
  }

  lemma TwiceRemainder(x: nat, m: nat)
    requires m > 0
    ensures (2 * x) % (2 * m) == 2 * (x % m)
  {
    var q, r := x / m, x % m;
    assert 2 * x == q * (2 * m) + 2 * r;
    Quotient(2 * x, 2 * m, q, 2 * r);
  }

  lemma {:induction false} ShlRemainder(x: nat, m: nat, k: nat)
    requires m > 0
    ensures Shl(m, k) > 0
    ensures Shl(x, k) % Shl(m, k) == Shl(x % m, k)
  {
    if k > 0 {
      ShlRemainder(x, m, k - 1);
      TwiceRemainder(Shl(x, k - 1), Shl(m, k - 1));
    }
  }

  lemma {:induction false} ShlBelow(x: nat, b: nat, m: nat, k: nat)
    requires x < m && b < Shl(1, k)
    ensures Shl(x, k) + b < Shl(m, k)
  {
    if k > 0 { ShlBelow(x, b / 2, m, k - 1); }
  }

  /** Shifting a 32-bit buffer left by k and filling the gap with b appends b's k bits,
      whatever the shift pushes out at the top. */
  lemma ShiftIn(x: nat, b: nat, n: nat, k: nat)
    requires n + k <= 32 && b < Shl(1, k)
    ensures Shl(x, k) % 0x1_0000_0000 + b < 0x1_0000_0000
    ensures Low(Shl(x, k) % 0x1_0000_0000 + b, n + k) == Low(x, n) + Low(b, k)
  {
    hide Low, Shl;
    var m := Shl(1, 32 - k);
    assert m > 0 by { ShlRemainder(1, 1, 32 - k); }
    ShlTwice(1, 32 - k, k);
    PowersUsed();
    ShlRemainder(x, m, k);
    ShlBelow(x % m, b, m, k);
    LowOfShifted(x % m, b, n, k);
    LowOfRemainder(x, n, 32 - k, m);
  }

  // ---------- Bit strings as numbers ----------

  function Value(bits: seq<bool>): (v: nat)
    ensures v < Shl(1, |bits|)
  {
    if bits == [] then 0 else
      2 * Value(bits[..|bits| - 1]) + if bits[|bits| - 1] then 1 else 0
  }

  lemma {:induction false} LowOfValue(bits: seq<bool>)
    ensures Low(Value(bits), |bits|) == bits
  {
    if bits != [] {
      LowOfValue(bits[..|bits| - 1]);
    }
  }

  lemma {:induction false} ValueOfLow(x: nat, n: nat)
    requires x < Shl(1, n)
    ensures Value(Low(x, n)) == x
  {
    if n > 0 {
      ValueOfLow(x / 2, n - 1);
      assert Low(x, n)[..n - 1] == Low(x / 2, n - 1);
    }
  }

  // ---------- Sequences of w-bit numbers ----------

  predicate AllBelow(s: seq<nat>, w: nat) {
    forall i :: 0 <= i < |s| ==> s[i] < Shl(1, w)
  }

  /** Every number written out on w bits. */
  function Expand(s: seq<nat>, w: nat): seq<bool> {
    if s == [] then [] else Expand(s[..|s| - 1], w) + Low(s[|s| - 1], w)
  }

  lemma {:induction false} ExpandConcat(a: seq<nat>, b: seq<nat>, w: nat)
    ensures Expand(a + b, w) == Expand(a, w) + Expand(b, w)
  {
    hide Low;
    if b == [] {
      assert a + b == a;
    } else {
      assert (a + b)[..|a + b| - 1] == a + b[..|b| - 1];
      ExpandConcat(a, b[..|b| - 1], w);
    }
  }

  lemma {:induction false} ExpandLength(s: seq<nat>, w: nat)
    requires w == 5 || w == 8
    ensures |Expand(s, w)| == if w == 5 then 5 * |s| else 8 * |s|
  {
    if s != [] { ExpandLength(s[..|s| - 1], w); }
  }

  lemma ExpandEmpty(w: nat)
    ensures Expand([], w) == []
  {}

  lemma ExpandOne(x: nat, w: nat)
    ensures Expand([x], w) == Low(x, w)
  {
    assert [x][..0] == [];
  }

  /** The whole w-bit groups of a bit string, as numbers; leftover bits are dropped. */
  function Pack(bits: seq<bool>, w: nat): (s: seq<nat>)
    requires w > 0
    ensures AllBelow(s, w)
  {
    if |bits| < w then [] else [Value(bits[..w])] + Pack(bits[w..], w)
  }

  function Leftover(bits: seq<bool>, w: nat): (rest: seq<bool>)
    requires w > 0
    ensures |rest| < w && |rest| <= |bits|
  {
    if |bits| < w then bits else Leftover(bits[w..], w)
  }

  lemma {:induction false} ExpandOfPack(bits: seq<bool>, w: nat)
    requires w > 0
    ensures Expand(Pack(bits, w), w) + Leftover(bits, w) == bits
  {
    hide Low, Value, Expand;
    if |bits| >= w {
      var first, rest := Value(bits[..w]), bits[w..];
      ExpandOfPack(rest, w);
      ExpandConcat([first], Pack(rest, w), w);
      ExpandOne(first, w);
      LowOfValue(bits[..w]);
      assert bits == bits[..w] + rest;
    } else {
      ExpandEmpty(w);
    }
  }

  lemma {:induction false} PackOfExpand(s: seq<nat>, rest: seq<bool>, w: nat)
    requires w > 0 && AllBelow(s, w)
    ensures Pack(Expand(s, w) + rest, w) == s + Pack(rest, w)
  {
    hide Low, Value, Expand;
    var bits := Expand(s, w) + rest;
    if s == [] {
      ExpandEmpty(w);
      assert bits == rest;
    } else {
      assert s == [s[0]] + s[1..];
      ExpandConcat([s[0]], s[1..], w);
      ExpandOne(s[0], w);
      ValueOfLow(s[0], w);
      assert bits[..w] == Low(s[0], w);
      assert bits[w..] == Expand(s[1..], w) + rest;
      PackOfExpand(s[1..], rest, w);
      assert s + Pack(rest, w) == [s[0]] + (s[1..] + Pack(rest, w));
    }
  }

  /** A sequence of w-bit numbers is determined by its bits. */
  lemma ExpandInjective(a: seq<nat>, b: seq<nat>, w: nat)
    requires w > 0 && Expand(a, w) == Expand(b, w)
    requires AllBelow(a, w) && AllBelow(b, w)
    ensures a == b
  {
    hide Expand;
    PackOfExpand(a, [], w);
    PackOfExpand(b, [], w);
    assert a + Pack([], w) == a && b + Pack([], w) == b;
  }
}
