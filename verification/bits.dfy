/** Unsigned arithmetic the ring buffers rely on: masking with `capacity - 1`,
    the power-of-two test, and subtraction of two `size_t` values. */
module Bits {

  const TWO_32: nat := 0x1_0000_0000
  const TWO_64: nat := 0x1_0000_0000_0000_0000

  function Pow2(k: nat): (p: nat)
    ensures p >= 1
  {
    if k == 0 then 1 else 2 * Pow2(k - 1)
  }

  /** The C operator `a & b` on unsigned values. */
  function BitAnd(a: nat, b: nat): (r: nat)
    ensures r <= a && r <= b
  {
    if a == 0 || b == 0 then 0
    else (if a % 2 == 1 && b % 2 == 1 then 1 else 0) + 2 * BitAnd(a / 2, b / 2)
  }

  /** `a - b` on `size_t`: wraps modulo 2^64. */
  function Sub64(a: nat, b: nat): (r: nat)
    ensures r < TWO_64
  {
    (a - b) % TWO_64
  }

  lemma {:induction false} MulBound(d: int, c: int)
    requires c > 0
    ensures d >= 1 ==> d * c >= c
    ensures d <= -1 ==> d * c <= -c
  {
    if d >= 1 {
      assert (d - 1) * c >= 0;
    } else if d <= -1 {
      assert (-1 - d) * c >= 0;
    }
  }

  lemma {:induction false} MulLe(a: int, b: int, s: int)
    requires a <= b && s >= 0
    ensures a * s <= b * s
  {
    assert (b - a) * s >= 0;
  }

  lemma {:induction false} DivModUnique(x: int, c: int, q: int, r: int)
    requires c > 0 && 0 <= r < c && x == q * c + r
    ensures x / c == q && x % c == r
  {
    var d, e := x / c, x % c;
    assert x == d * c + e;
    assert d * c - q * c == (d - q) * c;
    MulBound(d - q, c);
  }

  /** Two indices less than `c` apart occupy different slots. */
  lemma {:induction false} ModDistinct(a: int, b: int, c: int)
    requires a < b < a + c
    ensures a % c != b % c
  {
    var q, r := a / c, a % c + (b - a);
    if r < c {
      DivModUnique(b, c, q, r);
    } else {
      DivModUnique(b, c, q + 1, r - c);
    }
  }

  lemma {:induction false} ModShift(a: int, q: int, c: int)
    requires c > 0
    ensures (a + q * c) % c == a % c
  {
    assert (a / c + q) * c == (a / c) * c + q * c;
    DivModUnique(a + q * c, c, a / c + q, a % c);
  }

  lemma {:induction false} ModSucc(a: int, c: int)
    requires c > 0
    ensures (a % c + 1) % c == (a + 1) % c
  {
    assert a + 1 == (a % c + 1) + (a / c) * c;
    ModShift(a % c + 1, a / c, c);
  }

  lemma {:induction false} DoubleMod(x: nat, p: nat)
    requires p > 0
    ensures x % (2 * p) == 2 * ((x / 2) % p) + x % 2
  {
    var q, r := (x / 2) / p, (x / 2) % p;
    assert q * (2 * p) == 2 * (q * p);
    DivModUnique(x, 2 * p, q, 2 * r + x % 2);
  }

  lemma {:induction false} MaskStep(x: nat, p: nat)
    requires p > 0
    ensures BitAnd(x, 2 * p - 1) == x % 2 + 2 * BitAnd(x / 2, p - 1)
  {
    assert (2 * p - 1) / 2 == p - 1 && (2 * p - 1) % 2 == 1;
  }

  /** Masking with a power of two minus one is the remainder. */
  lemma {:induction false} MaskIsMod(x: nat, k: nat)
    ensures BitAnd(x, Pow2(k) - 1) == x % Pow2(k)
  {
    if k > 0 {
      var p := Pow2(k - 1);
      assert Pow2(k) == 2 * p;
      MaskIsMod(x / 2, k - 1);
      MaskStep(x, p);
      DoubleMod(x, p);
    }
  }

  lemma {:induction false} AndSelf(x: nat)
    ensures BitAnd(x, x) == x
  {
    if x > 0 { AndSelf(x / 2); }
  }

  predicate IsPow2(c: nat) { exists k: nat {:trigger Pow2(k)} :: k <= c && c == Pow2(k) }

  lemma {:induction false} Pow2Grows(k: nat)
    ensures k < Pow2(k)
  {
    if k > 0 { Pow2Grows(k - 1); }
  }

  lemma {:induction false} Pow2Half(c: nat)
    requires c > 1
    ensures IsPow2(c) <==> c % 2 == 0 && IsPow2(c / 2)
  {
    if IsPow2(c) {
      var k: nat :| k <= c && c == Pow2(k);
      Pow2Grows(k - 1);
      assert c / 2 == Pow2(k - 1);
    }
    if c % 2 == 0 && IsPow2(c / 2) {
      var k: nat :| k <= c / 2 && c / 2 == Pow2(k);
      assert c == Pow2(k + 1);
    }
  }

  /** `(c & (c - 1)) == 0` accepts exactly the powers of two among the positive capacities. */
  lemma {:induction false} PowerOfTwoTest(c: nat)
    requires c > 0
    ensures BitAnd(c, c - 1) == 0 <==> IsPow2(c)
  {
    if c == 1 {
      assert c == Pow2(0);
    } else {
      Pow2Half(c);
      if c % 2 == 1 {
        AndSelf(c / 2);
        assert (c - 1) / 2 == c / 2;
      } else {
        PowerOfTwoTest(c / 2);
        assert (c - 1) / 2 == c / 2 - 1;
      }
    }
  }

  lemma {:induction false} Pow2Add(a: nat, b: nat)
    ensures Pow2(a) * Pow2(b) == Pow2(a + b)
  {
    if a > 0 {
      Pow2Add(a - 1, b);
      assert Pow2(a) * Pow2(b) == 2 * (Pow2(a - 1) * Pow2(b));
    }
  }

  lemma {:induction false} Pow2Mono(a: nat, b: nat)
    requires a <= b
    ensures Pow2(a) <= Pow2(b)
  {
    if a < b { Pow2Mono(a, b - 1); }
  }

  lemma {:induction false} TwoTo64()
    ensures Pow2(64) == TWO_64
  {
    assert Pow2(8) == 256;
    Pow2Add(8, 8);
    Pow2Add(16, 16);
    Pow2Add(32, 32);
    assert Pow2(16) == 0x1_0000;
    assert Pow2(32) == 0x1_0000_0000;
  }

  lemma {:induction false} ModOfMod(d: int, c: int, m: int)
    requires c > 0 && m > 0
    ensures (d % (c * m)) % c == d % c
  {
    assert c * m > 0;
    var q := d / (c * m);
    assert d == d % (c * m) + (q * m) * c by { assert q * (c * m) == (q * m) * c; }
    ModShift(d % (c * m), q * m, c);
  }

  /** `(head - tail) & mask` is the number of slots from tail round to head,
      even where the unsigned subtraction wraps. */
  lemma {:induction false} SizeMask(head: nat, tail: nat, k: nat)
    requires k <= 64
    ensures BitAnd(Sub64(head, tail), Pow2(k) - 1) == (head - tail) % Pow2(k)
  {
    MaskIsMod(Sub64(head, tail), k);
    Pow2Add(k, 64 - k);
    TwoTo64();
    ModOfMod(head - tail, Pow2(k), Pow2(64 - k));
  }
}
