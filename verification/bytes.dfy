/** Byte strings: little-endian integers, chunks of a file, and the order of std::string. */
module Bytes {
  import Bits

  type Byte = x: int | 0 <= x < 256
  type Bytes = seq<Byte>
  type u64 = x: nat | x < 0x1_0000_0000_0000_0000
  type i64 = x: int | -0x8000_0000_0000_0000 <= x < 0x8000_0000_0000_0000

  function Pow256(n: nat): (p: nat)
    ensures p >= 1
  {
    if n == 0 then 1 else 256 * Pow256(n - 1)
  }

  /** Byte i of x, counted from the least significant. */
  function Digit(x: nat, i: nat): Byte { if i == 0 then x % 256 else Digit(x / 256, i - 1) }

  /** The low n bytes of x, least significant first. */
  function LE(x: nat, n: nat): (b: Bytes)
    ensures |b| == n
  {
    seq(n, i requires 0 <= i < n => Digit(x, i))
  }

  function FromLE(b: Bytes): (x: nat)
    ensures x < Pow256(|b|)
  {
    if b == [] then 0 else b[0] + 256 * FromLE(b[1..])
  }

  lemma {:induction false} LERoundTrip(x: nat, n: nat)
    requires x < Pow256(n)
    ensures FromLE(LE(x, n)) == x
  {
    if n > 0 {
      LERoundTrip(x / 256, n - 1);
      assert LE(x, n)[1..] == LE(x / 256, n - 1);
    }
  }

  /** Little-endian integers of one length are equal only if their bytes are. */
  lemma {:induction false} FromLEInjective(a: Bytes, b: Bytes)
    requires |a| == |b| && FromLE(a) == FromLE(b)
    ensures a == b
  {
    if a != [] {
      assert a[0] == FromLE(a) % 256 && b[0] == FromLE(b) % 256;
      FromLEInjective(a[1..], b[1..]);
      assert a == [a[0]] + a[1..] && b == [b[0]] + b[1..];
    }
  }

  /** The high bytes of a small integer are zero. */
  lemma {:induction false} HighZero(x: nat, k: nat, i: nat)
    requires x < Pow256(k) && k <= i
    ensures Digit(x, i) == 0
  {
    if k > 0 { HighZero(x / 256, k - 1, i - 1); } else { ZeroDigits(i); }
  }

  lemma {:induction false} ZeroDigits(i: nat)
    ensures Digit(0, i) == 0
  {
    if i > 0 { ZeroDigits(i - 1); }
  }

  lemma {:induction false} Pow256Values()
    ensures Pow256(4) == Bits.TWO_32 && Pow256(8) == Bits.TWO_64
  {
    assert Pow256(4) == 256 * (256 * (256 * (256 * Pow256(0))));
    assert Pow256(8) == 256 * (256 * (256 * (256 * Pow256(4))));
  }

  /** An int64 as the 8 bytes of its two's complement. */
  function Complement(x: int): u64 { x % Bits.TWO_64 }

  function FromComplement(y: u64): i64 { if y < 0x8000_0000_0000_0000 then y else y - Bits.TWO_64 }

  /** The file holds `chunk` at this offset. */
  predicate At(file: Bytes, off: nat, chunk: Bytes) {
    off + |chunk| <= |file| && file[off..off + |chunk|] == chunk
  }

  lemma {:induction false} AtSplit(file: Bytes, off: nat, a: Bytes, b: Bytes)
    requires At(file, off, a + b)
    ensures At(file, off, a) && At(file, off + |a|, b)
  {
    var c := file[off..off + |a + b|];
    assert file[off..off + |a|] == c[..|a|] == a;
    assert file[off + |a|..off + |a| + |b|] == c[|a|..] == b;
  }

  lemma {:induction false} AtSuffix(pre: Bytes, chunk: Bytes, post: Bytes)
    ensures At(pre + chunk + post, |pre|, chunk)
  {
  }

  // The order of std::string: lexicographic on unsigned bytes.

  predicate Less(a: Bytes, b: Bytes) {
    if b == [] then false
    else if a == [] then true
    else if a[0] != b[0] then a[0] < b[0]
    else Less(a[1..], b[1..])
  }

  /** That order by position: the first is a proper prefix of the second, or has the smaller byte
      where they first differ. */
  predicate Precedes(a: Bytes, b: Bytes) {
    (|a| < |b| && a == b[..|a|]) || exists k :: 0 <= k < |a| && k < |b| && SmallerAt(a, b, k)
  }

  predicate SmallerAt(a: Bytes, b: Bytes, k: nat)
    requires k < |a| && k < |b|
  {
    a[..k] == b[..k] && a[k] < b[k]
  }

  lemma {:induction false} LessIff(a: Bytes, b: Bytes)
    ensures Less(a, b) <==> Precedes(a, b)
  {
    if a != [] && b != [] {
      var x, y := a[1..], b[1..];
      assert a == [a[0]] + x && b == [b[0]] + y;
      if a[0] == b[0] {
        LessIff(x, y);
        forall k | 0 <= k < |x| && k < |y| ensures SmallerAt(x, y, k) <==> SmallerAt(a, b, k + 1) {
          assert a[..k + 1] == [a[0]] + x[..k] && b[..k + 1] == [b[0]] + y[..k];
        }
        if Precedes(a, b) && !(|a| < |b| && a == b[..|a|]) {
          var k :| 0 <= k < |a| && k < |b| && SmallerAt(a, b, k);
          assert k > 0 && SmallerAt(x, y, k - 1);
        }
      } else if a[0] < b[0] {
        assert SmallerAt(a, b, 0);
      }
    }
  }

  lemma {:induction false} LessIrreflexive(a: Bytes)
    ensures !Less(a, a)
  {
    if a != [] { LessIrreflexive(a[1..]); }
  }

  lemma {:induction false} LessTransitive(a: Bytes, b: Bytes, c: Bytes)
    requires Less(a, b) && Less(b, c)
    ensures Less(a, c)
  {
    if a != [] && a[0] == b[0] && b[0] == c[0] { LessTransitive(a[1..], b[1..], c[1..]); }
  }

  lemma {:induction false} LessTotal(a: Bytes, b: Bytes)
    ensures Less(a, b) || a == b || Less(b, a)
    ensures !(Less(a, b) && Less(b, a))
  {
    if a != [] && b != [] && a[0] == b[0] {
      LessTotal(a[1..], b[1..]);
      assert a == [a[0]] + a[1..] && b == [b[0]] + b[1..];
    }
  }

  predicate StartsWith(s: Bytes, prefix: Bytes) { prefix <= s }

  /** Strings with a given prefix are contiguous: from the prefix on, nothing lies between
      the prefix and a string that starts with it except strings that start with it. */
  lemma {:induction false} PrefixContiguous(prefix: Bytes, a: Bytes, b: Bytes)
    requires !Less(a, prefix) && !Less(b, a) && StartsWith(b, prefix)
    ensures StartsWith(a, prefix)
  {
    if prefix != [] {
      assert a != [] && a[0] == prefix[0] == b[0];
      assert b[1..][..|prefix| - 1] == prefix[1..];
      PrefixContiguous(prefix[1..], a[1..], b[1..]);
      assert a == [a[0]] + a[1..] && prefix == [prefix[0]] + prefix[1..];
    }
  }

  lemma {:induction false} PrefixNotLess(prefix: Bytes, b: Bytes)
    requires StartsWith(b, prefix)
    ensures !Less(b, prefix)
  {
    if prefix != [] {
      assert b[0] == prefix[0] && b[1..][..|prefix| - 1] == prefix[1..];
      PrefixNotLess(prefix[1..], b[1..]);
    }
  }
}
