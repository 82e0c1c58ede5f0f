/** The SSTable's bloom filter: ten bits per key, three hashes. */
module Bloom {
  import opened Bits
  import opened Bytes

  /** bloom_hash: any function, with the seed as second argument. */
  type Hash = (Bytes, nat) -> nat

  /** `b & (1 << i)`, as a test. */
  predicate Has(b: nat, i: nat) { if i == 0 then b % 2 == 1 else Has(b / 2, i - 1) }

  /** `b | (1 << i)` */
  function With(b: nat, i: nat): nat { if i == 0 then b - b % 2 + 1 else 2 * With(b / 2, i - 1) + b % 2 }

  lemma {:induction false} WithHas(b: nat, i: nat, j: nat)
    ensures Has(With(b, i), j) <==> j == i || Has(b, j)
  {
    if i > 0 && j > 0 { WithHas(b / 2, i - 1, j - 1); }
  }

  lemma {:induction false} WithFits(b: nat, i: nat, n: nat)
    requires i < n && b < Pow2(n)
    ensures With(b, i) < Pow2(n)
  {
    var p := Pow2(n - 1);
    assert b < 2 * p && b / 2 < p;
    if i > 0 {
      WithFits(b / 2, i - 1, n - 1);
      assert With(b / 2, i - 1) <= p - 1;
    }
  }

  predicate HasBit(filter: Bytes, bit: nat) { bit / 8 < |filter| && Has(filter[bit / 8], bit % 8) }

  function WithBit(filter: Bytes, bit: nat): (r: Bytes)
    requires bit / 8 < |filter|
    ensures |r| == |filter|
  {
    assert Pow2(8) == 256;
    WithFits(filter[bit / 8], bit % 8, 8);
    filter[bit / 8 := With(filter[bit / 8], bit % 8)]
  }

  function BloomBytes(bits: nat): nat { (bits + 7) / 8 }

  /** The three bits of one key. */
  function WithKey(filter: Bytes, bits: nat, hash: Hash, key: Bytes, seeds: nat): (r: Bytes)
    requires bits > 0 && |filter| == BloomBytes(bits)
    ensures |r| == |filter|
  {
    if seeds == 0 then filter
    else WithBit(WithKey(filter, bits, hash, key, seeds - 1), hash(key, seeds - 1) % bits)
  }

  /** The filter of the first n keys. */
  function WithKeys(bits: nat, hash: Hash, keys: seq<Bytes>, n: nat): (r: Bytes)
    requires bits > 0 && n <= |keys|
    ensures |r| == BloomBytes(bits)
  {
    if n == 0 then seq(BloomBytes(bits), _ => 0)
    else WithKey(WithKeys(bits, hash, keys, n - 1), bits, hash, keys[n - 1], 3)
  }

  predicate MightContain(bloom: Bytes, bits: nat, hash: Hash, key: Bytes) {
    || bloom == [] || bits == 0
    || forall seed :: 0 <= seed < 3 ==> HasBit(bloom, hash(key, seed) % bits)
  }

  lemma {:induction false} WithBitHas(filter: Bytes, bit: nat, j: nat)
    requires bit / 8 < |filter|
    ensures HasBit(WithBit(filter, bit), j) <==> j == bit || HasBit(filter, j)
  {
    WithHas(filter[bit / 8], bit % 8, j % 8);
    assert j == 8 * (j / 8) + j % 8 && bit == 8 * (bit / 8) + bit % 8;
  }

  lemma {:induction false} WithKeyKeeps(filter: Bytes, bits: nat, hash: Hash, key: Bytes, seeds: nat)
    requires bits > 0 && |filter| == BloomBytes(bits)
    ensures forall j: nat :: HasBit(filter, j) ==> HasBit(WithKey(filter, bits, hash, key, seeds), j)
    ensures forall seed :: 0 <= seed < seeds ==> HasBit(WithKey(filter, bits, hash, key, seeds), hash(key, seed) % bits)
  {
    if seeds > 0 {
      WithKeyKeeps(filter, bits, hash, key, seeds - 1);
      var before := WithKey(filter, bits, hash, key, seeds - 1);
      var bit := hash(key, seeds - 1) % bits;
      forall j: nat ensures HasBit(WithBit(before, bit), j) <==> j == bit || HasBit(before, j) {
        WithBitHas(before, bit, j);
      }
    }
  }

  /** No false negatives, for any hash function. */
  lemma {:induction false} NoFalseNegatives(bits: nat, hash: Hash, keys: seq<Bytes>, n: nat, i: nat)
    requires bits > 0 && i < n <= |keys|
    ensures MightContain(WithKeys(bits, hash, keys, n), bits, hash, keys[i])
  {
    WithKeyKeeps(WithKeys(bits, hash, keys, n - 1), bits, hash, keys[n - 1], 3);
    if i < n - 1 { NoFalseNegatives(bits, hash, keys, n - 1, i); }
  }

  /** One of the three bits of the key. */
  predicate BitOf(bits: nat, hash: Hash, key: Bytes, seeds: nat, j: nat)
    requires bits > 0
  {
    exists seed :: 0 <= seed < seeds && hash(key, seed) % bits == j
  }

  lemma {:induction false} WithKeyExact(filter: Bytes, bits: nat, hash: Hash, key: Bytes, seeds: nat, j: nat)
    requires bits > 0 && |filter| == BloomBytes(bits)
    ensures HasBit(WithKey(filter, bits, hash, key, seeds), j)
        <==> HasBit(filter, j) || BitOf(bits, hash, key, seeds, j)
  {
    if seeds > 0 {
      WithKeyExact(filter, bits, hash, key, seeds - 1, j);
      WithBitHas(WithKey(filter, bits, hash, key, seeds - 1), hash(key, seeds - 1) % bits, j);
      assert BitOf(bits, hash, key, seeds, j)
         <==> BitOf(bits, hash, key, seeds - 1, j) || hash(key, seeds - 1) % bits == j;
    }
  }

  /** A filter of just enough bytes has the three bits of its keys and no others. */
  lemma {:induction false} OnlyKeys(bits: nat, hash: Hash, keys: seq<Bytes>, n: nat, j: nat)
    requires bits > 0 && n <= |keys|
    ensures 8 * |WithKeys(bits, hash, keys, n)| - 8 < bits <= 8 * |WithKeys(bits, hash, keys, n)|
    ensures HasBit(WithKeys(bits, hash, keys, n), j) <==> exists i :: 0 <= i < n && BitOf(bits, hash, keys[i], 3, j)
  {
    if n == 0 {
      HasZero(j % 8);
    } else {
      OnlyKeys(bits, hash, keys, n - 1, j);
      WithKeyExact(WithKeys(bits, hash, keys, n - 1), bits, hash, keys[n - 1], 3, j);
    }
  }

  lemma {:induction false} HasZero(i: nat)
    ensures !Has(0, i)
  {
    if i > 0 { HasZero(i - 1); }
  }

  /** A filter with a key in it is not blank. */
  lemma {:induction false} NotBlank(bits: nat, hash: Hash, keys: seq<Bytes>, n: nat)
    requires bits > 0 && 0 < n <= |keys|
    ensures exists i :: 0 <= i < |WithKeys(bits, hash, keys, n)| && WithKeys(bits, hash, keys, n)[i] != 0
  {
    var filter := WithKeys(bits, hash, keys, n);
    NoFalseNegatives(bits, hash, keys, n, 0);
    var bit := hash(keys[0], 0) % bits;
    assert HasBit(filter, bit);
    HasZero(bit % 8);
  }

  /** The inner loop of write_bloom_filter. */
  method SetKey(filter: Bytes, bits: nat, hash: Hash, key: Bytes) returns (r: Bytes)
    requires bits > 0 && |filter| == BloomBytes(bits)
    ensures r == WithKey(filter, bits, hash, key, 3)
  {
    r := filter;
    for seed := 0 to 3
      invariant r == WithKey(filter, bits, hash, key, seed)
    {
      r := WithBit(r, hash(key, seed) % bits);
    }
  }
}
