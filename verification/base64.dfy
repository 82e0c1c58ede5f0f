/** Base64 in its two alphabets, and hexadecimal. */
module Base64 {
  import Bits
  import opened Bytes

  /** The i-th character of the alphabet A-Z a-z 0-9 + /. */
  function Letter(i: nat): char
    requires i < 64
  {
    if i < 26 then 'A' + i as char
    else if i < 52 then 'a' + (i - 26) as char
    else if i < 62 then '0' + (i - 52) as char
    else if i == 62 then '+' else '/'
  }

  /** The alphabet written out (section 4 of RFC 4648). */
  lemma {:induction false} UpperLetters(i: nat)
    requires i < 26
    ensures Letter(i) == "ABCDEFGHIJKLMNOPQRSTUVWXYZ"[i] && Value("ABCDEFGHIJKLMNOPQRSTUVWXYZ"[i]) == i
  {
  }

  lemma {:induction false} LowerLetters(i: nat)
    requires i < 26
    ensures Letter(26 + i) == "abcdefghijklmnopqrstuvwxyz"[i] && Value("abcdefghijklmnopqrstuvwxyz"[i]) == 26 + i
  {
  }

  lemma {:induction false} OtherLetters(i: nat)
    requires i < 12
    ensures Letter(52 + i) == "0123456789+/"[i] && Value("0123456789+/"[i]) == 52 + i
  {
  }

  // Encoding.

  /** data[i] << 16 | data[i + 1] << 8 | data[i + 2], bytes past the end left out; the three
      occupy different bits. */
  function Group(data: Bytes, i: nat): (n: nat)
    requires i < |data|
    ensures n < 0x100_0000
  {
    var a: int, b: int, c: int := data[i], if i + 1 < |data| then data[i + 1] else 0,
      if i + 2 < |data| then data[i + 2] else 0;
    a * 0x1_0000 + b * 0x100 + c
  }

  function Char(n: nat, shift: nat): char
    requires shift > 0
  {
    Letter((n / shift) % 64)
  }

  function Quad(data: Bytes, i: nat): string
    requires i < |data|
  {
    var n := Group(data, i);
    [Char(n, 0x4_0000), Char(n, 0x1000),
     if i + 1 < |data| then Char(n, 0x40) else '=', if i + 2 < |data| then Char(n, 1) else '=']
  }

  function EncodeFrom(data: Bytes, i: nat): string
    decreases |data| - i
  {
    if i >= |data| then "" else Quad(data, i) + EncodeFrom(data, i + 3)
  }

  function Encode(data: Bytes): string { EncodeFrom(data, 0) }

  lemma {:induction false} NextQuad(text: string, data: Bytes, i: nat)
    requires i < |data|
    ensures text + EncodeFrom(data, i) == (text + Quad(data, i)) + EncodeFrom(data, i + 3)
  {
  }

  method Base64Encode(data: Bytes) returns (result: string)
    ensures result == Encode(data)
  {
    result := "";
    var i := 0;
    while i < |data|
      invariant result + EncodeFrom(data, i) == Encode(data)
      decreases |data| - i
    {
      NextQuad(result, data, i);
      result := result + Quad(data, i);
      i := i + 3;
    }
  }

  // Decoding.

  /** decode_table: the place of a character in the alphabet, or -1. */
  function Value(c: char): (v: int)
    ensures -1 <= v < 64
    ensures v >= 0 ==> Letter(v) == c
  {
    if 'A' <= c <= 'Z' then c as int - 'A' as int
    else if 'a' <= c <= 'z' then c as int - 'a' as int + 26
    else if '0' <= c <= '9' then c as int - '0' as int + 52
    else if c == '+' then 62
    else if c == '/' then 63
    else -1
  }

  lemma {:induction false} ValueOfLetter(i: nat)
    requires i < 64
    ensures Value(Letter(i)) == i && Letter(i) != '='
  {
  }

  /** The decoder between two characters: the 32-bit accumulator, how many of its low bits
      are still owed, and the bytes so far. */
  datatype Decoder = Decoder(accum: nat, bits: nat, result: Bytes)

  function Pow2Of(bits: nat): (p: nat)
    ensures p > 0
  {
    if bits == 0 then 1 else if bits == 2 then 4 else if bits == 4 then 16 else if bits == 6 then 64 else 1
  }

  predicate Running(d: Decoder) { d.accum < Bits.TWO_32 && (d.bits == 0 || d.bits == 2 || d.bits == 4 || d.bits == 6) }

  /** accum << 6 | val in 32 bits, and a byte once eight bits are there. */
  function Feed(d: Decoder, val: nat): Decoder
    requires Running(d) && val < 64
  {
    var accum := (d.accum * 64 + val) % Bits.TWO_32;
    if d.bits == 0 then Decoder(accum, 6, d.result)
    else Decoder(accum, d.bits - 2, d.result + [(accum / Pow2Of(d.bits - 2)) % 256])
  }

  /** What the decoder makes of the rest of the input: it stops at the first `=` and skips
      what is not in the alphabet. */
  function Continue(d: Decoder, s: string): Bytes
    requires Running(d)
    decreases |s|
  {
    if s == "" || s[0] == '=' then d.result
    else Continue(if Value(s[0]) < 0 then d else Feed(d, Value(s[0])), s[1..])
  }

  function Decode(s: string): Bytes { Continue(Decoder(0, 0, []), s) }

  method Base64Decode(encoded: string) returns (result: Bytes)
    ensures result == Decode(encoded)
  {
    result := [];
    var accum: nat, bits: nat, i := 0, 0, 0;
    while i < |encoded|
      invariant i <= |encoded| && Running(Decoder(accum, bits, result))
      invariant Continue(Decoder(accum, bits, result), encoded[i..]) == Decode(encoded)
    {
      if encoded[i] == '=' { break; }
      var val := Value(encoded[i]);
      if val >= 0 {
        accum := (accum * 64 + val) % Bits.TWO_32;
        bits := bits + 6;
        if bits >= 8 {
          bits := bits - 8;
          result := result + [(accum / Pow2Of(bits)) % 256];
        }
      }
      i := i + 1;
    }
  }

  // The accumulator's high bits do not matter: only those still owed do.

  /** The bits still owed. */
  function Owed(d: Decoder): nat
    requires Running(d)
  {
    d.accum % Pow2Of(d.bits)
  }

  /** The remainder by 64 b survives the cut to 32 bits. */
  lemma {:induction false} StepMod(a: nat, b: nat, val: nat, m: nat)
    requires b > 0 && m > 0 && 64 * b * m == Bits.TWO_32 && val < 64
    ensures ((a * 64 + val) % Bits.TWO_32) % (64 * b) == (a % b) * 64 + val
  {
    var x, q := a * 64 + val, a / b;
    Bits.ModOfMod(x, 64 * b, m);
    assert a == q * b + a % b && q * (64 * b) == 64 * (q * b);
    Bits.DivModUnique(x, 64 * b, q, (a % b) * 64 + val);
  }

  lemma {:induction false} Smaller(s: int, t: int, c: int)
    requires c > 0 && s * c < t * c
    ensures s < t
  {
    if s >= t { Bits.MulLe(t, s, c); }
  }

  lemma {:induction false} TopByte(x: nat, c: nat)
    requires c > 0
    ensures (x / c) % 256 == (x % (256 * c)) / c
  {
    var t, r := x / (256 * c), x % (256 * c);
    assert x == t * (256 * c) + r && t * (256 * c) == (t * 256) * c;
    var s := r / c;
    assert r == s * c + r % c;
    Smaller(s, 256, c);
    assert (t * 256 + s) * c == (t * 256) * c + s * c;
    Bits.DivModUnique(x, c, t * 256 + s, r % c);
    Bits.DivModUnique(t * 256 + s, 256, t, s);
  }

  /** The byte and the owed bits after one more character, where b = 4 c. */
  lemma {:induction false} FeedMore(a: nat, val: nat, b: nat, c: nat, m: nat, k: nat)
    requires c > 0 && b == 4 * c && m > 0 && 64 * b * m == Bits.TWO_32 && val < 64 && 64 == k * c
    ensures var accum := (a * 64 + val) % Bits.TWO_32;
      (accum / c) % 256 == ((a % b) * 64 + val) / c && accum % c == val % c
  {
    var accum, x := (a * 64 + val) % Bits.TWO_32, (a % b) * 64 + val;
    StepMod(a, b, val, m);
    TopByte(accum, c);
    assert accum % (256 * c) == x;
    assert 256 * c == c * 256;
    Bits.ModOfMod(accum, c, 256);
    assert (a % b) * 64 == ((a % b) * k) * c by { assert (a % b) * (k * c) == ((a % b) * k) * c; }
    Bits.ModShift(val, (a % b) * k, c);
  }

  lemma {:induction false} FeedFirst(a: nat, val: nat)
    requires val < 64
    ensures ((a * 64 + val) % Bits.TWO_32) % 64 == val
  {
    StepMod(a, 1, val, 0x400_0000);
  }

  /** Whatever else is in the accumulator, a character adds its six bits behind those owed. */
  lemma {:induction false} FeedOwed(d: Decoder, val: nat)
    requires Running(d) && val < 64
    ensures var e := Feed(d, val);
      Running(e) && if d.bits == 0 then e.result == d.result && e.bits == 6 && Owed(e) == val
                    else && e.bits == d.bits - 2 && Owed(e) == val % Pow2Of(e.bits)
                         && (Owed(d) * 64 + val) / Pow2Of(e.bits) < 256
                         && e.result == d.result + [(Owed(d) * 64 + val) / Pow2Of(e.bits)]
  {
    if d.bits == 0 {
      FeedFirst(d.accum, val);
    } else if d.bits == 2 {
      FeedMore(d.accum, val, 4, 1, 0x100_0000, 64);
    } else if d.bits == 4 {
      FeedMore(d.accum, val, 16, 4, 0x40_0000, 16);
    } else {
      FeedMore(d.accum, val, 64, 16, 0x10_0000, 4);
    }
  }

  lemma {:induction false} FedLetter(d: Decoder, v: nat, rest: string)
    requires Running(d) && v < 64
    ensures Continue(d, [Letter(v)] + rest) == Continue(Feed(d, v), rest)
  {
    ValueOfLetter(v);
    assert ([Letter(v)] + rest)[1..] == rest;
  }

  // Decoding inverts encoding.

  /** The six-bit parts of a group of three bytes. */
  function Sextet(a: nat, b: nat, c: nat, k: nat): (s: nat)
    requires a < 256 && b < 256 && c < 256
    ensures s < 64
  {
    if k == 0 then a / 4 else if k == 1 then (a % 4) * 16 + b / 16 else if k == 2 then (b % 16) * 4 + c / 64 else c % 64
  }

  lemma {:induction false} Parts01(a: nat, b: nat, c: nat, n: nat)
    requires a < 256 && b < 256 && c < 256 && n == a * 0x1_0000 + b * 0x100 + c
    ensures (n / 0x4_0000) % 64 == a / 4 && (n / 0x1000) % 64 == (a % 4) * 16 + b / 16
  {
    Bits.DivModUnique(n, 0x4_0000, a / 4, (a % 4) * 0x1_0000 + b * 0x100 + c);
    Bits.DivModUnique(n, 0x1000, a * 16 + b / 16, (b % 16) * 0x100 + c);
    Bits.DivModUnique(a * 16 + b / 16, 64, a / 4, (a % 4) * 16 + b / 16);
  }

  lemma {:induction false} Parts23(a: nat, b: nat, c: nat, n: nat)
    requires a < 256 && b < 256 && c < 256 && n == a * 0x1_0000 + b * 0x100 + c
    ensures (n / 0x40) % 64 == (b % 16) * 4 + c / 64 && (n / 1) % 64 == c % 64
  {
    var q := a * 1024 + b * 4 + c / 64;
    Bits.DivModUnique(n, 0x40, q, c % 64);
    Bits.DivModUnique(q, 64, a * 16 + b / 16, (b % 16) * 4 + c / 64);
  }

  lemma {:induction false} RejoinFirst(a: nat, b: nat)
    requires a < 256 && b < 256
    ensures ((a / 4) * 64 + ((a % 4) * 16 + b / 16)) / 16 == a && ((a % 4) * 16 + b / 16) % 16 == b / 16
  {
    Bits.DivModUnique((a / 4) * 64 + ((a % 4) * 16 + b / 16), 16, a, b / 16);
    Bits.DivModUnique((a % 4) * 16 + b / 16, 16, a % 4, b / 16);
  }

  lemma {:induction false} RejoinSecond(b: nat, c: nat)
    requires b < 256 && c < 256
    ensures ((b / 16) * 64 + ((b % 16) * 4 + c / 64)) / 4 == b && ((b % 16) * 4 + c / 64) % 4 == c / 64
  {
    Bits.DivModUnique((b / 16) * 64 + ((b % 16) * 4 + c / 64), 4, b, c / 64);
    Bits.DivModUnique((b % 16) * 4 + c / 64, 4, b % 16, c / 64);
  }

  /** The decoder after k of a group's four characters: a byte from the second on. */
  predicate Halfway(d: Decoder, e: Decoder, a: nat, b: nat, c: nat, k: nat)
    requires a < 256 && b < 256 && c < 256
  {
    Running(e) &&
    if k == 1 then e.bits == 6 && Owed(e) == a / 4 && e.result == d.result
    else if k == 2 then e.bits == 4 && Owed(e) == b / 16 && e.result == d.result + [a]
    else if k == 3 then e.bits == 2 && Owed(e) == c / 64 && e.result == d.result + [a, b]
    else e.bits == 0 && e.result == d.result + [a, b, c]
  }

  lemma {:induction false} FeedNext(d: Decoder, e: Decoder, a: nat, b: nat, c: nat, k: nat)
    requires a < 256 && b < 256 && c < 256 && Running(d) && d.bits == 0 && k < 4
    requires if k == 0 then e == d else Halfway(d, e, a, b, c, k)
    ensures Halfway(d, Feed(e, Sextet(a, b, c, k)), a, b, c, k + 1)
  {
    FeedOwed(e, Sextet(a, b, c, k));
    if k == 0 {
      assert Halfway(d, Feed(e, a / 4), a, b, c, 1);
    } else if k == 1 {
      RejoinFirst(a, b);
    } else if k == 2 {
      RejoinSecond(b, c);
      assert d.result + [a] + [b] == d.result + [a, b];
    } else {
      assert d.result + [a, b] + [c] == d.result + [a, b, c];
    }
  }

  /** The decoder fed the first k parts of a group. */
  function Fed(d: Decoder, a: nat, b: nat, c: nat, k: nat): (e: Decoder)
    requires a < 256 && b < 256 && c < 256 && Running(d) && k <= 4
    ensures Running(e)
  {
    if k == 0 then d
    else
      var e := Fed(d, a, b, c, k - 1);
      var s := Sextet(a, b, c, k - 1);
      FeedRuns(e, s);
      Feed(e, s)
  }

  lemma {:induction false} FeedRuns(d: Decoder, val: nat)
    requires Running(d) && val < 64
    ensures Running(Feed(d, val))
  {
  }

  lemma {:induction false} FedHalfway(d: Decoder, a: nat, b: nat, c: nat, k: nat)
    requires a < 256 && b < 256 && c < 256 && Running(d) && d.bits == 0 && 0 < k <= 4
    ensures Halfway(d, Fed(d, a, b, c, k), a, b, c, k)
  {
    if k > 1 { FedHalfway(d, a, b, c, k - 1); }
    FeedNext(d, Fed(d, a, b, c, k - 1), a, b, c, k - 1);
  }

  /** The first k characters of a group. */
  function Written(a: nat, b: nat, c: nat, k: nat): string
    requires a < 256 && b < 256 && c < 256 && k <= 4
  {
    if k == 0 then "" else Written(a, b, c, k - 1) + [Letter(Sextet(a, b, c, k - 1))]
  }

  lemma {:induction false} Regroup(s: string, t: string, u: string)
    ensures (s + t) + u == s + (t + u)
  {
  }

  lemma {:induction false} WrittenFed(d: Decoder, a: nat, b: nat, c: nat, k: nat, rest: string)
    requires a < 256 && b < 256 && c < 256 && Running(d) && k <= 4
    ensures Continue(d, Written(a, b, c, k) + rest) == Continue(Fed(d, a, b, c, k), rest)
  {
    if k == 0 {
      assert "" + rest == rest;
    } else {
      var s := Sextet(a, b, c, k - 1);
      Regroup(Written(a, b, c, k - 1), [Letter(s)], rest);
      WrittenFed(d, a, b, c, k - 1, [Letter(s)] + rest);
      FedLetter(Fed(d, a, b, c, k - 1), s, rest);
    }
  }

  function ByteAt(data: Bytes, i: nat): nat { if i < |data| then data[i] else 0 }

  /** How many characters of a group are not padding. */
  function Kept(data: Bytes, i: nat): nat { if i + 2 < |data| then 4 else if i + 1 < |data| then 3 else 2 }

  function Padding(kept: nat): string { if kept == 4 then "" else if kept == 3 then "=" else "==" }

  lemma {:induction false} QuadWritten(data: Bytes, i: nat)
    requires i < |data|
    ensures var a, b, c := ByteAt(data, i), ByteAt(data, i + 1), ByteAt(data, i + 2);
      Quad(data, i) == Written(a, b, c, Kept(data, i)) + Padding(Kept(data, i))
  {
    var a, b, c := ByteAt(data, i), ByteAt(data, i + 1), ByteAt(data, i + 2);
    var n := Group(data, i);
    Parts01(a, b, c, n);
    Parts23(a, b, c, n);
    assert Written(a, b, c, 1) == [Letter(Sextet(a, b, c, 0))];
    assert Written(a, b, c, 2) == [Letter(Sextet(a, b, c, 0)), Letter(Sextet(a, b, c, 1))];
    assert Written(a, b, c, 3) == Written(a, b, c, 2) + [Letter(Sextet(a, b, c, 2))];
  }

  lemma {:induction false} PaddingStops(e: Decoder, k: nat, rest: string)
    requires Running(e) && 2 <= k <= 4
    ensures Continue(e, Padding(k) + rest) == if k == 4 then Continue(e, rest) else e.result
  {
    if k == 4 { assert "" + rest == rest; }
  }

  /** A group's characters feed its parts; padding after them ends the input. */
  lemma {:induction false} GroupFed(d: Decoder, data: Bytes, i: nat)
    requires Running(d) && d.bits == 0 && i < |data|
    ensures var e := Fed(d, ByteAt(data, i), ByteAt(data, i + 1), ByteAt(data, i + 2), Kept(data, i));
      Continue(d, EncodeFrom(data, i)) == if Kept(data, i) == 4 then Continue(e, EncodeFrom(data, i + 3)) else e.result
  {
    var a, b, c, k := ByteAt(data, i), ByteAt(data, i + 1), ByteAt(data, i + 2), Kept(data, i);
    var rest := EncodeFrom(data, i + 3);
    assert EncodeFrom(data, i) == (Written(a, b, c, k) + Padding(k)) + rest by { QuadWritten(data, i); }
    Regroup(Written(a, b, c, k), Padding(k), rest);
    WrittenFed(d, a, b, c, k, Padding(k) + rest);
    PaddingStops(Fed(d, a, b, c, k), k, rest);
  }

  /** The bytes of a group, those there are. */
  lemma {:induction false} GroupBytes(data: Bytes, i: nat)
    requires i < |data|
    ensures var a, b, c, k := ByteAt(data, i), ByteAt(data, i + 1), ByteAt(data, i + 2), Kept(data, i);
      if k == 4 then i + 3 <= |data| && data[i..] == [a, b, c] + data[i + 3..]
      else data[i..] == if k == 3 then [a, b] else [a]
  {
  }

  lemma {:induction false} DecodeEncodeFrom(d: Decoder, data: Bytes, i: nat)
    requires Running(d) && d.bits == 0 && i <= |data|
    ensures Continue(d, EncodeFrom(data, i)) == d.result + data[i..]
    decreases |data| - i
  {
    if i < |data| {
      var a, b, c, k := ByteAt(data, i), ByteAt(data, i + 1), ByteAt(data, i + 2), Kept(data, i);
      var e := Fed(d, a, b, c, k);
      GroupFed(d, data, i);
      FedHalfway(d, a, b, c, k);
      GroupBytes(data, i);
      if k == 4 {
        DecodeEncodeFrom(e, data, i + 3);
        assert (d.result + [a, b, c]) + data[i + 3..] == d.result + ([a, b, c] + data[i + 3..]);
      }
    }
  }

  /** Decoding what was encoded gives back every byte string, although the accumulator keeps
      only 32 bits. */
  lemma {:induction false} DecodeEncode(data: Bytes)
    ensures Decode(Encode(data)) == data
  {
    DecodeEncodeFrom(Decoder(0, 0, []), data, 0);
  }

  /** The alphabet characters before the first `=`. */
  function Sieve(s: string): string
    decreases |s|
  {
    if s == "" || s[0] == '=' then "" else (if Value(s[0]) >= 0 then [s[0]] else "") + Sieve(s[1..])
  }

  /** Decoding ignores everything else: what stands between them, and all from the `=` on. */
  lemma {:induction false} DecodeIgnores(d: Decoder, s: string)
    requires Running(d)
    ensures Continue(d, s) == Continue(d, Sieve(s))
    decreases |s|
  {
    if s != "" && s[0] != '=' {
      var v := Value(s[0]);
      if v < 0 {
        assert Sieve(s) == Sieve(s[1..]);
        DecodeIgnores(d, s[1..]);
      } else {
        DecodeIgnores(Feed(d, v), s[1..]);
        assert Sieve(s) == [s[0]] + Sieve(s[1..]) && Sieve(s)[1..] == Sieve(s[1..]);
      }
    }
  }

  lemma {:induction false} GroupsOf(n: nat)
    ensures n > 0 ==> (n + 2) / 3 == 1 + ((if n >= 3 then n - 3 else 0) + 2) / 3
  {
  }

  /** Four characters for every three bytes begun. */
  lemma {:induction false} EncodeLength(data: Bytes, i: nat)
    requires i <= |data|
    ensures |EncodeFrom(data, i)| == 4 * ((|data| - i + 2) / 3)
    decreases |data| - i
  {
    GroupsOf(|data| - i);
    if i < |data| {
      assert |EncodeFrom(data, i)| == 4 + |EncodeFrom(data, i + 3)|;
      if i + 3 <= |data| { EncodeLength(data, i + 3); }
    }
  }

  // The encoder written out inside Event::to_json.

  method AppendQuad(encoded: string, rawData: Bytes, i: nat) returns (r: string)
    requires i < |rawData|
    ensures r == encoded + Quad(rawData, i)
  {
    var n := Group(rawData, i);
    r := encoded + [Char(n, 0x4_0000)];
    r := r + [Char(n, 0x1000)];
    r := r + [if i + 1 < |rawData| then Char(n, 0x40) else '='];
    r := r + [if i + 2 < |rawData| then Char(n, 1) else '='];
  }

  method EncodeRawData(rawData: Bytes) returns (encoded: string)
    ensures encoded == Encode(rawData)
  {
    encoded := "";
    var i := 0;
    ghost var all := Encode(rawData);
    while i < |rawData|
      invariant encoded + EncodeFrom(rawData, i) == all
      decreases |rawData| - i
    {
      NextQuad(encoded, rawData, i);
      encoded := AppendQuad(encoded, rawData, i);
      i := i + 3;
    }
  }

  // The URL-safe alphabet.

  function ToUrl(c: char): char { if c == '+' then '-' else if c == '/' then '_' else c }

  function FromUrl(c: char): char { if c == '-' then '+' else if c == '_' then '/' else c }

  function Map(f: char -> char, s: string): string { seq(|s|, i requires 0 <= i < |s| => f(s[i])) }

  function Unpadded(s: string): string { if s != "" && s[|s| - 1] == '=' then Unpadded(s[..|s| - 1]) else s }

  function Padded(s: string): string
    decreases (4 - |s| % 4) % 4
  {
    if |s| % 4 != 0 then Padded(s + "=") else s
  }

  function UrlEncode(data: Bytes): string { Unpadded(Map(ToUrl, Encode(data))) }

  function UrlDecode(s: string): Bytes { Decode(Padded(Map(FromUrl, s))) }

  method Base64UrlEncode(data: Bytes) returns (result: string)
    ensures result == UrlEncode(data)
  {
    result := Base64Encode(data);
    for i := 0 to |result|
      invariant |result| == |Encode(data)|
      invariant forall j :: 0 <= j < |result| ==> result[j] == if j < i then ToUrl(Encode(data)[j]) else Encode(data)[j]
    {
      if result[i] == '+' { result := result[i := '-']; } else if result[i] == '/' { result := result[i := '_']; }
    }
    assert result == Map(ToUrl, Encode(data));
    ghost var all := Unpadded(result);
    while result != "" && result[|result| - 1] == '='
      invariant Unpadded(result) == all
      decreases |result|
    {
      result := result[..|result| - 1];
    }
  }

  method Base64UrlDecode(encoded: string) returns (result: Bytes)
    ensures result == UrlDecode(encoded)
  {
    var s := encoded;
    for i := 0 to |s|
      invariant |s| == |encoded|
      invariant forall j :: 0 <= j < |s| ==> s[j] == if j < i then FromUrl(encoded[j]) else encoded[j]
    {
      if s[i] == '-' { s := s[i := '+']; } else if s[i] == '_' { s := s[i := '/']; }
    }
    assert s == Map(FromUrl, encoded);
    ghost var all := Padded(s);
    while |s| % 4 != 0
      invariant Padded(s) == all
      decreases (4 - |s| % 4) % 4
    {
      s := s + "=";
    }
    result := Base64Decode(s);
  }

  predicate AllPad(s: string) { forall i :: 0 <= i < |s| ==> s[i] == '=' }

  lemma {:induction false} PadIgnored(d: Decoder, s: string, pad: string)
    requires Running(d) && AllPad(pad)
    ensures Continue(d, s + pad) == Continue(d, s)
    decreases |s|
  {
    if s == "" {
      assert s + pad == pad;
    } else {
      assert (s + pad)[1..] == s[1..] + pad && (s + pad)[0] == s[0];
      if s[0] != '=' { PadIgnored(if Value(s[0]) < 0 then d else Feed(d, Value(s[0])), s[1..], pad); }
    }
  }

  lemma {:induction false} UnpaddedPrefix(s: string)
    ensures |Unpadded(s)| <= |s| && s[..|Unpadded(s)|] == Unpadded(s) && AllPad(s[|Unpadded(s)|..])
    ensures Unpadded(s) != "" ==> Unpadded(s)[|Unpadded(s)| - 1] != '='
  {
    if s != "" && s[|s| - 1] == '=' {
      var init, k := s[..|s| - 1], |Unpadded(s)|;
      UnpaddedPrefix(init);
      assert s[..k] == init[..k] && s[k..] == init[k..] + "=";
    } else {
      assert s[..|s|] == s && s[|s|..] == "";
    }
  }

  lemma {:induction false} PaddedSuffix(s: string)
    ensures |s| <= |Padded(s)| && Padded(s)[..|s|] == s && AllPad(Padded(s)[|s|..])
    decreases (4 - |s| % 4) % 4
  {
    if |s| % 4 != 0 {
      PaddedSuffix(s + "=");
      assert Padded(s)[..|s| + 1] == s + "=";
    }
  }

  predicate NoUrlChar(s: string) { forall i :: 0 <= i < |s| ==> s[i] != '-' && s[i] != '_' }

  /** No character of an encoding is one of the two the URL alphabet puts in place. */
  lemma {:induction false} EncodeChars(data: Bytes, i: nat)
    ensures NoUrlChar(EncodeFrom(data, i))
    decreases |data| - i
  {
    if i < |data| {
      EncodeChars(data, i + 3);
      assert forall k :: 0 <= k < 64 ==> Letter(k) != '-' && Letter(k) != '_';
    }
  }

  lemma {:induction false} MapBack(plain: string, k: nat)
    requires NoUrlChar(plain) && k <= |plain|
    ensures Map(FromUrl, Map(ToUrl, plain)[..k]) == plain[..k]
    ensures AllPad(Map(ToUrl, plain)[k..]) ==> AllPad(plain[k..])
  {
    var mapped := Map(ToUrl, plain);
    forall i | 0 <= i < k ensures FromUrl(mapped[..k][i]) == plain[..k][i] {
      assert mapped[..k][i] == ToUrl(plain[i]);
    }
    if AllPad(mapped[k..]) {
      forall i | 0 <= i < |plain[k..]| ensures plain[k..][i] == '=' {
        assert mapped[k..][i] == mapped[k + i] == ToUrl(plain[k + i]);
      }
    }
  }

  lemma {:induction false} SamePrefix(d: Decoder, s: string, t: string, k: nat)
    requires Running(d) && k <= |s| && k <= |t| && s[..k] == t[..k] && AllPad(s[k..]) && AllPad(t[k..])
    ensures Continue(d, s) == Continue(d, t)
  {
    assert s == s[..k] + s[k..] && t == t[..k] + t[k..];
    PadIgnored(d, s[..k], s[k..]);
    PadIgnored(d, t[..k], t[k..]);
  }

  /** The URL-safe pair inverts as well. */
  lemma {:induction false} UrlRoundTrip(data: Bytes)
    ensures UrlDecode(UrlEncode(data)) == data
  {
    var plain := Encode(data);
    EncodeChars(data, 0);
    UnpaddedPrefix(Map(ToUrl, plain));
    var k := |UrlEncode(data)|;
    MapBack(plain, k);
    PaddedSuffix(plain[..k]);
    SamePrefix(Decoder(0, 0, []), Padded(plain[..k]), plain, k);
    DecodeEncode(data);
  }

  /** A URL-safe encoding has neither `+` nor `/`, and does not end in padding. */
  lemma {:induction false} UrlChars(data: Bytes)
    ensures '+' !in UrlEncode(data) && '/' !in UrlEncode(data)
    ensures UrlEncode(data) != "" ==> UrlEncode(data)[|UrlEncode(data)| - 1] != '='
  {
    UnpaddedPrefix(Map(ToUrl, Encode(data)));
  }

  // Hexadecimal.

  function HexChar(v: nat): char
    requires v < 16
  {
    if v < 10 then '0' + v as char else 'a' + (v - 10) as char
  }

  function HexValue(c: char): (v: int)
    ensures -1 <= v < 16
  {
    if '0' <= c <= '9' then c as int - '0' as int
    else if 'a' <= c <= 'f' then c as int - 'a' as int + 10
    else if 'A' <= c <= 'F' then c as int - 'A' as int + 10
    else -1
  }

  /** The digits written out; capitals are read as well. */
  lemma {:induction false} HexDigits(v: nat)
    requires v < 16
    ensures HexChar(v) == "0123456789abcdef"[v]
    ensures HexValue("0123456789abcdef"[v]) == HexValue("0123456789ABCDEF"[v]) == v
  {
  }

  /** And nothing else is. */
  lemma {:induction false} HexOnly(c: char)
    requires HexValue(c) >= 0
    ensures c == "0123456789abcdef"[HexValue(c)] || c == "0123456789ABCDEF"[HexValue(c)]
  {
  }

  function HexEncode(data: Bytes): string {
    if data == [] then "" else [HexChar(data[0] / 16), HexChar(data[0] % 16)] + HexEncode(data[1..])
  }

  lemma {:induction false} HexNext(text: string, data: Bytes, i: nat)
    requires i < |data|
    ensures text + HexEncode(data[i..])
        == text + [HexChar(data[i] / 16)] + [HexChar(data[i] % 16)] + HexEncode(data[i + 1..])
  {
    assert data[i..][1..] == data[i + 1..];
  }

  method HexEncodeLoop(data: Bytes) returns (result: string)
    ensures result == HexEncode(data)
  {
    result := "";
    ghost var all := HexEncode(data);
    assert data[0..] == data;
    for i := 0 to |data|
      invariant result + HexEncode(data[i..]) == all
    {
      HexNext(result, data, i);
      result := result + [HexChar(data[i] / 16)];
      result := result + [HexChar(data[i] % 16)];
    }
  }

  /** Pairs of digits up to the first that is none, or a last digit alone. */
  function HexDecode(hex: string): Bytes {
    if |hex| < 2 || HexValue(hex[0]) < 0 || HexValue(hex[1]) < 0 then []
    else [HexValue(hex[0]) * 16 + HexValue(hex[1])] + HexDecode(hex[2..])
  }

  method HexDecodeLoop(hex: string) returns (result: Bytes)
    ensures result == HexDecode(hex)
  {
    result := [];
    var i := 0;
    while i + 1 < |hex|
      invariant i <= |hex| && result + HexDecode(hex[i..]) == HexDecode(hex)
    {
      var hi, lo := HexValue(hex[i]), HexValue(hex[i + 1]);
      assert hex[i..][2..] == hex[i + 2..];
      if hi < 0 || lo < 0 { break; }
      result := result + [hi * 16 + lo];
      i := i + 2;
    }
  }

  lemma {:induction false} HexValueOfChar(v: nat)
    requires v < 16
    ensures HexValue(HexChar(v)) == v
  {
  }

  lemma {:induction false} DecodePair(b: Byte, rest: string)
    ensures HexDecode([HexChar(b / 16), HexChar(b % 16)] + rest) == [b] + HexDecode(rest)
  {
    var hex := [HexChar(b / 16), HexChar(b % 16)] + rest;
    HexValueOfChar(b / 16);
    HexValueOfChar(b % 16);
    assert hex[2..] == rest;
  }

  /** Hexadecimal decoding inverts encoding, in front of anything that is not a digit. */
  lemma {:induction false} HexRoundTrip(data: Bytes, rest: string)
    requires rest == "" || HexValue(rest[0]) < 0
    ensures HexDecode(HexEncode(data) + rest) == data
  {
    if data == [] {
      assert "" + rest == rest;
    } else {
      var tail := HexEncode(data[1..]) + rest;
      assert HexEncode(data) + rest == [HexChar(data[0] / 16), HexChar(data[0] % 16)] + tail;
      DecodePair(data[0], tail);
      HexRoundTrip(data[1..], rest);
    }
  }
}
