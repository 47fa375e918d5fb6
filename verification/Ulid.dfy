/**
 The ULID encoder: six bytes of millisecond clock and ten random bytes, read as
 one number and written as 26 Crockford base-32 digits (ULID specification,
 Canonical String Representation). Clock and entropy are inputs.
 */
module Ulid {

  type Byte = b: int | 0 <= b < 256

  const ALPHABET: string := "0123456789ABCDEFGHJKMNPQRSTVWXYZ"
  const LENGTH: nat := 26

  function Pow(base: nat, k: nat): nat {
    if k == 0 then 1 else base * Pow(base, k - 1)
  }

  // ---- Digits ----

  function Encode(value: nat, width: nat): (s: string)
    ensures |s| == width
  {
    if width == 0 then [] else Encode(value / 32, width - 1) + [ALPHABET[value % 32]]
  }

  /** The position of a character in the alphabet, searched for; 32 when absent. */
  function DigitFrom(c: char, k: nat): nat
    requires k <= 32
    decreases 32 - k
  {
    if k == 32 || ALPHABET[k] == c then k else DigitFrom(c, k + 1)
  }

  function Decode(s: string): nat {
    if s == [] then 0 else Decode(s[..|s| - 1]) * 32 + DigitFrom(s[|s| - 1], 0)
  }

  lemma {:induction false} AlphabetAscends(i: nat, j: nat)
    requires i < j < 32
    ensures ALPHABET[i] < ALPHABET[j]
    decreases j - i
  {
    if i + 1 == j {
    } else {
      AlphabetAscends(i, j - 1);
    }
  }

  lemma {:induction false} DigitFound(d: nat, k: nat)
    requires k <= d < 32
    ensures DigitFrom(ALPHABET[d], k) == d
    decreases d - k
  {
    if k == d {
    } else {
      AlphabetAscends(k, d);
      DigitFound(d, k + 1);
    }
  }

  lemma BelowQuotient(n: nat, p: nat)
    requires n < 32 * p
    ensures n / 32 < p
  {
  }

  /** Every value that fits the width decodes back to itself. */
  lemma {:induction false} RoundTrip(value: nat, width: nat)
    requires value < Pow(32, width)
    ensures Decode(Encode(value, width)) == value
  {
    if width == 0 {
    } else {
      BelowQuotient(value, Pow(32, width - 1));
      RoundTrip(value / 32, width - 1);
      DigitFound(value % 32, 0);
      var s := Encode(value, width);
      assert s[..|s| - 1] == Encode(value / 32, width - 1);
    }
  }

  lemma LowDigit(d: nat)
    requires d < 8
    ensures '0' <= ALPHABET[d] <= '7'
  {
  }

  /** A value below 8 * 32^(width-1) starts with one of '0' .. '7'. */
  lemma {:induction false} FirstCharacter(value: nat, width: nat)
    requires width > 0 && value < 8 * Pow(32, width - 1)
    ensures '0' <= Encode(value, width)[0] <= '7'
    decreases width
  {
    if width > 1 {
      assert value < 32 * (8 * Pow(32, width - 2));
      BelowQuotient(value, 8 * Pow(32, width - 2));
      FirstCharacter(value / 32, width - 1);
    } else {
      assert Pow(32, 0) == 1;
      LowDigit(value);
      assert Encode(value, 1) == Encode(value / 32, 0) + [ALPHABET[value]];
    }
  }

  // ---- String order is numeric order ----

  predicate Before(a: string, b: string)
    requires |a| == |b|
  {
    a != [] && (a[0] < b[0] || (a[0] == b[0] && Before(a[1..], b[1..])))
  }

  lemma {:induction false} BeforeAppend(a: string, b: string, x: char, y: char)
    requires |a| == |b|
    ensures Before(a + [x], b + [y]) <==> Before(a, b) || (a == b && x < y)
    decreases |a|
  {
    if a == [] {
      assert (a + [x])[1..] == [] && (b + [y])[1..] == [];
    } else {
      assert (a + [x])[1..] == a[1..] + [x] && (b + [y])[1..] == b[1..] + [y];
      BeforeAppend(a[1..], b[1..], x, y);
      assert a == [a[0]] + a[1..] && b == [b[0]] + b[1..];
    }
  }

  lemma Injective(v: nat, w: nat, width: nat)
    requires v < Pow(32, width) && w < Pow(32, width) && Encode(v, width) == Encode(w, width)
    ensures v == w
  {
    RoundTrip(v, width);
    RoundTrip(w, width);
  }

  lemma DigitOrder(d: nat, e: nat)
    requires d < 32 && e < 32
    ensures ALPHABET[d] < ALPHABET[e] <==> d < e
  {
    if d < e {
      AlphabetAscends(d, e);
    } else if e < d {
      AlphabetAscends(e, d);
    }
  }

  lemma QuotientOrder(v: nat, w: nat)
    ensures v < w <==> v / 32 < w / 32 || (v / 32 == w / 32 && v % 32 < w % 32)
  {
  }

  /** Comparing encodings as strings is comparing values as numbers. */
  lemma {:induction false} OrderIsNumeric(v: nat, w: nat, width: nat)
    requires v < Pow(32, width) && w < Pow(32, width)
    ensures Before(Encode(v, width), Encode(w, width)) <==> v < w
    decreases width
  {
    if width == 0 {
    } else {
      BelowQuotient(v, Pow(32, width - 1));
      BelowQuotient(w, Pow(32, width - 1));
      OrderIsNumeric(v / 32, w / 32, width - 1);
      var a, b := Encode(v / 32, width - 1), Encode(w / 32, width - 1);
      BeforeAppend(a, b, ALPHABET[v % 32], ALPHABET[w % 32]);
      DigitOrder(v % 32, w % 32);
      assert a == b <==> v / 32 == w / 32 by {
        if a == b { Injective(v / 32, w / 32, width - 1); }
      }
      QuotientOrder(v, w);
    }
  }

  // ---- The sixteen raw bytes ----

  function Value(bytes: seq<Byte>): nat {
    if bytes == [] then 0 else Value(bytes[..|bytes| - 1]) * 256 + bytes[|bytes| - 1]
  }

  lemma {:induction false} ValueBelow(bytes: seq<Byte>)
    ensures Value(bytes) < Pow(256, |bytes|)
  {
    if bytes == [] {
    } else {
      ValueBelow(bytes[..|bytes| - 1]);
    }
  }

  lemma Regroup(v: nat, p: nat, w: nat, d: nat)
    ensures (v * p + w) * 256 + d == v * (256 * p) + (w * 256 + d)
  {
    assert v * (256 * p) == 256 * (v * p);
  }

  lemma {:induction false} ValueConcat(a: seq<Byte>, b: seq<Byte>)
    ensures Value(a + b) == Value(a) * Pow(256, |b|) + Value(b)
    decreases |b|
  {
    if b == [] {
      assert a + b == a;
    } else {
      var front := b[..|b| - 1];
      assert (a + b)[..|a + b| - 1] == a + front;
      ValueConcat(a, front);
      Regroup(Value(a), Pow(256, |front|), Value(front), b[|b| - 1]);
    }
  }

  function Clock(ms: nat): (b: seq<Byte>)
    ensures |b| == 6
  {
    [ms / 0x100_0000_0000 % 256, ms / 0x1_0000_0000 % 256, ms / 0x100_0000 % 256,
     ms / 0x1_0000 % 256, ms / 0x100 % 256, ms % 256]
  }

  const CLOCK_RANGE: nat := 0x1_0000_0000_0000
  const ENTROPY_RANGE: nat := 0x1_0000_0000_0000_0000_0000

  lemma ValueOfSix(a: Byte, b: Byte, c: Byte, d: Byte, e: Byte, f: Byte)
    ensures Value([a, b, c, d, e, f]) == ((((a * 256 + b) * 256 + c) * 256 + d) * 256 + e) * 256 + f
  {
    ValueNext([], a);
    ValueNext([a], b);
    ValueNext([a, b], c);
    ValueNext([a, b, c], d);
    ValueNext([a, b, c, d], e);
    ValueNext([a, b, c, d, e], f);
    assert [] + [a] == [a] && [a] + [b] == [a, b] && [a, b] + [c] == [a, b, c];
    assert [a, b, c] + [d] == [a, b, c, d] && [a, b, c, d] + [e] == [a, b, c, d, e];
    assert [a, b, c, d, e] + [f] == [a, b, c, d, e, f];
  }

  lemma ValueNext(front: seq<Byte>, last: Byte)
    ensures Value(front + [last]) == Value(front) * 256 + last
  {
    assert (front + [last])[..|front|] == front;
  }

  lemma Quotients(ms: nat)
    ensures ms / 0x1_0000 == ms / 0x100 / 256 && ms / 0x100_0000 == ms / 0x1_0000 / 256
    ensures ms / 0x1_0000_0000 == ms / 0x100_0000 / 256 && ms / 0x100_0000_0000 == ms / 0x1_0000_0000 / 256
  {
  }

  lemma Horner(q: nat, a: Byte, b: Byte, c: Byte, d: Byte, e: Byte, f: Byte, ms: nat)
    requires ms == (((((q * 256 + a) * 256 + b) * 256 + c) * 256 + d) * 256 + e) * 256 + f
    ensures ms % CLOCK_RANGE == ((((a * 256 + b) * 256 + c) * 256 + d) * 256 + e) * 256 + f
  {
    assert ms == q * CLOCK_RANGE + (((((a * 256 + b) * 256 + c) * 256 + d) * 256 + e) * 256 + f);
  }

  /** Six bytes keep the clock modulo 2^48. */
  lemma ClockValue(ms: nat)
    ensures Value(Clock(ms)) == ms % CLOCK_RANGE
  {
    var a, b, c := ms / 0x100_0000_0000 % 256, ms / 0x1_0000_0000 % 256, ms / 0x100_0000 % 256;
    var d, e, f := ms / 0x1_0000 % 256, ms / 0x100 % 256, ms % 256;
    ValueOfSix(a, b, c, d, e, f);
    Quotients(ms);
    Horner(ms / 0x100_0000_0000 / 256, a, b, c, d, e, f, ms);
  }

  lemma Ranges()
    ensures Pow(256, 10) == ENTROPY_RANGE && Pow(32, 25) * 8 == CLOCK_RANGE * ENTROPY_RANGE
    ensures CLOCK_RANGE * ENTROPY_RANGE <= Pow(32, LENGTH)
  {
    assert Pow(256, 5) == 256 * (256 * (256 * (256 * (256 * Pow(256, 0)))));
    assert Pow(256, 10) == 256 * (256 * (256 * (256 * (256 * Pow(256, 5)))));
    assert Pow(32, 5) == 32 * (32 * (32 * (32 * (32 * Pow(32, 0)))));
    assert Pow(32, 10) == 32 * (32 * (32 * (32 * (32 * Pow(32, 5)))));
    assert Pow(32, 15) == 32 * (32 * (32 * (32 * (32 * Pow(32, 10)))));
    assert Pow(32, 20) == 32 * (32 * (32 * (32 * (32 * Pow(32, 15)))));
    assert Pow(32, 25) == 32 * (32 * (32 * (32 * (32 * Pow(32, 20)))));
    assert Pow(32, 26) == 32 * Pow(32, 25);
  }

  function Number(ms: nat, entropy: seq<Byte>): nat {
    Value(Clock(ms) + entropy)
  }

  function New(ms: nat, entropy: seq<Byte>): string {
    Encode(Number(ms, entropy), LENGTH)
  }

  lemma NumberParts(ms: nat, entropy: seq<Byte>)
    requires |entropy| == 10
    ensures Number(ms, entropy) == ms % CLOCK_RANGE * ENTROPY_RANGE + Value(entropy)
    ensures Value(entropy) < ENTROPY_RANGE && Number(ms, entropy) < CLOCK_RANGE * ENTROPY_RANGE
  {
    ValueConcat(Clock(ms), entropy);
    ClockValue(ms);
    ValueBelow(entropy);
    Ranges();
  }

  /** Crockford's base 32: the digits and the upper-case letters without I, L, O and U. */
  predicate IsCrockford(c: char) {
    '0' <= c <= '9' || ('A' <= c <= 'Z' && c != 'I' && c != 'L' && c != 'O' && c != 'U')
  }

  lemma {:induction false} EncodingIsCrockford(value: nat, width: nat)
    ensures forall i | 0 <= i < width :: IsCrockford(Encode(value, width)[i])
  {
    if width == 0 {
    } else {
      EncodingIsCrockford(value / 32, width - 1);
      DigitIsCrockford(value % 32);
    }
  }

  lemma DigitIsCrockford(d: nat)
    requires d < 32
    ensures IsCrockford(ALPHABET[d])
  {
  }

  /** Every identifier is 26 Crockford characters, starts with at most '7', and decodes to its clock and entropy. */
  lemma IdentifierIsCanonical(ms: nat, entropy: seq<Byte>)
    requires |entropy| == 10
    ensures |New(ms, entropy)| == 26 && New(ms, entropy)[0] <= '7'
    ensures forall i | 0 <= i < 26 :: IsCrockford(New(ms, entropy)[i])
    ensures Decode(New(ms, entropy)) == ms % CLOCK_RANGE * ENTROPY_RANGE + Value(entropy)
  {
    NumberParts(ms, entropy);
    Ranges();
    RoundTrip(Number(ms, entropy), LENGTH);
    FirstCharacter(Number(ms, entropy), LENGTH);
    EncodingIsCrockford(Number(ms, entropy), LENGTH);
  }

  lemma ClockDominates(a: nat, b: nat, r: nat, t: nat)
    requires a < b && r < ENTROPY_RANGE && t < ENTROPY_RANGE
    ensures a * ENTROPY_RANGE + r < b * ENTROPY_RANGE + t
  {
  }

  /** Identifiers from different 48-bit clock readings sort by those readings, whatever their entropy. */
  lemma SortsByClock(m: nat, n: nat, r: seq<Byte>, t: seq<Byte>)
    requires |r| == 10 && |t| == 10 && m % CLOCK_RANGE != n % CLOCK_RANGE
    ensures Before(New(m, r), New(n, t)) <==> m % CLOCK_RANGE < n % CLOCK_RANGE
  {
    NumberParts(m, r);
    NumberParts(n, t);
    Ranges();
    OrderIsNumeric(Number(m, r), Number(n, t), LENGTH);
    if m % CLOCK_RANGE < n % CLOCK_RANGE {
      ClockDominates(m % CLOCK_RANGE, n % CLOCK_RANGE, Value(r), Value(t));
    } else {
      ClockDominates(n % CLOCK_RANGE, m % CLOCK_RANGE, Value(t), Value(r));
    }
  }

  /** Below 2^48 ms an earlier millisecond always sorts strictly first. */
  lemma EarlierSortsFirst(m: nat, n: nat, r: seq<Byte>, t: seq<Byte>)
    requires |r| == 10 && |t| == 10 && m < n < CLOCK_RANGE
    ensures Before(New(m, r), New(n, t)) && !Before(New(n, t), New(m, r))
  {
    assert m % CLOCK_RANGE == m && n % CLOCK_RANGE == n;
    SortsByClock(m, n, r, t);
    SortsByClock(n, m, t, r);
  }

  /** At 2^48 ms the clock wraps and the later identifier sorts first. */
  lemma WrapSortsBackwards(r: seq<Byte>, t: seq<Byte>)
    requires |r| == 10 && |t| == 10
    ensures Before(New(CLOCK_RANGE, t), New(CLOCK_RANGE - 1, r))
  {
    assert CLOCK_RANGE % CLOCK_RANGE == 0 && (CLOCK_RANGE - 1) % CLOCK_RANGE == CLOCK_RANGE - 1;
    SortsByClock(CLOCK_RANGE, CLOCK_RANGE - 1, t, r);
  }

  /** The digit loop of `NewULID`: the array is filled from the right. */
  method Digits(number: nat) returns (id: string)
    ensures id == Encode(number, LENGTH)
  {
    var value := number;
    var out := new char[26](_ => '0');
    var index := 26;
    assert out[index..] == [] && Encode(number, LENGTH) + [] == Encode(number, LENGTH);
    while index > 0
      invariant 0 <= index <= 26
      invariant Encode(number, LENGTH) == Encode(value, index) + out[index..]
    {
      ghost var tail := out[index..];
      index := index - 1;
      out[index] := ALPHABET[value % 32];
      assert out[index..] == [ALPHABET[value % 32]] + tail;
      assert Encode(value, index + 1) + tail == Encode(value / 32, index) + ([ALPHABET[value % 32]] + tail);
      value := value / 32;
    }
    id := out[..];
    assert Encode(value, 0) + out[0..] == out[..];
  }

  /** `NewULID`: clock bytes, entropy bytes, then the digits of the number they spell. */
  method NewULID(ms: nat, entropy: seq<Byte>) returns (id: string)
    requires |entropy| == 10
    ensures id == New(ms, entropy)
  {
    var raw := new Byte[16](_ => 0);
    raw[0], raw[1], raw[2] := ms / 0x100_0000_0000 % 256, ms / 0x1_0000_0000 % 256, ms / 0x100_0000 % 256;
    raw[3], raw[4], raw[5] := ms / 0x1_0000 % 256, ms / 0x100 % 256, ms % 256;
    for i := 0 to 10
      invariant raw[..6] == Clock(ms) && raw[6..6 + i] == entropy[..i]
    {
      raw[6 + i] := entropy[i];
    }
    assert entropy[..10] == entropy;
    assert raw[..] == raw[..6] + raw[6..16];
    assert raw[..] == Clock(ms) + entropy;
    id := Digits(Value(raw[..]));
  }
}
