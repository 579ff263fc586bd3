/**
  UUID version 7 as section 5.7 of RFC 9562 lays it out: the bit packing of
  tools/prepare_platform_access_seed.py, the recogniser of xtask/src/main.rs and the regular
  expression of tools/validate_resource_replay_inputs.py.
*/
module Uuid7 {
  import opened Prelude

  const P12 := 0x1000
  const P48 := 0x1_0000_0000_0000
  const P60 := 0x1000_0000_0000_0000
  const P62 := 0x4000_0000_0000_0000
  const P64 := 0x1_0000_0000_0000_0000
  const P76 := 0x1000_0000_0000_0000_0000
  const P80 := 0x1_0000_0000_0000_0000_0000
  const P128 := 0x1_0000_0000_0000_0000_0000_0000_0000_0000

  // ---- Bit packing ------------------------------------------------------------------------------

  function Pow2(n: nat): (p: nat)
    ensures p > 0
  {
    if n == 0 then 1 else 2 * Pow2(n - 1)
  }

  /** Bitwise or on unbounded natural numbers. */
  function BitOr(a: nat, b: nat): nat {
    if a == 0 then b
    else if b == 0 then a
    else 2 * BitOr(a / 2, b / 2) + (if a % 2 == 1 || b % 2 == 1 then 1 else 0)
  }

  /** Left shift by k bits. */
  function Shift(q: nat, k: nat): nat {
    if k == 0 then q else 2 * Shift(q, k - 1)
  }

  /** Or of a number shifted by k bits with one of at most k bits is their sum. */
  lemma {:induction false} OrIsSum(q: nat, b: nat, k: nat)
    requires b < Pow2(k)
    ensures BitOr(Shift(q, k), b) == Shift(q, k) + b
    decreases k
  {
    if k > 0 {
      OrIsSum(q, b / 2, k - 1);
    }
  }

  lemma MultiplyDouble(x: nat, y: nat)
    ensures x * (2 * y) == 2 * (x * y)
  {
  }

  lemma {:induction false} ShiftIsProduct(q: nat, k: nat)
    ensures Shift(q, k) == q * Pow2(k)
  {
    if k > 0 {
      ShiftIsProduct(q, k - 1);
      MultiplyDouble(q, Pow2(k - 1));
    }
  }

  lemma OrField(a: nat, q: nat, b: nat, k: nat)
    requires a == q * Pow2(k) && b < Pow2(k)
    ensures BitOr(a, b) == a + b
  {
    ShiftIsProduct(q, k);
    OrIsSum(q, b, k);
  }

  lemma {:induction false} Pow2Sum(a: nat, b: nat)
    ensures Pow2(a + b) == Pow2(a) * Pow2(b)
    decreases b
  {
    if b > 0 {
      Pow2Sum(a, b - 1);
      MultiplyDouble(Pow2(a), Pow2(b - 1));
    }
  }

  /** Adding to an exponent multiplies by a known power. */
  lemma Pow2Step(a: nat, pa: nat, b: nat, pb: nat)
    requires Pow2(a) == pa && Pow2(b) == pb
    ensures Pow2(a + b) == pa * pb
  {
    Pow2Sum(a, b);
  }

  lemma Pow2Values()
    ensures Pow2(60) == P60 && Pow2(62) == P62 && Pow2(64) == P64 && Pow2(76) == P76 && Pow2(80) == P80
  {
    assert Pow2(2) == 4 && Pow2(4) == 16 && Pow2(10) == 0x400;
    Pow2Step(10, 0x400, 2, 4);
    Pow2Step(10, 0x400, 10, 0x400);
    Pow2Step(20, 0x10_0000, 20, 0x10_0000);
    Pow2Step(40, 0x100_0000_0000, 20, 0x10_0000);
    Pow2Step(60, P60, 2, 4);
    Pow2Step(60, P60, 4, 16);
    Pow2Step(64, P64, 12, P12);
    Pow2Step(76, P76, 4, 16);
  }

  /** The 128-bit value with its five fields side by side. */
  function Pack(ms: nat, randA: nat, randB: nat): nat {
    ms * P80 + 7 * P76 + randA * P64 + 2 * P62 + randB
  }

  /** `uuid7`: shift and or, field by field; a clock outside 48 bits is refused. */
  method Generate(timeNs: int, randA: nat, randB: nat) returns (r: Option<nat>)
    requires randA < P12 && randB < P62
    ensures var ms := timeNs / 1_000_000; r == if 0 <= ms < P48 then Some(Pack(ms, randA, randB)) else None
  {
    var ms := timeNs / 1_000_000;
    if !(0 <= ms < P48) {
      return None;
    }
    Pow2Values();
    var value := ms * P80;
    OrField(value, ms, 0x7 * P76, 80);
    value := BitOr(value, 0x7 * P76);
    OrField(value, ms * 16 + 7, randA * P64, 76);
    value := BitOr(value, randA * P64);
    OrField(value, (ms * 16 + 7) * P12 + randA, 2 * P62, 64);
    value := BitOr(value, 2 * P62);
    OrField(value, ((ms * 16 + 7) * P12 + randA) * 4 + 2, randB, 62);
    value := BitOr(value, randB);
    return Some(value);
  }

  predicate IsVersion7(v: nat) {
    (v / P76) % 16 == 7 && (v / P62) % 4 == 2
  }

  /** The fields of a value, read from its two 64-bit halves. */
  lemma Halves(v: nat)
    ensures v == (v / P64) * P64 + v % P64 && v % P64 < P64
    ensures v / P80 == (v / P64) / 0x1_0000
    ensures v / P76 == (v / P64) / P12
    ensures v / P62 == (v / P64) * 4 + (v % P64) / P62
    ensures v % P62 == (v % P64) % P62
  {
  }

  /** Packed values fit in 128 bits, carry version 7 and variant 10, and give back their fields. */
  lemma PackedFields(ms: nat, randA: nat, randB: nat)
    requires ms < P48 && randA < P12 && randB < P62
    ensures var v := Pack(ms, randA, randB);
            v < P128 && IsVersion7(v) && v / P80 == ms && (v / P64) % P12 == randA && v % P62 == randB
  {
    FieldsOfHalves(Pack(ms, randA, randB), ms, randA, randB);
  }

  lemma FieldsOfHalves(v: nat, ms: nat, randA: nat, randB: nat)
    requires randA < P12 && randB < P62
    requires v / P64 == (ms * 16 + 7) * P12 + randA && v % P64 == 2 * P62 + randB
    ensures IsVersion7(v) && v / P80 == ms && (v / P64) % P12 == randA && v % P62 == randB
  {
    Halves(v);
  }

  lemma HighHalf(hi: nat)
    requires (hi / P12) % 16 == 7
    ensures hi == (hi / 0x1_0000) * 0x1_0000 + 7 * P12 + hi % P12
  {
    var q := hi / P12;
    assert hi == q * P12 + hi % P12;
    assert q == q / 16 * 16 + 7;
    assert q / 16 == hi / 0x1_0000;
  }

  /** Every 128-bit value with that version and variant is packed, in exactly one way. */
  lemma EveryVersion7IsPacked(v: nat)
    requires v < P128 && IsVersion7(v)
    ensures v / P80 < P48 && (v / P64) % P12 < P12 && v % P62 < P62
    ensures v == Pack(v / P80, (v / P64) % P12, v % P62)
  {
    Halves(v);
    HighHalf(v / P64);
    LowHalf(v % P64);
    FromHalves(v, v / P64, v % P64);
  }

  lemma LowHalf(lo: nat)
    requires lo < P64 && lo / P62 == 2
    ensures lo == 2 * P62 + lo % P62
  {
  }

  lemma FromHalves(v: nat, hi: nat, lo: nat)
    requires v == hi * P64 + lo
    requires hi == (hi / 0x1_0000) * 0x1_0000 + 7 * P12 + hi % P12 && lo == 2 * P62 + lo % P62
    ensures v == Pack(hi / 0x1_0000, hi % P12, lo % P62)
  {
  }

  /** Identifiers drawn at different milliseconds are ordered by time. */
  lemma PackedOrder(ms1: nat, a1: nat, b1: nat, ms2: nat, a2: nat, b2: nat)
    requires a1 < P12 && b1 < P62 && a2 < P12 && b2 < P62
    ensures ms1 < ms2 ==> Pack(ms1, a1, b1) < Pack(ms2, a2, b2)
  {
  }

  // ---- Text form --------------------------------------------------------------------------------

  predicate IsHex(c: char) {
    '0' <= c <= '9' || 'a' <= c <= 'f'
  }

  function HexChar(d: nat): (c: char)
    requires d < 16
    ensures IsHex(c) && HexDigit(c) == d
  {
    if d < 10 then '0' + d as char else 'a' + (d - 10) as char
  }

  function HexDigit(c: char): (d: nat)
    requires IsHex(c)
    ensures d < 16
  {
    if c <= '9' then c as int - '0' as int else c as int - 'a' as int + 10
  }

  /** The last n hexadecimal digits of a value, most significant first. */
  function Hex(v: nat, n: nat): (s: string)
    ensures |s| == n && forall i :: 0 <= i < n ==> IsHex(s[i])
  {
    if n == 0 then [] else Hex(v / 16, n - 1) + [HexChar(v % 16)]
  }

  function HexValue(s: string): nat
    requires forall i :: 0 <= i < |s| ==> IsHex(s[i])
  {
    if s == [] then 0 else HexValue(s[..|s| - 1]) * 16 + HexDigit(s[|s| - 1])
  }

  lemma Pow16(n: nat)
    ensures Pow2(4 * (n + 1)) == 16 * Pow2(4 * n)
  {
    assert Pow2(4 * n + 4) == 2 * Pow2(4 * n + 3) && Pow2(4 * n + 3) == 2 * Pow2(4 * n + 2);
    assert Pow2(4 * n + 2) == 2 * Pow2(4 * n + 1) && Pow2(4 * n + 1) == 2 * Pow2(4 * n);
  }

  lemma {:induction false} HexOfValue(s: string)
    requires forall i :: 0 <= i < |s| ==> IsHex(s[i])
    ensures Hex(HexValue(s), |s|) == s && HexValue(s) < Pow2(4 * |s|)
  {
    if s != [] {
      var init := s[..|s| - 1];
      HexOfValue(init);
      Pow16(|init|);
      assert HexValue(s) / 16 == HexValue(init);
      assert init + [s[|s| - 1]] == s;
    }
  }

  lemma DivideTwice(v: nat, p: nat)
    requires p > 0
    ensures (v / 16) / p == v / (16 * p)
  {
    var q, r := v / 16, v % 16;
    var x, y := q / p, q % p;
    assert q == p * x + y;
    assert v == (16 * p) * x + (16 * y + r) && 0 <= 16 * y + r < 16 * p;
    QuotientIs(v, 16 * p, x, 16 * y + r);
  }

  lemma QuotientIs(v: nat, d: nat, q: nat, r: nat)
    requires d > 0 && v == d * q + r && r < d
    ensures v / d == q
  {
    var e: int := v / d - q;
    assert d * e == r - v % d;
    assert e >= 1 ==> d * e >= d;
    assert e <= -1 ==> d * e + d <= 0;
  }

  /** Digit i of the text is the nibble that many places from the top. */
  lemma {:induction false} HexAt(v: nat, n: nat, i: nat)
    requires i < n
    ensures Hex(v, n)[i] == HexChar((v / Pow2(4 * (n - 1 - i))) % 16)
    decreases n
  {
    if i < n - 1 {
      HexAt(v / 16, n - 1, i);
      Pow16(n - 2 - i);
      DivideTwice(v, Pow2(4 * (n - 2 - i)));
    }
  }

  /** The lower-case hyphenated form of section 4 of RFC 9562. */
  function Hyphenated(v: nat): (s: string)
    ensures |s| == 36
  {
    var h := Hex(v, 32);
    h[..8] + "-" + h[8..12] + "-" + h[12..16] + "-" + h[16..20] + "-" + h[20..]
  }

  /** The digits of a hyphenated text. */
  function Digits(s: string): (h: string)
    requires |s| == 36
    ensures |h| == 32
  {
    s[..8] + s[9..13] + s[14..18] + s[19..23] + s[24..]
  }

  predicate IsHyphenIndex(i: nat) {
    i == 8 || i == 13 || i == 18 || i == 23
  }

  /** `is_uuid_v7_run_id`, byte by byte; the range from '8' to 'b' also spans ':' to '`'. */
  predicate IsUuidV7RunId(s: string) {
    if |s| != 36 || s[8] != '-' || s[13] != '-' || s[18] != '-' || s[23] != '-' || s[14] != '7' || !('8' <= s[19] <= 'b') then false
    else forall i :: 0 <= i < |s| ==> IsHyphenIndex(i) || '0' <= s[i] <= '9' || 'a' <= s[i] <= 'f'
  }

  // ---- The regular expression -------------------------------------------------------------------

  datatype Class = HexClass | Exactly(c: char) | AnyOf(cs: string)

  predicate InClass(c: char, class_: Class) {
    match class_
    case HexClass => IsHex(c)
    case Exactly(d) => c == d
    case AnyOf(cs) => c in cs
  }

  function Repeat(class_: Class, n: nat): (r: seq<Class>)
    ensures |r| == n && forall i :: 0 <= i < n ==> r[i] == class_
  {
    seq(n, _ => class_)
  }

  /** ^[0-9a-f]{8}-[0-9a-f]{4}-7[0-9a-f]{3}-[89ab][0-9a-f]{3}-[0-9a-f]{12}$ */
  function RunIdExpression(): (r: seq<Class>)
    ensures |r| == 36
  {
    Repeat(HexClass, 8) + [Exactly('-')] + Repeat(HexClass, 4) + [Exactly('-')] + [Exactly('7')] + Repeat(HexClass, 3) +
    [Exactly('-')] + [AnyOf("89ab")] + Repeat(HexClass, 3) + [Exactly('-')] + Repeat(HexClass, 12)
  }

  predicate MatchesRunId(s: string) {
    |s| == |RunIdExpression()| && forall i :: 0 <= i < |s| ==> InClass(s[i], RunIdExpression()[i])
  }

  /** The recogniser accepts exactly the regular language, for all its wider byte range. */
  lemma RecogniserIsRegular(s: string)
    ensures IsUuidV7RunId(s) <==> MatchesRunId(s)
  {
    if |s| == 36 {
      forall i | 0 <= i < 36
        ensures InClass(s[i], RunIdExpression()[i]) <==>
                if IsHyphenIndex(i) then s[i] == '-' else if i == 14 then s[i] == '7' else if i == 19 then s[i] in "89ab" else IsHex(s[i])
      {
      }
    }
  }

  lemma HyphenatedAt(v: nat, i: nat)
    requires i < 36
    ensures var h := Hex(v, 32);
            Hyphenated(v)[i] == if IsHyphenIndex(i) then '-' else h[i - (if i < 8 then 0 else if i < 13 then 1 else if i < 18 then 2 else if i < 23 then 3 else 4)]
  {
  }

  lemma VariantNibble(v: nat)
    ensures 8 <= (v / P60) % 16 <= 11 <==> (v / P62) % 4 == 2
  {
    var x := v / P60;
    assert v / P62 == x / 4;
    assert (x / 4) % 4 == (x % 16) / 4;
  }

  /** The version and variant digits of the text. */
  lemma VersionDigits(v: nat)
    ensures Hex(v, 32)[12] == '7' <==> (v / P76) % 16 == 7
    ensures Hex(v, 32)[16] in "89ab" <==> (v / P62) % 4 == 2
  {
    Pow2Values();
    HexAt(v, 32, 12);
    HexAt(v, 32, 16);
    VariantNibble(v);
  }

  lemma HyphenatedIsAccepted(v: nat)
    ensures IsUuidV7RunId(Hyphenated(v)) <==> IsVersion7(v)
  {
    var s, h := Hyphenated(v), Hex(v, 32);
    VersionDigits(v);
    forall i | 0 <= i < 36 ensures IsHyphenIndex(i) ==> s[i] == '-' ensures !IsHyphenIndex(i) ==> IsHex(s[i]) {
      HyphenatedAt(v, i);
    }
    assert s[14] == h[12] && s[19] == h[16];
  }

  /**
    The recogniser accepts a text exactly when it is the hyphenated form of a value that the
    generator can produce.
  */
  lemma AcceptedExactlyGenerated(s: string)
    ensures IsUuidV7RunId(s) <==>
            exists ms: nat, randA: nat, randB: nat :: ms < P48 && randA < P12 && randB < P62 && s == Hyphenated(Pack(ms, randA, randB))
  {
    forall ms: nat, randA: nat, randB: nat | ms < P48 && randA < P12 && randB < P62 && s == Hyphenated(Pack(ms, randA, randB))
      ensures IsUuidV7RunId(s)
    {
      PackedFields(ms, randA, randB);
      HyphenatedIsAccepted(Pack(ms, randA, randB));
    }
    if IsUuidV7RunId(s) {
      var v := AcceptedValue(s);
      HyphenatedIsAccepted(v);
      EveryVersion7IsPacked(v);
      assert s == Hyphenated(Pack(v / P80, (v / P64) % P12, v % P62));
    }
  }

  lemma AcceptedValue(s: string) returns (v: nat)
    requires IsUuidV7RunId(s)
    ensures v < P128 && s == Hyphenated(v)
  {
    var h := Digits(s);
    forall i | 0 <= i < 32 ensures IsHex(h[i]) {
      assert h[i] == s[i + (if i < 8 then 0 else if i < 12 then 1 else if i < 16 then 2 else if i < 20 then 3 else 4)];
    }
    HexOfValue(h);
    Pow2Values();
    Pow2Step(64, P64, 64, P64);
    v := HexValue(h);
    Reassembled(s);
  }

  lemma Reassembled(s: string)
    requires |s| == 36 && s[8] == s[13] == s[18] == s[23] == '-'
    ensures var h := Digits(s); s == h[..8] + "-" + h[8..12] + "-" + h[12..16] + "-" + h[16..20] + "-" + h[20..]
  {
    var h := Digits(s);
    assert s[..8] == h[..8] && s[9..13] == h[8..12] && s[14..18] == h[12..16] && s[19..23] == h[16..20] && s[24..] == h[20..];
    assert s == s[..8] + "-" + s[9..13] + "-" + s[14..18] + "-" + s[19..23] + "-" + s[24..];
  }
}
