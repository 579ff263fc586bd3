/**
  The canonical decimal cursor of crates/contracts/src/foundation.rs: its printer, its parser and
  the 19-alternative pattern published for clients.
*/
module StreamSequence {
  import opened Prelude

  const U64_MAX := 18_446_744_073_709_551_615
  const MAX_LENGTH := 20

  predicate IsDigit(c: char) {
    '0' <= c <= '9'
  }

  predicate AllDigits(s: string) {
    forall i :: 0 <= i < |s| ==> IsDigit(s[i])
  }

  function DigitValue(c: char): (d: nat)
    requires IsDigit(c)
    ensures d < 10
  {
    c as int - '0' as int
  }

  function DigitChar(d: nat): (c: char)
    requires d < 10
    ensures IsDigit(c) && DigitValue(c) == d
  {
    '0' + d as char
  }

  /** `u64::from_str` on digits: multiply, add, and fail at the first overflow. */
  function ParseU64(s: string, acc: nat): Option<nat>
    requires AllDigits(s) && acc <= U64_MAX
  {
    if s == [] then Some(acc)
    else
      var next := acc * 10 + DigitValue(s[0]);
      if next > U64_MAX then None else ParseU64(s[1..], next)
  }

  function FromStr(s: string): Option<nat> {
    if s == [] || (|s| > 1 && s[0] == '0') || !AllDigits(s) then None else ParseU64(s, 0)
  }

  /** Display of a number: its decimal digits, most significant first. */
  function Display(n: nat): string {
    if n < 10 then [DigitChar(n)] else Display(n / 10) + [DigitChar(n % 10)]
  }

  // ---- The published pattern --------------------------------------------------------------------

  /** A character class of the pattern. */
  datatype Class = Class(lo: char, hi: char)

  predicate MatchesClasses(classes: seq<Class>, s: string) {
    |s| == |classes| && forall i :: 0 <= i < |s| ==> classes[i].lo <= s[i] <= classes[i].hi
  }

  function Literal(text: string): seq<Class> {
    seq(|text|, i requires 0 <= i < |text| => Class(text[i], text[i]))
  }

  function AnyDigits(n: nat): seq<Class> {
    seq(n, _ => Class('0', '9'))
  }

  /** prefix[0-last][0-9]{n} */
  function Branch(prefix: string, last: char, n: nat): seq<Class> {
    Literal(prefix) + [Class('0', last)] + AnyDigits(n)
  }

  /** The second alternative, [1-9][0-9]{0,18}. */
  predicate MatchesShort(s: string) {
    exists n :: 0 <= n <= 18 && MatchesClasses([Class('1', '9')] + AnyDigits(n), s)
  }

  /** The seventeen alternatives of twenty digits; a literal 0 before the free digits is the class [0-0]. */
  const LONG: seq<(string, char, nat)> := [
    ("1", '7', 18), ("18", '3', 17), ("184", '3', 16), ("1844", '5', 15), ("18446", '6', 14), ("184467", '3', 13),
    ("1844674", '3', 12), ("184467440", '6', 10), ("1844674407", '2', 9), ("18446744073", '6', 8),
    ("1844674407370", '8', 6), ("18446744073709", '4', 5), ("184467440737095", '4', 4), ("1844674407370955", '0', 3),
    ("18446744073709551", '5', 2), ("184467440737095516", '0', 1), ("1844674407370955161", '5', 0)]

  predicate MatchesPattern(s: string) {
    || s == "0"
    || MatchesShort(s)
    || exists k :: 0 <= k < |LONG| && MatchesClasses(Branch(LONG[k].0, LONG[k].1, LONG[k].2), s)
  }

  // ---- Values -----------------------------------------------------------------------------------

  function Value(s: string): nat
    requires AllDigits(s)
  {
    if s == [] then 0 else Value(s[..|s| - 1]) * 10 + DigitValue(s[|s| - 1])
  }

  function Pow10(n: nat): (p: nat)
    ensures p > 0
  {
    if n == 0 then 1 else 10 * Pow10(n - 1)
  }

  predicate Canonical(s: string) {
    s != [] && AllDigits(s) && (|s| > 1 ==> s[0] != '0')
  }

  lemma {:induction false} ValueBound(s: string)
    requires AllDigits(s)
    ensures Value(s) < Pow10(|s|)
    ensures |s| > 0 && s[0] != '0' ==> Pow10(|s| - 1) <= Value(s)
  {
    if |s| == 1 {
      assert s[..0] == [];
    } else if s != [] {
      ValueBound(s[..|s| - 1]);
    }
  }

  lemma {:induction false} ValueCons(s: string)
    requires AllDigits(s) && s != []
    ensures Value(s) == DigitValue(s[0]) * Pow10(|s| - 1) + Value(s[1..])
  {
    if |s| == 1 {
      assert s[..0] == [] && s[1..] == [];
    } else {
      var init, d := s[..|s| - 1], DigitValue(s[|s| - 1]);
      ValueCons(init);
      assert init[1..] == s[1..][..|s| - 2] && init[0] == s[0] && s[1..][|s| - 2] == s[|s| - 1];
      Regroup(DigitValue(s[0]), Pow10(|s| - 2), Value(init[1..]), d);
    }
  }

  lemma Regroup(first: nat, p: nat, middle: nat, last: nat)
    ensures 10 * (first * p + middle) + last == first * (10 * p) + (10 * middle + last)
  {
  }

  lemma ShiftIn(acc: nat, d: nat, p: nat)
    ensures acc * (10 * p) + d * p == (acc * 10 + d) * p
    ensures p > 0 ==> (acc * 10 + d) * p >= acc * 10 + d
  {
    if p > 0 {
      assert (acc * 10 + d) * p == (acc * 10 + d) * (p - 1) + (acc * 10 + d);
    }
  }

  lemma {:induction false} ParseComputesValue(s: string, acc: nat)
    requires AllDigits(s) && acc <= U64_MAX
    ensures var v := acc * Pow10(|s|) + Value(s); ParseU64(s, acc) == if v <= U64_MAX then Some(v) else None
    decreases |s|
  {
    if s != [] {
      ValueCons(s);
      ShiftIn(acc, DigitValue(s[0]), Pow10(|s| - 1));
      if acc * 10 + DigitValue(s[0]) <= U64_MAX {
        ParseComputesValue(s[1..], acc * 10 + DigitValue(s[0]));
      }
    }
  }

  lemma {:induction false} DisplayIsCanonical(n: nat)
    ensures Canonical(Display(n)) && Value(Display(n)) == n
    ensures n > 0 ==> Display(n)[0] != '0'
  {
    if n < 10 {
      assert Display(n)[..0] == [];
    } else {
      DisplayIsCanonical(n / 10);
      assert Display(n)[..|Display(n)| - 1] == Display(n / 10);
    }
  }

  lemma {:induction false} CanonicalIsDisplay(s: string)
    requires Canonical(s)
    ensures Display(Value(s)) == s
  {
    if |s| == 1 {
      assert s[..0] == [];
    } else {
      var init, last := s[..|s| - 1], DigitValue(s[|s| - 1]);
      CanonicalIsDisplay(init);
      ValueBound(s);
      assert Pow10(1) == 10 && Pow10(|s| - 1) >= 10 by { Pow10Grows(1, |s| - 1); }
      assert Value(s) / 10 == Value(init) && Value(s) % 10 == last;
      assert init + [s[|s| - 1]] == s;
    }
  }

  lemma {:induction false} Pow10Grows(a: nat, b: nat)
    requires a <= b
    ensures Pow10(a) <= Pow10(b)
    decreases b
  {
    if a < b {
      Pow10Grows(a, b - 1);
    }
  }

  /** Parsing and printing are inverse: the accepted strings are exactly the Display forms of u64. */
  lemma FromStrInvertsDisplay(s: string, n: nat)
    ensures FromStr(s) == Some(n) <==> n <= U64_MAX && s == Display(n)
  {
    DisplayIsCanonical(n);
    if Canonical(s) {
      CanonicalIsDisplay(s);
      ParseComputesValue(s, 0);
    }
    ParseComputesValue(Display(n), 0);
  }

  // ---- The pattern accepts exactly these strings ------------------------------------------------

  const MAX_TEXT := "18446744073709551615"

  lemma LeadingDigit(x: nat, y: nat, p: nat)
    requires x < y
    ensures x * p + p <= y * p
  {
    var d := y - x - 1;
    assert d * p >= 0;
    assert y * p == (x + 1 + d) * p == x * p + p + d * p;
  }

  /** Of two digit strings of one length, the one smaller at the first difference is smaller. */
  lemma {:induction false} FirstDifferenceDecides(a: string, b: string, i: nat)
    requires AllDigits(a) && AllDigits(b) && |a| == |b| && i < |a|
    requires a[..i] == b[..i] && a[i] < b[i]
    ensures Value(a) < Value(b)
    decreases i
  {
    ValueCons(a);
    ValueCons(b);
    if i == 0 {
      ValueBound(a[1..]);
      LeadingDigit(DigitValue(a[0]), DigitValue(b[0]), Pow10(|a| - 1));
    } else {
      assert a[0] == a[..i][0] == b[0];
      assert a[1..][..i - 1] == a[..i][1..] && b[1..][..i - 1] == b[..i][1..];
      FirstDifferenceDecides(a[1..], b[1..], i - 1);
    }
  }

  lemma {:induction false} FirstDifference(a: string, b: string) returns (i: nat)
    requires |a| == |b| && a != b
    ensures i < |a| && a[..i] == b[..i] && a[i] != b[i]
    decreases |a|
  {
    if a[0] != b[0] {
      i := 0;
    } else {
      assert a == [a[0]] + a[1..] && b == [b[0]] + b[1..];
      i := FirstDifference(a[1..], b[1..]);
      assert a[..i + 1] == [a[0]] + a[1..][..i] && b[..i + 1] == [b[0]] + b[1..][..i];
      i := i + 1;
    }
  }

  lemma BranchMatches(prefix: string, last: char, n: nat, s: string)
    requires AllDigits(prefix) && last <= '9'
    ensures MatchesClasses(Branch(prefix, last, n), s) <==>
            |s| == |prefix| + 1 + n && AllDigits(s) && s[..|prefix|] == prefix && s[|prefix|] <= last
  {
    var classes := Branch(prefix, last, n);
    if |s| == |classes| {
      assert forall i :: 0 <= i < |prefix| ==> classes[i] == Class(prefix[i], prefix[i]);
      assert classes[|prefix|] == Class('0', last);
      assert forall i :: |prefix| < i < |s| ==> classes[i] == Class('0', '9');
      if MatchesClasses(classes, s) {
        assert forall i :: 0 <= i < |prefix| ==> s[i] == prefix[i];
        assert s[..|prefix|] == prefix;
      }
      if AllDigits(s) && s[..|prefix|] == prefix && s[|prefix|] <= last {
        forall i | 0 <= i < |s| ensures classes[i].lo <= s[i] <= classes[i].hi {
          if i < |prefix| {
            assert s[i] == s[..|prefix|][i];
          }
        }
      }
    }
  }

  /** Each long alternative follows the maximum up to one digit; the digit there may only be smaller. */
  lemma LongTable(k: nat)
    requires k < |LONG|
    ensures var (prefix, last, n) := LONG[k];
            && |prefix| + 1 + n == MAX_LENGTH == |MAX_TEXT| && |prefix| >= 1
            && prefix == MAX_TEXT[..|prefix|] && AllDigits(prefix) && last <= '9'
            && last as int + (if k == 16 then 0 else 1) == MAX_TEXT[|prefix|] as int
            && (k == 16 ==> |prefix| == 19)
  {
    if k < 6 {
      assert k == 0 || k == 1 || k == 2 || k == 3 || k == 4 || k == 5;
    } else if k < 12 {
      assert k == 6 || k == 7 || k == 8 || k == 9 || k == 10 || k == 11;
    } else {
      assert k == 12 || k == 13 || k == 14 || k == 15 || k == 16;
    }
  }

  /** The alternative for a first difference at digit i; digits 8 and 12 of the maximum are zero. */
  function AlternativeFor(i: nat): nat
    requires 1 <= i < MAX_LENGTH
  {
    if i <= 7 then i - 1 else if i <= 11 then i - 2 else i - 3
  }

  lemma AlternativeForIsRight(i: nat)
    requires 1 <= i < MAX_LENGTH && i != 8 && i != 12
    ensures AlternativeFor(i) < |LONG| && |LONG[AlternativeFor(i)].0| == i
  {
    if i <= 7 {
      assert i == 1 || i == 2 || i == 3 || i == 4 || i == 5 || i == 6 || i == 7;
    } else if i <= 11 {
      assert i == 9 || i == 10 || i == 11;
    } else {
      assert i == 13 || i == 14 || i == 15 || i == 16 || i == 17 || i == 18 || i == 19;
    }
  }

  lemma TimesTen(v: nat, p: nat)
    ensures v * (10 * p) == v * p * 10
  {
  }

  lemma {:induction false} ValueConcat(s: string, t: string)
    requires AllDigits(s) && AllDigits(t)
    ensures AllDigits(s + t) && Value(s + t) == Value(s) * Pow10(|t|) + Value(t)
    decreases |t|
  {
    if t == [] {
      assert s + t == s;
    } else {
      var init := t[..|t| - 1];
      ValueConcat(s, init);
      assert (s + t)[..|s + t| - 1] == s + init;
      calc {
        Value(s + t);
        Value(s + init) * 10 + DigitValue(t[|t| - 1]);
        (Value(s) * Pow10(|init|) + Value(init)) * 10 + DigitValue(t[|t| - 1]);
        { TimesTen(Value(s), Pow10(|init|)); }
        Value(s) * Pow10(|t|) + Value(t);
      }
    }
  }

  lemma FiveDigits(t: string)
    requires |t| == 5 && AllDigits(t)
    ensures Pow10(5) == 100_000
    ensures Value(t) == DigitValue(t[0]) * 10_000 + DigitValue(t[1]) * 1_000 + DigitValue(t[2]) * 100 + DigitValue(t[3]) * 10 + DigitValue(t[4])
  {
    assert t[..4][..3] == t[..3] && t[..3][..2] == t[..2] && t[..2][..1] == t[..1] && t[..1][..0] == [];
    assert Value(t[..1]) == DigitValue(t[0]);
    assert Value(t[..2]) == DigitValue(t[0]) * 10 + DigitValue(t[1]);
    assert Value(t[..3]) == DigitValue(t[0]) * 100 + DigitValue(t[1]) * 10 + DigitValue(t[2]);
  }

  lemma TenDigits(a: string, b: string)
    requires |a| == |b| == 5 && AllDigits(a) && AllDigits(b)
    ensures AllDigits(a + b) && Value(a + b) == Value(a) * 100_000 + Value(b) && Pow10(10) == 10_000_000_000
  {
    FiveDigits(a);
    ValueConcat(a, b);
  }

  lemma LeftHalf(a: string, b: string)
    requires a == "18446" && b == "74407"
    ensures AllDigits(a + b) && Value(a + b) == 1_844_674_407
  {
    FiveDigits(a);
    FiveDigits(b);
    TenDigits(a, b);
  }

  lemma RightHalf(a: string, b: string)
    requires a == "37095" && b == "51615"
    ensures AllDigits(a + b) && Value(a + b) == 3_709_551_615
  {
    FiveDigits(a);
    FiveDigits(b);
    TenDigits(a, b);
  }

  /** The text of the maximum; returned so that it is reasoned about as any other string. */
  lemma MaxText() returns (m: string)
    ensures m == MAX_TEXT && AllDigits(m) && Value(m) == U64_MAX && m[0] == '1' && m[8] == '0' == m[12]
  {
    var a, b, c, d := "18446", "74407", "37095", "51615";
    LeftHalf(a, b);
    RightHalf(c, d);
    TenDigits(c, d);
    m := a + b + (c + d);
    ValueConcat(a + b, c + d);
    assert m == MAX_TEXT;
  }

  lemma LongMatchIsBounded(k: nat, s: string)
    requires k < |LONG| && MatchesClasses(Branch(LONG[k].0, LONG[k].1, LONG[k].2), s)
    ensures Canonical(s) && Value(s) <= U64_MAX
  {
    var (prefix, last, n) := LONG[k];
    LongTable(k);
    var m := MaxText();
    BranchMatches(prefix, last, n, s);
    assert s[0] == s[..|prefix|][0] == m[0];
    if s[|prefix|] < m[|prefix|] {
      FirstDifferenceDecides(s, m, |prefix|);
    } else {
      assert s == s[..19] + [s[19]] && m == m[..19] + [m[19]];
    }
  }

  lemma BoundedMatchesLong(s: string) returns (k: nat)
    requires Canonical(s) && |s| == MAX_LENGTH && Value(s) <= U64_MAX
    ensures k < |LONG| && MatchesClasses(Branch(LONG[k].0, LONG[k].1, LONG[k].2), s)
  {
    var m := MaxText();
    var i := 19;
    if s != m {
      i := FirstDifference(s, m);
      if s[i] > m[i] {
        FirstDifferenceDecides(m, s, i);
      }
    }
    AlternativeForIsRight(i);
    k := AlternativeFor(i);
    LongTable(k);
    BranchMatches(LONG[k].0, LONG[k].1, LONG[k].2, s);
  }

  lemma ShortMatches(s: string)
    ensures MatchesShort(s) <==> AllDigits(s) && 1 <= |s| <= 19 && s[0] != '0'
  {
    if AllDigits(s) && 1 <= |s| <= 19 && s[0] != '0' {
      assert MatchesClasses([Class('1', '9')] + AnyDigits(|s| - 1), s);
    }
  }

  lemma ShortIsBounded(s: string)
    requires AllDigits(s) && |s| <= 19
    ensures Value(s) <= U64_MAX
  {
    ValueBound(s);
    Pow10Grows(|s|, 19);
    assert Pow10(5) == 100_000 && Pow10(10) == 10_000_000_000 && Pow10(15) == 1_000_000_000_000_000;
    assert Pow10(19) <= U64_MAX;
  }

  lemma LongIsUnbounded(s: string)
    requires Canonical(s) && |s| > MAX_LENGTH
    ensures Value(s) > U64_MAX
  {
    ValueBound(s);
    Pow10Grows(20, |s| - 1);
    assert Pow10(5) == 100_000 && Pow10(10) == 10_000_000_000 && Pow10(15) == 1_000_000_000_000_000;
    assert Pow10(20) > U64_MAX;
  }

  /** The published pattern accepts exactly the strings the parser accepts. */
  lemma PatternIsFromStr(s: string)
    ensures MatchesPattern(s) <==> FromStr(s).Some?
    ensures MatchesPattern(s) ==> |s| <= MAX_LENGTH
  {
    ShortMatches(s);
    if Canonical(s) {
      ParseComputesValue(s, 0);
      if |s| <= 19 {
        ShortIsBounded(s);
        assert s[0] == '0' ==> s == "0";
      } else if |s| > MAX_LENGTH {
        LongIsUnbounded(s);
      } else if Value(s) <= U64_MAX {
        var k := BoundedMatchesLong(s);
      }
    }
    forall k | 0 <= k < |LONG| && MatchesClasses(Branch(LONG[k].0, LONG[k].1, LONG[k].2), s)
      ensures FromStr(s).Some?
    {
      LongMatchIsBounded(k, s);
      ParseComputesValue(s, 0);
    }
  }
}
