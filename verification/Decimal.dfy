/** Counters as decimal bytes: fmt.Appendf(nil, "%d", v) and fmt.Sscanf(s, "%d", &v) on int64. */
module Decimals {
  import opened Wrappers

  type byte = x: int | 0 <= x < 256

  const MIN_INT64: int := -0x8000_0000_0000_0000
  const MAX_INT64: int := 0x7FFF_FFFF_FFFF_FFFF

  predicate IsInt64(v: int) { MIN_INT64 <= v <= MAX_INT64 }

  /** The int64 that v wraps around to. */
  function Wrap(v: int): (r: int)
    ensures IsInt64(r)
    ensures IsInt64(v) ==> r == v
  {
    (v - MIN_INT64) % 0x1_0000_0000_0000_0000 + MIN_INT64
  }

  /** Wrapping early or late makes no difference. */
  lemma WrapAdd(v: int, delta: int)
    ensures Wrap(Wrap(v) + delta) == Wrap(v + delta)
  {
  }

  predicate IsDigit(b: byte) { 48 <= b <= 57 }

  function Digits(n: nat): (s: seq<byte>)
    ensures s != [] && forall b <- s :: IsDigit(b)
  {
    if n < 10 then [48 + n] else Digits(n / 10) + [48 + n % 10]
  }

  function Print(v: int): seq<byte> {
    if v < 0 then [45] + Digits(-v) else Digits(v)
  }

  /** Blanks that Sscanf skips; a newline is not one of them. */
  predicate IsBlank(b: byte) { b == 32 || b == 9 || 11 <= b <= 13 }

  function SkipBlanks(s: seq<byte>): seq<byte> {
    if s != [] && IsBlank(s[0]) then SkipBlanks(s[1..]) else s
  }

  /** The digits s starts with; whatever follows them is ignored. */
  function LeadingDigits(s: seq<byte>): (d: seq<byte>)
    ensures forall b <- d :: IsDigit(b)
  {
    if s != [] && IsDigit(s[0]) then [s[0]] + LeadingDigits(s[1..]) else []
  }

  function Value(digits: seq<byte>): nat
    requires forall b <- digits :: IsDigit(b)
  {
    if digits == [] then 0
    else
      var last := digits[|digits| - 1];
      assert IsDigit(last);
      Value(digits[..|digits| - 1]) * 10 + (last - 48) as nat
  }

  function Parse(s: seq<byte>): (r: Option<int>)
    ensures r.Some? ==> IsInt64(r.value)
  {
    var t := SkipBlanks(s);
    var signed := t != [] && (t[0] == 43 || t[0] == 45);
    var digits := LeadingDigits(if signed then t[1..] else t);
    if digits == [] then None
    else
      var v: int := if signed && t[0] == 45 then -(Value(digits) as int) else Value(digits);
      if IsInt64(v) then Some(v) else None
  }

  lemma {:induction false} ValueOfDigits(n: nat)
    ensures Value(Digits(n)) == n
  {
    if n < 10 {
      assert Digits(n)[..0] == [];
    } else {
      ValueOfDigits(n / 10);
      assert Digits(n)[..|Digits(n)| - 1] == Digits(n / 10);
    }
  }

  lemma {:induction false} AllDigitsLead(s: seq<byte>)
    requires forall b <- s :: IsDigit(b)
    ensures LeadingDigits(s) == s
  {
    if s != [] {
      AllDigitsLead(s[1..]);
    }
  }

  /** Printing and parsing is the identity on every int64, negative ones included. */
  lemma RoundTrip(v: int)
    requires IsInt64(v)
    ensures Parse(Print(v)) == Some(v)
  {
    hide Digits, Value, LeadingDigits;
    var n: nat := if v < 0 then -v else v;
    ValueOfDigits(n);
    AllDigitsLead(Digits(n));
    assert Digits(n)[0] in Digits(n);
    if v < 0 {
      assert Print(v)[1..] == Digits(n);
    }
  }

  /** Wrapping changes a number by a multiple of 2^64 only, so one above the largest comes the smallest. */
  lemma WrapCongruent(v: int)
    ensures (Wrap(v) - v) % 0x1_0000_0000_0000_0000 == 0
    ensures Wrap(MAX_INT64 + 1) == MIN_INT64 && Wrap(MIN_INT64 - 1) == MAX_INT64
  {
  }

  lemma PrintsDecimals()
    ensures Print(0) == [48] && Print(-120) == [45, 49, 50, 48]
  {
    assert Digits(120) == Digits(12) + [48] && Digits(12) == Digits(1) + [50];
  }

  lemma {:induction false} BlanksAreSkipped(blanks: seq<byte>, s: seq<byte>)
    requires (forall b <- blanks :: IsBlank(b)) && (s == [] || !IsBlank(s[0]))
    ensures SkipBlanks(blanks + s) == s
  {
    if blanks == [] {
      assert blanks + s == s;
    } else {
      BlanksAreSkipped(blanks[1..], s);
      assert blanks[0] in blanks && (blanks + s)[1..] == blanks[1..] + s;
    }
  }

  lemma {:induction false} DigitsUpTo(digits: seq<byte>, rest: seq<byte>)
    requires (forall b <- digits :: IsDigit(b)) && (rest == [] || !IsDigit(rest[0]))
    ensures LeadingDigits(digits + rest) == digits
  {
    if digits == [] {
      assert digits + rest == rest;
    } else {
      DigitsUpTo(digits[1..], rest);
      assert digits[0] in digits && (digits + rest)[1..] == digits[1..] + rest;
    }
  }

  predicate IsSign(s: seq<byte>) { s == [] || s == [43] || s == [45] }

  /** A stored text is read as blanks, a sign, and digits up to the first other byte; what follows is ignored, and
      a number that is no int64 is refused. */
  lemma ParseReads(blanks: seq<byte>, sign: seq<byte>, digits: seq<byte>, rest: seq<byte>)
    requires (forall b <- blanks :: b in {9, 11, 12, 13, 32}) && IsSign(sign)
    requires digits != [] && (forall b <- digits :: 48 <= b <= 57) && (rest == [] || rest[0] < 48 || rest[0] > 57)
    ensures var v: int := if sign == [45] then -(Value(digits) as int) else Value(digits);
            Parse(blanks + (sign + (digits + rest))) == if IsInt64(v) then Some(v) else None
  {
    hide Value, LeadingDigits, SkipBlanks;
    var t := sign + (digits + rest);
    assert digits[0] in digits && t[0] == if sign == [] then digits[0] else sign[0];
    BlanksAreSkipped(blanks, t);
    DigitsUpTo(digits, rest);
    assert sign == [] ==> t == digits + rest;
    assert sign != [] ==> t[1..] == digits + rest;
  }

  /** Without a digit behind blanks and sign nothing is read. */
  lemma ParseRefuses(blanks: seq<byte>, sign: seq<byte>, rest: seq<byte>)
    requires (forall b <- blanks :: b in {9, 11, 12, 13, 32}) && IsSign(sign)
    requires rest != [] ==> rest[0] < 48 || rest[0] > 57
    requires rest != [] && sign == [] ==> rest[0] !in {9, 11, 12, 13, 32, 43, 45}
    ensures Parse(blanks + (sign + rest)) == None
  {
    hide Value, LeadingDigits, SkipBlanks;
    var t := sign + rest;
    assert t != [] ==> t[0] == if sign == [] then rest[0] else sign[0];
    BlanksAreSkipped(blanks, t);
    DigitsUpTo([], rest);
    assert [] + rest == rest;
    assert sign == [] ==> t == rest;
    assert sign != [] ==> t[1..] == rest;
  }
}
