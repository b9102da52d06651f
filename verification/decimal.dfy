/**
 Decimal text of integers: Rust's `Display` for the integer types (used by
 the line-protocol writer for `i`/`u` values and timestamps) and Rust's
 `FromStr` for the integer types (used when a tag text is parsed back into
 an integer-typed record field).
 */
module Decimal {
  import opened Base

  predicate IsDigit(c: char) {
    '0' <= c <= '9'
  }

  predicate AllDigits(s: string) {
    forall k :: 0 <= k < |s| ==> IsDigit(s[k])
  }

  function DigitChar(d: nat): (c: char)
    requires d < 10
    ensures IsDigit(c) && (c as int) - ('0' as int) == d
  {
    ('0' as int + d) as char
  }

  /** Shortest decimal text of a natural number: no sign, no leading zero. */
  function NatText(n: nat): (s: string)
    ensures |s| >= 1 && AllDigits(s)
    ensures |s| > 1 ==> s[0] != '0'
  {
    if n < 10 then [DigitChar(n)] else NatText(n / 10) + [DigitChar(n % 10)]
  }

  /** `format!("{}", v)` for a signed or unsigned Rust integer. */
  function IntText(v: int): (s: string)
    ensures |s| >= 1
    ensures v < 0 <==> s[0] == '-'
    ensures forall k :: 0 < k < |s| ==> IsDigit(s[k])
  {
    if v < 0 then "-" + NatText(-v) else NatText(v)
  }

  /** Value of a run of decimal digits, most significant first. */
  function DigitsValue(s: string): nat
    requires AllDigits(s)
  {
    if s == [] then 0
    else DigitsValue(s[..|s| - 1]) * 10 + ((s[|s| - 1] as int) - ('0' as int))
  }

  lemma {:induction false} DigitsValueOfNatText(n: nat)
    ensures DigitsValue(NatText(n)) == n
  {
    if n >= 10 {
      var s := NatText(n);
      assert s[..|s| - 1] == NatText(n / 10);
      DigitsValueOfNatText(n / 10);
    }
  }

  /**
   The integer texts Rust accepts, as a grammar: one or more digits, or a
   sign followed by one or more digits, where the sign is `+`, or also `-`
   when the type is signed. Leading zeros are allowed.
   */
  predicate DecimalText(s: string, signed: bool) {
    (|s| > 0 && AllDigits(s))
    || (|s| > 1 && (s[0] == '+' || (signed && s[0] == '-')) && AllDigits(s[1..]))
  }

  /** The integer such a text denotes. */
  function DecimalValue(s: string): int
    requires DecimalText(s, true)
  {
    if AllDigits(s) then DigitsValue(s)
    else if s[0] == '-' then 0 - DigitsValue(s[1..]) as int
    else DigitsValue(s[1..])
  }

  /**
   Rust's `from_str` for an integer type with range `lo..=hi`: an optional
   `+` (or `-` when the type is signed) followed by at least one decimal
   digit; leading zeros are allowed; a value outside the range is an
   overflow error. `None` stands for every `ParseIntError`.
   */
  function ParseInt(s: string, lo: int, hi: int, signed: bool): (r: Option<int>)
    ensures r.Some? <==> DecimalText(s, signed) && lo <= DecimalValue(s) <= hi
    ensures r.Some? ==> r.value == DecimalValue(s) && lo <= r.value <= hi
  {
    if |s| == 0 then None
    else if (s[0] == '+' || s[0] == '-') && |s| == 1 then None
    else
      var negative := s[0] == '-' && signed;
      var digits := if s[0] == '+' || negative then s[1..] else s;
      if !AllDigits(digits) then None
      else
        var magnitude: int := DigitsValue(digits);
        var v := if negative then 0 - magnitude else magnitude;
        if lo <= v <= hi then Some(v) else None
  }

  /** Parsing the text a Rust integer prints gives that integer back. */
  lemma ParseIntText(v: int, lo: int, hi: int, signed: bool)
    requires lo <= v <= hi
    requires v < 0 ==> signed
    ensures ParseInt(IntText(v), lo, hi, signed) == Some(v)
  {
    if v < 0 {
      DigitsValueOfNatText(-v);
      assert IntText(v)[1..] == NatText(-v);
    } else {
      DigitsValueOfNatText(v);
    }
  }

  /** An unsigned type never accepts a minus sign, whatever follows it. */
  lemma UnsignedRejectsMinus(s: string, lo: int, hi: int)
    requires |s| > 0 && s[0] == '-'
    ensures ParseInt(s, lo, hi, false) == None
  {
  }
}
