/** Decimal rendering and parsing of Go `int`s: `strconv.Itoa`, `strconv.Atoi` and the
    `%d` verb used for SQL placeholders. Go's `int` is 64 bits wide here. */
module Decimal {

  const MinInt64: int := -0x8000_0000_0000_0000
  const MaxInt64: int := 0x7fff_ffff_ffff_ffff

  predicate IsInt64(i: int) { MinInt64 <= i <= MaxInt64 }

  predicate IsDigit(c: char) { '0' <= c <= '9' }

  predicate AllDigits(s: string) { forall k :: 0 <= k < |s| ==> IsDigit(s[k]) }

  function DigitChar(d: nat): (c: char)
    requires d < 10
    ensures IsDigit(c)
  {
    ('0' as int + d) as char
  }

  function DigitValue(c: char): nat
    requires IsDigit(c)
  {
    c as int - '0' as int
  }

  /** The decimal digits of `n`, most significant first, no leading zero. */
  function Digits(n: nat): (s: string)
    ensures |s| > 0 && AllDigits(s)
    ensures n >= 10 ==> s[0] != '0'
  {
    if n < 10 then [DigitChar(n)] else Digits(n / 10) + [DigitChar(n % 10)]
  }

  /** The number a run of decimal digits denotes; the empty run denotes 0. */
  function Value(s: string): nat
    requires AllDigits(s)
  {
    if s == [] then 0 else Value(s[..|s| - 1]) * 10 + DigitValue(s[|s| - 1])
  }

  lemma {:induction false} ValueOfDigits(n: nat)
    ensures Value(Digits(n)) == n
  {
    if n >= 10 {
      var s := Digits(n);
      assert s[..|s| - 1] == Digits(n / 10);
      ValueOfDigits(n / 10);
    }
  }

  /** strconv.Itoa: an optional minus sign followed by the digits of the magnitude. */
  function Itoa(i: int): (s: string)
    ensures |s| > 0
  {
    if i < 0 then "-" + Digits(-i) else Digits(i)
  }

  const MaxUint64: int := 0xffff_ffff_ffff_ffff

  function Pow10(n: nat): (p: nat)
    ensures p >= 1
  {
    if n == 0 then 1 else 10 * Pow10(n - 1)
  }

  /** The text after an optional leading sign, which strconv.Atoi requires to be all digits. */
  function Unsigned(s: string): string
  {
    if |s| > 0 && (s[0] == '-' || s[0] == '+') then s[1..] else s
  }

  predicate Negative(s: string) { |s| > 0 && s[0] == '-' }

  /** strconv.Atoi accepts the syntax: an optional sign, then at least one digit and nothing else. */
  predicate AtoiSyntax(s: string)
  {
    |Unsigned(s)| > 0 && AllDigits(Unsigned(s))
  }

  function SignedValue(s: string): int
    requires AtoiSyntax(s)
  {
    if Negative(s) then -(Value(Unsigned(s)) as int) else Value(Unsigned(s))
  }

  function Clamp64(i: int): (r: int)
    ensures IsInt64(r)
    ensures IsInt64(i) ==> r == i
  {
    if i < MinInt64 then MinInt64 else if i > MaxInt64 then MaxInt64 else i
  }

  /** The error half of strconv.Atoi: nil exactly for well-formed text whose value fits 64 bits. */
  predicate AtoiOk(s: string)
  {
    AtoiSyntax(s) && IsInt64(SignedValue(s))
  }

  /** The longest run of digits `s` starts with. */
  function LeadingDigits(s: string): (p: string)
    ensures |p| <= |s| && p == s[..|p|] && AllDigits(p)
    ensures |p| < |s| ==> !IsDigit(s[|p|])
    ensures AllDigits(s) ==> p == s
  {
    if s == [] || !IsDigit(s[0]) then [] else [s[0]] + LeadingDigits(s[1..])
  }

  /** The digits after the sign already exceed 2^64 - 1 before the first non-digit. */
  predicate Overflows(s: string)
  {
    Value(LeadingDigits(Unsigned(s))) > MaxUint64
  }

  datatype UintResult = UintOk(n: nat) | UintSyntax | UintRange

  /** The loop of `strconv.ParseUint(s, 10, 64)` from the value `acc` read so far: a non-digit is
      a syntax error, and a digit that takes the value past 2^64 - 1 a range error at once. */
  function ScanUint(s: string, acc: nat): UintResult
  {
    if s == [] then UintOk(acc)
    else if !IsDigit(s[0]) then UintSyntax
    else if acc * 10 + DigitValue(s[0]) > MaxUint64 then UintRange
    else ScanUint(s[1..], acc * 10 + DigitValue(s[0]))
  }

  /** `strconv.ParseUint(s, 10, 64)`: the empty text is a syntax error. */
  function ParseUint(s: string): UintResult
  {
    if s == [] then UintSyntax else ScanUint(s, 0)
  }

  /** A digit in front multiplies in at its place value. */
  lemma {:induction false} ValueCons(c: char, s: string)
    requires IsDigit(c) && AllDigits(s)
    ensures AllDigits([c] + s) && Value([c] + s) == DigitValue(c) * Pow10(|s|) + Value(s)
  {
    var t := [c] + s;
    assert AllDigits(t) by {
      forall k | 0 <= k < |t| ensures IsDigit(t[k]) {
        if k > 0 { assert t[k] == s[k - 1]; }
      }
    }
    if s != [] {
      var s' := s[..|s| - 1];
      assert t[..|t| - 1] == [c] + s';
      ValueCons(c, s');
      var last := DigitValue(s[|s| - 1]);
      assert Value(t) == Value([c] + s') * 10 + last;
      assert Value(s) == Value(s') * 10 + last;
      Shift(DigitValue(c), Pow10(|s'|), Value(s'), last);
    }
  }

  lemma Shift(d: nat, p: nat, v: nat, last: nat)
    ensures (d * p + v) * 10 + last == d * (10 * p) + (v * 10 + last)
  {
  }

  lemma Regroup(acc: nat, d: nat, p: nat, v: nat)
    ensures acc * (10 * p) + (d * p + v) == (acc * 10 + d) * p + v
  {
  }

  lemma AtLeastOnce(a: nat, p: nat)
    requires p >= 1
    ensures a * p >= a
  {
  }

  /** The scan stops with a range error exactly when the leading digits overflow, and otherwise
      succeeds exactly when the text is all digits. */
  lemma {:induction false} ScanUintValue(s: string, acc: nat)
    requires acc <= MaxUint64
    ensures var p := LeadingDigits(s);
            var v := acc * Pow10(|p|) + Value(p);
            ScanUint(s, acc) == if v > MaxUint64 then UintRange else if p == s then UintOk(v) else UintSyntax
  {
    var p := LeadingDigits(s);
    if s != [] && IsDigit(s[0]) {
      var d := DigitValue(s[0]);
      var p' := LeadingDigits(s[1..]);
      assert p == [s[0]] + p';
      ValueCons(s[0], p');
      var P := Pow10(|p'|);
      assert Pow10(|p|) == 10 * P;
      Regroup(acc, d, P, Value(p'));
      var a := acc * 10 + d;
      assert acc * Pow10(|p|) + Value(p) == a * P + Value(p');
      if a <= MaxUint64 {
        ScanUintValue(s[1..], a);
        assert p == s <==> p' == s[1..];
      } else {
        AtLeastOnce(a, P);
      }
    }
  }

  /** ParseUint in terms of the digits: a range error when the leading digits overflow, then a
      syntax error unless the text is non-empty and all digits, else their value. */
  lemma ParseUintValue(s: string)
    ensures ParseUint(s) == if Value(LeadingDigits(s)) > MaxUint64 then UintRange
                            else if s != [] && AllDigits(s) then UintOk(Value(s))
                            else UintSyntax
  {
    if s != [] {
      ScanUintValue(s, 0);
    }
  }

  /** The value half of strconv.Atoi, which Go returns even alongside an error. Atoi goes
      through `strconv.ParseInt`: the sign is taken off, ParseUint reads the rest, a syntax
      error gives 0, and a range error or a value beyond 64 bits gives the bound of that sign.
      Texts shorter than 19 bytes take a fast path in Go that yields the same values. */
  function AtoiValue(s: string): (r: int)
    ensures IsInt64(r)
    ensures AtoiOk(s) ==> r == SignedValue(s)
    ensures AtoiSyntax(s) && !IsInt64(SignedValue(s)) ==> r == if Negative(s) then MinInt64 else MaxInt64
    ensures Overflows(s) ==> r == if Negative(s) then MinInt64 else MaxInt64
    ensures !AtoiSyntax(s) && !Overflows(s) ==> r == 0
  {
    ParseUintValue(Unsigned(s));
    match ParseUint(Unsigned(s))
    case UintSyntax => 0
    case UintRange => if Negative(s) then MinInt64 else MaxInt64
    case UintOk(n) => Clamp64(if Negative(s) then -(n as int) else n)
  }

  /** strconv.Atoi(strconv.Itoa(i)) == (i, nil) for every 64-bit i. */
  lemma AtoiItoa(i: int)
    requires IsInt64(i)
    ensures AtoiOk(Itoa(i)) && AtoiValue(Itoa(i)) == i
  {
    var s := Itoa(i);
    if i < 0 {
      assert Unsigned(s) == Digits(-i);
      ValueOfDigits(-i);
    } else {
      assert IsDigit(s[0]);
      assert Unsigned(s) == Digits(i);
      ValueOfDigits(i);
    }
  }

  /** Two different 64-bit ints never render alike. */
  lemma ItoaInjective(i: int, j: int)
    requires IsInt64(i) && IsInt64(j)
    requires Itoa(i) == Itoa(j)
    ensures i == j
  {
    AtoiItoa(i);
    AtoiItoa(j);
  }
}
