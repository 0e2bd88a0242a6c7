/** Reading integers: `str::parse::<i64>` and the `atoi` lookalike `parse_i64` of src/cli.rs. */
module Numbers {
  import opened Wrappers
  import opened Text

  const I64_MAX: int := 0x7FFF_FFFF_FFFF_FFFF

  predicate FitsI64(n: int) {
    -I64_MAX - 1 <= n <= I64_MAX
  }

  predicate IsDigit(c: char) {
    '0' <= c <= '9'
  }

  predicate AllDigits(s: string) {
    forall k :: 0 <= k < |s| ==> IsDigit(s[k])
  }

  /** The value of a digit string. */
  function Value(s: string): nat
    requires AllDigits(s)
  {
    if s == "" then 0 else 10 * Value(s[..|s| - 1]) + (s[|s| - 1] as int - '0' as int)
  }

  /** `parse::<i64>()`: an optional sign and at least one digit, within range. */
  function ParseI64(s: string): Option<int> {
    if s == "" then None
    else
      var signed := s[0] == '+' || s[0] == '-';
      var digits := if signed then s[1..] else s;
      if digits == "" || !AllDigits(digits) then None
      else
        var n: int := if s[0] == '-' then -(Value(digits) as int) else Value(digits);
        if FitsI64(n) then Some(n) else None
  }

  // ---------------------------------------------------------------------------------------------
  // The longest numeric prefix
  // ---------------------------------------------------------------------------------------------

  /** `trim_start` */
  function TrimStart(s: string): string {
    if s != "" && IsWhitespace(s[0]) then TrimStart(s[1..]) else s
  }

  /** Length of the sign, if any. */
  function SignLength(s: string): (n: nat)
    ensures n <= 1 && n <= |s|
  {
    if s != "" && (s[0] == '+' || s[0] == '-') then 1 else 0
  }

  /** Length of the digits a string starts with. */
  function DigitRun(s: string): (n: nat)
    ensures n <= |s|
  {
    if s != "" && IsDigit(s[0]) then 1 + DigitRun(s[1..]) else 0
  }

  /** The value of the longest numeric prefix behind white space; 0 without digits, and 0, unlike `strtol`, when it
      does not fit. */
  function Atoi(s: string): int {
    var t := TrimStart(s);
    var n := SignLength(t);
    var m := DigitRun(t[n..]);
    if m == 0 then 0
    else match ParseI64(t[..n + m]) case Some(v) => v case None => 0
  }

  /** `parse_i64` as code. */
  method ParsePrefix(s: string) returns (r: int)
    ensures r == Atoi(s)
  {
    var t := TrimStart(s);
    var i := 0;
    if i < |t| && (t[i] == '+' || t[i] == '-') {
      i := i + 1;
    }
    var digits := i;
    while i < |t| && IsDigit(t[i])
      invariant digits <= i <= |t| && i - digits + DigitRun(t[i..]) == DigitRun(t[digits..])
    {
      assert t[i..][1..] == t[i + 1..];
      i := i + 1;
    }
    assert DigitRun(t[i..]) == 0;
    if digits == i {
      return 0;
    }
    var parsed := ParseI64(t[..i]);
    r := if parsed.Some? then parsed.value else 0;
  }

  lemma {:induction false} BlanksAreTrimmed(blanks: string, s: string)
    requires IsBlank(blanks) && (s == "" || !IsWhitespace(s[0]))
    ensures TrimStart(blanks + s) == s
  {
    if blanks == "" {
      assert blanks + s == s;
    } else {
      assert (blanks + s)[1..] == blanks[1..] + s;
      BlanksAreTrimmed(blanks[1..], s);
    }
  }

  lemma {:induction false} DigitsRun(digits: string, rest: string)
    requires AllDigits(digits) && (rest == "" || !IsDigit(rest[0]))
    ensures DigitRun(digits + rest) == |digits|
  {
    if digits == "" {
      assert digits + rest == rest;
    } else {
      assert (digits + rest)[1..] == digits[1..] + rest;
      DigitsRun(digits[1..], rest);
    }
  }

  /** The number a sign and digits stand for. */
  function SignedValue(sign: string, digits: string): int
    requires AllDigits(digits)
  {
    if sign == "-" then -(Value(digits) as int) else Value(digits)
  }

  lemma {:induction false} ParsesSigned(sign: string, digits: string)
    requires sign in {"", "+", "-"} && digits != "" && AllDigits(digits)
    ensures ParseI64(sign + digits) == if FitsI64(SignedValue(sign, digits)) then Some(SignedValue(sign, digits)) else None
  {
    if sign == "" {
      assert sign + digits == digits;
    } else {
      assert (sign + digits)[0] == sign[0] && (sign + digits)[1..] == digits;
    }
  }

  lemma {:induction false} PrefixIs(sign: string, digits: string, rest: string)
    requires sign in {"", "+", "-"} && digits != "" && AllDigits(digits) && (rest == "" || !IsDigit(rest[0]))
    ensures var t := sign + digits + rest;
      !IsWhitespace(t[0]) && SignLength(t) == |sign| && DigitRun(t[|sign|..]) == |digits| && t[..|sign| + |digits|] == sign + digits
  {
    var t := sign + digits + rest;
    assert t[0] == if sign == "" then digits[0] else sign[0];
    assert t[|sign|..] == digits + rest;
    DigitsRun(digits, rest);
  }

  /** White space, an optional sign and digits, followed by anything but a digit, read as the signed number if it
      fits into 64 bits, and as 0 otherwise. */
  lemma {:induction false} AtoiReads(blanks: string, sign: string, digits: string, rest: string)
    requires IsBlank(blanks) && sign in {"", "+", "-"} && digits != "" && AllDigits(digits) && (rest == "" || !IsDigit(rest[0]))
    ensures var v := SignedValue(sign, digits);
      Atoi(blanks + (sign + digits + rest)) == if FitsI64(v) then v else 0
  {
    PrefixIs(sign, digits, rest);
    BlanksAreTrimmed(blanks, sign + digits + rest);
    ParsesSigned(sign, digits);
  }

  /** Decimal notation. */
  function Decimal(n: nat): (s: string)
    ensures s != "" && AllDigits(s)
  {
    (if n < 10 then "" else Decimal(n / 10)) + [('0' as int + n % 10) as char]
  }

  function Signed(n: int): string {
    if n < 0 then "-" + Decimal(-n) else Decimal(n)
  }

  lemma {:induction false} ValueOfDecimal(n: nat)
    ensures Value(Decimal(n)) == n
  {
    var s := Decimal(n);
    if n >= 10 {
      ValueOfDecimal(n / 10);
      assert s[..|s| - 1] == Decimal(n / 10);
    } else {
      assert s[..|s| - 1] == "";
    }
  }

  lemma {:induction false} AtoiUndoes(sign: string, digits: string, rest: string)
    requires sign in {"", "+", "-"} && digits != "" && AllDigits(digits) && (rest == "" || !IsDigit(rest[0]))
    ensures Atoi((sign + digits) + rest) == if FitsI64(SignedValue(sign, digits)) then SignedValue(sign, digits) else 0
  {
    AtoiReads("", sign, digits, rest);
    assert "" + (sign + digits + rest) == sign + digits + rest;
  }

  lemma {:induction false} SignedValueOfDecimal(n: int)
    ensures Signed(n) == (if n < 0 then "-" else "") + Decimal(if n < 0 then -n else n)
    ensures SignedValue(if n < 0 then "-" else "", Decimal(if n < 0 then -n else n)) == n
  {
    var digits := Decimal(if n < 0 then -n else n);
    ValueOfDecimal(if n < 0 then -n else n);
    assert "" + digits == digits;
  }

  /** Every number of 64 bits is read back from its decimal notation, whatever other text follows, and with a plus sign
      too; one that does not fit reads as 0. */
  lemma {:induction false} AtoiUndoesDecimal(n: int, rest: string)
    requires rest == "" || !IsDigit(rest[0])
    ensures Atoi(Signed(n) + rest) == if -9223372036854775808 <= n <= 9223372036854775807 then n else 0
    ensures 0 <= n <= 9223372036854775807 ==> Atoi(("+" + Decimal(n)) + rest) == n
  {
    SignedValueOfDecimal(n);
    AtoiUndoes(if n < 0 then "-" else "", Decimal(if n < 0 then -n else n), rest);
    if n >= 0 {
      ValueOfDecimal(n);
      AtoiUndoes("+", Decimal(n), rest);
    }
  }
}
