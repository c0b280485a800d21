/** Decimal text: the digit runs the two URL patterns capture, `strconv.Atoi`
    and the `%d` verb of `fmt.Sprintf`. Integers are unbounded here, so the
    64-bit range check of `strconv.Atoi` is not part of the model. */
module Decimal {
  import opened Types

  predicate IsDigit(c: char) {
    '0' <= c <= '9'
  }

  predicate AllDigits(s: string) {
    forall i :: 0 <= i < |s| ==> IsDigit(s[i])
  }

  /** The value of a run of decimal digits, most significant first. */
  function DigitsValue(s: string): nat
    requires AllDigits(s)
  {
    if s == [] then 0
    else 10 * DigitsValue(s[..|s| - 1]) + (s[|s| - 1] as int - '0' as int)
  }

  function DigitChar(d: nat): (c: char)
    requires d < 10
    ensures IsDigit(c) && c as int - '0' as int == d
  {
    ('0' as int + d) as char
  }

  /** The decimal text of a natural number, as `%d` prints it: no sign and
      no leading zero. */
  function NatDigits(n: nat): (s: string)
    ensures 1 <= |s| && AllDigits(s)
    ensures DigitsValue(s) == n
    ensures s[0] == '0' ==> n == 0
  {
    if n < 10 then [DigitChar(n)]
    else
      var init := NatDigits(n / 10);
      assert (init + [DigitChar(n % 10)])[..|init|] == init;
      init + [DigitChar(n % 10)]
  }

  /** `fmt.Sprintf("%d", n)`: a '-' for a negative number, then the digits
      of its magnitude. */
  function FormatInt(n: int): (s: string)
    ensures 1 <= |s| && (s[0] == '-' <==> n < 0)
    ensures var d := if n < 0 then s[1..] else s;
      d != [] && AllDigits(d) && DigitsValue(d) == if n < 0 then -n else n
  {
    if n < 0 then "-" + NatDigits(-n) else NatDigits(n)
  }

  /** `strconv.Atoi`: an optional '+' or '-' followed by at least one
      decimal digit, and nothing else. */
  function Atoi(s: string): (r: Option<int>)
    ensures r.Some? <==> || (s != [] && AllDigits(s))
                         || (|s| >= 2 && (s[0] == '+' || s[0] == '-') && AllDigits(s[1..]))
    ensures r.Some? && r.value < 0 ==> s[0] == '-'
  {
    if |s| > 0 && (s[0] == '+' || s[0] == '-') then
      var digits := s[1..];
      if digits != [] && AllDigits(digits) then
        var v: int := DigitsValue(digits);
        Some(if s[0] == '-' then -v else v)
      else None
    else if s != [] && AllDigits(s) then Some(DigitsValue(s))
    else None
  }

  /** `strconv.Atoi` reads back what `%d` prints. */
  lemma AtoiFormatInt(n: int)
    ensures Atoi(FormatInt(n)) == Some(n)
  {
    if n < 0 {
      assert FormatInt(n)[1..] == NatDigits(-n);
    }
  }

  /** A run of digits is accepted by `strconv.Atoi` with its digit value. */
  lemma AtoiDigits(s: string)
    requires s != [] && AllDigits(s)
    ensures Atoi(s) == Some(DigitsValue(s))
  {
  }

  /** A sign in front of a digit run gives its value, negated for '-'. */
  lemma AtoiSigned(d: string)
    requires d != [] && AllDigits(d)
    ensures Atoi("+" + d) == Some(DigitsValue(d))
    ensures Atoi("-" + d) == Some(-(DigitsValue(d) as int))
  {
    assert ("+" + d)[1..] == d;
    assert ("-" + d)[1..] == d;
  }

  /** Text that starts with neither a digit nor a sign is refused. */
  lemma AtoiRejectsLetterStart(s: string)
    requires s != [] && !IsDigit(s[0]) && s[0] != '+' && s[0] != '-'
    ensures Atoi(s) == None
  {
  }

  /** The length of the longest run of digits at the end of `s`. */
  function TrailingDigits(s: string): (k: nat)
    ensures k <= |s|
    ensures forall i :: |s| - k <= i < |s| ==> IsDigit(s[i])
    ensures k < |s| ==> !IsDigit(s[|s| - k - 1])
  {
    if s == [] || !IsDigit(s[|s| - 1]) then 0
    else TrailingDigits(s[..|s| - 1]) + 1
  }

  /** A digit run that follows a non-digit (or nothing) is exactly the
      trailing digit run. */
  lemma TrailingDigitsOf(p: string, d: string)
    requires AllDigits(d)
    requires p == [] || !IsDigit(p[|p| - 1])
    ensures TrailingDigits(p + d) == |d|
  {
    var s := p + d;
    assert forall i :: |p| <= i < |s| ==> IsDigit(s[i]) by {
      forall i | |p| <= i < |s| ensures IsDigit(s[i]) { assert s[i] == d[i - |p|]; }
    }
    assert p != [] ==> !IsDigit(s[|p| - 1]);
  }

  /** The length of the longest run of digits at the start of `s`. */
  function LeadingDigits(s: string): (k: nat)
    ensures k <= |s|
    ensures forall i :: 0 <= i < k ==> IsDigit(s[i])
    ensures k < |s| ==> !IsDigit(s[k])
  {
    if s == [] || !IsDigit(s[0]) then 0
    else LeadingDigits(s[1..]) + 1
  }

  /** A digit run followed by a non-digit (or nothing) is exactly the
      leading digit run. */
  lemma LeadingDigitsOf(d: string, rest: string)
    requires AllDigits(d)
    requires rest == [] || !IsDigit(rest[0])
    ensures LeadingDigits(d + rest) == |d|
  {
    var s := d + rest;
    assert forall i :: 0 <= i < |d| ==> IsDigit(s[i]) by {
      forall i | 0 <= i < |d| ensures IsDigit(s[i]) { assert s[i] == d[i]; }
    }
    assert rest != [] ==> !IsDigit(s[|d|]);
  }
}
