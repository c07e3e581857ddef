/** Decimal parsing as Go's `strconv.Atoi` does it on a 64-bit platform, and
    the decimal formatting that is its inverse. */
module Strconv {
  import opened Wrappers

  /** The range of Go's `int` on a 64-bit platform. */
  const MinInt: int := -0x8000_0000_0000_0000
  const MaxInt: int := 0x7FFF_FFFF_FFFF_FFFF

  predicate InIntRange(n: int)
  {
    MinInt <= n <= MaxInt
  }

  predicate IsDigit(c: char)
  {
    '0' <= c <= '9'
  }

  predicate AllDigits(s: string)
  {
    forall i :: 0 <= i < |s| ==> IsDigit(s[i])
  }

  function DigitValue(c: char): nat
    requires IsDigit(c)
  {
    c as int - '0' as int
  }

  function DigitChar(d: nat): (c: char)
    requires d < 10
    ensures IsDigit(c) && DigitValue(c) == d
  {
    ('0' as int + d) as char
  }

  /** The value of a string of decimal digits, most significant first, or
      `None` when some character is not a digit. The empty string reads as 0;
      `Atoi` rejects it before asking. */
  function ParseDigits(s: string): Option<nat>
  {
    if s == [] then Some(0)
    else if !IsDigit(s[|s| - 1]) then None
    else match ParseDigits(s[..|s| - 1])
      case None => None
      case Some(v) => Some(10 * v + DigitValue(s[|s| - 1]))
  }

  /** `strconv.Atoi`: an optional `+` or `-`, then one or more decimal digits
      (leading zeros allowed), whose value fits in `int`. Anything else, the
      empty string included, is an error (`None`). */
  function Atoi(s: string): (r: Option<int>)
    ensures s == [] ==> r == None
    ensures r.Some? ==> InIntRange(r.value)
  {
    if s == [] then None
    else
      var digits := if s[0] == '+' || s[0] == '-' then s[1..] else s;
      if digits == [] then None
      else match ParseDigits(digits)
        case None => None
        case Some(magnitude) =>
          var n := if s[0] == '-' then -(magnitude as int) else magnitude;
          if InIntRange(n) then Some(n) else None
  }

  /** The shortest decimal spelling of a natural number. */
  function FormatDecimal(n: nat): (s: string)
    ensures |s| > 0 && AllDigits(s)
  {
    if n < 10 then [DigitChar(n)] else FormatDecimal(n / 10) + [DigitChar(n % 10)]
  }

  /** `strconv.Itoa`: the way the deployment controller writes a revision. */
  function FormatInt(n: int): (s: string)
    ensures |s| > 0
  {
    if n < 0 then "-" + FormatDecimal(-n) else FormatDecimal(n)
  }

  /** The digit scan succeeds exactly on strings made only of digits. */
  lemma {:induction false} ParseDigitsAccepts(s: string)
    ensures ParseDigits(s).Some? <==> AllDigits(s)
  {
    if s != [] {
      var prefix := s[..|s| - 1];
      ParseDigitsAccepts(prefix);
      assert forall i :: 0 <= i < |prefix| ==> prefix[i] == s[i];
    }
  }

  /** Reading back the digits of `FormatDecimal(n)` gives `n`. */
  lemma {:induction false} DecimalRoundTrip(n: nat)
    ensures ParseDigits(FormatDecimal(n)) == Some(n)
  {
    var s := FormatDecimal(n);
    if n >= 10 {
      DecimalRoundTrip(n / 10);
      assert s[..|s| - 1] == FormatDecimal(n / 10);
    } else {
      assert s[..|s| - 1] == [];
    }
  }

  /** What `Atoi` accepts: a sign or a digit first, digits after it, and a
      digit last (a lone sign is refused). */
  lemma AtoiAcceptedForm(s: string)
    requires Atoi(s).Some?
    ensures IsDigit(s[0]) || s[0] == '+' || s[0] == '-'
    ensures IsDigit(s[|s| - 1])
    ensures forall i :: 0 < i < |s| ==> IsDigit(s[i])
  {
    var digits := if s[0] == '+' || s[0] == '-' then s[1..] else s;
    ParseDigitsAccepts(digits);
    assert IsDigit(digits[|digits| - 1]);
    if s[0] == '+' || s[0] == '-' {
      assert forall i :: 0 < i < |s| ==> s[i] == digits[i - 1];
    }
  }

  /** Acceptance: a sign (or none) followed by one or more digits of value
      `v` parses to the signed value exactly when it fits in `int`. With
      `AtoiAcceptedForm`, this describes every string `Atoi` accepts. */
  lemma AtoiSignedDigits(sign: string, digits: string, v: nat)
    requires sign == "" || sign == "+" || sign == "-"
    requires |digits| > 0 && ParseDigits(digits) == Some(v)
    ensures var n: int := if sign == "-" then -(v as int) else v;
            Atoi(sign + digits) == if InIntRange(n) then Some(n) else None
  {
    ParseDigitsAccepts(digits);
    assert IsDigit(digits[0]);
    if sign != "" {
      assert (sign + digits)[1..] == digits;
    } else {
      assert sign + digits == digits;
    }
  }

  /** Every revision the controller can write is read back unchanged. */
  lemma AtoiFormatInt(n: int)
    requires InIntRange(n)
    ensures Atoi(FormatInt(n)) == Some(n)
  {
    if n < 0 {
      DecimalRoundTrip(-n);
      AtoiSignedDigits("-", FormatDecimal(-n), -n);
    } else {
      DecimalRoundTrip(n);
      AtoiSignedDigits("", FormatDecimal(n), n);
    }
  }

  /** The edges of the `int` range: 2^63 is out of range, -2^63 is in. */
  lemma AtoiRangeBoundary()
    ensures Atoi(FormatDecimal(MaxInt + 1)) == None
    ensures Atoi("-" + FormatDecimal(MaxInt + 1)) == Some(MinInt)
    ensures Atoi(FormatDecimal(MaxInt)) == Some(MaxInt)
  {
    DecimalRoundTrip(MaxInt + 1);
    AtoiSignedDigits("", FormatDecimal(MaxInt + 1), MaxInt + 1);
    AtoiSignedDigits("-", FormatDecimal(MaxInt + 1), MaxInt + 1);
    AtoiFormatInt(MaxInt);
  }
}
