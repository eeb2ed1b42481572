/** Decimal integers as `strconv` prints and parses them, with Go's 64-bit limits. */
module Decimal {
  import opened Bytes

  const TWO_TO_63: int := 0x8000_0000_0000_0000
  const TWO_TO_64: int := 0x1_0000_0000_0000_0000

  predicate Int64(n: int) {
    -TWO_TO_63 <= n < TWO_TO_63
  }

  /** The `int64` that a computation with the exact result `n` wraps to. */
  function Wrap64(n: int): (r: int)
    ensures Int64(r)
    ensures Int64(n) ==> r == n
  {
    (n + TWO_TO_63) % TWO_TO_64 - TWO_TO_63
  }

  predicate IsDigit(c: char) {
    '0' <= c <= '9'
  }

  predicate AllDigits(s: string) {
    forall i | 0 <= i < |s| :: IsDigit(s[i])
  }

  function DigitOf(d: nat): char
    requires d < 10
  {
    (48 + d) as char
  }

  function Digits(n: nat): string {
    if n < 10 then [DigitOf(n)] else Digits(n / 10) + [DigitOf(n % 10)]
  }

  /** The number that a non-empty string of digits denotes. */
  function ParseNat(s: string): (r: Option<nat>) {
    if s == [] || !IsDigit(s[|s| - 1]) then None
    else
      var d: nat := s[|s| - 1] as int - 48;
      if |s| == 1 then Some(d)
      else
        match ParseNat(s[..|s| - 1])
        case None => None
        case Some(n) => Some(10 * n + d)
  }

  /** Each digit counts ten times what the next one counts. */
  lemma Positional(s: string, c: char)
    requires s != [] && AllDigits(s) && IsDigit(c)
    ensures ParseNat([c]) == Some(c as int - '0' as int)
    ensures ParseNat(s).Some? && ParseNat(s + [c]) == Some(10 * ParseNat(s).value + c as int - '0' as int)
  {
    ParseNatDigits(s);
    assert (s + [c])[..|s|] == s;
  }

  /** A sign is optional, and the limits are those of `int64`. */
  lemma SignsAndLimits(s: string)
    requires s != [] && AllDigits(s)
    ensures ParseNat(s).Some?
    ensures var n: int := ParseNat(s).value;
            && ParseInt(s) == ParseInt("+" + s) == (if n <= 0x7FFF_FFFF_FFFF_FFFF then Some(n) else None)
            && ParseInt("-" + s) == (if n <= 0x8000_0000_0000_0000 then Some(0 - n) else None)
  {
    ParseNatDigits(s);
    assert IsDigit(s[0]);
    assert ("+" + s)[1..] == s && ("-" + s)[1..] == s;
  }

  /** Nothing else is a number. */
  lemma OnlyNumbers(s: string)
    requires ParseInt(s).Some?
    ensures s != [] && var digits := if s[0] == '-' || s[0] == '+' then s[1..] else s; digits != [] && AllDigits(digits)
  {
    ParseNatDigits(if s[0] == '-' || s[0] == '+' then s[1..] else s);
  }

  lemma {:induction false} ParseOfDigits(n: nat)
    ensures ParseNat(Digits(n)) == Some(n)
  {
    if n >= 10 {
      ParseOfDigits(n / 10);
      var s := Digits(n);
      assert s[..|s| - 1] == Digits(n / 10);
    }
  }

  lemma {:induction false} ParseNatDigits(s: string)
    ensures ParseNat(s).Some? <==> s != [] && AllDigits(s)
  {
    if |s| > 1 {
      ParseNatDigits(s[..|s| - 1]);
      assert forall i | 0 <= i < |s| - 1 :: s[i] == s[..|s| - 1][i];
    }
  }

  lemma DigitsAreDigits(n: nat)
    ensures Digits(n) != [] && AllDigits(Digits(n))
  {
    ParseOfDigits(n);
    ParseNatDigits(Digits(n));
  }

  lemma DigitsInjective(m: nat, n: nat)
    requires Digits(m) == Digits(n)
    ensures m == n
  {
    ParseOfDigits(m);
    ParseOfDigits(n);
  }

  /** `strconv.FormatInt(n, 10)`. */
  function FormatInt(n: int): string {
    if n < 0 then "-" + Digits(-n) else Digits(n)
  }

  /** `strconv.ParseInt(s, 10, 64)`, and `strconv.Atoi(s)`: an optional sign, digits, and a
      value that fits. */
  function ParseInt(s: string): (r: Option<int>)
    ensures r.Some? ==> Int64(r.value)
  {
    if s == [] then None
    else if s[0] == '-' then Signed(true, ParseNat(s[1..]))
    else if s[0] == '+' then Signed(false, ParseNat(s[1..]))
    else Signed(false, ParseNat(s))
  }

  function Signed(negative: bool, magnitude: Option<nat>): (r: Option<int>)
    ensures r.Some? ==> Int64(r.value)
  {
    match magnitude
    case None => None
    case Some(m) =>
      var n: int := if negative then 0 - m else m;
      if Int64(n) then Some(n) else None
  }

  /** Printing and parsing are inverse on all of `int64`. */
  lemma ParseOfFormat(n: int)
    requires Int64(n)
    ensures ParseInt(FormatInt(n)) == Some(n)
  {
    var m: nat := if n < 0 then -n else n;
    ParseOfDigits(m);
    DigitsAreDigits(m);
    if n < 0 {
      assert FormatInt(n)[1..] == Digits(m);
    } else {
      assert IsDigit(Digits(m)[0]);
    }
  }
}
