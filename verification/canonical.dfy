/**
 Keys of a graphlib Set and their canonical string form.

 A key is either an integer or a string. Set membership is decided by the
 string a key coerces to: an integer renders in decimal (with a leading '-'
 when negative), a string is its own canonical form. So `Num(1)` and
 `Str("1")` are the same member, while `Str("01")` and `Str("-0")` are not
 the same member as any integer.

 JavaScript renders an integer of magnitude 10^21 or more in exponential
 form ("1e+21") and holds integers exactly only up to 2^53; `Num` is an
 unbounded integer always rendered in decimal, so the model agrees with
 JavaScript on integers below both limits.
 */
module Canonical {

  datatype Option<T> = None | Some(value: T)

  datatype Key = Num(n: int) | Str(s: string)

  /* The character of a decimal digit. */
  function DigitChar(d: nat): (c: char)
    requires d < 10
    ensures '0' <= c <= '9'
  {
    ('0' as int + d) as char
  }

  /* The value of a decimal digit character; the inverse of DigitChar. */
  function DigitValue(c: char): (d: nat)
    requires '0' <= c <= '9'
    ensures d < 10
    ensures DigitChar(d) == c
  {
    c as int - '0' as int
  }

  predicate IsDigits(s: string) {
    forall i :: 0 <= i < |s| ==> '0' <= s[i] <= '9'
  }

  /* A non-empty digit string without a superfluous leading zero. */
  predicate IsCanonicalNat(s: string) {
    |s| > 0 && IsDigits(s) && (s[0] != '0' || |s| == 1)
  }

  /* Decimal rendering of a natural number, most significant digit first. */
  function NatToDecimal(n: nat): (s: string)
    ensures IsCanonicalNat(s)
    ensures s[0] == '0' <==> n == 0
    decreases n
  {
    if n < 10 then [DigitChar(n)]
    else NatToDecimal(n / 10) + [DigitChar(n % 10)]
  }

  /* The value of a digit string (the empty string reads as 0). */
  function DecimalToNat(s: string): (n: nat)
    requires IsDigits(s)
  {
    if |s| == 0 then 0
    else 10 * DecimalToNat(s[..|s| - 1]) + DigitValue(s[|s| - 1])
  }

  /* The string an integer coerces to. */
  function IntToDecimal(n: int): (s: string)
    ensures |s| > 0
    ensures s[0] == '-' <==> n < 0
    ensures n >= 0 ==> IsCanonicalNat(s) && DecimalToNat(s) == n
    ensures n < 0 ==> IsCanonicalNat(s[1..]) && s[1] != '0' && DecimalToNat(s[1..]) == -n
  {
    if n < 0 then
      DecimalOfNatRoundTrip(-n);
      assert ("-" + NatToDecimal(-n))[1..] == NatToDecimal(-n);
      "-" + NatToDecimal(-n)
    else
      DecimalOfNatRoundTrip(n);
      NatToDecimal(n)
  }

  /* The integer whose decimal rendering is exactly `s`, if there is one. */
  function ParseInt(s: string): (r: Option<int>)
    ensures r.Some? ==> IntToDecimal(r.value) == s
    ensures r.None? ==> forall n :: IntToDecimal(n) != s
  {
    if |s| > 0 && s[0] == '-' then
      var t := s[1..];
      if IsCanonicalNat(t) && t[0] != '0' then
        NatOfDecimalRoundTrip(t);
        LeadingDigitPositive(t);
        assert s == "-" + t;
        Some(-(DecimalToNat(t) as int))
      else None
    else if IsCanonicalNat(s) then
      NatOfDecimalRoundTrip(s);
      Some(DecimalToNat(s))
    else None
  }

  /* The canonical string of a key: the identity used for set membership. */
  function Canon(k: Key): (r: string)
    ensures k.Str? ==> r == k.s
    ensures k.Num? ==> ParseInt(r) == Some(k.n)
  {
    match k
    case Num(n) => IntToDecimal(n)
    case Str(s) => s
  }

  lemma {:induction false} DecimalOfNatRoundTrip(n: nat)
    ensures DecimalToNat(NatToDecimal(n)) == n
    decreases n
  {
    var s := NatToDecimal(n);
    if n < 10 {
      assert s[..0] == [];
    } else {
      DecimalOfNatRoundTrip(n / 10);
      assert s[..|s| - 1] == NatToDecimal(n / 10);
    }
  }

  /* A digit string that starts with a non-zero digit has a positive value. */
  lemma {:induction false} LeadingDigitPositive(s: string)
    requires IsDigits(s) && |s| > 0 && s[0] != '0'
    ensures DecimalToNat(s) > 0
    decreases |s|
  {
    if |s| > 1 {
      LeadingDigitPositive(s[..|s| - 1]);
    } else {
      assert s[..0] == [];
    }
  }

  lemma {:induction false} NatOfDecimalRoundTrip(s: string)
    requires IsCanonicalNat(s)
    ensures NatToDecimal(DecimalToNat(s)) == s
    decreases |s|
  {
    var p := s[..|s| - 1];
    if |s| == 1 {
      assert p == [];
    } else {
      assert p[0] == s[0];
      LeadingDigitPositive(p);
      NatOfDecimalRoundTrip(p);
      var n := DecimalToNat(s);
      assert n / 10 == DecimalToNat(p);
      assert s == p + [s[|s| - 1]];
    }
  }

  /* Every integer's rendering parses back to that integer. */
  lemma ParseIntOfDecimal(n: int)
    ensures ParseInt(IntToDecimal(n)) == Some(n)
  {
  }

  /* A string that parses to an integer is exactly that integer's rendering. */
  lemma DecimalOfParseInt(s: string, n: int)
    requires ParseInt(s) == Some(n)
    ensures IntToDecimal(n) == s
  {
  }

  /* Two integer keys are the same member only if they are the same integer. */
  lemma CanonNumInjective(a: int, b: int)
    ensures Canon(Num(a)) == Canon(Num(b)) <==> a == b
  {
  }

  /* An integer and a string key are the same member exactly when the string
     is the integer's decimal rendering. */
  lemma SameMemberNumStr(n: int, s: string)
    ensures Canon(Num(n)) == Canon(Str(s)) <==> ParseInt(s) == Some(n)
  {
  }
}
