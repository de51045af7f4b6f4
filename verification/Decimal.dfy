/** Decimal printing and parsing of integers, as Go's `strconv.Itoa` and `strconv.Atoi`. */
module Decimal {
  datatype Option<+T> = None | Some(value: T)

  const MIN_INT64 := -0x8000_0000_0000_0000
  const MAX_INT64 := 0x7fff_ffff_ffff_ffff

  function DigitChar(d: nat): char
    requires d < 10
  {
    ('0' as int + d) as char
  }

  function Digits(n: nat): (s: string)
    ensures s != []
    ensures forall i :: 0 <= i < |s| ==> IsDigit(s[i])
  {
    if n < 10 then [DigitChar(n)] else Digits(n / 10) + [DigitChar(n % 10)]
  }

  function Itoa(n: int): (s: string)
    ensures s != []
    ensures forall i :: 0 <= i < |s| ==> IsDigit(s[i]) || s[i] == '-'
  {
    if n < 0 then "-" + Digits(-n) else Digits(n)
  }

  predicate IsDigit(c: char) {
    '0' <= c <= '9'
  }

  predicate AllDigits(s: string) {
    forall i :: 0 <= i < |s| ==> IsDigit(s[i])
  }

  function NatValue(s: string): nat
    requires AllDigits(s)
  {
    if s == [] then 0
    else 10 * NatValue(s[..|s| - 1]) + (s[|s| - 1] as int - '0' as int)
  }

  /** An optional sign and at least one digit, with the value in the range of a 64-bit integer. */
  function Atoi(s: string): Option<int> {
    var signed := s != [] && (s[0] == '-' || s[0] == '+');
    var body := if signed then s[1..] else s;
    if body == [] || !AllDigits(body) then None
    else
      var v := if signed && s[0] == '-' then -(NatValue(body) as int) else NatValue(body) as int;
      if MIN_INT64 <= v <= MAX_INT64 then Some(v) else None
  }

  lemma {:induction false} NatValueOfDigits(n: nat)
    ensures NatValue(Digits(n)) == n
  {
    if n < 10 {
      var s := Digits(n);
      assert s[..|s| - 1] == [];
    } else {
      NatValueOfDigits(n / 10);
      var s := Digits(n);
      assert s[..|s| - 1] == Digits(n / 10);
    }
  }

  lemma AtoiOfItoa(n: int)
    requires MIN_INT64 <= n <= MAX_INT64
    ensures Atoi(Itoa(n)) == Some(n)
  {
    if n < 0 {
      NatValueOfDigits(-n);
      assert Itoa(n)[1..] == Digits(-n);
    } else {
      NatValueOfDigits(n);
      assert IsDigit(Digits(n)[0]);
    }
  }

  /** Different integers, of either sign, print differently. */
  lemma ItoaInjective(a: int, b: int)
    requires Itoa(a) == Itoa(b)
    ensures a == b
  {
    assert a < 0 <==> Itoa(a)[0] == '-' by {
      if a >= 0 {
        assert IsDigit(Digits(a)[0]);
      }
    }
    assert b < 0 <==> Itoa(b)[0] == '-' by {
      if b >= 0 {
        assert IsDigit(Digits(b)[0]);
      }
    }
    if a < 0 {
      assert Digits(-a) == Itoa(a)[1..] == Itoa(b)[1..] == Digits(-b);
      NatValueOfDigits(-a);
      NatValueOfDigits(-b);
    } else {
      NatValueOfDigits(a);
      NatValueOfDigits(b);
    }
  }

  // ---------------------------------------------------------------- Place values

  function PowerOfTen(n: nat): nat {
    if n == 0 then 1 else 10 * PowerOfTen(n - 1)
  }

  /** Each digit times its power of ten. */
  function PlaceValue(s: string): nat
    requires AllDigits(s)
  {
    if s == [] then 0 else (s[0] as int - '0' as int) * PowerOfTen(|s| - 1) + PlaceValue(s[1..])
  }

  lemma {:induction false} PlaceValueStep(s: string)
    requires s != [] && AllDigits(s)
    ensures PlaceValue(s) == 10 * PlaceValue(s[..|s| - 1]) + (s[|s| - 1] as int - '0' as int)
  {
    var n := |s| - 1;
    if n == 0 {
      assert s[1..] == [] && s[..0] == [];
    } else {
      PlaceValueStep(s[1..]);
      assert s[1..][..n - 1] == s[..n][1..];
      var d := s[0] as int - '0' as int;
      assert d * PowerOfTen(n) == 10 * (d * PowerOfTen(n - 1));
    }
  }

  lemma {:induction false} NatValueIsPlaceValue(s: string)
    requires AllDigits(s)
    ensures NatValue(s) == PlaceValue(s)
  {
    if s != [] {
      NatValueIsPlaceValue(s[..|s| - 1]);
      PlaceValueStep(s);
    }
  }

  /** An optional sign and digits, at least one, that stand for `v`, a 64-bit integer. */
  ghost predicate IsNumeral(s: string, v: int) {
    && MIN_INT64 <= v <= MAX_INT64
    && (|| (s != [] && AllDigits(s) && v == PlaceValue(s))
        || (|s| > 1 && s[0] == '+' && AllDigits(s[1..]) && v == PlaceValue(s[1..]))
        || (|s| > 1 && s[0] == '-' && AllDigits(s[1..]) && v == 0 - PlaceValue(s[1..])))
  }

  lemma AtoiMeans(s: string, v: int)
    ensures Atoi(s) == Some(v) <==> IsNumeral(s, v)
  {
    if s != [] && AllDigits(s) {
      assert IsDigit(s[0]);
      NatValueIsPlaceValue(s);
    } else if |s| > 1 && AllDigits(s[1..]) {
      NatValueIsPlaceValue(s[1..]);
    }
  }

  lemma {:induction false} DigitsLead(n: nat)
    ensures |Digits(n)| > 1 ==> Digits(n)[0] != '0'
    ensures n > 0 ==> Digits(n)[0] != '0'
  {
    if n >= 10 {
      DigitsLead(n / 10);
      assert Digits(n)[0] == Digits(n / 10)[0];
    }
  }

  /** The printed form: a minus sign for negative numbers, then the decimal digits without leading zeros. */
  lemma ItoaIsDecimal(n: int)
    ensures n < 0 <==> Itoa(n)[0] == '-'
    ensures var body := if n < 0 then Itoa(n)[1..] else Itoa(n);
            && body != [] && AllDigits(body) && (|body| > 1 ==> body[0] != '0')
            && PlaceValue(body) == if n < 0 then -n else n
  {
    var m := if n < 0 then -n else n;
    assert IsDigit(Digits(m)[0]);
    assert (if n < 0 then Itoa(n)[1..] else Itoa(n)) == Digits(m);
    DigitsLead(m);
    NatValueOfDigits(m);
    NatValueIsPlaceValue(Digits(m));
  }
}
