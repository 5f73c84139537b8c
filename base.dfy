/** Shared building blocks: an optional value and the decimal rendering of
    integers that Go's `%d` verb and `big.Int.String` produce. */
module Base {

  datatype Option<T> = None | Some(value: T)

  /** A set with no element is the empty set. */
  lemma EmptyIfNoElement<T>(s: set<T>)
    ensures (forall x :: x !in s) ==> s == {}
  {
    var e: set<T> := {};
    if forall x :: x !in s {
      assert forall x :: x in s <==> x in e;
    }
  }

  /** An element of a set that is not empty. */
  lemma Pick<T>(s: set<T>) returns (x: T)
    requires s != {}
    ensures x in s
  {
    EmptyIfNoElement(s);
    x :| x in s;
  }

  /** A map without keys is the empty map. */
  lemma NoKeysIsEmpty<K, V>(m: map<K, V>)
    requires forall k :: k !in m
    ensures m == map[]
  {
    var e: map<K, V> := map[];
    assert forall k :: k in m <==> k in e;
  }

  predicate IsDigit(c: char) {
    '0' <= c <= '9'
  }

  /** The single decimal digit for 0 <= d < 10. */
  function DigitChar(d: int): (c: char)
    requires 0 <= d < 10
    ensures IsDigit(c) && c as int - '0' as int == d
  {
    ('0' as int + d) as char
  }

  /** Decimal rendering of a natural number, most significant digit first,
      without leading zeros ("0" for zero). */
  function NatToString(n: nat): (s: string)
    ensures |s| >= 1
    ensures forall i :: 0 <= i < |s| ==> IsDigit(s[i])
    ensures n > 0 ==> s[0] != '0'
    ensures n < 10 ==> s == [DigitChar(n)]
    decreases n
  {
    if n < 10 then [DigitChar(n)] else NatToString(n / 10) + [DigitChar(n % 10)]
  }

  /** Decimal rendering of any integer, as `fmt.Sprintf("%d", n)` gives it. */
  function IntToString(n: int): (s: string)
    ensures |s| >= 1
    ensures n >= 0 ==> forall i :: 0 <= i < |s| ==> IsDigit(s[i])
    ensures n < 0 ==> s[0] == '-' && forall i :: 1 <= i < |s| ==> IsDigit(s[i])
  {
    if n < 0 then "-" + NatToString(-n) else NatToString(n)
  }

  /** The value of a string of decimal digits (the inverse partner of
      NatToString). */
  function DigitsValue(s: string): nat
    requires forall i :: 0 <= i < |s| ==> IsDigit(s[i])
  {
    if s == [] then 0
    else
      assert IsDigit(s[|s| - 1]);
      DigitsValue(s[..|s| - 1]) * 10 + (s[|s| - 1] as int - '0' as int)
  }

  /** Reads back what IntToString writes: an optional minus sign followed by
      at least one digit. */
  function ParseInt(s: string): Option<int> {
    if |s| >= 2 && s[0] == '-' && forall i :: 1 <= i < |s| ==> IsDigit(s[i]) then
      Some(-(DigitsValue(s[1..]) as int))
    else if |s| >= 1 && forall i :: 0 <= i < |s| ==> IsDigit(s[i]) then Some(DigitsValue(s))
    else None
  }

  lemma {:induction false} NatToStringValue(n: nat)
    ensures DigitsValue(NatToString(n)) == n
    decreases n
  {
    if n >= 10 {
      var s := NatToString(n);
      NatToStringValue(n / 10);
      assert s[..|s| - 1] == NatToString(n / 10);
    }
  }

  /** A minus sign followed by digits reads as the negated digits' value. */
  lemma ParseNegative(digits: string)
    requires |digits| >= 1 && forall i :: 0 <= i < |digits| ==> IsDigit(digits[i])
    ensures ParseInt("-" + digits) == Some(-(DigitsValue(digits) as int))
  {
    var s := "-" + digits;
    assert s[1..] == digits;
    forall i | 1 <= i < |s|
      ensures IsDigit(s[i])
    {
      assert s[i] == digits[i - 1];
    }
  }

  /** Digits alone read as their value. */
  lemma ParseDigits(digits: string)
    requires |digits| >= 1 && forall i :: 0 <= i < |digits| ==> IsDigit(digits[i])
    ensures ParseInt(digits) == Some(DigitsValue(digits))
  {
    assert IsDigit(digits[0]);
  }

  /** Rendering an integer in decimal and reading it back gives the integer. */
  lemma IntToStringRoundTrip(n: int)
    ensures ParseInt(IntToString(n)) == Some(n)
  {
    var m: nat := if n < 0 then -n else n;
    var digits := NatToString(m);
    NatToStringValue(m);
    if n < 0 {
      assert IntToString(n) == "-" + digits;
      ParseNegative(digits);
    } else {
      assert IntToString(n) == digits;
      ParseDigits(digits);
    }
  }
}
