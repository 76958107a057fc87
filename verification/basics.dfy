/** Small shared vocabulary: an optional value, the powers of ten used when
    converting parsed decimals to fixed-point values, and the decimal text of
    an integer. */
module Basics {

  /** The result of a conversion or a lookup that may find nothing: Python's
      raise (or a missing row) becomes None. */
  datatype Option<+T> = None | Some(value: T)

  /** 10^n. */
  function Pow10(n: nat): (r: nat)
    ensures r >= 1
  {
    if n == 0 then 1 else 10 * Pow10(n - 1)
  }

  /** Every Id column is a Django BigIntegerField: a signed 64-bit integer. */
  const MinInt64: int := -0x8000_0000_0000_0000
  const MaxInt64: int := 0x7FFF_FFFF_FFFF_FFFF

  predicate IsInt64(x: int) {
    MinInt64 <= x <= MaxInt64
  }

  /** The elements of a sequence, as a set. */
  function ElemsOf(xs: seq<int>): (r: set<int>)
    ensures forall x :: x in r <==> x in xs
  {
    set x | x in xs
  }

  /** The character of one decimal digit. */
  function Digit(d: nat): (c: char)
    requires d < 10
    ensures '0' <= c <= '9' && c as int - '0' as int == d
  {
    ('0' as int + d) as char
  }

  /** `str(n)` for a natural number: decimal digits, no leading zero. */
  function NatText(n: nat): (t: string)
    ensures t != [] && forall k :: 0 <= k < |t| ==> '0' <= t[k] <= '9'
    ensures |t| == 1 <==> n < 10
    ensures t[0] == '0' ==> n == 0
  {
    if n < 10 then [Digit(n)] else NatText(n / 10) + [Digit(n % 10)]
  }

  /** `str(n)` for an integer: a minus sign before a negative number's digits. */
  function IntText(n: int): (t: string)
    ensures t != []
    ensures t[0] == '-' <==> n < 0
    ensures t[0] == '0' ==> t == "0"
  {
    if n < 0 then "-" + NatText(-n) else NatText(n)
  }

  /** Two numbers with the same digits are the same number. */
  lemma {:induction false} NatTextInjective(a: nat, b: nat)
    ensures NatText(a) == NatText(b) ==> a == b
    decreases a
  {
    if NatText(a) == NatText(b) && a >= 10 {
      var t := NatText(a);
      assert t[|t| - 1] == Digit(a % 10) && t[|t| - 1] == Digit(b % 10);
      assert t[..|t| - 1] == NatText(a / 10) && t[..|t| - 1] == NatText(b / 10);
      NatTextInjective(a / 10, b / 10);
    }
  }

  /** Distinct integers have distinct texts, so a text names at most one number. */
  lemma IntTextInjective(a: int, b: int)
    ensures IntText(a) == IntText(b) ==> a == b
  {
    if IntText(a) == IntText(b) {
      if a < 0 {
        assert IntText(a)[1..] == NatText(-a) && IntText(b)[1..] == NatText(-b);
        NatTextInjective(-a, -b);
      } else {
        NatTextInjective(a, b);
      }
    }
  }
}
