/** `sprintf("%d", v)` for the values the firmware prints, and a reader for the
    integer form of a number in RFC 8259, section 6 (an optional minus, then
    zero or a non-zero digit followed by digits), its partner. */
module Decimal {
  import opened CTypes

  predicate IsDigit(ch: char)
  {
    '0' <= ch <= '9'
  }

  function DigitChar(d: nat): (ch: char)
    requires d < 10
    ensures IsDigit(ch)
  {
    ('0' as int + d) as char
  }

  function DigitValue(ch: char): (d: nat)
    requires IsDigit(ch)
    ensures d < 10 && DigitChar(d) == ch
  {
    ch as int - '0' as int
  }

  /** The base-10 digits of n, most significant first. */
  function Digits(n: nat): (s: string)
    decreases n
  {
    if n < 10 then [DigitChar(n)] else Digits(n / 10) + [DigitChar(n % 10)]
  }

  /** `%d`: a leading `-` for a negative value, then the digits of its magnitude. */
  function FormatInt(v: int): (s: string)
    ensures |s| >= 1 && (s[0] == '-' <==> v < 0)
  {
    DigitsShape(if v < 0 then -v else v);
    if v < 0 then "-" + Digits(-v) else Digits(v)
  }

  /** The value of a run of digits read left to right. */
  function DigitsValue(ds: string): nat
    requires forall i :: 0 <= i < |ds| ==> IsDigit(ds[i])
  {
    if ds == [] then 0 else DigitsValue(ds[..|ds| - 1]) * 10 + DigitValue(ds[|ds| - 1])
  }

  /** Length of the longest prefix of s made of digits. */
  function DigitRun(s: string): (k: nat)
    ensures k <= |s|
    ensures forall i :: 0 <= i < k ==> IsDigit(s[i])
    ensures k < |s| ==> !IsDigit(s[k])
  {
    if s == [] || !IsDigit(s[0]) then 0 else 1 + DigitRun(s[1..])
  }

  /** Reads an unsigned integer (`zero / digit1-9 *DIGIT`) off the front of s,
      returning its value and the text after it. */
  function ReadNat(s: string): (r: Option<(nat, string)>)
    ensures r.Some? ==> |r.value.1| < |s| && s[|s| - |r.value.1|..] == r.value.1
  {
    var k := DigitRun(s);
    if k == 0 || (k > 1 && s[0] == '0') then None
    else Some((DigitsValue(s[..k]), s[k..]))
  }

  /** Reads an integer (`[ minus ] int`) off the front of s. */
  function ReadInt(s: string): (r: Option<(int, string)>)
    ensures r.Some? ==> |r.value.1| < |s| && s[|s| - |r.value.1|..] == r.value.1
  {
    if |s| > 0 && s[0] == '-' then
      match ReadNat(s[1..])
      case None => None
      case Some((n, rest)) => Some((-(n as int), rest))
    else
      match ReadNat(s)
      case None => None
      case Some((n, rest)) => Some((n as int, rest))
  }

  /** All characters of Digits(n) are digits, and the first is `0` only for n = 0. */
  lemma {:induction false} DigitsShape(n: nat)
    ensures |Digits(n)| >= 1
    ensures forall i :: 0 <= i < |Digits(n)| ==> IsDigit(Digits(n)[i])
    ensures Digits(n)[0] == '0' <==> n == 0
    ensures Digits(n)[0] == '0' ==> |Digits(n)| == 1
    decreases n
  {
    if n >= 10 {
      DigitsShape(n / 10);
    }
  }

  /** Reading the digits of n back gives n. */
  lemma {:induction false} DigitsValueOfDigits(n: nat)
    ensures forall i :: 0 <= i < |Digits(n)| ==> IsDigit(Digits(n)[i])
    ensures DigitsValue(Digits(n)) == n
    decreases n
  {
    DigitsShape(n);
    if n >= 10 {
      DigitsValueOfDigits(n / 10);
      var ds := Digits(n);
      assert ds[..|ds| - 1] == Digits(n / 10);
    }
  }

  /** Digits(n) has at most k characters when n < 10^k; one more for a minus sign. */
  lemma {:induction false} DigitsLength(n: nat, k: nat, p: nat)
    requires k >= 1 && p == Pow10(k) && n < p
    ensures |Digits(n)| <= k
    decreases k
  {
    if n >= 10 {
      assert k >= 2;
      DigitsLength(n / 10, k - 1, Pow10(k - 1));
    }
  }

  function Pow10(k: nat): (p: nat)
    ensures p >= 1
  {
    if k == 0 then 1 else 10 * Pow10(k - 1)
  }

  /** A `short` prints in at most six characters (`-32768`). */
  lemma FormatIntLength(v: int16)
    ensures 1 <= |FormatInt(v)| <= 6
  {
    var m: nat := if v < 0 then -(v as int) else v as int;
    assert Pow10(5) == 100000;
    DigitsLength(m, 5, 100000);
    DigitsShape(m);
  }

  /** The text of a formatted integer is its optional minus sign followed by digits,
      and it ends in a digit. */
  lemma FormatIntShape(v: int)
    ensures |FormatInt(v)| >= 1
    ensures IsDigit(FormatInt(v)[|FormatInt(v)| - 1])
    ensures forall i :: 0 <= i < |FormatInt(v)| ==> IsDigit(FormatInt(v)[i]) || (i == 0 && v < 0 && FormatInt(v)[i] == '-')
  {
    var m: nat := if v < 0 then -v else v;
    DigitsShape(m);
  }

  /** Reading the digits of n followed by a non-digit (or nothing) gives n and
      leaves exactly what followed. */
  lemma ReadNatDigits(n: nat, rest: string)
    requires rest == [] || !IsDigit(rest[0])
    ensures ReadNat(Digits(n) + rest) == Some((n, rest))
  {
    var s := Digits(n) + rest;
    DigitsShape(n);
    DigitsValueOfDigits(n);
    var k := |Digits(n)|;
    assert forall i :: 0 <= i < k ==> s[i] == Digits(n)[i];
    assert DigitRun(s) == k by {
      DigitRunOfPrefix(s, k);
    }
    assert s[..k] == Digits(n);
    assert s[k..] == rest;
  }

  lemma {:induction false} DigitRunOfPrefix(s: string, k: nat)
    requires k <= |s|
    requires forall i :: 0 <= i < k ==> IsDigit(s[i])
    requires k == |s| || !IsDigit(s[k])
    ensures DigitRun(s) == k
    decreases k
  {
    if k > 0 {
      DigitRunOfPrefix(s[1..], k - 1);
    }
  }

  lemma ReadNegative(m: nat, rest: string)
    requires m > 0 && (rest == [] || !IsDigit(rest[0]))
    ensures ReadInt("-" + Digits(m) + rest) == Some((-(m as int), rest))
  {
    var t := Digits(m) + rest;
    var s := "-" + Digits(m) + rest;
    assert s == "-" + t;
    assert s[0] == '-' && s[1..] == t;
    ReadNatDigits(m, rest);
    assert ReadNat(s[1..]) == Some((m, rest));
  }

  lemma ReadNonNegative(n: nat, rest: string)
    requires rest == [] || !IsDigit(rest[0])
    ensures ReadInt(Digits(n) + rest) == Some((n, rest))
  {
    DigitsShape(n);
    assert (Digits(n) + rest)[0] == Digits(n)[0];
    ReadNatDigits(n, rest);
  }

  /** The reader inverts `%d`: reading FormatInt(v) followed by a non-digit gives
      v and the text that followed. */
  lemma ReadFormatInt(v: int, rest: string)
    requires rest == [] || !IsDigit(rest[0])
    ensures ReadInt(FormatInt(v) + rest) == Some((v, rest))
  {
    if v < 0 {
      ReadNegative(-v, rest);
    } else {
      ReadNonNegative(v, rest);
    }
  }

  /** Distinct values print differently. */
  lemma FormatIntInjective(v: int, w: int)
    requires FormatInt(v) == FormatInt(w)
    ensures v == w
  {
    ReadFormatInt(v, []);
    ReadFormatInt(w, []);
    assert FormatInt(v) + [] == FormatInt(w) + [];
  }
}
