/** Decimal rendering of numbers as JavaScript's `n + ""` produces it for
    integers, and the zero-padding helper `ii` local to `Elapsed.formatDate`. */
module Digits {

  predicate IsDigit(c: char) {
    '0' <= c <= '9'
  }

  predicate AllDigits(s: string) {
    forall i :: 0 <= i < |s| ==> IsDigit(s[i])
  }

  function DigitChar(d: nat): (c: char)
    requires d < 10
    ensures IsDigit(c)
  {
    ['0', '1', '2', '3', '4', '5', '6', '7', '8', '9'][d]
  }

  function DigitValue(c: char): nat
    requires IsDigit(c)
  {
    c as int - '0' as int
  }

  /** The number denoted by a string of decimal digits (leading zeros allowed). */
  function DigitsValue(s: string): nat
    requires AllDigits(s)
  {
    if s == [] then 0 else DigitsValue(s[..|s| - 1]) * 10 + DigitValue(s[|s| - 1])
  }

  /** `n + ""` for a non-negative integer: shortest decimal form, no leading zero. */
  function NatToString(n: nat): (r: string)
    ensures 1 <= |r| && AllDigits(r)
    ensures r[0] == '0' ==> r == "0"
    ensures n < 10 <==> |r| == 1
  {
    if n < 10 then [DigitChar(n)] else NatToString(n / 10) + [DigitChar(n % 10)]
  }

  /** `n + ""` for any integer: a minus sign in front of the magnitude. The text
      reads back as the number: digits alone for n >= 0, and "-" followed by the
      digits of -n otherwise. */
  function IntToString(n: int): (r: string)
    ensures n >= 0 ==> AllDigits(r) && DigitsValue(r) == n
    ensures n < 0 ==> |r| >= 2 && r[0] == '-' && AllDigits(r[1..]) && DigitsValue(r[1..]) == -n
  {
    if n < 0 then
      var d := NatToString(-n);
      NatToStringValue(-n);
      assert ("-" + d)[1..] == d;
      "-" + d
    else
      NatToStringValue(n);
      NatToString(n)
  }

  /** Reading the rendered digits back gives the number: `NatToString` loses nothing. */
  lemma {:induction false} NatToStringValue(n: nat)
    ensures DigitsValue(NatToString(n)) == n
  {
    if n >= 10 {
      var r := NatToString(n);
      NatToStringValue(n / 10);
      assert r[..|r| - 1] == NatToString(n / 10);
    }
  }

  /** Different numbers never render to the same string. */
  lemma NatToStringInjective(a: nat, b: nat)
    requires NatToString(a) == NatToString(b)
    ensures a == b
  {
    NatToStringValue(a);
    NatToStringValue(b);
  }

  function Zeros(k: nat): (r: string)
    ensures |r| == k && forall i :: 0 <= i < k ==> r[i] == '0'
  {
    seq(k, _ => '0')
  }

  function Max(a: nat, b: nat): nat {
    if a > b then a else b
  }

  /** The width `ii` pads to: `len || 2`, so an absent or zero width means 2. */
  function PadWidth(len: nat): nat {
    if len == 0 then 2 else len
  }

  /** `ii(i, len)`: the decimal form of `i`, left-padded with '0' up to the width. */
  function Padded(i: nat, len: nat): string {
    var d := NatToString(i);
    if PadWidth(len) > |d| then Zeros(PadWidth(len) - |d|) + d else d
  }

  /** The padded string is as long as the width or the digits, whichever is more
      (a number wider than the width is never cut), ends with the digits of `i`,
      and everything before them is '0'. */
  lemma PaddedShape(i: nat, len: nat)
    ensures var r, d := Padded(i, len), NatToString(i);
      && |r| == Max(PadWidth(len), |d|)
      && r[|r| - |d|..] == d
      && (forall k :: 0 <= k < |r| - |d| ==> r[k] == '0')
  {
  }

  /** Padding is transparent to the value: the padded string still denotes `i`. */
  lemma {:induction false} PaddedValue(i: nat, len: nat)
    ensures AllDigits(Padded(i, len)) && DigitsValue(Padded(i, len)) == i
  {
    var d := NatToString(i);
    var k := PaddedForm(i, len);
    NatToStringValue(i);
    LeadingZerosValue(k, d);
  }

  /** The padded string is some number of zeros in front of the digits. */
  lemma PaddedForm(i: nat, len: nat) returns (k: nat)
    ensures Padded(i, len) == Zeros(k) + NatToString(i)
  {
    var d := NatToString(i);
    if PadWidth(len) > |d| {
      k := PadWidth(len) - |d|;
    } else {
      k := 0;
      assert Zeros(0) + d == d;
    }
  }

  lemma {:induction false} LeadingZerosValue(k: nat, d: string)
    requires AllDigits(d)
    ensures AllDigits(Zeros(k) + d) && DigitsValue(Zeros(k) + d) == DigitsValue(d)
  {
    if d == [] {
      assert Zeros(k) + d == Zeros(k);
      ZerosValue(k);
    } else {
      var s := Zeros(k) + d;
      assert s[..|s| - 1] == Zeros(k) + d[..|d| - 1];
      LeadingZerosValue(k, d[..|d| - 1]);
    }
  }

  lemma {:induction false} ZerosValue(k: nat)
    ensures AllDigits(Zeros(k)) && DigitsValue(Zeros(k)) == 0
  {
    if k > 0 {
      assert Zeros(k)[..k - 1] == Zeros(k - 1);
      ZerosValue(k - 1);
    }
  }

  /** `ii(i, len)` as the source runs it: start from the digits and prepend '0'
      while the string is shorter than the width. */
  method Pad(i: nat, len: nat) returns (s: string)
    ensures s == Padded(i, len)
  {
    var d := NatToString(i);
    var width := if len == 0 then 2 else len;
    s := d;
    while |s| < width
      invariant |d| <= |s| <= Max(width, |d|)
      invariant s == Zeros(|s| - |d|) + d
      decreases width - |s|
    {
      ZerosCons(|s| - |d|);
      s := "0" + s;
    }
    assert PadWidth(len) == width;
  }

  lemma ZerosCons(k: nat)
    ensures "0" + Zeros(k) == Zeros(k + 1)
  {
  }
}
