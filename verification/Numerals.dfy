/** Decimal numerals. */
module Numerals {
  import opened Ascii

  predicate IsDigits(s: string) { forall i :: 0 <= i < |s| ==> IsNum(s[i]) }

  /** The decimal value of a string of digits. */
  function Decimal(s: string): nat
    requires IsDigits(s)
    decreases |s|
  {
    if s == "" then 0 else Decimal(s[..|s| - 1]) * 10 + DigitValue(s[|s| - 1])
  }

  /** Digits after `acc` has already been read. */
  function DecimalFrom(acc: nat, s: string): nat
    requires IsDigits(s)
    decreases |s|
  {
    if s == "" then acc else DecimalFrom(acc * 10 + DigitValue(s[0]), s[1..])
  }

  lemma {:induction false} DecimalFromEnd(acc: nat, s: string, c: char)
    requires IsDigits(s) && IsNum(c)
    ensures IsDigits(s + [c]) && DecimalFrom(acc, s + [c]) == DecimalFrom(acc, s) * 10 + DigitValue(c)
    decreases |s|
  {
    var t := s + [c];
    assert forall i :: 0 <= i < |t| ==> t[i] == if i < |s| then s[i] else c;
    if s == "" {
      assert t[1..] == "" && t[0] == c;
      assert DecimalFrom(acc, t) == DecimalFrom(acc * 10 + DigitValue(c), "");
    } else {
      assert t[1..] == s[1..] + [c] && t[0] == s[0];
      DecimalFromEnd(acc * 10 + DigitValue(s[0]), s[1..], c);
    }
  }

  lemma {:induction false} DecimalAgree(s: string)
    requires IsDigits(s)
    ensures DecimalFrom(0, s) == Decimal(s)
    decreases |s|
  {
    if s != "" {
      var a := s[..|s| - 1];
      assert s == a + [s[|s| - 1]];
      DecimalAgree(a);
      DecimalFromEnd(0, a, s[|s| - 1]);
    }
  }

  lemma {:induction false} DecimalGrows(acc: nat, s: string)
    requires IsDigits(s)
    ensures DecimalFrom(acc, s) >= acc
    decreases |s|
  {
    if s != "" { DecimalGrows(acc * 10 + DigitValue(s[0]), s[1..]); }
  }

  function DecimalDigit(d: nat): char
    requires d < 10
  {
    (d + '0' as int) as char
  }

  /** `std::to_string`. */
  function ToDecimal(n: nat): (s: string)
    ensures s != "" && IsDigits(s) && Decimal(s) == n
  {
    if n < 10 then
      var s := [DecimalDigit(n)];
      assert s[..|s| - 1] == "";
      s
    else
      var a := ToDecimal(n / 10);
      var s := a + [DecimalDigit(n % 10)];
      assert s[..|s| - 1] == a;
      s
  }

  /** A hexadecimal digit, in either case. */
  predicate IsDigit16(ch: char, d: nat) {
    d < 16 && (ch == "0123456789abcdef"[d] || ch == "0123456789ABCDEF"[d])
  }

  lemma DigitIs(ch: char, d: nat)
    requires IsDigit16(ch, d)
    ensures Unhex(ch) == d
  {
  }

  lemma NotHex(ch: char)
    requires forall d :: !IsDigit16(ch, d)
    ensures Unhex(ch) == -1
  {
    assert !IsDigit16(ch, 0) && !IsDigit16(ch, 1) && !IsDigit16(ch, 2) && !IsDigit16(ch, 3);
    assert !IsDigit16(ch, 4) && !IsDigit16(ch, 5) && !IsDigit16(ch, 6) && !IsDigit16(ch, 7);
    assert !IsDigit16(ch, 8) && !IsDigit16(ch, 9) && !IsDigit16(ch, 10) && !IsDigit16(ch, 11);
    assert !IsDigit16(ch, 12) && !IsDigit16(ch, 13) && !IsDigit16(ch, 14) && !IsDigit16(ch, 15);
  }
}
