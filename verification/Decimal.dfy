/** Printing of natural numbers, as `String(n)` and template literals do it. */
module Decimal {

  function Print(n: nat): (s: string)
    ensures |s| > 0 && forall k | 0 <= k < |s| :: '0' <= s[k] <= '9'
  {
    if n < 10 then [DigitChar(n)] else Print(n / 10) + [DigitChar(n % 10)]
  }

  function DigitChar(d: nat): (c: char)
    requires d < 10
    ensures '0' <= c <= '9' && DigitValue(c) == d
  {
    (('0' as int) + d) as char
  }

  function DigitValue(c: char): nat
    requires '0' <= c <= '9'
  {
    c as int - '0' as int
  }

  predicate AllDigits(s: string) {
    forall k | 0 <= k < |s| :: '0' <= s[k] <= '9'
  }

  /** The number that a string of digits denotes; leading zeros do not count. */
  function Value(s: string): nat
    requires AllDigits(s)
  {
    if s == "" then 0 else 10 * Value(s[..|s| - 1]) + DigitValue(s[|s| - 1])
  }

  lemma {:induction false} ValuePrint(n: nat)
    ensures Value(Print(n)) == n
  {
    if n >= 10 {
      ValuePrint(n / 10);
      assert Print(n)[..|Print(n)| - 1] == Print(n / 10);
    }
  }

  lemma PrintInjective(m: nat, n: nat)
    requires Print(m) == Print(n)
    ensures m == n
  {
    ValuePrint(m);
    ValuePrint(n);
  }

  /** `padStart(width, "0")` */
  function PadZero(s: string, width: nat): string
    decreases width - |s|
  {
    if |s| >= width then s else PadZero("0" + s, width)
  }

  lemma {:induction false} ValuePadZero(s: string, width: nat)
    requires AllDigits(s)
    ensures AllDigits(PadZero(s, width)) && Value(PadZero(s, width)) == Value(s)
    decreases width - |s|
  {
    if |s| < width {
      ValueLeadingZero(s);
      ValuePadZero("0" + s, width);
    }
  }

  lemma {:induction false} ValueLeadingZero(s: string)
    requires AllDigits(s)
    ensures AllDigits("0" + s) && Value("0" + s) == Value(s)
  {
    var z := "0" + s;
    if s == "" {
      assert z[..0] == "";
    } else {
      ValueLeadingZero(s[..|s| - 1]);
      assert z[..|z| - 1] == "0" + s[..|s| - 1];
    }
  }

  /** A padded number still denotes the number it was made from. */
  lemma PaddedValue(n: nat, width: nat)
    ensures AllDigits(PadZero(Print(n), width)) && Value(PadZero(Print(n), width)) == n
  {
    ValuePrint(n);
    ValuePadZero(Print(n), width);
  }

  /** Padding stops at the width. */
  lemma {:induction false} PaddedLength(s: string, width: nat)
    ensures |PadZero(s, width)| == if |s| < width then width else |s|
    ensures |s| >= width ==> PadZero(s, width) == s
    decreases width - |s|
  {
    if |s| < width {
      PaddedLength("0" + s, width);
    }
  }

  /** Only zero itself is printed with a zero in front. */
  lemma {:induction false} NoLeadingZero(n: nat)
    ensures |Print(n)| > 1 ==> Print(n)[0] != '0'
    ensures Print(n)[0] == '0' <==> n == 0
  {
    if n >= 10 {
      NoLeadingZero(n / 10);
      assert Print(n)[0] == Print(n / 10)[0];
    }
  }
}
