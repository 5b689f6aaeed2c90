/** Decimal text of natural numbers, as produced by a zero-padded format specifier. */
module Decimal {
  predicate IsDigit(c: char) { '0' <= c <= '9' }

  predicate AllDigits(s: string) {
    forall i :: 0 <= i < |s| ==> IsDigit(s[i])
  }

  function DigitChar(d: nat): (c: char)
    requires d < 10
    ensures IsDigit(c) && DigitValue(c) == d
  {
    ('0' as int + d) as char
  }

  function DigitValue(c: char): (d: nat)
    requires IsDigit(c)
    ensures d < 10
  {
    c as int - '0' as int
  }

  /** Decimal digits without leading zeros; zero is "0". */
  function Show(n: nat): (s: string)
    ensures |s| >= 1 && AllDigits(s)
  {
    if n < 10 then [DigitChar(n)] else Show(n / 10) + [DigitChar(n % 10)]
  }

  /** The number a digit string denotes; leading zeros are allowed. */
  function Value(s: string): nat
    requires AllDigits(s)
  {
    if s == "" then 0 else 10 * Value(s[..|s| - 1]) + DigitValue(s[|s| - 1])
  }

  function LeftPad(s: string, width: nat): (r: string)
    requires AllDigits(s)
    ensures AllDigits(r) && |r| == if |s| >= width then |s| else width
    decreases width - |s|
  {
    if |s| >= width then s else LeftPad("0" + s, width)
  }

  /** `f"{n:0{width}d}"` for a natural number. */
  function Pad(n: nat, width: nat): (r: string)
    ensures AllDigits(r) && |r| >= width
  {
    LeftPad(Show(n), width)
  }

  lemma {:induction false} ValueOfShow(n: nat)
    ensures Value(Show(n)) == n
  {
    if n >= 10 {
      ValueOfShow(n / 10);
      var s := Show(n);
      assert s[..|s| - 1] == Show(n / 10);
    }
  }

  /** The other direction: text without leading zeros is what its value prints as. */
  lemma {:induction false} ShowOfValue(s: string)
    requires s != "" && AllDigits(s) && s[0] != '0'
    ensures Value(s) >= 1 && Show(Value(s)) == s
  {
    var front, last := s[..|s| - 1], DigitValue(s[|s| - 1]);
    assert s == front + [DigitChar(last)];
    if front == "" {
      assert Value(front) == 0;
    } else {
      ShowOfValue(front);
      assert Value(s) / 10 == Value(front) && Value(s) % 10 == last;
    }
  }

  lemma {:induction false} ValueOfZero(s: string)
    requires AllDigits(s)
    ensures Value("0" + s) == Value(s)
  {
    if s == "" {
      assert Value("0") == 10 * Value("") + DigitValue('0');
    } else {
      var t := "0" + s;
      assert t[..|t| - 1] == "0" + s[..|s| - 1];
      ValueOfZero(s[..|s| - 1]);
    }
  }

  lemma {:induction false} ValueOfLeftPad(s: string, width: nat)
    requires AllDigits(s)
    ensures Value(LeftPad(s, width)) == Value(s)
    decreases width - |s|
  {
    if |s| < width {
      ValueOfZero(s);
      ValueOfLeftPad("0" + s, width);
    }
  }

  /** Reading a padded number gives the number back, so padding loses nothing. */
  lemma ValueOfPad(n: nat, width: nat)
    ensures Value(Pad(n, width)) == n
  {
    ValueOfShow(n);
    ValueOfLeftPad(Show(n), width);
  }

  /** A number of at most `width` digits is padded to exactly `width` characters. */
  lemma PadLength(n: nat)
    ensures n <= 99 ==> |Pad(n, 2)| == 2
    ensures n <= 999 ==> |Pad(n, 3)| == 3
  {
    if 10 <= n {
      assert |Show(n)| == |Show(n / 10)| + 1;
      if 10 <= n / 10 {
        assert |Show(n / 10)| == |Show(n / 10 / 10)| + 1;
      }
    }
  }

  /** A number too wide for the field is printed in full. */
  lemma WideIsShown(n: nat)
    ensures n >= 10 ==> Pad(n, 2) == Show(n)
    ensures n >= 100 ==> Pad(n, 3) == Show(n)
  {
  }

  /** A number above zero is printed without a leading zero. */
  lemma {:induction false} ShownLeads(n: nat)
    requires n >= 1
    ensures Show(n)[0] != '0'
  {
    if n >= 10 {
      ShownLeads(n / 10);
    }
  }

  /** Digits in front of at least three others are worth at least a thousand. */
  lemma {:induction false} LeadingDigits(front: string, back: string, places: nat)
    requires front != "" && AllDigits(front) && front[0] != '0' && AllDigits(back) && places <= |back|
    ensures AllDigits(front + back) && Value(front + back) >= Tens(places) + Value(back)
    decreases |back|
  {
    assert AllDigits(front + back);
    if back == "" {
      ShowOfValue(front);
      assert front + back == front;
    } else {
      var n := |back| - 1;
      LeadingDigits(front, back[..n], if places == 0 then 0 else places - 1);
      assert (front + back)[..|front| + n] == front + back[..n];
    }
  }

  /** Digits in front are worth their value times the places behind them. */
  lemma {:induction false} ValueOfAppend(a: string, b: string)
    requires AllDigits(a) && AllDigits(b)
    ensures AllDigits(a + b) && Value(a + b) == Value(a) * Tens(|b|) + Value(b)
  {
    assert AllDigits(a + b);
    if b == "" {
      assert a + b == a;
    } else {
      var n := |b| - 1;
      ValueOfAppend(a, b[..n]);
      assert (a + b)[..|a| + n] == a + b[..n];
      assert (a + b)[|a| + n] == b[n];
      assert Value(a + b) == 10 * Value(a + b[..n]) + DigitValue(b[n]);
      assert Value(b) == 10 * Value(b[..n]) + DigitValue(b[n]) && Tens(|b|) == 10 * Tens(n);
      hide Value, Tens;
      Shifted(Value(a), Tens(n), Value(b[..n]), DigitValue(b[n]));
    }
  }

  lemma Shifted(a: nat, tens: nat, b: nat, d: nat)
    ensures 10 * (a * tens + b) + d == a * (10 * tens) + (10 * b + d)
  {
  }

  lemma {:induction false} TensFromThree(places: nat)
    requires places >= 3
    ensures Tens(places) >= 1000 && Tens(3) == 1000
  {
    assert Tens(3) == 10 * Tens(2) == 100 * Tens(1) == 1000 * Tens(0);
    if places > 3 {
      TensFromThree(places - 1);
    }
  }

  /** Powers of ten. */
  function Tens(places: nat): (t: nat)
    ensures t >= 1
  {
    if places == 0 then 1 else 10 * Tens(places - 1)
  }
}
