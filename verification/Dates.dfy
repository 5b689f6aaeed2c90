/** Reading and printing dates: what the print loses, and what a stored date reads back as. */
module Dates {
  import opened Common
  import opened Decimal
  import opened Text

  datatype Date = Date(year: int, month: int, day: int)

  function DaysIn(year: int, month: int): int {
    if month in {4, 6, 9, 11} then 30
    else if month != 2 then 31
    else if year % 4 == 0 && (year % 100 != 0 || year % 400 == 0) then 29
    else 28
  }

  /** The dates of the calendar type, which cannot be made otherwise. */
  predicate OnCalendar(d: Date) {
    1 <= d.year <= 9999 && 1 <= d.month <= 12 && 1 <= d.day <= DaysIn(d.year, d.month)
  }

  function MakeDate(year: int, month: int, day: int): Option<Date> {
    if OnCalendar(Date(year, month, day)) then Some(Date(year, month, day)) else None
  }

  /** The leap years up to a year of the Gregorian calendar. */
  function LeapsUpTo(year: nat): int {
    year / 4 - year / 100 + year / 400
  }

  function DaysBefore(year: int, month: nat): int {
    if month <= 1 then 0 else DaysBefore(year, month - 1) + DaysIn(year, month - 1)
  }

  /** Twelve months make a year of 365 days, and one more for each leap year passed. */
  lemma YearLength(year: nat)
    requires year >= 1
    ensures DaysBefore(year, 13) == 365 + (LeapsUpTo(year) - LeapsUpTo(year - 1))
  {
    assert DaysBefore(year, 4) == DaysIn(year, 1) + DaysIn(year, 2) + DaysIn(year, 3) by {
      assert DaysBefore(year, 2) == DaysIn(year, 1);
    }
    assert DaysBefore(year, 7) == DaysBefore(year, 4) + 91 by {
      assert DaysBefore(year, 5) == DaysBefore(year, 4) + 30;
    }
    assert DaysBefore(year, 10) == DaysBefore(year, 7) + 92 by {
      assert DaysBefore(year, 8) == DaysBefore(year, 7) + 31;
    }
    assert DaysBefore(year, 13) == DaysBefore(year, 10) + 92 by {
      assert DaysBefore(year, 11) == DaysBefore(year, 10) + 31;
    }
    LeapStep(year);
  }

  lemma LeapStep(year: nat)
    requires year >= 1
    ensures LeapsUpTo(year) - LeapsUpTo(year - 1) == DaysIn(year, 2) - 28
  {
    Quarters(year);
    Hundreds(year);
    FourHundreds(year);
    Centuries(year);
    FourCenturies(year);
    FebruaryIs(year);
    LeapsStep(year);
    hide LeapsUpTo, DaysIn;
  }

  lemma LeapsStep(year: nat)
    requires year >= 1
    ensures LeapsUpTo(year) - LeapsUpTo(year - 1)
      == (year / 4 - (year - 1) / 4) - (year / 100 - (year - 1) / 100) + (year / 400 - (year - 1) / 400)
  {
  }

  lemma FebruaryIs(year: int)
    ensures DaysIn(year, 2) - 28 == if year % 4 == 0 && (year % 100 != 0 || year % 400 == 0) then 1 else 0
  {
  }

  lemma Centuries(n: nat)
    ensures n % 100 == 0 ==> n % 4 == 0
  {
    if n % 100 == 0 {
      FoursIn(n, 25 * (n / 100));
    }
  }

  lemma FoursIn(n: nat, k: nat)
    requires n == 4 * k
    ensures n % 4 == 0
  {
  }

  lemma FourCenturies(n: nat)
    ensures n % 400 == 0 ==> n % 100 == 0
  {
    if n % 400 == 0 {
      HundredsIn(n, 4 * (n / 400));
    }
  }

  lemma HundredsIn(n: nat, k: nat)
    requires n == 100 * k
    ensures n % 100 == 0
  {
  }

  lemma Quarters(n: nat)
    requires n >= 1
    ensures n / 4 - (n - 1) / 4 == if n % 4 == 0 then 1 else 0
  {
  }

  lemma Hundreds(n: nat)
    requires n >= 1
    ensures n / 100 - (n - 1) / 100 == if n % 100 == 0 then 1 else 0
  {
  }

  lemma FourHundreds(n: nat)
    requires n >= 1
    ensures n / 400 - (n - 1) / 400 == if n % 400 == 0 then 1 else 0
  {
  }

  // ---------------------------------------------------------------- parse_any_date

  function Before(s: string, c: char): string {
    if s == "" || s[0] == c then "" else [s[0]] + Before(s[1..], c)
  }

  function Dash(c: char): char { if c == '.' || c == '/' then '-' else c }

  function Dashed(s: string): (r: string)
    ensures |r| == |s| && forall i :: 0 <= i < |s| ==> r[i] == Dash(s[i])
  {
    seq(|s|, i requires 0 <= i < |s| => Dash(s[i]))
  }

  function Split(s: string): (r: seq<string>)
    ensures r != []
  {
    if s == "" then [""]
    else
      var rest := Split(s[1..]);
      if s[0] == '-' then [""] + rest else [[s[0]] + rest[0]] + rest[1..]
  }

  predicate IsNumber(s: string) { s != "" && AllDigits(s) }

  /** The parts of a date text: what is left of the first blank or time mark, cut at the separators. */
  function Parts(text: string): seq<string> {
    Split(Dashed(Before(Before(Trim(text), 'T'), ' ')))
  }

  /** A year of two digits falls between 1930 and 2029. */
  function FullYear(part: string): int
    requires IsNumber(part)
  {
    var n := Value(part);
    if |part| == 4 then n else if n < 30 then 2000 + n else 1900 + n
  }

  function ParseAnyDate(text: string, dayFirst: bool): Option<Date> {
    var parts := Parts(text);
    if |parts| != 3 || !IsNumber(parts[0]) || !IsNumber(parts[1]) || !IsNumber(parts[2]) then None
    else
      var p0, p1 := Value(parts[0]), Value(parts[1]);
      if |parts[0]| == 4 then MakeDate(p0, p1, Value(parts[2]))
      else if |parts[2]| != 2 && |parts[2]| != 4 then None
      else
        var year := FullYear(parts[2]);
        if p0 > 12 then MakeDate(year, p1, p0)
        else if p1 > 12 then MakeDate(year, p0, p1)
        else if !dayFirst then MakeDate(year, p0, p1)
        else MakeDate(year, p1, p0)
  }

  // ---------------------------------------------------------------- printing

  /** `strftime("%d/%m/%Y")`, whose year is not padded. */
  function Print(d: Date): string
    requires OnCalendar(d)
  {
    Pad(d.day, 2) + "/" + Pad(d.month, 2) + "/" + Show(d.year)
  }

  /** `format_to_dd_mm_yyyy` of a text; nothing is left of a blank one. */
  function Format(text: string, dayFirst: bool): Option<string> {
    var parsed := ParseAnyDate(text, dayFirst);
    if parsed.Some? && OnCalendar(parsed.value) then Some(Print(parsed.value))
    else if Trim(text) == "" then None
    else Some(Trim(text))
  }

  // ---------------------------------------------------------------- reading back what was printed

  lemma {:induction false} BeforeNone(s: string, c: char)
    requires c !in s
    ensures Before(s, c) == s
  {
    if s != "" {
      BeforeNone(s[1..], c);
    }
  }

  lemma {:induction false} SplitPart(a: string, rest: string)
    requires '-' !in a
    ensures Split(a) == [a]
    ensures Split(a + "-" + rest) == [a] + Split(rest)
  {
    if a == "" {
      assert a + "-" + rest == "-" + rest && ("-" + rest)[1..] == rest;
    } else {
      var t := a + "-" + rest;
      assert t[1..] == a[1..] + "-" + rest;
      SplitPart(a[1..], rest);
      assert [a[0]] + a[1..] == a;
    }
  }

  lemma DigitsHaveNo(s: string, c: char)
    requires AllDigits(s) && !IsDigit(c)
    ensures c !in s
  {
  }

  lemma DashedConcat(s: string, t: string)
    ensures Dashed(s + t) == Dashed(s) + Dashed(t)
  {
  }

  lemma DashedDigits(s: string)
    requires AllDigits(s)
    ensures Dashed(s) == s
  {
  }

  /** One of the separators a date text may use. */
  predicate IsSeparator(c: char) { c == '/' || c == '-' || c == '.' }

  lemma DashedText(a: string, b: string, c: string, sep: char)
    requires AllDigits(a) && AllDigits(b) && AllDigits(c) && IsSeparator(sep)
    ensures Dashed(a + [sep] + b + [sep] + c) == a + "-" + b + "-" + c
  {
    DashedDigits(a);
    DashedDigits(b);
    DashedDigits(c);
    assert Dashed([sep]) == "-";
    hide Dashed;
    DashedConcat(a, [sep]);
    DashedConcat(a + [sep], b);
    DashedConcat(a + [sep] + b, [sep]);
    DashedConcat(a + [sep] + b + [sep], c);
  }

  lemma SeparatedIsPlain(a: string, b: string, c: string, sep: char)
    requires IsNumber(a) && IsNumber(b) && IsNumber(c) && IsSeparator(sep)
    ensures var t := a + [sep] + b + [sep] + c; Trimmed(t) && t != "" && 'T' !in t && ' ' !in t
  {
    var t := a + [sep] + b + [sep] + c;
    assert t[0] == a[0] && t[|t| - 1] == c[|c| - 1];
    DigitsHaveNo(a, 'T');
    DigitsHaveNo(b, 'T');
    DigitsHaveNo(c, 'T');
    DigitsHaveNo(a, ' ');
    DigitsHaveNo(b, ' ');
    DigitsHaveNo(c, ' ');
  }

  lemma PlainParts(t: string)
    requires Trimmed(t) && 'T' !in t && ' ' !in t
    ensures Parts(t) == Split(Dashed(t))
  {
    TrimNothing(t);
    BeforeNone(t, 'T');
    BeforeNone(t, ' ');
  }

  lemma SplitThree(a: string, b: string, c: string)
    requires '-' !in a && '-' !in b && '-' !in c
    ensures Split(a + "-" + b + "-" + c) == [a, b, c]
  {
    hide Split;
    SplitPart(a, b + "-" + c);
    SplitPart(b, c);
    SplitPart(c, "");
    assert a + "-" + (b + "-" + c) == a + "-" + b + "-" + c;
  }

  /** The parts of three numbers between separators are the numbers. */
  lemma PartsOfNumbers(a: string, b: string, c: string, sep: char)
    requires IsNumber(a) && IsNumber(b) && IsNumber(c) && IsSeparator(sep)
    ensures Parts(a + [sep] + b + [sep] + c) == [a, b, c]
  {
    SeparatedIsPlain(a, b, c, sep);
    DashedText(a, b, c, sep);
    DigitsHaveNo(a, '-');
    DigitsHaveNo(b, '-');
    DigitsHaveNo(c, '-');
    hide *;
    PlainParts(a + [sep] + b + [sep] + c);
    SplitThree(a, b, c);
  }

  lemma YearWidth(n: nat)
    ensures n < 10 <==> |Show(n)| == 1
    ensures 10 <= n < 100 <==> |Show(n)| == 2
    ensures 100 <= n < 1000 <==> |Show(n)| == 3
    ensures 1000 <= n < 10000 <==> |Show(n)| == 4
  {
    if n >= 10 {
      assert |Show(n)| == |Show(n / 10)| + 1;
      if n / 10 >= 10 {
        assert |Show(n / 10)| == |Show(n / 10 / 10)| + 1;
        if n / 10 / 10 >= 10 {
          assert |Show(n / 10 / 10)| == |Show(n / 10 / 10 / 10)| + 1;
          if n / 10 / 10 / 10 >= 10 {
            assert |Show(n / 10 / 10 / 10)| == |Show(n / 10 / 10 / 10 / 10)| + 1;
          }
        }
      }
    }
  }

  lemma PrintedParts(d: Date)
    requires OnCalendar(d)
    ensures Parts(Print(d)) == [Pad(d.day, 2), Pad(d.month, 2), Show(d.year)]
    ensures Trim(Print(d)) == Print(d) && Print(d) != ""
  {
    var a, b, c := Pad(d.day, 2), Pad(d.month, 2), Show(d.year);
    hide Pad, Show;
    PartsOfNumbers(a, b, c, '/');
    assert Print(d)[0] == a[0] && Print(d)[|Print(d)| - 1] == c[|c| - 1];
    TrimNothing(Print(d));
  }

  lemma PrintedNumbers(d: Date)
    requires OnCalendar(d)
    ensures |Pad(d.day, 2)| == 2 && Value(Pad(d.day, 2)) == d.day
    ensures |Pad(d.month, 2)| == 2 && Value(Pad(d.month, 2)) == d.month
    ensures Value(Show(d.year)) == d.year
  {
    PadLength(d.day);
    PadLength(d.month);
    ValueOfPad(d.day, 2);
    ValueOfPad(d.month, 2);
    ValueOfShow(d.year);
  }

  /** What a printed date reads back as, in the default order. */
  lemma PrintedReads(d: Date)
    requires OnCalendar(d)
    ensures d.year >= 1000 ==> ParseAnyDate(Print(d), true) == Some(d)
    ensures 10 <= d.year <= 99 ==> ParseAnyDate(Print(d), true) == MakeDate(FullYear(Show(d.year)), d.month, d.day)
    ensures 10 <= d.year <= 99 ==> FullYear(Show(d.year)) == d.year + if d.year < 30 then 2000 else 1900
    ensures d.year <= 9 || 100 <= d.year <= 999 ==> ParseAnyDate(Print(d), true) == None
  {
    PrintedParts(d);
    PrintedNumbers(d);
    YearWidth(d.year);
    hide Parts, Print, Pad, Show, Value, DaysIn, AllDigits;
  }

  /** Reading the print of a date gives the date back exactly from the year 1000 on. */
  lemma RoundTripIff(d: Date)
    requires OnCalendar(d)
    ensures ParseAnyDate(Print(d), true) == Some(d) <==> d.year >= 1000
  {
    PrintedReads(d);
    hide ParseAnyDate, Print, DaysIn;
  }

  lemma ParsedOnCalendar(text: string, dayFirst: bool)
    ensures ParseAnyDate(text, dayFirst).Some? ==> OnCalendar(ParseAnyDate(text, dayFirst).value)
  {
    hide Parts, Value, DaysIn;
  }

  /** Trimmed text reads as the whole text does. */
  lemma TrimmedReads(text: string, dayFirst: bool)
    ensures ParseAnyDate(Trim(text), dayFirst) == ParseAnyDate(text, dayFirst)
  {
    TrimIsTrimmed(text);
    hide Trim, Before, Dashed, Split, Value, DaysIn;
  }

  /**
   * The day/month order decides which date a text means but never whether it means one, and only
   * when both numbers could be months: then the two readings are each other's swap.
   */
  lemma OrderOnlyOrders(text: string)
    ensures var first, second := ParseAnyDate(text, true), ParseAnyDate(text, false);
      && (first.Some? <==> second.Some?)
      && (first.Some? && first != second ==>
           first.value == Date(second.value.year, second.value.day, second.value.month))
  {
    hide Parts, Value;
  }

  /** Four digits stand for themselves, two for the year between 1930 and 2029 that ends in them. */
  predicate YearText(c: string, year: int) {
    && IsNumber(c)
    && ((|c| == 4 && Value(c) == year) || (|c| == 2 && 1930 <= year <= 2029 && Value(c) == year % 100))
  }

  lemma YearReads(c: string, year: int)
    requires YearText(c, year)
    ensures FullYear(c) == year
  {
    hide Value;
  }

  lemma ThreeNumbersRead(a: string, b: string, c: string, sep: char, dayFirst: bool)
    requires IsSeparator(sep) && IsNumber(a) && IsNumber(b) && IsNumber(c) && |a| != 4 && (|c| == 2 || |c| == 4)
    ensures ParseAnyDate(a + [sep] + b + [sep] + c, dayFirst) ==
      if Value(a) <= 12 && (Value(b) > 12 || !dayFirst) then MakeDate(FullYear(c), Value(a), Value(b))
      else MakeDate(FullYear(c), Value(b), Value(a))
  {
    hide Parts, Value, FullYear, MakeDate;
    PartsOfNumbers(a, b, c, sep);
  }

  lemma {:induction false} BeforeAfter(t: string, rest: string, c: char)
    requires c !in t
    ensures Before(t + rest, c) == t + Before(rest, c)
  {
    if t == "" {
      assert t + rest == rest;
    } else {
      assert (t + rest)[1..] == t[1..] + rest;
      BeforeAfter(t[1..], rest, c);
    }
  }

  lemma {:induction false} TrimRightAfter(t: string, rest: string)
    requires t != "" && !IsSpace(t[|t| - 1])
    ensures TrimRight(t + rest) == t + TrimRight(rest)
    ensures rest != "" && TrimRight(rest) != "" ==> TrimRight(rest)[0] == rest[0]
  {
    if rest == "" {
      assert t + rest == t;
    } else if IsSpace(rest[|rest| - 1]) {
      var n := |rest| - 1;
      assert (t + rest)[..|t| + n] == t + rest[..n];
      TrimRightAfter(t, rest[..n]);
    }
  }

  lemma MarkBegins(mark: char, time: string)
    requires mark == ' ' || mark == 'T'
    ensures var rest := TrimRight([mark] + time); Before(Before(rest, 'T'), ' ') == ""
  {
    var rest := TrimRight([mark] + time);
    TrimRightAfter("0", [mark] + time);
    hide TrimRight;
    if rest != "" {
      assert rest[0] == mark;
      assert mark == 'T' ==> Before(rest, 'T') == "";
      assert mark == ' ' ==> Before(rest, 'T') == [' '] + Before(rest[1..], 'T');
    }
  }

  lemma TrimAfter(t: string, rest: string)
    requires Trimmed(t) && t != ""
    ensures Trim(t + rest) == t + TrimRight(rest)
  {
    assert (t + rest)[0] == t[0];
    TrimRightAfter(t, rest);
    hide TrimRight;
  }

  lemma MarkedParts(t: string, mark: char, time: string)
    requires Trimmed(t) && t != "" && 'T' !in t && ' ' !in t && (mark == ' ' || mark == 'T')
    ensures Parts(t + ([mark] + time)) == Parts(t)
  {
    var rest := TrimRight([mark] + time);
    TrimAfter(t, [mark] + time);
    BeforeAfter(t, rest, 'T');
    BeforeAfter(t, Before(rest, 'T'), ' ');
    MarkBegins(mark, time);
    PlainParts(t);
    hide Trim, TrimRight, Before, Split, Dashed;
    assert t + "" == t;
  }

  /** A time of day, after a blank or a time mark, plays no part. */
  lemma TimeIgnored(t: string, mark: char, time: string, dayFirst: bool)
    requires Trimmed(t) && t != "" && 'T' !in t && ' ' !in t && (mark == ' ' || mark == 'T')
    ensures ParseAnyDate(t + [mark] + time, dayFirst) == ParseAnyDate(t, dayFirst)
  {
    MarkedParts(t, mark, time);
    hide Parts, Value, FullYear, MakeDate, Trimmed;
    assert t + ([mark] + time) == t + [mark] + time;
  }

  /** A date written day, month, year is read as such if that is the order asked for or the day is no month. */
  lemma DayMonthReads(d: Date, a: string, b: string, c: string, sep: char, dayFirst: bool)
    requires OnCalendar(d) && IsSeparator(sep)
    requires IsNumber(a) && IsNumber(b) && |a| != 4 && Value(a) == d.day && Value(b) == d.month && YearText(c, d.year)
    ensures ParseAnyDate(a + [sep] + b + [sep] + c, dayFirst) ==
      Some(if dayFirst || d.day > 12 then d else Date(d.year, d.day, d.month))
  {
    YearReads(c, d.year);
    if d.day <= 12 {
      SwapOnCalendar(d);
    }
    hide ParseAnyDate, Value, FullYear, DaysIn;
    ThreeNumbersRead(a, b, c, sep, dayFirst);
  }

  /** A date written month, day, year is, if that order is asked for or the day is no month. */
  lemma MonthDayReads(d: Date, a: string, b: string, c: string, sep: char, dayFirst: bool)
    requires OnCalendar(d) && IsSeparator(sep)
    requires IsNumber(a) && IsNumber(b) && |a| != 4 && Value(a) == d.month && Value(b) == d.day && YearText(c, d.year)
    ensures ParseAnyDate(a + [sep] + b + [sep] + c, dayFirst) ==
      Some(if !dayFirst || d.day > 12 then d else Date(d.year, d.day, d.month))
  {
    YearReads(c, d.year);
    if d.day <= 12 {
      SwapOnCalendar(d);
    }
    hide ParseAnyDate, Value, FullYear, DaysIn;
    ThreeNumbersRead(a, b, c, sep, dayFirst);
  }

  lemma SwapOnCalendar(d: Date)
    requires OnCalendar(d) && d.day <= 12
    ensures OnCalendar(Date(d.year, d.day, d.month))
  {
  }

  lemma FormatOfPrint(d: Date)
    requires OnCalendar(d)
    ensures Format(Print(d), true) == Some(Print(d)) <==> d.year < 10 || d.year > 99
  {
    PrintedReads(d);
    PrintedParts(d);
    if 10 <= d.year <= 99 {
      OtherYear(d);
      hide ParseAnyDate, Print, Trim, DaysIn, FullYear, Show, OnCalendar, MakeDate;
      assert Format(Print(d), true) != Some(Print(d));
    } else {
      hide ParseAnyDate, Print, Trim, DaysIn, FullYear, Show, MakeDate;
    }
    hide *;
  }

  lemma FormatOfText(text: string, dayFirst: bool)
    requires ParseAnyDate(text, dayFirst).None? && Trim(text) != ""
    ensures Format(Trim(text), true) == Some(Trim(text))
  {
    TrimIsTrimmed(text);
    OrderOnlyOrders(text);
    TrimmedReads(text, true);
    hide ParseAnyDate, Print, Trim, OnCalendar;
  }

  /**
   * Printing what a text means, whatever order it is read in, gives text that prints as itself,
   * exactly when the text means no date of the years 10 to 99, which read back as other years.
   */
  lemma FormatIdempotentIff(text: string, dayFirst: bool)
    ensures var once, d := Format(text, dayFirst), ParseAnyDate(text, dayFirst);
      once.Some? ==> (Format(once.value, true) == once <==> d == None || d.value.year < 10 || d.value.year > 99)
  {
    var d := ParseAnyDate(text, dayFirst);
    ParsedOnCalendar(text, dayFirst);
    hide ParseAnyDate, Print, Trim, OnCalendar;
    if d.Some? {
      assert Format(text, dayFirst) == Some(Print(d.value));
      hide Format;
      FormatOfPrint(d.value);
    } else if Trim(text) != "" {
      assert Format(text, dayFirst) == Some(Trim(text));
      hide Format;
      FormatOfText(text, dayFirst);
    }
  }

  lemma FiftyText()
    ensures "0050-01-01" == "0050" + ['-'] + "01" + ['-'] + "01"
    ensures IsNumber("0050") && IsNumber("01") && |"0050"| == 4
    ensures OnCalendar(Date(50, 1, 1))
  {
  }

  /** The year 50 prints with two digits and comes back as 1950. */
  lemma YearFiftyChanges()
    ensures Format("0050-01-01", true) == Some(Print(Date(50, 1, 1)))
    ensures Format(Print(Date(50, 1, 1)), true) != Some(Print(Date(50, 1, 1)))
  {
    hide *;
    FiftyText();
    FiftyValue();
    FormatOfPrint(Date(50, 1, 1));
    IsoReads("0050", "01", "01");
  }

  lemma IsoReads(y: string, m: string, d: string)
    requires IsNumber(y) && IsNumber(m) && IsNumber(d) && |y| == 4 && OnCalendar(Date(Value(y), Value(m), Value(d)))
    ensures Format(y + ['-'] + m + ['-'] + d, true) == Some(Print(Date(Value(y), Value(m), Value(d))))
  {
    PartsOfNumbers(y, m, d, '-');
    hide Parts, Print, Value, Trim;
  }

  lemma FiftyValue()
    ensures Value("0050") == 50 && Value("01") == 1
  {
    ValueOfZero("050");
    ValueOfZero("50");
    ValueOfZero("1");
    assert "0" + "050" == "0050" && "0" + "50" == "050" && "0" + "1" == "01";
    assert "50"[..1] == "5" && "5"[..0] == "" && "1"[..0] == "";
    assert Value("5") == 5 && Value("50") == 50 && Value("1") == 1;
  }

  /** A year of two digits, read back as one of four, prints differently. */
  lemma OtherYear(d: Date)
    requires OnCalendar(d) && 10 <= d.year <= 99
    ensures var again := MakeDate(FullYear(Show(d.year)), d.month, d.day);
      again.Some? && OnCalendar(again.value) && Print(again.value) != Print(d)
  {
    YearWidth(d.year);
    ValueOfShow(d.year);
    var year := FullYear(Show(d.year));
    assert OnCalendar(Date(year, d.month, d.day));
    YearWidth(year);
    PadLength(d.day);
    PadLength(d.month);
    hide Pad, Show, Value, OnCalendar;
    assert |Print(Date(year, d.month, d.day))| == 10 && |Print(d)| == 8;
  }

  // ---------------------------------------------------------------- the sheet import

  /** A date cell: the common forms first, then whatever other formats (`fallback`) make of it. */
  function ParseCell(raw: string, dayFirst: bool, fallback: Option<Date>): Option<Date> {
    if Trim(raw) == "" then None
    else if ParseAnyDate(Trim(raw), dayFirst).Some? then ParseAnyDate(Trim(raw), dayFirst)
    else fallback
  }

  /** The profile value of a date field: the parsed date printed, or else the text as it stands. */
  function ProfileValue(raw: string, parsed: Option<Date>): Option<string> {
    if parsed.Some? && OnCalendar(parsed.value) then Some(Print(parsed.value)) else Format(raw, true)
  }

  /**
   * Whichever order the import read a cell in, the stored value reads back, in the default order,
   * as the date it had parsed, exactly from the year 1000 on; an unreadable cell is kept as text.
   */
  lemma StoredDateReads(raw: string, dayFirst: bool, fallback: Option<Date>)
    requires fallback.Some? ==> OnCalendar(fallback.value)
    ensures var parsed := ParseCell(raw, dayFirst, fallback);
      var stored := ProfileValue(raw, parsed);
      && (parsed.Some? ==> stored.Some? && (ParseAnyDate(stored.value, true) == parsed <==> parsed.value.year >= 1000))
      && (parsed.None? ==> stored == if Trim(raw) == "" then None else Some(Trim(raw)))
  {
    var parsed := ParseCell(raw, dayFirst, fallback);
    ParsedOnCalendar(Trim(raw), dayFirst);
    if parsed.Some? {
      RoundTripIff(parsed.value);
    } else {
      TrimmedReads(raw, dayFirst);
      OrderOnlyOrders(raw);
      BlankReads(raw);
    }
    hide ParseAnyDate, Print, Trim, DaysIn;
  }

  lemma BlankReads(raw: string)
    ensures Trim(raw) == "" ==> ParseAnyDate(raw, true) == None
  {
    if Trim(raw) == "" {
      assert Before(Before("", 'T'), ' ') == "" && Dashed("") == "";
      assert Parts(raw) == [""];
    }
  }
}
