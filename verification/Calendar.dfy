/** Dates as a correction proposes them: `normalizeDate` under the form's own format (src/lib/import/dates.ts). */
module Calendar {
  import opened Wrappers
  import opened Text
  import opened Normalize
  import opened Money
  import Decimal

  // ----- the calendar -----

  datatype Day = Day(year: nat, month: nat, day: nat)

  predicate Leap(year: nat) {
    year % 4 == 0 && (year % 100 != 0 || year % 400 == 0)
  }

  function DaysIn(year: nat, month: nat): (n: nat)
    ensures 28 <= n <= 31
  {
    if month == 2 then if Leap(year) then 29 else 28
    else if month == 4 || month == 6 || month == 9 || month == 11 then 30
    else 31
  }

  /** The last day a script's clock can name. */
  const LAST_DAY := Day(275760, 9, 13)

  predicate UpTo(d: Day, last: Day) {
    d.year < last.year || (d.year == last.year && (d.month < last.month || (d.month == last.month && d.day <= last.day)))
  }

  /** A day that exists, in a year the date constructor does not move by a century. */
  predicate Valid(d: Day) {
    100 <= d.year && 1 <= d.month <= 12 && 1 <= d.day <= DaysIn(d.year, d.month) && UpTo(d, LAST_DAY)
  }

  // ----- printing -----

  function Zeros(n: nat): (r: string)
    ensures |r| == n && forall i :: 0 <= i < n ==> r[i] == '0'
  {
    seq(n, _ => '0')
  }

  /** At least `width` digits, zeros in front. */
  function Pad(n: nat, width: nat): (r: string)
    ensures Decimal.AllDigits(r) && |r| >= width && r != ""
  {
    var digits := Decimal.Render(n);
    Zeros(if |digits| < width then width - |digits| else 0) + digits
  }

  /** The first ten characters of the ISO text: a year past 9999 takes a sign and six digits, and the day falls off the end. */
  function IsoText(d: Day): string {
    if d.year < 10000 then Pad(d.year, 4) + "-" + (Pad(d.month, 2) + "-" + Pad(d.day, 2))
    else "+" + Pad(d.year, 6) + "-" + Pad(d.month, 2)
  }

  // ----- reading -----

  predicate Separator(c: char) {
    c == '/' || c == '-' || c == '.'
  }

  function Pieces(s: string): (r: seq<string>)
    ensures |r| > 0
  {
    if s == [] then [[]]
    else
      var rest := Pieces(s[1..]);
      if Separator(s[0]) then [[]] + rest else [[s[0]] + rest[0]] + rest[1..]
  }

  predicate IsDigits(s: string)
    ensures IsDigits(s) ==> s != "" && Decimal.AllDigits(s)
  {
    s != "" && LeadingDigits(s) == |s|
  }

  /** Three runs of digits, year first. */
  function ParseFormatted(text: string): (d: Option<Day>)
    ensures d.Some? ==> Valid(d.value)
  {
    var parts := Pieces(text);
    if |parts| != 3 then None
    else
      var year, month, day := Trim(parts[0]), Trim(parts[1]), Trim(parts[2]);
      if !IsDigits(year) || !IsDigits(month) || !IsDigits(day) then None
      else
        var d := Day(Decimal.Parse(year), Decimal.Parse(month), Decimal.Parse(day));
        if Valid(d) then Some(d) else None
  }

  /** Days from a month to the end of its year. */
  function DaysFrom(year: nat, month: nat): (n: nat)
    requires 1 <= month <= 12
    decreases 12 - month
  {
    DaysIn(year, month) + if month == 12 then 0 else DaysFrom(year, month + 1)
  }

  function DayOfYear(year: nat, month: nat, n: nat): (d: Day)
    requires 1 <= month <= 12 && n < DaysFrom(year, month)
    ensures d.year == year && month <= d.month <= 12 && 1 <= d.day <= DaysIn(year, d.month)
    decreases 12 - month
  {
    if n < DaysIn(year, month) then Day(year, month, n + 1) else DayOfYear(year, month + 1, n - DaysIn(year, month))
  }

  /** The day `n` days after the first of a year. */
  function DayAfter(year: nat, n: nat): (d: Day)
    ensures d.year >= year && 1 <= d.month <= 12 && 1 <= d.day <= DaysIn(d.year, d.month)
    decreases n
  {
    if n < DaysFrom(year, 1) then DayOfYear(year, 1, n) else DayAfter(year + 1, n - DaysFrom(year, 1))
  }

  /** The largest serial whose day a script's clock can name, counted from 30 December 1899. */
  const LAST_SERIAL := 100_025_569

  /** `^\d+(\.\d+)?$`, and above 366: what is read as a spreadsheet serial instead. */
  predicate IsSerial(text: string) {
    var m := MatchUnsigned(text);
    && m.Some? && text[|text| - 1] != '.'
    && (Decimal.Parse(m.value.whole) > 366 || (Decimal.Parse(m.value.whole) == 366 && Decimal.Parse(m.value.fraction) > 0))
  }

  function FromSerial(text: string): Option<Day>
    requires IsSerial(text)
  {
    var whole := Decimal.Parse(MatchUnsigned(text).value.whole);
    if whole <= LAST_SERIAL then Some(DayAfter(1900, whole - 2)) else None
  }

  function NormalizeDate(raw: string): Normalized {
    if Sentinel(raw) then Normalized(None, false)
    else
      var text := Trim(raw);
      var day := if IsSerial(text) then FromSerial(text) else ParseFormatted(text);
      if day.None? then Normalized(None, true) else Normalized(Some(IsoText(day.value)), false)
  }

  // ----- a second pass -----

  predicate Named(d: Day) {
    100 <= d.year && 1 <= d.month <= 12 && 1 <= d.day <= DaysIn(d.year, d.month)
  }

  lemma NormalizedIsNamed(raw: string) returns (d: Day)
    requires NormalizeDate(raw).value.Some?
    ensures Named(d) && NormalizeDate(raw).value == Some(IsoText(d))
    ensures !NormalizeDate(raw).error
  {
    hide IsoText, MatchUnsigned, Decimal.Parse, Pieces, Sentinel, DayAfter;
    var text := Trim(raw);
    d := if IsSerial(text) then FromSerial(text).value else ParseFormatted(text).value;
  }

  lemma {:induction false} ZerosInFront(zeros: string, digits: string)
    requires Decimal.AllDigits(digits) && forall i :: 0 <= i < |zeros| ==> zeros[i] == '0'
    ensures Decimal.AllDigits(zeros + digits) && Decimal.Parse(zeros + digits) == Decimal.Parse(digits)
    decreases |digits|, |zeros|
  {
    var s := zeros + digits;
    if digits == [] {
      if zeros != [] {
        ZerosInFront(zeros[..|zeros| - 1], []);
        assert s[..|s| - 1] == zeros[..|zeros| - 1] + [];
      } else {
        assert s == [];
      }
    } else {
      ZerosInFront(zeros, digits[..|digits| - 1]);
      assert s[..|s| - 1] == zeros + digits[..|digits| - 1];
    }
  }

  lemma PadReads(n: nat, width: nat)
    ensures Decimal.Parse(Pad(n, width)) == n && IsDigits(Pad(n, width)) && Trim(Pad(n, width)) == Pad(n, width)
  {
    var digits := Decimal.Render(n);
    ZerosInFront(Zeros(if |digits| < width then width - |digits| else 0), digits);
    Decimal.ParseRender(n);
    AllLeading(Pad(n, width));
    StripFixpoint(Pad(n, width), ScriptSpace);
  }

  /** A piece without separators, then the rest. */
  lemma {:induction false} PieceThenRest(a: string, c: char, b: string)
    requires Separator(c) && forall i :: 0 <= i < |a| ==> !Separator(a[i])
    ensures Pieces(a + [c] + b) == [a] + Pieces(b)
  {
    var s := a + [c] + b;
    if a == [] {
      assert s == [c] + b && s[1..] == b;
    } else {
      PieceThenRest(a[1..], c, b);
      assert s[1..] == a[1..] + [c] + b;
      assert [a[0]] + a[1..] == a;
      assert ([a[1..]] + Pieces(b))[1..] == Pieces(b);
    }
  }

  lemma {:induction false} OnePiece(a: string)
    requires forall i :: 0 <= i < |a| ==> !Separator(a[i])
    ensures Pieces(a) == [a]
  {
    if a != [] {
      OnePiece(a[1..]);
      assert [a[0]] + a[1..] == a;
    }
  }

  lemma LongIsNoSentinel(s: string)
    requires |s| > 4
    ensures Lower(s) !in SENTINELS
  {
    assert |Lower(s)| == |s|;
  }

  lemma DashIsNoSerial(digits: string, rest: string)
    requires Decimal.AllDigits(digits)
    ensures !IsSerial(digits + ("-" + rest))
  {
    hide Decimal.Parse;
    LeadingDigitsOf(digits, "-" + rest);
    assert (digits + ("-" + rest))[|digits|..] == "-" + rest;
  }

  lemma PlusIsNoSerial(rest: string)
    ensures !IsSerial("+" + rest)
  {
    assert LeadingDigits("+" + rest) == 0;
  }

  /** A day in a four-digit year is read back from its ISO text. */
  lemma FourDigitsReadBack(d: Day)
    requires Named(d) && d.year < 10000
    ensures NormalizeDate(IsoText(d)) == Normalized(Some(IsoText(d)), false)
    ensures IsoText(d)[0] != '+'
  {
    hide LeadingDigits, MatchUnsigned, Decimal.Parse, Decimal.Render, StripLeft, StripRight, Pad, IsSerial, Decimal.AllDigits;
    var y, m, day := Pad(d.year, 4), Pad(d.month, 2), Pad(d.day, 2);
    var s := IsoText(d);
    assert s == y + ("-" + (m + "-" + day));
    EndsInDigits(y, "-" + (m + "-"), day);
    assert y + ("-" + (m + "-")) + day == s;
    StripFixpoint(s, ScriptSpace);
    LongIsNoSentinel(s);
    DashIsNoSerial(y, m + "-" + day);
    assert s == y + ['-'] + (m + "-" + day) && m + "-" + day == m + ['-'] + day;
    DigitsAreNoSeparators(y);
    DigitsAreNoSeparators(m);
    PieceThenRest(y, '-', m + "-" + day);
    PieceThenRest(m, '-', day);
    DigitsAreNoSeparators(day);
    OnePiece(day);
    assert Pieces(s) == [y, m, day];
    PadReads(d.year, 4);
    PadReads(d.month, 2);
    PadReads(d.day, 2);
  }

  lemma DigitsAreNoSeparators(s: string)
    requires Decimal.AllDigits(s)
    ensures forall i :: 0 <= i < |s| ==> !Separator(s[i])
  {
  }

  lemma EndsInDigits(first: string, between: string, last: string)
    requires first != "" && last != "" && Decimal.AllDigits(first) && Decimal.AllDigits(last)
    ensures var s := first + between + last; Stripped(s, ScriptSpace) && s[0] != '+'
  {
    var s := first + between + last;
    assert s[0] == first[0] && s[|s| - 1] == last[|last| - 1];
  }

  /** A later day is printed as a text that is no date. */
  lemma SixDigitsAreRefused(d: Day)
    requires Named(d) && d.year >= 10000
    ensures NormalizeDate(IsoText(d)) == Normalized(None, true)
    ensures IsoText(d)[0] == '+'
  {
    hide LeadingDigits, MatchUnsigned, Decimal.Parse, Decimal.Render, StripLeft, StripRight, Pad, IsSerial, Decimal.AllDigits;
    var y, m := Pad(d.year, 6), Pad(d.month, 2);
    var s := IsoText(d);
    PlusStrips(y + "-", m);
    assert s == "+" + (y + "-" + m) == "+" + (y + "-") + m;
    LongIsNoSentinel(s);
    StripFixpoint(s, ScriptSpace);
    PlusIsNoSerial(y + "-" + m);
    SignedPieces(y, m);
  }

  lemma PlusStrips(between: string, last: string)
    requires last != "" && Decimal.AllDigits(last)
    ensures Stripped("+" + between + last, ScriptSpace)
  {
    var s := "+" + between + last;
    assert s[|s| - 1] == last[|last| - 1];
  }

  lemma SignedPieces(y: string, m: string)
    requires Decimal.AllDigits(y) && Decimal.AllDigits(m)
    ensures |Pieces("+" + (y + "-" + m))| == 2
  {
    var s := "+" + (y + "-" + m);
    assert s[1..] == y + ['-'] + m;
    PieceThenRest(y, '-', m);
    DigitsAreNoSeparators(m);
    OnePiece(m);
  }

  /** Normalizing what was normalized changes nothing, or, for a year past 9999, refuses it. */
  lemma DateSecondPass(raw: string)
    requires NormalizeDate(raw).value.Some?
    ensures var v := NormalizeDate(raw).value.value;
            && v != "" && !NormalizeDate(raw).error
            && NormalizeDate(v) == if v[0] == '+' then Normalized(None, true) else Normalized(Some(v), false)
  {
    hide NormalizeDate, IsoText;
    var d := NormalizedIsNamed(raw);
    IsoIsNotEmpty(d);
    if d.year < 10000 {
      FourDigitsReadBack(d);
    } else {
      SixDigitsAreRefused(d);
    }
  }

  lemma IsoIsNotEmpty(d: Day)
    ensures IsoText(d) != ""
  {
  }

  // ----- which day is read -----

  /** A year has a day more when 4 divides it, and if 100 divides it, only when 400 does. */
  lemma YearsExactly(year: nat)
    ensures DaysFrom(year, 1) == if (year % 4 == 0 && year % 100 != 0) || year % 400 == 0 then 366 else 365
  {
    assert DaysFrom(year, 7) == DaysIn(year, 7) + DaysFrom(year, 8);
    assert DaysFrom(year, 4) == DaysIn(year, 4) + DaysIn(year, 5) + DaysIn(year, 6) + DaysFrom(year, 7);
    assert DaysFrom(year, 10) == DaysIn(year, 10) + DaysIn(year, 11) + DaysIn(year, 12);
    assert DaysFrom(year, 8) == DaysIn(year, 8) + DaysIn(year, 9) + DaysFrom(year, 10);
  }

  function DaysBeforeMonth(year: nat, month: nat): nat {
    if month <= 1 then 0 else DaysBeforeMonth(year, month - 1) + DaysIn(year, month - 1)
  }

  /** The days from the first of one year to the first of another. */
  function DaysBetween(first: nat, last: nat): nat
    decreases last
  {
    if last <= first then 0
    else
      var y := last - 1;
      DaysBetween(first, y) + if (y % 4 == 0 && y % 100 != 0) || y % 400 == 0 then 366 else 365
  }

  lemma {:induction false} DayOfYearExactly(year: nat, month: nat, n: nat)
    requires 1 <= month <= 12 && n < DaysFrom(year, month)
    ensures var d := DayOfYear(year, month, n);
            DaysBeforeMonth(year, month) + n == DaysBeforeMonth(year, d.month) + d.day - 1
    decreases 12 - month
  {
    if n >= DaysIn(year, month) {
      DayOfYearExactly(year, month + 1, n - DaysIn(year, month));
    }
  }

  lemma {:induction false} DaysBetweenAdds(first: nat, last: nat)
    requires first < last
    ensures DaysBetween(first, last) == DaysFrom(first, 1) + DaysBetween(first + 1, last)
    decreases last
  {
    hide DaysFrom;
    YearsExactly(last - 1);
    if first + 1 < last {
      DaysBetweenAdds(first, last - 1);
    }
  }

  /** Counting days from the first of a year arrives at the day that many days later. */
  lemma {:induction false} DayAfterExactly(year: nat, n: nat)
    ensures var d := DayAfter(year, n);
            n == DaysBetween(year, d.year) + DaysBeforeMonth(d.year, d.month) + d.day - 1
    decreases n
  {
    hide DaysFrom;
    YearsExactly(year);
    if n < DaysFrom(year, 1) {
      DayOfYearExactly(year, 1, n);
    } else {
      DayAfterExactly(year + 1, n - DaysFrom(year, 1));
      DaysBetweenAdds(year, DayAfter(year, n).year);
    }
  }

  /** The leap years up to a year. */
  function LeapsTo(year: nat): int {
    year / 4 - year / 100 + year / 400
  }

  lemma FourthStep(year: nat)
    requires year > 0
    ensures year / 4 - (year - 1) / 4 == if year % 4 == 0 then 1 else 0
  {
    var q, r := year / 4, year % 4;
    assert year == 4 * q + r;
  }

  lemma HundredthStep(year: nat)
    requires year > 0
    ensures year / 100 - (year - 1) / 100 == if year % 100 == 0 then 1 else 0
  {
    var q, r := year / 100, year % 100;
    assert year == 100 * q + r;
  }

  lemma FourHundredthStep(year: nat)
    requires year > 0
    ensures year / 400 - (year - 1) / 400 == if year % 400 == 0 then 1 else 0
  {
    var q, r := year / 400, year % 400;
    assert year == 400 * q + r;
  }

  lemma MultiplesOfFour(q: nat)
    ensures (100 * q) % 4 == 0
  {
    FourTimes(25 * q);
  }

  lemma FourTimes(m: nat)
    ensures (4 * m) % 4 == 0
  {
  }

  lemma MultiplesOfAHundred(q: nat)
    ensures (400 * q) % 100 == 0
  {
    assert 400 * q == 100 * (4 * q);
  }

  lemma LeapStep(year: nat)
    requires year > 0
    ensures LeapsTo(year) - LeapsTo(year - 1) == if (year % 4 == 0 && year % 100 != 0) || year % 400 == 0 then 1 else 0
  {
    FourthStep(year);
    HundredthStep(year);
    FourHundredthStep(year);
    MultiplesOfFour(year / 100);
    MultiplesOfAHundred(year / 400);
  }

  lemma {:induction false} DaysBetweenAtOnce(first: nat, last: nat)
    requires 0 < first <= last
    ensures DaysBetween(first, last) == 365 * (last - first) + LeapsTo(last - 1) - LeapsTo(first - 1)
    decreases last
  {
    hide LeapsTo;
    if first < last {
      DaysBetweenAtOnce(first, last - 1);
      LeapStep(last - 1);
    }
  }

  lemma YearHolds(year: nat, month: nat)
    requires 1 <= month <= 12
    ensures DaysBeforeMonth(year, month) + DaysIn(year, month) <= if (year % 4 == 0 && year % 100 != 0) || year % 400 == 0 then 366 else 365
  {
    MonthsAdd(year);
  }

  lemma MonthsAdd(year: nat)
    ensures var f := DaysIn(year, 2);
            && DaysBeforeMonth(year, 1) == 0 && DaysBeforeMonth(year, 2) == 31 && DaysBeforeMonth(year, 3) == 31 + f
            && DaysBeforeMonth(year, 4) == 62 + f && DaysBeforeMonth(year, 5) == 92 + f && DaysBeforeMonth(year, 6) == 123 + f
            && DaysBeforeMonth(year, 7) == 153 + f && DaysBeforeMonth(year, 8) == 184 + f && DaysBeforeMonth(year, 9) == 215 + f
            && DaysBeforeMonth(year, 10) == 245 + f && DaysBeforeMonth(year, 11) == 276 + f && DaysBeforeMonth(year, 12) == 306 + f
  {
    hide DaysIn;
    assert DaysBeforeMonth(year, 1) == 0;
    assert DaysBeforeMonth(year, 2) == DaysIn(year, 1);
    MonthLengths(year);
  }

  lemma MonthLengths(year: nat)
    ensures forall m :: 1 <= m <= 12 && m != 2 ==> DaysIn(year, m) == if m == 4 || m == 6 || m == 9 || m == 11 then 30 else 31
  {
  }

  /** The serials that are read are exactly those of days up to the last one a script's clock can name. */
  lemma SerialsEndWithTheClock(n: nat)
    requires n > 366
    ensures UpTo(DayAfter(1900, n - 2), LAST_DAY) <==> n <= LAST_SERIAL
  {
    hide DayAfter, DaysBetween, DaysBeforeMonth, DaysIn;
    var d := DayAfter(1900, n - 2);
    DayAfterExactly(1900, n - 2);
    DaysBetweenAtOnce(1900, d.year);
    YearHolds(d.year, d.month);
    MonthsAdd(d.year);
    MonthsAdd(275760);
    LeapDay();
    if d.year < 275760 {
      Earlier(d.year);
    } else if d.year > 275760 {
      Later(d.year);
    }
  }

  lemma LeapDay()
    ensures DaysIn(275760, 2) == 29
    ensures LeapsTo(275759) == 66871 && LeapsTo(1899) == 460
  {
  }

  lemma Earlier(year: nat)
    requires 1900 <= year < 275760
    ensures 365 * (year - 1900) + LeapsTo(year - 1) - LeapsTo(1899) + 366 <= 365 * (275760 - 1900) + 66871 - 460 + 1
  {
  }

  lemma Later(year: nat)
    requires year > 275760
    ensures 365 * (year - 1900) + LeapsTo(year - 1) - LeapsTo(1899) >= 365 * (275761 - 1900) + 66872 - 460
  {
  }

  lemma DigitFirst(s: string)
    requires s != "" && Decimal.IsDigit(s[0])
    ensures Lower(s) !in SENTINELS
  {
    assert Lower(s)[0] == s[0];
  }

  /** A run of digits that is no small number is a spreadsheet's serial: so many days after 30 December 1899. */
  lemma SerialIsRead(digits: string)
    requires digits != "" && Decimal.AllDigits(digits) && 366 < Decimal.Parse(digits) <= LAST_SERIAL
    ensures exists d: Day :: NormalizeDate(digits) == Normalized(Some(IsoText(d)), false)
              && Decimal.Parse(digits) == DaysBetween(1900, d.year) + DaysBeforeMonth(d.year, d.month) + d.day + 1
  {
    hide Decimal.Parse, IsoText, MatchUnsigned, StripLeft, StripRight, DayAfter, DaysBetween, DaysBeforeMonth;
    StripFixpoint(digits, ScriptSpace);
    DigitFirst(digits);
    UnsignedReads(digits, "");
    DayAfterExactly(1900, Decimal.Parse(digits) - 2);
  }

  /** A number too small for a serial is refused: it is no date. */
  lemma SmallNumberIsRefused(digits: string)
    requires digits != "" && Decimal.AllDigits(digits) && Decimal.Parse(digits) <= 366
    ensures NormalizeDate(digits) == Normalized(None, true)
  {
    hide Decimal.Parse, IsoText, StripLeft, StripRight;
    StripFixpoint(digits, ScriptSpace);
    DigitFirst(digits);
    UnsignedReads(digits, "");
    NoDigitsAreZero();
    DigitsAreNoSeparators(digits);
    OnePiece(digits);
  }

  lemma NoDigitsAreZero()
    ensures Decimal.Parse("") == 0
  {
  }

  /** A text with two separators in it is no number. */
  lemma SeparatedIsNoSerial(s: string, i: nat, j: nat)
    requires i < j < |s| && Separator(s[i]) && Separator(s[j])
    ensures !IsSerial(s)
  {
    hide MatchUnsigned, Decimal.Parse;
    if MatchUnsigned(s).Some? {
      ReadOnlyThese(s);
    }
  }

  lemma ThreePieces(a: string, c: char, b: string, e: char, d: string)
    requires Separator(c) && Separator(e)
    requires forall i :: 0 <= i < |a| ==> !Separator(a[i])
    requires forall i :: 0 <= i < |b| ==> !Separator(b[i])
    requires forall i :: 0 <= i < |d| ==> !Separator(d[i])
    ensures Pieces(a + ([c] + (b + ([e] + d)))) == [a, b, d]
  {
    hide Pieces;
    var tail := b + ([e] + d);
    assert a + ([c] + tail) == a + [c] + tail && tail == b + [e] + d;
    PieceThenRest(a, c, tail);
    PieceThenRest(b, e, d);
    OnePiece(d);
  }

  /** A piece is a number with any white space around it. */
  ghost predicate IsNumberPiece(piece: string) {
    Trim(piece) != "" && Decimal.AllDigits(Trim(piece)) && forall i :: 0 <= i < |piece| ==> piece[i] != '/' && piece[i] != '-' && piece[i] != '.'
  }

  function NumberOf(piece: string): nat
    requires Decimal.AllDigits(Trim(piece))
  {
    Decimal.Parse(Trim(piece))
  }

  /** Year, month and day with separators between them, and white space around them, are that day if it exists, and refused if it does not. */
  lemma DayIsRead(year: string, c: char, month: string, e: char, day: string)
    requires IsNumberPiece(year) && IsNumberPiece(month) && IsNumberPiece(day)
    requires (c == '/' || c == '-' || c == '.') && (e == '/' || e == '-' || e == '.')
    requires Stripped(year + ([c] + (month + ([e] + day))), ScriptSpace)
    ensures var d := Day(NumberOf(year), NumberOf(month), NumberOf(day));
            NormalizeDate(year + ([c] + (month + ([e] + day)))) == if Valid(d) then Normalized(Some(IsoText(d)), false) else Normalized(None, true)
  {
    hide LeadingDigits, MatchUnsigned, Decimal.Parse, StripLeft, StripRight, IsSerial, IsoText, Valid, Pieces;
    var s := year + ([c] + (month + ([e] + day)));
    StripFixpoint(s, ScriptSpace);
    FirstOfPiece(year);
    assert s[0] == year[0];
    DigitFirst(s);
    assert s[|year|] == c && s[|year| + 1 + |month|] == e;
    SeparatedIsNoSerial(s, |year|, |year| + 1 + |month|);
    ThreePieces(year, c, month, e, day);
    AllLeading(Trim(year));
    AllLeading(Trim(month));
    AllLeading(Trim(day));
  }

  lemma FirstOfPiece(piece: string)
    requires IsNumberPiece(piece)
    ensures piece != "" && (!ScriptSpace(piece[0]) ==> Decimal.IsDigit(piece[0]))
  {
    var left := StripLeft(piece, ScriptSpace);
    assert Trim(piece) <= left;
    assert Trim(piece)[0] == left[0];
  }

  lemma OnlyDigits(s: string)
    requires s != "" && Decimal.AllDigits(s)
    ensures Trim(s) == s && IsDigits(s)
  {
    StripFixpoint(s, ScriptSpace);
    AllLeading(s);
  }

  /** A day that exists, and how its text is written. */
  lemma DaysExactly(d: Day)
    ensures Valid(d) <==>
              && 100 <= d.year && 1 <= d.month <= 12 && 1 <= d.day
              && d.day <= (if d.month == 4 || d.month == 6 || d.month == 9 || d.month == 11 then 30
                           else if d.month != 2 then 31
                           else if (d.year % 4 == 0 && d.year % 100 != 0) || d.year % 400 == 0 then 29 else 28)
              && (d.year < 275760 || (d.year == 275760 && (d.month < 9 || (d.month == 9 && d.day <= 13))))
  {
  }

  /** Four digits, two and two, with hyphens. */
  lemma IsoTextOfADay()
    ensures IsoText(Day(2026, 3, 4)) == "2026-03-04"
  {
    hide Decimal.Render;
    DigitsOf2026();
    assert Pad(2026, 4) == "2026";
    assert Pad(3, 2) == "0" + "3" == "03";
    assert Pad(4, 2) == "0" + "4" == "04";
    assert "2026" + "-" + ("03" + "-" + "04") == "2026-03-04";
  }

  lemma DigitsOf2026()
    ensures Decimal.Render(2026) == "2026" && Decimal.Render(3) == "3" && Decimal.Render(4) == "4"
  {
    assert Decimal.Render(20) == "20";
    assert Decimal.Render(202) == "20" + "2" == "202";
    assert Decimal.Render(2026) == "202" + "6" == "2026";
  }
}
