/** Money as text: reading it into paise, printing paise, and grouping the digits for display (src/lib/dashboard/performance.ts, src/lib/format.ts). */
module Money {
  import opened Wrappers
  import opened Text
  import Decimal

  // ----- reading -----

  function LeadingDigits(s: string): (n: nat)
    ensures n <= |s|
    ensures forall i :: 0 <= i < n ==> Decimal.IsDigit(s[i])
    ensures n < |s| ==> !Decimal.IsDigit(s[n])
  {
    if s == [] || !Decimal.IsDigit(s[0]) then 0 else 1 + LeadingDigits(s[1..])
  }

  /** The digits before and after the point: the last two captures of `^(-?)(\d+)(?:\.(\d*))?$`. */
  datatype Unsigned = Unsigned(whole: string, fraction: string)

  predicate Negative(s: string) {
    s != [] && s[0] == '-'
  }

  function DropMinus(s: string): string {
    if Negative(s) then s[1..] else s
  }

  function MatchUnsigned(s: string): (r: Option<Unsigned>)
    ensures r.Some? ==> r.value.whole != "" && Decimal.AllDigits(r.value.whole) && Decimal.AllDigits(r.value.fraction)
  {
    var n := LeadingDigits(s);
    var rest := s[n..];
    if n == 0 then None
    else if rest == [] then Some(Unsigned(s[..n], []))
    else if rest[0] == '.' && LeadingDigits(rest[1..]) == |rest| - 1 then Some(Unsigned(s[..n], rest[1..]))
    else None
  }

  /** The first two digits after the point, zeros where there are none. */
  function TwoDigits(fraction: string): (r: string)
    requires Decimal.AllDigits(fraction)
    ensures |r| == 2 && Decimal.AllDigits(r)
  {
    (fraction + "00")[..2]
  }

  function Signed(negative: bool, n: int): int {
    if negative then -n else n
  }

  function UnsignedPaise(m: Unsigned): nat
    requires Decimal.AllDigits(m.whole) && Decimal.AllDigits(m.fraction)
  {
    100 * Decimal.Parse(m.whole) + Decimal.Parse(TwoDigits(m.fraction))
  }

  /** Anything unreadable counts as nothing. */
  function ToPaise(value: string): int {
    var text := Strip(value, ScriptSpace);
    var m := MatchUnsigned(DropMinus(text));
    if m.None? then 0 else Signed(Negative(text), UnsignedPaise(m.value))
  }

  lemma {:induction false} LeadingDigitsOf(digits: string, rest: string)
    requires Decimal.AllDigits(digits) && (rest != [] ==> !Decimal.IsDigit(rest[0]))
    ensures LeadingDigits(digits + rest) == |digits|
  {
    if digits != [] {
      assert (digits + rest)[1..] == digits[1..] + rest;
      LeadingDigitsOf(digits[1..], rest);
    }
  }

  function Minus(negative: bool): string {
    if negative then "-" else ""
  }

  /** Every text the pattern describes is read, with or without a fraction. */
  lemma UnsignedReads(whole: string, fraction: string)
    requires whole != "" && Decimal.AllDigits(whole) && Decimal.AllDigits(fraction)
    ensures MatchUnsigned(whole) == Some(Unsigned(whole, ""))
    ensures MatchUnsigned(whole + "." + fraction) == Some(Unsigned(whole, fraction))
  {
    hide Decimal.AllDigits, LeadingDigits;
    var tail := "." + fraction;
    assert whole + "." + fraction == whole + tail;
    LeadingDigitsOf(whole, []);
    assert whole + [] == whole && whole[|whole|..] == [];
    LeadingDigitsOf(whole, tail);
    assert (whole + tail)[..|whole|] == whole && (whole + tail)[|whole|..] == tail;
    LeadingDigitsOf(fraction, []);
    assert fraction + [] == fraction && tail[1..] == fraction;
  }

  /** And nothing else is: what matched is the text put back together. */
  lemma ReadOnlyThese(s: string)
    requires MatchUnsigned(s).Some?
    ensures var m := MatchUnsigned(s).value; s == m.whole || s == m.whole + "." + m.fraction
  {
    hide Decimal.AllDigits, LeadingDigits;
    var m := MatchUnsigned(s).value;
    var rest := s[|m.whole|..];
    assert s == m.whole + rest;
    if rest != [] {
      assert rest == "." + m.fraction;
      assert s == m.whole + "." + m.fraction;
    }
  }

  /** A sign in front only negates. */
  lemma SignReads(negative: bool, body: string)
    requires !Negative(body)
    ensures Negative(Minus(negative) + body) == negative && DropMinus(Minus(negative) + body) == body
  {
    assert negative ==> (Minus(negative) + body)[1..] == body;
    assert !negative ==> Minus(negative) + body == body;
  }

  // ----- printing -----

  /** `padStart(2, '0')` on a number below a hundred. */
  function Padded(n: nat): (r: string)
    requires n < 100
    ensures |r| == 2 && Decimal.AllDigits(r)
  {
    if n < 10 then "0" + Decimal.Render(n) else Decimal.Render(n / 10) + [Decimal.Digit(n % 10)]
  }

  lemma PaddedIsRendered(n: nat)
    requires n < 100
    ensures Decimal.Parse(Padded(n)) == n
    ensures n >= 10 ==> Padded(n) == Decimal.Render(n)
  {
    Decimal.ParseRender(n);
    if n < 10 {
      assert Padded(n)[..1] == "0" && "0"[..0] == [];
      assert Decimal.Parse("0") == 0;
    }
  }

  function Magnitude(n: int): nat {
    if n < 0 then -n else n
  }

  function FromPaise(n: int): string {
    Minus(n < 0) + (Decimal.Render(Magnitude(n) / 100) + "." + Padded(Magnitude(n) % 100))
  }

  /** The shape of every amount Postgres prints for a `numeric(18,2)`, and of everything `fromPaise` prints. */
  ghost predicate IsAmount(s: string, negative: bool, whole: string, fraction: string) {
    && whole != "" && Decimal.AllDigits(whole) && |fraction| == 2 && Decimal.AllDigits(fraction)
    && s == Minus(negative) + (whole + "." + fraction)
  }

  lemma AmountReads(s: string, negative: bool, whole: string, fraction: string)
    requires IsAmount(s, negative, whole, fraction)
    ensures ToPaise(s) == Signed(negative, 100 * Decimal.Parse(whole) + Decimal.Parse(fraction))
  {
    hide LeadingDigits, Decimal.Parse, MatchUnsigned;
    var body := whole + "." + fraction;
    assert body[0] == whole[0] && Decimal.IsDigit(whole[0]);
    assert s[|s| - 1] == fraction[1] && Decimal.IsDigit(fraction[1]);
    StripFixpoint(s, ScriptSpace);
    SignReads(negative, body);
    UnsignedReads(whole, fraction);
    assert TwoDigits(fraction) == fraction;
  }

  lemma PrintedIsAmount(n: int)
    ensures IsAmount(FromPaise(n), n < 0, Decimal.Render(Magnitude(n) / 100), Padded(Magnitude(n) % 100))
  {
  }

  /** Reading a printed amount gives back the amount, for every number of paise. */
  lemma ReadPrinted(n: int)
    ensures ToPaise(FromPaise(n)) == n
  {
    hide ToPaise, FromPaise, IsAmount, Decimal.Render, Decimal.Parse, Padded;
    PrintedIsAmount(n);
    AmountReads(FromPaise(n), n < 0, Decimal.Render(Magnitude(n) / 100), Padded(Magnitude(n) % 100));
    Decimal.ParseRender(Magnitude(n) / 100);
    PaddedIsRendered(Magnitude(n) % 100);
  }

  lemma ParseOne(c: char)
    requires Decimal.IsDigit(c)
    ensures Decimal.Parse([c]) == Decimal.DigitValue(c)
  {
    assert [c][..0] == [];
  }

  lemma ParsePair(s: string)
    requires Decimal.AllDigits(s) && |s| == 2
    ensures Decimal.Parse(s) == 10 * Decimal.DigitValue(s[0]) + Decimal.DigitValue(s[1])
  {
    ParseOne(s[0]);
    assert s[..1] == [s[0]];
  }

  /** The paise of a whole part and a fraction of any length: `12` is 1200, `12.5` is 1250, `12.345` is 1234. */
  function PaiseOf(whole: string, fraction: string): nat
    requires Decimal.AllDigits(whole) && Decimal.AllDigits(fraction)
  {
    100 * Decimal.Parse(whole)
    + (if |fraction| > 0 then 10 * Decimal.DigitValue(fraction[0]) else 0)
    + (if |fraction| > 1 then Decimal.DigitValue(fraction[1]) else 0)
  }

  lemma FractionsAreRead(whole: string, fraction: string)
    requires Decimal.AllDigits(whole) && Decimal.AllDigits(fraction)
    ensures UnsignedPaise(Unsigned(whole, fraction)) == PaiseOf(whole, fraction)
  {
    var two := TwoDigits(fraction);
    ParsePair(two);
    assert forall i :: 0 <= i < 2 ==> two[i] == if i < |fraction| then fraction[i] else '0';
  }

  /** An amount with any number of decimals, or none, reads as its paise; further digits are cut, and a sign in front negates. */
  lemma AnyFractionReads(negative: bool, whole: string, fraction: string)
    requires whole != "" && Decimal.AllDigits(whole) && Decimal.AllDigits(fraction)
    ensures ToPaise(Minus(negative) + whole) == Signed(negative, PaiseOf(whole, ""))
    ensures fraction != "" ==>
              ToPaise(Minus(negative) + (whole + "." + fraction)) == Signed(negative, PaiseOf(whole, fraction))
  {
    hide LeadingDigits, Decimal.Parse, MatchUnsigned, UnsignedPaise, PaiseOf;
    assert Decimal.IsDigit(whole[0]) && Decimal.IsDigit(whole[|whole| - 1]);
    FractionsAreRead(whole, "");
    FractionsAreRead(whole, fraction);
    UnsignedReads(whole, fraction);
    var plain := Minus(negative) + whole;
    assert plain[|plain| - 1] == whole[|whole| - 1];
    StripFixpoint(plain, ScriptSpace);
    SignReads(negative, whole);
    if fraction != "" {
      var body := whole + "." + fraction;
      var s := Minus(negative) + body;
      assert body[0] == whole[0] && s[|s| - 1] == fraction[|fraction| - 1];
      StripFixpoint(s, ScriptSpace);
      SignReads(negative, body);
    }
  }

  // ----- a Postgres sum -----

  /** The total of a nullable money column; NULL adds nothing. */
  function SumPaise(column: seq<Option<int>>): int {
    if column == [] then 0
    else SumPaise(column[..|column| - 1]) + OrZero(column[|column| - 1])
  }

  function OrZero(v: Option<int>): int {
    if v.Some? then v.value else 0
  }

  /** `coalesce(sum(...), 0)::text`: two decimals when anything was summed, a bare zero when nothing was. */
  function SumText(column: seq<Option<int>>): string {
    if forall i :: 0 <= i < |column| ==> column[i].None? then "0" else FromPaise(SumPaise(column))
  }

  lemma {:induction false} AllNull(column: seq<Option<int>>)
    requires forall i :: 0 <= i < |column| ==> column[i].None?
    ensures SumPaise(column) == 0
  {
    if column != [] {
      AllNull(column[..|column| - 1]);
    }
  }

  lemma SumIsRead(column: seq<Option<int>>)
    ensures ToPaise(SumText(column)) == SumPaise(column)
  {
    hide ToPaise, FromPaise, SumPaise;
    if forall i :: 0 <= i < |column| ==> column[i].None? {
      AllNull(column);
      ZeroReads();
    } else {
      ReadPrinted(SumPaise(column));
    }
  }

  lemma ZeroReads()
    ensures ToPaise("0") == 0
  {
    hide LeadingDigits, MatchUnsigned;
    StripFixpoint("0", ScriptSpace);
    UnsignedReads("0", "");
    assert "0"[..0] == [] && Decimal.Parse("0") == 0;
    assert TwoDigits("") == "00" && "00"[..1] == "0";
  }

  // ----- display -----

  /** What `\B` calls a word character. */
  predicate WordChar(c: char) {
    'a' <= c <= 'z' || 'A' <= c <= 'Z' || Decimal.IsDigit(c) || c == '_'
  }

  /** A comma before every run of digits whose length is a multiple of three, inside a word: `\B(?=(\d{3})+(?!\d))`. */
  function Grouped(previous: Option<char>, s: string): string
    decreases s
  {
    if s == [] then []
    else
      (if previous.Some? && WordChar(previous.value) && LeadingDigits(s) > 0 && LeadingDigits(s) % 3 == 0 then "," else "")
      + [s[0]] + Grouped(Some(s[0]), s[1..])
  }

  /** The pieces of `split`, at least one. */
  function SplitOn(s: string, c: char): (r: seq<string>)
    ensures |r| > 0
    ensures forall k :: 0 <= k < |r| ==> c !in r[k]
    decreases s
  {
    if s == [] then [[]]
    else
      var rest := SplitOn(s[1..], c);
      if s[0] == c then [[]] + rest else [[s[0]] + rest[0]] + rest[1..]
  }

  function DropSign(s: string): string {
    if s != [] && (s[0] == '+' || s[0] == '-') then s[1..] else s
  }

  const DASH := "\U{2014}"

  function FormatMoney(value: Option<string>): string {
    if value.None? || value.value == "" then DASH
    else
      var pieces := SplitOn(DropSign(value.value), '.');
      var fraction := if |pieces| > 1 then pieces[1] else "00";
      Minus(value.value[0] == '-') + Grouped(None, pieces[0]) + "." + (fraction + "00")[..2]
  }

  function Without(s: string, c: char): string {
    if s == [] then [] else (if s[0] == c then [] else [s[0]]) + Without(s[1..], c)
  }

  lemma {:induction false} WithoutAppends(a: string, b: string, c: char)
    ensures Without(a + b, c) == Without(a, c) + Without(b, c)
  {
    if a == [] {
      assert a + b == b;
    } else {
      assert (a + b)[1..] == a[1..] + b;
      WithoutAppends(a[1..], b, c);
    }
  }

  lemma {:induction false} WithoutNone(s: string, c: char)
    requires c !in s
    ensures Without(s, c) == s
  {
    if s != [] {
      WithoutNone(s[1..], c);
    }
  }

  /** Grouping only inserts commas. */
  lemma {:induction false} GroupingInserts(previous: Option<char>, s: string)
    ensures Without(Grouped(previous, s), ',') == Without(s, ',')
    decreases s
  {
    if s != [] {
      GroupingInserts(Some(s[0]), s[1..]);
      WithoutStep(s[0], Grouped(Some(s[0]), s[1..]));
      hide Without, LeadingDigits;
      assert [s[0]] + s[1..] == s;
      WithoutStep(s[0], s[1..]);
    }
  }

  lemma WithoutStep(c: char, rest: string)
    ensures Without([] + [c] + rest, ',') == (if c == ',' then [] else [c]) + Without(rest, ',')
    ensures Without([c] + rest, ',') == (if c == ',' then [] else [c]) + Without(rest, ',')
    ensures Without("," + [c] + rest, ',') == (if c == ',' then [] else [c]) + Without(rest, ',')
  {
    assert [] + [c] + rest == [c] + rest && ([c] + rest)[1..] == rest;
    assert "," + [c] + rest == "," + ([c] + rest) && ("," + ([c] + rest))[1..] == [c] + rest;
  }

  lemma {:induction false} SplitOnce(a: string, b: string, c: char)
    requires c !in a && c !in b
    ensures SplitOn(a + [c] + b, c) == [a, b]
  {
    if a == [] {
      assert a + [c] + b == [c] + b && ([c] + b)[1..] == b;
      SplitNone(b, c);
    } else {
      assert (a + [c] + b)[1..] == a[1..] + [c] + b;
      SplitOnce(a[1..], b, c);
      assert [a[0]] + a[1..] == a;
    }
  }

  lemma {:induction false} SplitNone(s: string, c: char)
    requires c !in s
    ensures SplitOn(s, c) == [s]
  {
    if s != [] {
      SplitNone(s[1..], c);
      assert [s[0]] + s[1..] == s;
    }
  }

  lemma FormatShape(s: string, negative: bool, whole: string, fraction: string)
    requires IsAmount(s, negative, whole, fraction)
    ensures FormatMoney(Some(s)) == Minus(negative) + Grouped(None, whole) + ("." + fraction)
  {
    hide SplitOn, Grouped, LeadingDigits, DropSign;
    SignDrops(s, negative, whole, fraction);
    assert s[0] == '-' <==> negative;
    SplitOnce(whole, fraction, '.');
    assert (fraction + "00")[..2] == fraction;
  }

  lemma SignDrops(s: string, negative: bool, whole: string, fraction: string)
    requires IsAmount(s, negative, whole, fraction)
    ensures DropSign(s) == whole + "." + fraction
  {
    var body := whole + "." + fraction;
    assert body[0] == whole[0] && Decimal.IsDigit(whole[0]);
    assert negative ==> s[1..] == body;
    assert !negative ==> s == body;
  }

  /** Taking the commas out of a displayed amount gives the amount back, digit for digit. */
  lemma DisplayLosesNothing(s: string, negative: bool, whole: string, fraction: string)
    requires IsAmount(s, negative, whole, fraction)
    ensures Without(FormatMoney(Some(s)), ',') == s
  {
    hide FormatMoney, Grouped, Without;
    FormatShape(s, negative, whole, fraction);
    GroupingInserts(None, whole);
    WithoutNone(whole, ',');
    WithoutNone("." + fraction, ',');
    WithoutNone(Minus(negative), ',');
    WithoutAppends(Minus(negative) + Grouped(None, whole), "." + fraction, ',');
    WithoutAppends(Minus(negative), Grouped(None, whole), ',');
    assert Minus(negative) + whole + ("." + fraction) == s;
  }

  /** For every number of paise, the displayed text still reads as that number once its commas are gone. */
  lemma DisplayedIsExact(n: int)
    ensures Without(FormatMoney(Some(FromPaise(n))), ',') == FromPaise(n)
    ensures ToPaise(Without(FormatMoney(Some(FromPaise(n))), ',')) == n
  {
    hide FormatMoney, Without, FromPaise, ToPaise, IsAmount;
    PrintedIsAmount(n);
    DisplayLosesNothing(FromPaise(n), n < 0, Decimal.Render(Magnitude(n) / 100), Padded(Magnitude(n) % 100));
    ReadPrinted(n);
  }

  lemma {:induction false} AllLeading(s: string)
    requires Decimal.AllDigits(s)
    ensures LeadingDigits(s) == |s|
  {
    if s != [] {
      AllLeading(s[1..]);
    }
  }

  /** Every group after the first has three characters. */
  ghost predicate Threes(groups: seq<string>) {
    forall k :: 1 <= k < |groups| ==> |groups[k]| == 3
  }

  lemma {:induction false} GroupsFrom(previous: char, s: string)
    requires Decimal.IsDigit(previous) && Decimal.AllDigits(s)
    ensures var groups := SplitOn(Grouped(Some(previous), s), ',');
            |groups[0]| == |s| % 3 && |groups| == 1 + |s| / 3 && Threes(groups)
    decreases s
  {
    if s != [] {
      AllLeading(s);
      GroupsFrom(s[0], s[1..]);
      SplitStep(s[0], Grouped(Some(s[0]), s[1..]));
      hide SplitOn, LeadingDigits;
      var tail := SplitOn(Grouped(Some(s[0]), s[1..]), ',');
      if |s| % 3 == 0 {
        assert SplitOn(Grouped(Some(previous), s), ',') == [[]] + ([[s[0]] + tail[0]] + tail[1..]);
      } else {
        assert SplitOn(Grouped(Some(previous), s), ',') == [[s[0]] + tail[0]] + tail[1..];
      }
    }
  }

  /** One character in front lengthens the first piece; a comma in front starts a new one. */
  lemma SplitStep(c: char, rest: string)
    requires c != ','
    ensures var tail := SplitOn(rest, ',');
            && SplitOn([] + [c] + rest, ',') == [[c] + tail[0]] + tail[1..]
            && SplitOn("," + [c] + rest, ',') == [[]] + ([[c] + tail[0]] + tail[1..])
  {
    assert [] + [c] + rest == [c] + rest && ([c] + rest)[1..] == rest;
    assert "," + [c] + rest == "," + ([c] + rest) && ("," + ([c] + rest))[1..] == [c] + rest;
  }

  /** Between the commas of a whole part: one to three digits first, then exactly three each time. */
  lemma GroupsOfThree(whole: string)
    requires whole != "" && Decimal.AllDigits(whole)
    ensures var groups := SplitOn(Grouped(None, whole), ',');
            1 <= |groups[0]| <= 3 && |groups| == (|whole| + 2) / 3 && Threes(groups)
  {
    GroupsFrom(whole[0], whole[1..]);
    SplitStep(whole[0], Grouped(Some(whole[0]), whole[1..]));
  }

  /** Where there is no amount a dash is shown, and one without decimals gets two. */
  lemma DisplayOfLess(whole: string)
    requires whole != "" && Decimal.AllDigits(whole)
    ensures FormatMoney(None) == FormatMoney(Some("")) == [0x2014 as char]
    ensures FormatMoney(Some(whole)) == FormatMoney(Some(whole + ".00"))
  {
    hide SplitOn, Grouped;
    assert Decimal.IsDigit(whole[0]);
    assert '.' !in whole;
    SplitNone(whole, '.');
    SplitOnce(whole, "00", '.');
    assert whole + ['.'] + "00" == whole + ".00";
    assert ("00" + "00")[..2] == "00";
  }
}
