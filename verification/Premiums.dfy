/** Premium amounts: `normalizeMoney`, and the `numeric(18,2)` column that keeps them (src/lib/import/normalize.ts, src/db/schema/records.ts). */
module Premiums {
  import opened Wrappers
  import opened Text
  import opened Normalize
  import opened Money
  import Decimal

  // ----- reading an amount -----

  /** Currency signs, commas and white space are taken out. */
  predicate Noise(c: char) {
    c == '\U{20B9}' || c == '$' || c == '\U{20AC}' || c == '\U{A3}' || c == ',' || ScriptSpace(c)
  }

  /** Accounting parentheses are a minus sign. */
  function Unwrapped(text: string): string {
    if |text| > 2 && text[0] == '(' && text[|text| - 1] == ')' then "-" + text[1..|text| - 1] else text
  }

  /** `^[+-]?\d+(\.\d+)?$`. */
  predicate IsNumber(body: string) {
    body != "" && MatchUnsigned(DropSign(body)).Some? && body[|body| - 1] != '.'
  }

  function Digits(body: string): (m: Unsigned)
    requires IsNumber(body)
    ensures m.whole != "" && Decimal.AllDigits(m.whole) && Decimal.AllDigits(m.fraction)
  {
    MatchUnsigned(DropSign(body)).value
  }

  predicate IsZero(m: Unsigned)
    requires Decimal.AllDigits(m.whole) && Decimal.AllDigits(m.fraction)
  {
    Decimal.Parse(m.whole) == 0 && Decimal.Parse(m.fraction) == 0
  }

  /** The whole part as it was written and two decimals, the third rounding half up. */
  function TwoDecimals(negative: bool, m: Unsigned): string
    requires Decimal.AllDigits(m.whole) && Decimal.AllDigits(m.fraction)
  {
    if |m.fraction| > 2 && m.fraction[2] >= '5' then FromPaise(UnsignedPaise(m) + 1)
    else Minus(negative) + (m.whole + "." + TwoDigits(m.fraction))
  }

  /** `normalizeMoney`: an amount below zero is refused, a zero with a minus sign is not. */
  function NormalizeMoney(raw: string): Normalized {
    if Sentinel(raw) then Normalized(None, false)
    else
      var text := Squeeze(Trim(raw), Noise);
      if text == "" then Normalized(None, false)
      else
        var body := Unwrapped(text);
        if !IsNumber(body) || (body[0] == '-' && !IsZero(Digits(body))) then Normalized(None, true)
        else Normalized(Some(TwoDecimals(body[0] == '-', Digits(body))), false)
  }

  // ----- the column -----

  /** 18 digits, two of them decimals. */
  const LIMIT := 1_000_000_000_000_000_000

  /** The column keeps the amount and prints it its own way, or refuses it. */
  function Kept(amount: string): Option<string> {
    if -LIMIT < ToPaise(amount) < LIMIT then Some(FromPaise(ToPaise(amount))) else None
  }

  /** Written in a way the column does not print: a minus sign, or a zero before another digit. */
  predicate Unprinted(amount: string) {
    amount != "" && (amount[0] == '-' || (amount[0] == '0' && |amount| > 1 && amount[1] != '.'))
  }

  // ----- what normalizing leaves -----

  /** Two decimals, and no amount below zero. */
  ghost predicate Normal(v: string, negative: bool, whole: string, fraction: string) {
    IsAmount(v, negative, whole, fraction) && (negative ==> Decimal.Parse(whole) == 0 == Decimal.Parse(fraction))
  }

  lemma {:induction false} ZeroPrefix(s: string, n: nat)
    requires Decimal.AllDigits(s) && Decimal.Parse(s) == 0 && n <= |s|
    ensures Decimal.AllDigits(s[..n]) && Decimal.Parse(s[..n]) == 0
    decreases |s|
  {
    if n < |s| {
      ZeroPrefix(s[..|s| - 1], n);
      assert s[..|s| - 1][..n] == s[..n];
    } else {
      assert s[..n] == s;
    }
  }

  lemma ZeroCents(fraction: string)
    requires Decimal.AllDigits(fraction) && Decimal.Parse(fraction) == 0
    ensures Decimal.Parse(TwoDigits(fraction)) == 0
  {
    if |fraction| >= 2 {
      ZeroPrefix(fraction, 2);
      assert TwoDigits(fraction) == fraction[..2];
    } else if |fraction| == 1 {
      assert TwoDigits(fraction) == [fraction[0], '0'];
      assert fraction[..0] == [] && [fraction[0], '0'][..1] == fraction;
    } else {
      assert TwoDigits(fraction) == "00" && "00"[..1] == "0" && "0"[..0] == [];
    }
  }

  lemma NormalizedIsNormal(raw: string) returns (negative: bool, whole: string, fraction: string)
    requires NormalizeMoney(raw).value.Some?
    ensures Normal(NormalizeMoney(raw).value.value, negative, whole, fraction)
  {
    hide Sentinel, Trim, Squeeze, MatchUnsigned, Decimal.Parse, Decimal.Render, TwoDigits, Padded;
    var body := Unwrapped(Squeeze(Trim(raw), Noise));
    var m := Digits(body);
    if |m.fraction| > 2 && m.fraction[2] >= '5' {
      var n := UnsignedPaise(m) + 1;
      PrintedIsAmount(n);
      negative, whole, fraction := false, Decimal.Render(Magnitude(n) / 100), Padded(Magnitude(n) % 100);
    } else {
      negative, whole, fraction := body[0] == '-', m.whole, TwoDigits(m.fraction);
      if negative {
        ZeroCents(m.fraction);
      }
    }
  }

  lemma {:induction false} NoiseFree(s: string)
    requires forall i :: 0 <= i < |s| ==> !Noise(s[i])
    ensures Squeeze(s, Noise) == s
  {
    if s != [] {
      NoiseFree(s[1..]);
    }
  }

  lemma PointIsNoSentinel(s: string, i: nat)
    requires i < |s| && s[i] == '.'
    ensures Lower(s) !in SENTINELS
  {
    assert Lower(s)[i] == '.';
  }

  /** A second pass over a normal amount changes nothing. */
  lemma NormalIsStable(v: string, negative: bool, whole: string, fraction: string)
    requires Normal(v, negative, whole, fraction)
    ensures NormalizeMoney(v) == Normalized(Some(v), false)
    ensures v != ""
  {
    hide MatchUnsigned, Decimal.Parse, Squeeze, StripLeft, StripRight, TwoDigits;
    var body := whole + "." + fraction;
    assert forall i :: 0 <= i < |v| ==> Decimal.IsDigit(v[i]) || v[i] == '.' || v[i] == '-';
    StripFixpoint(v, ScriptSpace);
    PointIsNoSentinel(v, |v| - 3);
    NoiseFree(v);
    assert Unwrapped(v) == v;
    SignDrops(v, negative, whole, fraction);
    UnsignedReads(whole, fraction);
    assert v[|v| - 1] == fraction[1];
    assert TwoDigits(fraction) == fraction by {
      CentsAsTheyAre(fraction);
    }
    assert body[0] == whole[0];
  }

  lemma CentsAsTheyAre(fraction: string)
    requires Decimal.AllDigits(fraction) && |fraction| == 2
    ensures TwoDigits(fraction) == fraction
  {
  }

  lemma MoneyIsStable(raw: string)
    requires NormalizeMoney(raw).value.Some?
    ensures NormalizeMoney(NormalizeMoney(raw).value.value) == NormalizeMoney(raw)
    ensures NormalizeMoney(raw).value != Some("")
  {
    hide NormalizeMoney, Normal;
    var negative, whole, fraction := NormalizedIsNormal(raw);
    NormalIsStable(NormalizeMoney(raw).value.value, negative, whole, fraction);
    NoErrorWithValue(raw);
  }

  lemma NoErrorWithValue(raw: string)
    ensures NormalizeMoney(raw).value.Some? ==> !NormalizeMoney(raw).error
  {
  }

  // ----- what the column makes of it -----

  lemma {:induction false} RenderParsed(s: string)
    requires s != "" && Decimal.AllDigits(s)
    ensures (|s| == 1 || s[0] != '0') <==> Decimal.Render(Decimal.Parse(s)) == s
    ensures |s| > 1 && s[0] != '0' ==> Decimal.Parse(s) >= 10
    decreases |s|
  {
    var n := |s| - 1;
    var init, d := s[..n], Decimal.DigitValue(s[n]);
    if n == 0 {
      assert Decimal.Parse(init) == 0;
      assert Decimal.Digit(d) == s[0];
      assert [s[0]] == s;
    } else {
      RenderParsed(init);
      assert Decimal.Parse(s) == 10 * Decimal.Parse(init) + d;
      assert s == init + [s[n]];
      assert init[0] == s[0];
      if s[0] != '0' {
        SingleIsPositive(init);
        assert Decimal.Parse(s) / 10 == Decimal.Parse(init) && Decimal.Parse(s) % 10 == d;
        assert Decimal.Digit(d) == s[n];
      } else {
        RenderHasNoZero(Decimal.Parse(s));
      }
    }
  }

  lemma SingleIsPositive(s: string)
    requires s != "" && Decimal.AllDigits(s) && s[0] != '0'
    requires |s| > 1 ==> Decimal.Parse(s) >= 10
    ensures Decimal.Parse(s) > 0
  {
    if |s| == 1 {
      assert s[..0] == [];
    }
  }

  lemma {:induction false} RenderHasNoZero(n: nat)
    ensures |Decimal.Render(n)| > 1 ==> Decimal.Render(n)[0] != '0'
    ensures n > 0 ==> Decimal.Render(n)[0] != '0'
  {
    if n >= 10 {
      RenderHasNoZero(n / 10);
    }
  }

  /** The column prints a normal amount as it was written exactly when it has neither a minus sign nor a leading zero. */
  lemma PrintedExactly(v: string, negative: bool, whole: string, fraction: string)
    requires Normal(v, negative, whole, fraction)
    ensures FromPaise(ToPaise(v)) == v <==> !Unprinted(v)
    ensures ToPaise(v) >= 0
  {
    hide ToPaise, Decimal.Render, Decimal.Parse;
    AmountReads(v, negative, whole, fraction);
    var w, f := Decimal.Parse(whole), Decimal.Parse(fraction);
    TwoDigitsBelowHundred(fraction);
    assert (100 * w + f) / 100 == w && (100 * w + f) % 100 == f;
    RenderParsed(whole);
    assert v == Minus(negative) + (whole + "." + fraction);
    if negative {
      assert v[0] == '-';
      assert FromPaise(0)[0] != '-' by {
        ZeroPrints();
      }
    } else {
      assert FromPaise(ToPaise(v)) == Decimal.Render(w) + "." + fraction;
      assert v[0] == whole[0];
      assert |whole| > 1 ==> v[1] == whole[1];
      assert |whole| == 1 ==> v[1] == '.';
      if FromPaise(ToPaise(v)) == v {
        SamePrefix(Decimal.Render(w), whole, fraction);
      }
    }
  }

  lemma ZeroPrints()
    ensures FromPaise(0)[0] == '0'
  {
  }

  lemma SamePrefix(a: string, b: string, fraction: string)
    requires a + "." + fraction == b + "." + fraction
    ensures a == b
  {
    assert |a| == |b|;
    assert a == (a + "." + fraction)[..|a|];
    assert b == (b + "." + fraction)[..|b|];
  }

  lemma TwoDigitsBelowHundred(fraction: string)
    requires Decimal.AllDigits(fraction) && |fraction| == 2
    ensures Decimal.Parse(fraction) < 100 && Padded(Decimal.Parse(fraction)) == fraction
  {
    var a, b := Decimal.DigitValue(fraction[0]), Decimal.DigitValue(fraction[1]);
    ParsePair(fraction);
    hide Decimal.Parse, Decimal.Render;
    assert Decimal.Digit(a) == fraction[0] && Decimal.Digit(b) == fraction[1];
    RenderDigit(a);
    RenderDigit(b);
    assert (10 * a + b) / 10 == a && (10 * a + b) % 10 == b;
    assert fraction == [fraction[0], fraction[1]];
  }

  lemma RenderDigit(d: nat)
    requires d < 10
    ensures Decimal.Render(d) == [Decimal.Digit(d)]
  {
  }

  // ----- how many digits fit -----

  function Pow10(n: nat): nat {
    if n == 0 then 1 else 10 * Pow10(n - 1)
  }

  /** A run of digits without a leading zero says its size by its length. */
  lemma {:induction false} SizeIsLength(s: string)
    requires s != "" && Decimal.AllDigits(s)
    ensures Decimal.Parse(s) < Pow10(|s|)
    ensures s[0] != '0' ==> Decimal.Parse(s) >= Pow10(|s| - 1)
    decreases |s|
  {
    var init := s[..|s| - 1];
    if init != "" {
      SizeIsLength(init);
    }
  }

  lemma {:induction false} Pow10Grows(m: nat, n: nat)
    requires m <= n
    ensures Pow10(m) <= Pow10(n)
  {
    if m < n {
      Pow10Grows(m, n - 1);
    }
  }

  lemma Sixteen()
    ensures 100 * Pow10(16) == LIMIT
  {
    assert Pow10(4) == 10_000;
    assert Pow10(8) == 100_000_000;
    assert Pow10(12) == 1_000_000_000_000;
    assert Pow10(16) == 10_000_000_000_000_000;
  }

  /** The column keeps a normal amount exactly when its whole part has at most 16 digits, leading zeros aside. */
  lemma KeptExactly(v: string, negative: bool, whole: string, fraction: string)
    requires Normal(v, negative, whole, fraction)
    ensures Kept(v).Some? <==> |DropLeadingZeros(whole)| <= 16
  {
    hide ToPaise, Decimal.Parse, FromPaise, Pow10, DropLeadingZeros;
    AmountReads(v, negative, whole, fraction);
    TwoDigitsBelowHundred(fraction);
    var d := DropLeadingZeros(whole);
    DroppingKeepsNumber(whole);
    SizeIsLength(d);
    Sixteen();
    if |d| <= 16 {
      Pow10Grows(|d|, 16);
    } else {
      Pow10Grows(16, |d| - 1);
    }
  }

  // ----- what amount is read -----

  /** Rounded half up at the third decimal. */
  function Rounded(whole: string, fraction: string): nat
    requires Decimal.AllDigits(whole) && Decimal.AllDigits(fraction)
  {
    PaiseOf(whole, fraction) + if |fraction| > 2 && Decimal.DigitValue(fraction[2]) >= 5 then 1 else 0
  }

  lemma TwoDecimalsRead(negative: bool, whole: string, fraction: string)
    requires whole != "" && Decimal.AllDigits(whole) && Decimal.AllDigits(fraction)
    requires negative ==> Decimal.Parse(whole) == 0 == Decimal.Parse(fraction)
    ensures ToPaise(TwoDecimals(negative, Unsigned(whole, fraction))) == Rounded(whole, fraction)
  {
    hide ToPaise, FromPaise, Decimal.Parse, PaiseOf, MatchUnsigned;
    FractionsAreRead(whole, fraction);
    var m := Unsigned(whole, fraction);
    if |fraction| > 2 && fraction[2] >= '5' {
      ReadPrinted(UnsignedPaise(m) + 1);
    } else {
      AmountReads(TwoDecimals(negative, m), negative, whole, TwoDigits(fraction));
      if negative {
        ZeroCents(fraction);
      }
    }
  }

  /**
   * What a premium is read as: the currency signs, commas and white space are taken out, parentheses are a minus sign,
   * and what is left is digits with at most one point and digits after it, a sign perhaps in front, and not below zero.
   */
  lemma AmountIsRead(raw: string) returns (whole: string, fraction: string)
    requires NormalizeMoney(raw).value.Some?
    ensures !Sentinel(raw) && whole != "" && Decimal.AllDigits(whole) && Decimal.AllDigits(fraction)
    ensures var body := Unwrapped(Squeeze(Trim(raw), Noise));
            && DropSign(body) == whole + (if fraction == "" then "" else "." + fraction)
            && (body[0] == '-' ==> Decimal.Parse(whole) == 0 == Decimal.Parse(fraction))
    ensures !NormalizeMoney(raw).error && ToPaise(NormalizeMoney(raw).value.value) == Rounded(whole, fraction)
  {
    hide Squeeze, ToPaise, Decimal.Parse, TwoDecimals, Rounded, MatchUnsigned;
    var body := Unwrapped(Squeeze(Trim(raw), Noise));
    var m := Digits(body);
    whole, fraction := m.whole, m.fraction;
    ReadOnlyThese(DropSign(body));
    TwoDecimalsRead(body[0] == '-', whole, fraction);
    if fraction == "" {
      assert DropSign(body)[|DropSign(body)| - 1] == body[|body| - 1];
      assert whole + "." + fraction == whole + ".";
      assert whole + "" == whole;
    } else {
      assert whole + "." + fraction == whole + ("." + fraction);
      assert DropSign(body) != whole by {
        UnsignedReads(whole, fraction);
      }
    }
  }

  /** Something that is no word for nothing is read or refused, never dropped, unless it is currency signs, commas and blanks only. */
  lemma RefusedExactly(raw: string)
    ensures NormalizeMoney(raw).error <==> NormalizeMoney(raw).value.None? && !Sentinel(raw) && Squeeze(Trim(raw), Noise) != ""
  {
    hide Squeeze, TwoDecimals, IsNumber, IsZero;
  }

  lemma PlainBody(s: string, whole: string, fraction: string, negative: bool)
    requires whole != "" && Decimal.AllDigits(whole) && fraction != "" && Decimal.AllDigits(fraction)
    requires s == Minus(negative) + (whole + "." + fraction)
    ensures IsNumber(s) && (s[0] == '-' <==> negative) && Digits(s) == Unsigned(whole, fraction)
  {
    hide MatchUnsigned, Decimal.Parse;
    var body := whole + "." + fraction;
    assert body[0] == whole[0] && Decimal.IsDigit(whole[0]);
    assert s[|s| - 1] == fraction[|fraction| - 1];
    assert DropSign(s) == body by {
      assert negative ==> s[1..] == body;
      assert !negative ==> s == body;
    }
    UnsignedReads(whole, fraction);
  }

  /** Plain text of an amount has nothing to take out. */
  lemma PlainText(s: string, i: nat)
    requires i < |s| && s[i] == '.' && !ScriptSpace(s[0]) && !ScriptSpace(s[|s| - 1])
    requires forall k :: 0 <= k < |s| ==> Decimal.IsDigit(s[k]) || s[k] == '.' || s[k] == '-' || s[k] == '(' || s[k] == ')'
    ensures !Sentinel(s) && Squeeze(Trim(s), Noise) == s && s != ""
  {
    hide StripLeft, StripRight, Squeeze;
    StripFixpoint(s, ScriptSpace);
    PointIsNoSentinel(s, i);
    NoiseFree(s);
  }

  /** Digits with decimals are read; below zero they are refused, written either way. */
  lemma PlainAmountIsRead(negative: bool, whole: string, fraction: string)
    requires whole != "" && Decimal.AllDigits(whole) && fraction != "" && Decimal.AllDigits(fraction)
    ensures var zero := Decimal.Parse(whole) == 0 == Decimal.Parse(fraction);
            && (NormalizeMoney(Minus(negative) + (whole + "." + fraction)).value.Some? <==> !negative || zero)
            && (NormalizeMoney("(" + (whole + "." + fraction) + ")").value.Some? <==> zero)
  {
    hide MatchUnsigned, Decimal.Parse, Squeeze, StripLeft, StripRight, TwoDecimals, IsNumber, Sentinel, DropSign;
    var body := whole + "." + fraction;
    var s, t := Minus(negative) + body, "(" + body + ")";
    assert body[0] == whole[0] && body[|body| - 1] == fraction[|fraction| - 1] && body[|whole|] == '.';
    PlainText(s, |s| - |fraction| - 1);
    PlainBody(s, whole, fraction, negative);
    assert Unwrapped(s) == s;
    PlainText(t, |whole| + 1);
    assert t[1..|t| - 1] == body;
    assert Unwrapped(t) == "-" + body;
    PlainBody("-" + body, whole, fraction, true);
  }

  /** What is taken out of an amount before it is read: white space, commas and the rupee, dollar, euro and pound signs. */
  lemma NoiseExactly(c: char)
    ensures Noise(c) <==>
              ScriptSpace(c) || c == ',' || c == '$' || c as int == 0x20B9 || c as int == 0x20AC || c as int == 0xA3
  {
  }
}
