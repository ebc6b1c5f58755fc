/** The text normalizers a correction passes through, at submission and again when it is applied (src/lib/import/normalize.ts). */
module Normalize {
  import opened Wrappers
  import opened Text
  import Decimal

  /** `value` null means nothing was entered; `error` marks an issue of severity ERROR. */
  datatype Normalized = Normalized(value: Option<string>, error: bool)

  const SENTINELS: set<string> := {"-", "--", "na", "n/a", "null", "nil", "#n/a", "#na", "none", ""}

  function Trim(s: string): (r: string)
    ensures Stripped(r, ScriptSpace)
  {
    Strip(s, ScriptSpace)
  }

  predicate Sentinel(raw: string) {
    Lower(Trim(raw)) in SENTINELS
  }

  /** `normalizeString`: trimmed, inner white space collapsed, sentinels dropped. */
  function NormalizeText(raw: string): Option<string> {
    if Sentinel(raw) then None
    else
      var text := Collapse(Trim(raw), ScriptSpace);
      if text == "" then None else Some(text)
  }

  /** `normalizeSmId`: no white space at all, uppercased. */
  function NormalizeSmId(raw: string): Option<string> {
    var text := NormalizeText(raw);
    if text.None? then None else Some(Upper(Squeeze(text.value, ScriptSpace)))
  }

  function NormalizeStatus(raw: string): Option<string> {
    var text := NormalizeText(raw);
    if text.None? then None else Some(Upper(text.value))
  }

  const YES_TOKENS: set<string> := {"Y", "YES", "TRUE", "1", "ACTIVE"}
  const NO_TOKENS: set<string> := {"N", "NO", "FALSE", "0", "INACTIVE"}

  /** An unrecognised token is kept as it is, with a warning that blocks nothing. */
  function NormalizeAutopay(raw: string): Option<string> {
    if Sentinel(raw) then None
    else
      var token := Upper(Trim(raw));
      if token in YES_TOKENS then Some("Yes")
      else if token in NO_TOKENS then Some("No")
      else Some(Trim(raw))
  }

  function SkipSign(s: string): string {
    if s != [] && (s[0] == '+' || s[0] == '-') then s[1..] else s
  }

  function SkipDigits(s: string): string {
    if s != [] && Decimal.IsDigit(s[0]) then SkipDigits(s[1..]) else s
  }

  predicate StartsWithDigit(s: string) {
    s != [] && Decimal.IsDigit(s[0])
  }

  /** `^[+-]?\d+(\.\d+)?[eE][+-]?\d+$`. */
  predicate Scientific(s: string) {
    var whole := SkipSign(s);
    var rest := SkipDigits(whole);
    var mantissa := if rest != [] && rest[0] == '.' && StartsWithDigit(rest[1..]) then SkipDigits(rest[1..]) else rest;
    && StartsWithDigit(whole)
    && mantissa != [] && (mantissa[0] == 'e' || mantissa[0] == 'E')
    && StartsWithDigit(SkipSign(mantissa[1..]))
    && SkipDigits(SkipSign(mantissa[1..])) == []
  }

  /** `^0+(?=\d)` removed. */
  function DropLeadingZeros(s: string): (r: string)
    requires s != []
    ensures r != []
    ensures forall i :: 0 <= i < |r| ==> r[i] in s
  {
    if s[0] == '0' && |s| > 1 then DropLeadingZeros(s[1..]) else s
  }

  function NormalizeIdentifier(raw: string): Normalized {
    if Sentinel(raw) then Normalized(None, false)
    else if Scientific(Trim(raw)) then Normalized(None, true)
    else
      var cleaned := Squeeze(Trim(raw), ScriptSpace);
      if cleaned == "" then Normalized(None, false)
      else if SkipDigits(cleaned) == [] then Normalized(Some(DropLeadingZeros(cleaned)), false)
      else Normalized(Some(cleaned), false)
  }

  // ----- what survives a second pass -----

  predicate NoSpace(s: string) {
    forall i :: 0 <= i < |s| ==> !ScriptSpace(s[i])
  }

  /** Stripped, with single blanks as its only white space. */
  predicate Tidy(s: string) {
    && Stripped(s, ScriptSpace)
    && (forall i :: 0 <= i < |s| && ScriptSpace(s[i]) ==> s[i] == ' ')
    && (forall i :: 0 <= i < |s| - 1 && ScriptSpace(s[i]) ==> !ScriptSpace(s[i + 1]))
  }

  lemma {:induction false} CollapseTidy(s: string)
    requires forall i :: 0 <= i < |s| && ScriptSpace(s[i]) ==> s[i] == ' '
    requires forall i :: 0 <= i < |s| - 1 && ScriptSpace(s[i]) ==> !ScriptSpace(s[i + 1])
    ensures Collapse(s, ScriptSpace) == s
  {
    if s != [] {
      CollapseTidy(s[1..]);
    }
  }

  /** Collapsing leaves single blanks between words, and a string that starts with white space starting with a blank. */
  lemma {:induction false} CollapseIsTidy(s: string)
    ensures var c := Collapse(s, ScriptSpace);
            && (forall i :: 0 <= i < |c| && ScriptSpace(c[i]) ==> c[i] == ' ')
            && (forall i :: 0 <= i < |c| - 1 && ScriptSpace(c[i]) ==> !ScriptSpace(c[i + 1]))
            && (c == [] <==> s == [])
            && (s != [] ==> ScriptSpace(c[0]) == ScriptSpace(s[0]))
            && (s != [] ==> ScriptSpace(c[|c| - 1]) == ScriptSpace(s[|s| - 1]))
  {
    if s != [] {
      CollapseIsTidy(s[1..]);
    }
  }

  lemma {:induction false} SqueezeNoSpace(s: string)
    requires NoSpace(s)
    ensures Squeeze(s, ScriptSpace) == s
  {
    if s != [] {
      SqueezeNoSpace(s[1..]);
    }
  }

  lemma UpperTwice(s: string)
    ensures Upper(Upper(s)) == Upper(s)
    ensures Lower(Upper(s)) == Lower(s)
    ensures NoSpace(s) ==> NoSpace(Upper(s))
    ensures Tidy(s) ==> Tidy(Upper(s))
  {
  }

  lemma SentinelsHaveNoBlank(s: string, i: nat)
    requires i < |s| && s[i] == ' '
    ensures Lower(s) !in SENTINELS
  {
    assert Lower(s)[i] == ' ';
  }

  /** Trimmed and collapsed text is tidy, and is not turned into a sentinel by the collapsing. */
  lemma NormalizedTextIsTidy(raw: string)
    requires NormalizeText(raw).Some?
    ensures Tidy(NormalizeText(raw).value) && !Sentinel(NormalizeText(raw).value)
  {
    var trimmed := Trim(raw);
    var text := Collapse(trimmed, ScriptSpace);
    CollapseIsTidy(trimmed);
    StripFixpoint(text, ScriptSpace);
    if i :| 0 <= i < |trimmed| && ScriptSpace(trimmed[i]) {
      CollapseKeepsABlank(trimmed, i);
      var j :| 0 <= j < |text| && text[j] == ' ';
      SentinelsHaveNoBlank(text, j);
    } else {
      CollapseTidy(trimmed);
    }
  }

  lemma {:induction false} CollapseKeepsABlank(s: string, i: nat)
    requires i < |s| && ScriptSpace(s[i])
    ensures exists j :: 0 <= j < |Collapse(s, ScriptSpace)| && Collapse(s, ScriptSpace)[j] == ' '
  {
    var c := Collapse(s, ScriptSpace);
    if ScriptSpace(s[0]) && (|s| == 1 || !ScriptSpace(s[1])) {
      assert c[0] == ' ';
    } else {
      CollapseKeepsABlank(s[1..], if i > 0 then i - 1 else 0);
      var rest := Collapse(s[1..], ScriptSpace);
      var j :| 0 <= j < |rest| && rest[j] == ' ';
      assert c[|c| - |rest| + j] == ' ';
    }
  }

  /** Text that is tidy and no sentinel comes back unchanged. */
  lemma TidyTextStays(s: string)
    requires Tidy(s) && !Sentinel(s)
    ensures NormalizeText(s) == Some(s)
  {
    StripFixpoint(s, ScriptSpace);
    CollapseTidy(s);
    assert Lower("") == "";
  }

  lemma TextIsStable(raw: string)
    requires NormalizeText(raw).Some?
    ensures NormalizeText(NormalizeText(raw).value) == NormalizeText(raw)
  {
    NormalizedTextIsTidy(raw);
    TidyTextStays(NormalizeText(raw).value);
  }

  lemma StatusIsStable(raw: string)
    requires NormalizeStatus(raw).Some?
    ensures NormalizeStatus(NormalizeStatus(raw).value) == NormalizeStatus(raw)
  {
    var text := NormalizeText(raw).value;
    NormalizedTextIsTidy(raw);
    UpperTwice(text);
    StripFixpoint(text, ScriptSpace);
    StripFixpoint(Upper(text), ScriptSpace);
    TidyTextStays(Upper(text));
  }

  lemma AutopayIsStable(raw: string)
    requires NormalizeAutopay(raw).Some?
    ensures NormalizeAutopay(NormalizeAutopay(raw).value) == NormalizeAutopay(raw)
  {
    var trimmed := Trim(raw);
    StripFixpoint(trimmed, ScriptSpace);
    StripFixpoint("Yes", ScriptSpace);
    StripFixpoint("No", ScriptSpace);
    assert Lower("Yes") == "yes" && Upper("Yes") == "YES";
    assert Lower("No") == "no" && Upper("No") == "NO";
  }

  /** Text without white space: only being a sentinel can drop it. */
  lemma NoSpaceText(s: string)
    requires NoSpace(s)
    ensures NormalizeText(s) == if Sentinel(s) then None else Some(s)
  {
    if !Sentinel(s) {
      TidyTextStays(s);
    }
  }

  lemma SmIdShape(raw: string)
    requires NormalizeSmId(raw).Some?
    ensures var v := NormalizeSmId(raw).value; NoSpace(v) && Upper(v) == v
  {
    var squeezed := Squeeze(NormalizeText(raw).value, ScriptSpace);
    UpperTwice(squeezed);
  }

  /** `normalizeSmId` is idempotent on a value exactly when squeezing did not leave a sentinel. */
  lemma SmIdSecondPass(raw: string)
    requires NormalizeSmId(raw).Some?
    ensures var v := NormalizeSmId(raw).value;
            NormalizeSmId(v) == if Sentinel(v) then None else Some(v)
  {
    var v := NormalizeSmId(raw).value;
    SmIdShape(raw);
    NoSpaceText(v);
    SqueezeNoSpace(v);
  }

  /** It is not idempotent everywhere: `"n a"` squeezes to `"NA"`, which the next pass drops. */
  lemma SmIdNotIdempotent()
    ensures NormalizeSmId("n a") == Some("NA") && NormalizeSmId("NA") == None
  {
    StripFixpoint("n a", ScriptSpace);
    StripFixpoint("NA", ScriptSpace);
    assert Lower("n a") == "n a" && Lower("NA") == "na";
    assert Collapse("n a", ScriptSpace) == "n a" by {
      CollapseTidy("n a");
    }
    assert Squeeze("n a", ScriptSpace) == "na" by {
      assert "n a"[1..] == " a" && " a"[1..] == "a" && "a"[1..] == "";
    }
    assert Upper("na") == "NA";
  }

  /** Submission normalizes an SM_ID twice, so what it accepts is left alone by every later pass. */
  lemma SmIdTwiceIsStable(raw: string)
    requires NormalizeSmId(raw).Some? && NormalizeSmId(NormalizeSmId(raw).value).Some?
    ensures var v := NormalizeSmId(NormalizeSmId(raw).value).value;
            NormalizeSmId(v) == Some(v)
  {
    SmIdSecondPass(raw);
  }

  lemma IdentifierHasNoSpace(raw: string)
    requires NormalizeIdentifier(raw).value.Some?
    ensures NoSpace(NormalizeIdentifier(raw).value.value)
  {
  }

  lemma {:induction false} DroppedZerosStayDropped(s: string)
    requires s != [] && SkipDigits(s) == []
    ensures var d := DropLeadingZeros(s); SkipDigits(d) == [] && DropLeadingZeros(d) == d
  {
    if s[0] == '0' && |s| > 1 {
      DroppedZerosStayDropped(s[1..]);
    }
  }

  /** A second identifier pass changes nothing, or refuses the value. */
  lemma IdentifierSecondPass(raw: string)
    requires NormalizeIdentifier(raw).value.Some?
    ensures var v := NormalizeIdentifier(raw).value.value;
            NormalizeIdentifier(v).value.Some? ==> !Sentinel(v) && NormalizeIdentifier(v).value == Some(v)
  {
    var cleaned := Squeeze(Trim(raw), ScriptSpace);
    var v := NormalizeIdentifier(raw).value.value;
    IdentifierHasNoSpace(raw);
    StripFixpoint(v, ScriptSpace);
    SqueezeNoSpace(v);
    if SkipDigits(cleaned) == [] {
      DroppedZerosStayDropped(cleaned);
    }
  }

  // ----- what is kept of what was typed -----

  /** The words that stand for nothing, in any case and with any white space around them. */
  lemma SentinelExactly(raw: string)
    ensures Sentinel(raw) <==>
              var word := Lower(Strip(raw, ScriptSpace));
              || word == "" || word == "-" || word == "--" || word == "na" || word == "n/a" || word == "null" || word == "nil"
              || word == "#n/a" || word == "#na" || word == "none"
  {
  }

  /** Text is nothing exactly when it stands for nothing; otherwise only white space is taken out, and single blanks are left. */
  lemma TextExactly(raw: string)
    ensures NormalizeText(raw).None? <==> Sentinel(raw)
    ensures NormalizeText(raw).Some? ==>
              var text := NormalizeText(raw).value;
              && Squeeze(text, ScriptSpace) == Squeeze(raw, ScriptSpace)
              && Singles(text, ScriptSpace) && Stripped(text, ScriptSpace) && text != ""
  {
    hide Singles;
    var trimmed := Trim(raw);
    assert Lower("") == "";
    CollapseSingles(trimmed, ScriptSpace);
    CollapseKeeps(trimmed, ScriptSpace);
    StripKeeps(raw, ScriptSpace);
    CollapseIsTidy(trimmed);
  }

  /** A code is what was typed without white space, in capitals; a status is the text in capitals. */
  lemma CodeAndStatusExactly(raw: string)
    ensures NormalizeSmId(raw) == if Sentinel(raw) then None else Some(Upper(Squeeze(raw, ScriptSpace)))
    ensures NormalizeStatus(raw) == if Sentinel(raw) then None else Some(Upper(NormalizeText(raw).value))
  {
    hide NormalizeText;
    TextExactly(raw);
  }

  /** Autopay is Yes or No for the words that say so, in any case, nothing for those that stand for nothing, and otherwise as typed. */
  lemma AutopayExactly(raw: string)
    ensures var word := Upper(Trim(raw));
            NormalizeAutopay(raw) ==
            if Sentinel(raw) then None
            else if word == "Y" || word == "YES" || word == "TRUE" || word == "1" || word == "ACTIVE" then Some("Yes")
            else if word == "N" || word == "NO" || word == "FALSE" || word == "0" || word == "INACTIVE" then Some("No")
            else Some(Trim(raw))
  {
  }

  lemma {:induction false} DroppingKeepsNumber(s: string)
    requires s != [] && Decimal.AllDigits(s)
    ensures var d := DropLeadingZeros(s);
            Decimal.AllDigits(d) && Decimal.Parse(d) == Decimal.Parse(s) && (|d| == 1 || d[0] != '0')
  {
    if s[0] == '0' && |s| > 1 {
      DroppingKeepsNumber(s[1..]);
      ZeroInFront(s);
    }
  }

  lemma {:induction false} ZeroInFront(s: string)
    requires |s| > 1 && Decimal.AllDigits(s) && s[0] == '0'
    ensures Decimal.Parse(s[1..]) == Decimal.Parse(s)
    decreases |s|
  {
    var n := |s| - 1;
    assert s[1..][..n - 1] == s[..n][1..];
    if n > 1 {
      ZeroInFront(s[..n]);
    } else {
      assert s[..1] == "0" && "0"[..0] == [] && s[1..][..0] == [];
    }
  }

  lemma {:induction false} DigitsExactly(s: string)
    ensures SkipDigits(s) == [] <==> Decimal.AllDigits(s)
  {
    if s != [] {
      DigitsExactly(s[1..]);
      assert forall i :: 1 <= i < |s| ==> s[i] == s[1..][i - 1];
      if Decimal.IsDigit(s[0]) && Decimal.AllDigits(s[1..]) {
        assert Decimal.AllDigits(s);
      }
      if Decimal.AllDigits(s) {
        assert Decimal.IsDigit(s[0]) && Decimal.AllDigits(s[1..]);
      }
    }
  }

  /**
   * An identifier is nothing for a word that stands for nothing, refused when a sheet has turned it into scientific
   * notation, and otherwise what was typed without white space; if that is a number, without leading zeros.
   */
  lemma IdentifierExactly(raw: string)
    ensures var n, typed := NormalizeIdentifier(raw), Squeeze(raw, ScriptSpace);
            && (Sentinel(raw) ==> n == Normalized(None, false))
            && (n.error <==> !Sentinel(raw) && Scientific(Trim(raw)))
            && (n.error ==> n.value.None?)
            && (!Sentinel(raw) && !n.error ==>
                  && n.value.Some?
                  && if Decimal.AllDigits(typed) then
                       && Decimal.AllDigits(n.value.value) && Decimal.Parse(n.value.value) == Decimal.Parse(typed)
                       && (|n.value.value| == 1 || n.value.value[0] != '0')
                     else n.value.value == typed)
  {
    hide Scientific, DropLeadingZeros, Decimal.Parse, SkipDigits;
    StripKeeps(raw, ScriptSpace);
    var typed := Squeeze(raw, ScriptSpace);
    DigitsExactly(typed);
    if !Sentinel(raw) {
      SomethingTyped(raw);
      if Decimal.AllDigits(typed) {
        DroppingKeepsNumber(typed);
      }
    }
  }

  lemma SomethingTyped(raw: string)
    requires !Sentinel(raw)
    ensures Squeeze(Trim(raw), ScriptSpace) != ""
  {
    assert Lower("") == "";
    assert !ScriptSpace(Trim(raw)[0]);
  }

  // ----- scientific notation -----

  /** Digits, perhaps with decimals, an exponent mark, and digits, with a sign in front of either. */
  ghost predicate IsScientific(s: string, sign: string, whole: string, decimals: string, mark: char, expSign: string, exponent: string) {
    && (sign == "" || sign == "+" || sign == "-") && (expSign == "" || expSign == "+" || expSign == "-")
    && whole != "" && Decimal.AllDigits(whole) && exponent != "" && Decimal.AllDigits(exponent)
    && Decimal.AllDigits(decimals) && (mark == 'e' || mark == 'E')
    && s == sign + (whole + ((if decimals == "" then "" else "." + decimals) + ([mark] + (expSign + exponent))))
  }

  lemma {:induction false} SkipDigitsOf(digits: string, rest: string)
    requires Decimal.AllDigits(digits) && (rest != [] ==> !Decimal.IsDigit(rest[0]))
    ensures SkipDigits(digits + rest) == rest
  {
    if digits == [] {
      assert digits + rest == rest;
    } else {
      SkipDigitsOf(digits[1..], rest);
      assert (digits + rest)[1..] == digits[1..] + rest;
    }
  }

  lemma SkipSignOf(sign: string, rest: string)
    requires sign == "" || sign == "+" || sign == "-"
    requires rest != [] && Decimal.IsDigit(rest[0])
    ensures SkipSign(sign + rest) == rest
  {
    if sign == "" {
      assert sign + rest == rest;
    } else {
      assert (sign + rest)[1..] == rest;
    }
  }

  /** Every such text is recognised. */
  lemma ScientificIsSeen(s: string, sign: string, whole: string, decimals: string, mark: char, expSign: string, exponent: string)
    requires IsScientific(s, sign, whole, decimals, mark, expSign, exponent)
    ensures Scientific(s)
  {
    hide SkipDigits, SkipSign;
    var power := [mark] + (expSign + exponent);
    var rest := (if decimals == "" then "" else "." + decimals) + power;
    SkipSignOf(sign, whole + rest);
    SkipDigitsOf(whole, rest);
    assert power[1..] == expSign + exponent;
    if decimals != "" {
      assert rest == ['.'] + (decimals + power) && rest[1..] == decimals + power;
      SkipDigitsOf(decimals, power);
    } else {
      assert rest == power;
    }
    SkipSignOf(expSign, exponent);
    SkipDigitsOf(exponent, []);
    assert exponent + [] == exponent;
  }

  lemma {:induction false} SkippedDigits(s: string) returns (digits: string)
    ensures Decimal.AllDigits(digits) && s == digits + SkipDigits(s)
    ensures StartsWithDigit(s) ==> digits != ""
  {
    if s != [] && Decimal.IsDigit(s[0]) {
      var rest := SkippedDigits(s[1..]);
      digits := [s[0]] + rest;
      assert s == [s[0]] + s[1..];
    } else {
      digits := "";
    }
  }

  lemma SkippedSign(s: string) returns (sign: string)
    ensures (sign == "" || sign == "+" || sign == "-") && s == sign + SkipSign(s)
  {
    sign := if s != [] && (s[0] == '+' || s[0] == '-') then [s[0]] else "";
    assert s == sign + SkipSign(s);
  }

  /** And nothing else is. */
  lemma OnlyScientificIsSeen(s: string) returns (sign: string, whole: string, decimals: string, mark: char, expSign: string, exponent: string)
    requires Scientific(s)
    ensures IsScientific(s, sign, whole, decimals, mark, expSign, exponent)
  {
    hide SkipDigits, SkipSign;
    sign := SkippedSign(s);
    whole := SkippedDigits(SkipSign(s));
    var rest := SkipDigits(SkipSign(s));
    decimals := "";
    var mantissa := rest;
    if rest[0] == '.' && StartsWithDigit(rest[1..]) {
      decimals := SkippedDigits(rest[1..]);
      mantissa := SkipDigits(rest[1..]);
      assert rest == "." + rest[1..] == "." + decimals + mantissa;
    }
    mark := mantissa[0];
    expSign := SkippedSign(mantissa[1..]);
    exponent := SkippedDigits(SkipSign(mantissa[1..]));
    assert exponent + [] == exponent;
    assert mantissa == [mark] + (expSign + exponent);
    assert rest == (if decimals == "" then "" else "." + decimals) + mantissa;
  }
}
