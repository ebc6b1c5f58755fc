/** Trimming, parameterised by the host language's notion of white space. */
module Text {

  /** Python's `str.isspace`, which `str.strip()` uses. */
  predicate PythonSpace(c: char) {
    || '\t' <= c <= '\r' || '\U{1C}' <= c <= ' ' || c == '\U{85}' || c == '\U{A0}' || c == '\U{1680}'
    || '\U{2000}' <= c <= '\U{200A}' || c == '\U{2028}' || c == '\U{2029}' || c == '\U{202F}'
    || c == '\U{205F}' || c == '\U{3000}'
  }

  /** ECMAScript white space and line terminators: what `trim()` and `\s` match. */
  predicate ScriptSpace(c: char) {
    || '\t' <= c <= '\r' || c == ' ' || c == '\U{A0}' || c == '\U{1680}'
    || '\U{2000}' <= c <= '\U{200A}' || c == '\U{2028}' || c == '\U{2029}' || c == '\U{202F}'
    || c == '\U{205F}' || c == '\U{3000}' || c == '\U{FEFF}'
  }

  function StripLeft(s: string, space: char -> bool): (r: string)
    ensures r == [] || !space(r[0])
  {
    if s != [] && space(s[0]) then StripLeft(s[1..], space) else s
  }

  function StripRight(s: string, space: char -> bool): (r: string)
    ensures r <= s
    ensures r == [] || !space(r[|r| - 1])
  {
    if s != [] && space(s[|s| - 1]) then StripRight(s[..|s| - 1], space) else s
  }

  function Strip(s: string, space: char -> bool): (r: string)
    ensures Stripped(r, space)
  {
    StripRight(StripLeft(s, space), space)
  }

  /** Nothing left to strip at either end. */
  predicate Stripped(s: string, space: char -> bool) {
    s == [] || (!space(s[0]) && !space(s[|s| - 1]))
  }

  lemma StripFixpoint(s: string, space: char -> bool)
    requires Stripped(s, space)
    ensures Strip(s, space) == s
  {
  }

  function LowerChar(c: char): char {
    if 'A' <= c <= 'Z' then (c as int + 32) as char else c
  }

  function UpperChar(c: char): char {
    if 'a' <= c <= 'z' then (c as int - 32) as char else c
  }

  /** ASCII case mapping; letters outside ASCII are left alone. */
  function Lower(s: string): (r: string)
    ensures |r| == |s|
  {
    seq(|s|, i requires 0 <= i < |s| => LowerChar(s[i]))
  }

  function Upper(s: string): (r: string)
    ensures |r| == |s|
  {
    seq(|s|, i requires 0 <= i < |s| => UpperChar(s[i]))
  }

  /** Every white-space character removed: `replace(/\s+/g, '')`. */
  function Squeeze(s: string, space: char -> bool): (r: string)
    ensures forall i :: 0 <= i < |r| ==> !space(r[i])
  {
    if s == [] then []
    else (if space(s[0]) then [] else [s[0]]) + Squeeze(s[1..], space)
  }

  /** Every run of white space replaced by one blank: `replace(/\s+/g, ' ')`. */
  function Collapse(s: string, space: char -> bool): string {
    if s == [] then []
    else if space(s[0]) then
      (if |s| > 1 && space(s[1]) then [] else [' ']) + Collapse(s[1..], space)
    else [s[0]] + Collapse(s[1..], space)
  }

  /** Text order, character by character. */
  predicate AtMost(a: string, b: string) {
    a == [] || (b != [] && (a[0] < b[0] || (a[0] == b[0] && AtMost(a[1..], b[1..]))))
  }

  // ----- what trimming and collapsing keep -----

  lemma SqueezeFirst(c: char, rest: string, space: char -> bool)
    ensures Squeeze([c] + rest, space) == (if space(c) then [] else [c]) + Squeeze(rest, space)
  {
    assert ([c] + rest)[1..] == rest;
  }

  lemma Regroup(a: string, b: string, c: string)
    ensures a + (b + c) == (a + b) + c
  {
  }

  lemma {:induction false} SqueezeAppends(a: string, b: string, space: char -> bool)
    ensures Squeeze(a + b, space) == Squeeze(a, space) + Squeeze(b, space)
  {
    if a == [] {
      assert a + b == b;
    } else {
      SqueezeAppends(a[1..], b, space);
      assert (a + b)[1..] == a[1..] + b;
      Regroup(if space(a[0]) then [] else [a[0]], Squeeze(a[1..], space), Squeeze(b, space));
    }
  }

  /** Trimming takes nothing but white space. */
  lemma StripKeeps(s: string, space: char -> bool)
    ensures Squeeze(Strip(s, space), space) == Squeeze(s, space)
  {
    StripLeftKeeps(s, space);
    StripRightKeeps(StripLeft(s, space), space);
  }

  lemma {:induction false} StripLeftKeeps(s: string, space: char -> bool)
    ensures Squeeze(StripLeft(s, space), space) == Squeeze(s, space)
  {
    if s != [] && space(s[0]) {
      StripLeftKeeps(s[1..], space);
    }
  }

  lemma {:induction false} StripRightKeeps(s: string, space: char -> bool)
    ensures Squeeze(StripRight(s, space), space) == Squeeze(s, space)
  {
    if s != [] && space(s[|s| - 1]) {
      StripRightKeeps(s[..|s| - 1], space);
      assert s == s[..|s| - 1] + [s[|s| - 1]];
      SqueezeAppends(s[..|s| - 1], [s[|s| - 1]], space);
    }
  }

  /** Blanks are the only white space, and no two stand side by side. */
  ghost predicate Singles(s: string, space: char -> bool) {
    && (forall i :: 0 <= i < |s| && space(s[i]) ==> s[i] == ' ')
    && (forall i :: 0 <= i < |s| - 1 && space(s[i]) ==> !space(s[i + 1]))
  }

  /** Collapsing takes nothing but white space. */
  lemma {:induction false} CollapseKeeps(s: string, space: char -> bool)
    requires space(' ')
    ensures Squeeze(Collapse(s, space), space) == Squeeze(s, space)
  {
    if s != [] {
      CollapseKeeps(s[1..], space);
      SqueezeFirst(s[0], s[1..], space);
      SqueezeFirst(' ', Collapse(s[1..], space), space);
      SqueezeFirst(s[0], Collapse(s[1..], space), space);
      hide Squeeze;
      assert s == [s[0]] + s[1..];
      assert [] + Squeeze(s[1..], space) == Squeeze(s[1..], space);
      assert [] + Collapse(s[1..], space) == Collapse(s[1..], space);
    }
  }

  lemma {:induction false} CollapseSingles(s: string, space: char -> bool)
    ensures var c := Collapse(s, space);
            space(' ') ==> Singles(c, space) && (c == [] <==> s == []) && (s != [] ==> space(c[0]) == space(s[0]))
  {
    if s != [] {
      CollapseSingles(s[1..], space);
    }
  }

  /** What is collapsed and then trimmed has single blanks inside and none at its ends. */
  lemma StripSingles(s: string, space: char -> bool)
    requires Singles(s, space)
    ensures Singles(Strip(s, space), space) && Stripped(Strip(s, space), space)
  {
    StripIsPart(s, space);
  }

  lemma StripIsPart(s: string, space: char -> bool)
    ensures exists a, b :: 0 <= a <= b <= |s| && Strip(s, space) == s[a..b]
  {
    var a := StripLeftIsRest(s, space);
    var left := StripLeft(s, space);
    assert Strip(s, space) == left[..|Strip(s, space)|] == s[a..a + |Strip(s, space)|];
  }

  lemma {:induction false} StripLeftIsRest(s: string, space: char -> bool) returns (a: nat)
    ensures a <= |s| && StripLeft(s, space) == s[a..]
  {
    if s != [] && space(s[0]) {
      a := StripLeftIsRest(s[1..], space);
      a := a + 1;
    } else {
      a := 0;
    }
  }
}
