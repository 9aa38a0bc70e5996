/**
 * The server's `sanitize`: coerce to a string (a missing value becomes `''`),
 * trim, replace each run of carriage returns and line feeds by one space, and
 * keep at most the first 2000 characters.
 */
module Sanitization {
  import opened JsText

  const MaxLength: nat := 2000

  predicate IsLineBreak(c: char) {
    c == '\r' || c == '\n'
  }

  predicate FreeOfLineBreaks(s: string) {
    forall i :: 0 <= i < |s| ==> !IsLineBreak(s[i])
  }

  predicate AllLineBreaks(s: string) {
    forall i :: 0 <= i < |s| ==> IsLineBreak(s[i])
  }

  /** Drops the run of line breaks at the front of `s`. */
  function DropLineBreaks(s: string): (r: string)
    ensures |r| <= |s| && r == s[|s| - |r|..]
    ensures AllLineBreaks(s[..|s| - |r|])
    ensures r == [] || !IsLineBreak(r[0])
  {
    if |s| > 0 && IsLineBreak(s[0]) then
      var r := DropLineBreaks(s[1..]);
      assert s[..|s| - |r|] == [s[0]] + s[1..][..|s| - 1 - |r|];
      r
    else
      s
  }

  /** `s.replace(/[\r\n]+/g, ' ')`: each maximal run of line breaks becomes one space. */
  function CollapseLineBreaks(s: string): string
    decreases |s|
  {
    if |s| == 0 then []
    else if IsLineBreak(s[0]) then
      [' '] + CollapseLineBreaks(DropLineBreaks(s[1..]))
    else
      [s[0]] + CollapseLineBreaks(s[1..])
  }

  /**
   * The shape of the collapse: no line break is left, the result is never
   * longer than the input, is empty only when the input is, and starts with
   * the input's first character when that is not a line break.
   */
  lemma {:induction false} CollapseShape(s: string)
    ensures var r := CollapseLineBreaks(s);
      && FreeOfLineBreaks(r)
      && |r| <= |s|
      && (r == [] <==> s == [])
      && (s != [] && !IsLineBreak(s[0]) ==> r[0] == s[0])
    decreases |s|
  {
    if s != [] {
      var rest := if IsLineBreak(s[0]) then DropLineBreaks(s[1..]) else s[1..];
      CollapseShape(rest);
      var r := CollapseLineBreaks(s);
      assert r == [if IsLineBreak(s[0]) then ' ' else s[0]] + CollapseLineBreaks(rest);
      forall i | 0 < i < |r| ensures !IsLineBreak(r[i]) {
        assert r[i] == CollapseLineBreaks(rest)[i - 1];
      }
    }
  }

  /** A last character that is not a line break survives the collapse. */
  lemma {:induction false} CollapseKeepsLast(s: string)
    requires s != [] && !IsLineBreak(s[|s| - 1])
    ensures var r := CollapseLineBreaks(s); r != [] && r[|r| - 1] == s[|s| - 1]
    decreases |s|
  {
    if IsLineBreak(s[0]) {
      var rest := DropLineBreaks(s[1..]);
      if rest == [] {
        assert false;
      } else {
        assert rest[|rest| - 1] == s[|s| - 1];
        CollapseKeepsLast(rest);
      }
    } else if |s| > 1 {
      assert s[1..][|s| - 2] == s[|s| - 1];
      CollapseKeepsLast(s[1..]);
    }
  }

  /** Dropping the leading breaks of `x + v` stops inside `x` unless `x` is breaks only. */
  lemma {:induction false} DropConcat(x: string, v: string)
    ensures !AllLineBreaks(x) ==> DropLineBreaks(x + v) == DropLineBreaks(x) + v
    ensures AllLineBreaks(x) ==> DropLineBreaks(x + v) == DropLineBreaks(v)
    decreases |x|
  {
    if x == [] {
      assert x + v == v;
    } else if IsLineBreak(x[0]) {
      assert (x + v)[0] == x[0];
      assert (x + v)[1..] == x[1..] + v;
      DropConcat(x[1..], v);
    } else {
      assert (x + v)[0] == x[0];
    }
  }

  /** A leading character that is not a line break is kept by the collapse. */
  lemma CollapseKeep(c: char, s: string)
    requires !IsLineBreak(c)
    ensures CollapseLineBreaks([c] + s) == [c] + CollapseLineBreaks(s)
  {
    assert ([c] + s)[1..] == s;
  }

  /** A leading line break and the breaks right after it become one space. */
  lemma CollapseBreak(c: char, s: string)
    requires IsLineBreak(c)
    ensures CollapseLineBreaks([c] + s) == " " + CollapseLineBreaks(DropLineBreaks(s))
  {
    assert ([c] + s)[1..] == s;
  }

  /** Dropping the leading breaks leaves nothing exactly when the text is breaks only. */
  lemma DropAllBreaks(x: string)
    ensures DropLineBreaks(x) == [] <==> AllLineBreaks(x)
  {
    var d := DropLineBreaks(x);
    if d == [] {
      assert x[..|x|] == x;
    } else {
      assert d[0] == x[|x| - |d|];
    }
  }

  /**
   * The collapse distributes over a concatenation that does not join two runs
   * of line breaks into one: either side is empty, or they do not meet
   * break against break.
   */
  lemma {:induction false} CollapseConcat(u: string, v: string)
    requires u == [] || v == [] || !IsLineBreak(u[|u| - 1]) || !IsLineBreak(v[0])
    ensures CollapseLineBreaks(u + v) == CollapseLineBreaks(u) + CollapseLineBreaks(v)
    decreases |u|, 3
  {
    if u == [] {
      assert u + v == v;
    } else if !IsLineBreak(u[0]) {
      CollapseConcatKept(u, v);
    } else {
      CollapseConcatBreak(u, v);
    }
  }

  /** The case of `CollapseConcat` where `u` starts with a character the collapse keeps. */
  lemma {:induction false} CollapseConcatKept(u: string, v: string)
    requires u != [] && !IsLineBreak(u[0])
    requires v == [] || !IsLineBreak(u[|u| - 1]) || !IsLineBreak(v[0])
    ensures CollapseLineBreaks(u + v) == CollapseLineBreaks(u) + CollapseLineBreaks(v)
    decreases |u|, 2
  {
    var x := u[1..];
    HeadAndRest(u, v);
    CollapseKeep(u[0], x + v);
    CollapseKeep(u[0], x);
    if x != [] {
      assert x[|x| - 1] == u[|u| - 1];
    }
    CollapseConcat(x, v);
    AppendAfterHead([u[0]], CollapseLineBreaks(x), CollapseLineBreaks(v));
  }

  /** The case of `CollapseConcat` where `u` starts with a line break. */
  lemma {:induction false} CollapseConcatBreak(u: string, v: string)
    requires u != [] && IsLineBreak(u[0])
    requires v == [] || !IsLineBreak(u[|u| - 1]) || !IsLineBreak(v[0])
    ensures CollapseLineBreaks(u + v) == CollapseLineBreaks(u) + CollapseLineBreaks(v)
    decreases |u|, 2
  {
    var x := u[1..];
    HeadAndRest(u, v);
    CollapseBreak(u[0], x + v);
    CollapseBreak(u[0], x);
    CollapseConcatAfterBreak(u, v);
    AppendAfterHead(" ", CollapseLineBreaks(DropLineBreaks(x)), CollapseLineBreaks(v));
  }

  lemma HeadAndRest(u: string, v: string)
    requires u != []
    ensures u == [u[0]] + u[1..] && u + v == [u[0]] + (u[1..] + v)
  {
  }

  lemma AppendAfterHead(h: string, a: string, b: string)
    ensures (h + a) + b == h + (a + b)
  {
  }

  /** After a leading break of `u`, the rest of `u` and `v` collapse separately. */
  lemma {:induction false} CollapseConcatAfterBreak(u: string, v: string)
    requires u != [] && IsLineBreak(u[0])
    requires v == [] || !IsLineBreak(u[|u| - 1]) || !IsLineBreak(v[0])
    ensures CollapseLineBreaks(DropLineBreaks(u[1..] + v))
            == CollapseLineBreaks(DropLineBreaks(u[1..])) + CollapseLineBreaks(v)
    decreases |u|, 1
  {
    var x := u[1..];
    DropConcat(x, v);
    DropAllBreaks(x);
    if AllLineBreaks(x) {
      BreaksOnlyThenText(u, v);
    } else {
      var d := DropLineBreaks(x);
      assert d == x[|x| - |d|..];
      assert d[|d| - 1] == u[|u| - 1] by {
        assert d[|d| - 1] == x[|x| - 1];
      }
      CollapseConcat(d, v);
    }
  }

  /** When `u` is breaks only, `v` must start with a kept character, so dropping breaks from it changes nothing. */
  lemma BreaksOnlyThenText(u: string, v: string)
    requires u != [] && AllLineBreaks(u[1..]) && IsLineBreak(u[0])
    requires v == [] || !IsLineBreak(u[|u| - 1]) || !IsLineBreak(v[0])
    ensures DropLineBreaks(v) == v
  {
    if |u| > 1 {
      assert u[|u| - 1] == u[1..][|u| - 2];
    }
  }

  /** A non-empty text of line breaks only collapses to a single space. */
  lemma CollapseRun(w: string)
    requires w != [] && AllLineBreaks(w)
    ensures CollapseLineBreaks(w) == " "
  {
    DropAllBreaks(w[1..]);
  }

  /**
   * Between text that does not end with a break and text that does not start
   * with one, a run of line breaks of any length becomes exactly one space.
   */
  lemma CollapseRunBetween(u: string, w: string, v: string)
    requires w != [] && AllLineBreaks(w)
    requires u == [] || !IsLineBreak(u[|u| - 1])
    requires v == [] || !IsLineBreak(v[0])
    ensures CollapseLineBreaks(u + w + v) == CollapseLineBreaks(u) + " " + CollapseLineBreaks(v)
  {
    assert (u + w)[|u + w| - 1] == w[|w| - 1];
    CollapseConcat(u + w, v);
    CollapseConcat(u, w);
    CollapseRun(w);
  }

  /** Text without line breaks comes through the collapse unchanged. */
  lemma {:induction false} CollapseWithoutBreaks(s: string)
    requires FreeOfLineBreaks(s)
    ensures CollapseLineBreaks(s) == s
    decreases |s|
  {
    if s != [] {
      assert !IsLineBreak(s[0]);
      CollapseWithoutBreaks(s[1..]);
      assert s == [s[0]] + s[1..];
    }
  }

  /**
   * `sanitize` on a string: the first 2000 characters of the trimmed text with
   * its line breaks collapsed. The result holds no line break, does not start
   * with whitespace, is empty exactly when the input is all whitespace, and
   * does not end with whitespace unless it was cut at the limit.
   */
  function SanitizeText(s: string): (r: string)
    ensures r <= CollapseLineBreaks(Trim(s))
    ensures |r| == if |CollapseLineBreaks(Trim(s))| <= MaxLength then |CollapseLineBreaks(Trim(s))| else MaxLength
    ensures |r| <= MaxLength
    ensures FreeOfLineBreaks(r)
    ensures r == [] || !IsWhitespace(r[0])
    ensures r == [] <==> AllWhitespace(s)
    ensures |r| < MaxLength ==> IsTrimmed(r)
  {
    CollapseAndCut(Trim(s))
  }

  /**
   * The steps after `trim`: collapse the line breaks, then keep the first 2000
   * characters. A trimmed input keeps a non-whitespace first character, and
   * its last one too unless the cut removed it.
   */
  function CollapseAndCut(t: string): (r: string)
    ensures r <= CollapseLineBreaks(t)
    ensures |r| == if |CollapseLineBreaks(t)| <= MaxLength then |CollapseLineBreaks(t)| else MaxLength
    ensures |r| <= MaxLength && FreeOfLineBreaks(r)
    ensures r == [] <==> t == []
    ensures IsTrimmed(t) ==> r == [] || !IsWhitespace(r[0])
    ensures IsTrimmed(t) && |r| < MaxLength ==> IsTrimmed(r)
  {
    var c := CollapseLineBreaks(t);
    var r := if |c| <= MaxLength then c else c[..MaxLength];
    CollapseShape(t);
    if t != [] && !IsLineBreak(t[|t| - 1]) then
      CollapseKeepsLast(t);
      CutFacts(t, c, r);
      r
    else
      (CutFacts(t, c, r);
       r)
  }

  lemma CutFacts(t: string, c: string, r: string)
    requires FreeOfLineBreaks(c) && |c| <= |t| && (c == [] <==> t == [])
    requires t != [] && !IsLineBreak(t[0]) ==> c[0] == t[0]
    requires t != [] && !IsLineBreak(t[|t| - 1]) ==> c[|c| - 1] == t[|t| - 1]
    requires r == if |c| <= MaxLength then c else c[..MaxLength]
    ensures |r| <= MaxLength && FreeOfLineBreaks(r)
    ensures r == [] <==> t == []
    ensures IsTrimmed(t) ==> r == [] || !IsWhitespace(r[0])
    ensures IsTrimmed(t) && |r| < MaxLength ==> IsTrimmed(r)
  {
    if t != [] && IsTrimmed(t) {
      assert !IsLineBreak(t[0]) && !IsLineBreak(t[|t| - 1]);
      assert r[0] == c[0];
    }
  }

  /** A value `sanitize` turns into `''`: missing, or a string of whitespace only (`null` becomes `"null"`). */
  predicate Blank(v: JsValue) {
    v == Undefined || (v.Str? && AllWhitespace(v.s))
  }

  /** `sanitize(str = '')`: `undefined` takes the default `''`, anything else goes through `String`. */
  function Sanitize(v: JsValue): (r: string)
    ensures v == Undefined ==> r == ""
    ensures v == Null ==> r == "null"
    ensures v.Str? ==> r == SanitizeText(v.s)
    ensures r == "" <==> Blank(v)
    ensures |r| <= MaxLength && FreeOfLineBreaks(r)
  {
    if v == Null then
      assert IsTrimmed("null") && FreeOfLineBreaks("null");
      SanitizeClean("null");
      SanitizeText("null")
    else
      SanitizeText(if v == Undefined then "" else ToJsString(v))
  }

  /** `sanitize` leaves a trimmed string without line breaks and within the limit unchanged. */
  lemma SanitizeClean(s: string)
    requires IsTrimmed(s) && FreeOfLineBreaks(s) && |s| <= MaxLength
    ensures SanitizeText(s) == s
  {
    TrimOfTrimmed(s);
    SanitizeViaTrim(s, s);
  }

  /** When trimming leaves text without line breaks and within the limit, that text is the result. */
  lemma SanitizeViaTrim(s: string, t: string)
    requires Trim(s) == t && FreeOfLineBreaks(t) && |t| <= MaxLength
    ensures SanitizeText(s) == t
  {
    CollapseWithoutBreaks(t);
    assert CollapseAndCut(t) == t;
  }

  /** A sanitized result shorter than the limit is a fixed point of `sanitize`. */
  lemma SanitizeStableBelowLimit(s: string)
    ensures |SanitizeText(s)| < MaxLength ==> SanitizeText(SanitizeText(s)) == SanitizeText(s)
  {
    if |SanitizeText(s)| < MaxLength {
      SanitizeClean(SanitizeText(s));
    }
  }

  /**
   * At the limit `sanitize` is not idempotent: cutting 1999 letters, a space
   * and a letter after 2000 characters leaves a trailing space, which a second
   * pass trims.
   */
  lemma SanitizeCutLeavesTrailingSpace()
    ensures var s := seq(1999, _ => 'a') + " b";
      && SanitizeText(s) == seq(1999, _ => 'a') + " "
      && SanitizeText(SanitizeText(s)) == seq(1999, _ => 'a')
  {
    var a := seq(1999, _ => 'a');
    assert IsTrimmed(a) && FreeOfLineBreaks(a);
    CutAfterSpace(a, 'b');
    SanitizeDropsTrailingSpace(a);
  }

  lemma CutAfterSpace(a: string, b: char)
    requires |a| == MaxLength - 1 && IsTrimmed(a) && FreeOfLineBreaks(a)
    requires !IsWhitespace(b)
    ensures SanitizeText(a + [' ', b]) == a + " "
  {
    SpaceThenChar(a, b);
    CutAtLimit(a + [' ', b]);
  }

  /** A clean string over the limit is only cut. */
  lemma CutAtLimit(s: string)
    requires IsTrimmed(s) && FreeOfLineBreaks(s) && |s| > MaxLength
    ensures SanitizeText(s) == s[..MaxLength]
  {
    TrimOfTrimmed(s);
    CollapseWithoutBreaks(s);
  }

  /** Appending a space and a non-whitespace character keeps a clean string clean. */
  lemma SpaceThenChar(a: string, b: char)
    requires a != [] && IsTrimmed(a) && FreeOfLineBreaks(a)
    requires !IsWhitespace(b)
    ensures IsTrimmed(a + [' ', b]) && FreeOfLineBreaks(a + [' ', b])
    ensures (a + [' ', b])[..|a| + 1] == a + " "
  {
    var s := a + [' ', b];
    forall i | 0 <= i < |s| ensures !IsLineBreak(s[i]) {
      if i < |a| {
        assert s[i] == a[i];
      }
    }
    assert s[..|a| + 1] == a + " ";
  }

  lemma SanitizeDropsTrailingSpace(a: string)
    requires a != [] && |a| < MaxLength && IsTrimmed(a) && FreeOfLineBreaks(a)
    ensures SanitizeText(a + " ") == a
  {
    TrimTrailingSpace(a);
    SanitizeViaTrim(a + " ", a);
  }

  lemma TrimTrailingSpace(a: string)
    requires a != [] && IsTrimmed(a)
    ensures Trim(a + " ") == a
  {
    var once := a + " ";
    assert TrimStart(once) == once;
    assert once[..|once| - 1] == a;
    assert TrimEnd(a) == a;
    assert TrimEnd(once) == a;
  }
}
