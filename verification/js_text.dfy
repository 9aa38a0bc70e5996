/**
 * The JavaScript values and string primitives that the site's code relies on:
 * truthiness, `String(v)` coercion, the whitespace set of `String.prototype.trim`
 * and of the regular-expression class `\s`, `trim` itself and a global
 * single-character `replace`.
 */
module JsText {

  /** A value that reaches the modelled code where a string is expected. */
  datatype JsValue = Undefined | Null | Str(s: string)

  /** JavaScript truthiness: `undefined`, `null` and `''` are falsy, every other string is truthy. */
  predicate Truthy(v: JsValue) {
    v.Str? && v.s != ""
  }

  /** `a || b`: the first operand when it is truthy, otherwise the second. */
  function Or(a: JsValue, b: JsValue): (r: JsValue)
    ensures Truthy(r) <==> Truthy(a) || Truthy(b)
    ensures r == a || r == b
    ensures Truthy(a) ==> r == a
    ensures !Truthy(a) ==> r == b
  {
    if Truthy(a) then a else b
  }

  /** `String(v)`. */
  function ToJsString(v: JsValue): (r: string)
    ensures v.Str? ==> r == v.s
    ensures !v.Str? ==> r != ""
  {
    match v
    case Undefined => "undefined"
    case Null => "null"
    case Str(s) => s
  }

  /**
   * The ECMAScript WhiteSpace and LineTerminator code points: the characters
   * removed by `trim` and matched by `\s`.
   */
  const WhitespaceCodes: set<int> := {
    0x09, 0x0A, 0x0B, 0x0C, 0x0D, 0x20, 0xA0, 0x1680,
    0x2000, 0x2001, 0x2002, 0x2003, 0x2004, 0x2005, 0x2006, 0x2007, 0x2008, 0x2009, 0x200A,
    0x2028, 0x2029, 0x202F, 0x205F, 0x3000, 0xFEFF
  }

  predicate IsWhitespace(c: char) {
    c as int in WhitespaceCodes
  }

  predicate AllWhitespace(s: string) {
    forall i :: 0 <= i < |s| ==> IsWhitespace(s[i])
  }

  /** `s` neither begins nor ends with whitespace. */
  predicate IsTrimmed(s: string) {
    s == [] || (!IsWhitespace(s[0]) && !IsWhitespace(s[|s| - 1]))
  }

  /** Removes the leading whitespace: the result is the suffix of `s` after its whitespace prefix. */
  function TrimStart(s: string): (r: string)
    ensures |r| <= |s| && r == s[|s| - |r|..]
    ensures AllWhitespace(s[..|s| - |r|])
    ensures r == [] || !IsWhitespace(r[0])
  {
    if |s| > 0 && IsWhitespace(s[0]) then
      var r := TrimStart(s[1..]);
      assert s[..|s| - |r|] == [s[0]] + s[1..][..|s| - 1 - |r|];
      r
    else
      s
  }

  /** Removes the trailing whitespace: the result is the prefix of `s` before its whitespace suffix. */
  function TrimEnd(s: string): (r: string)
    ensures |r| <= |s| && r == s[..|r|]
    ensures AllWhitespace(s[|r|..])
    ensures r == [] || !IsWhitespace(r[|r| - 1])
  {
    if |s| > 0 && IsWhitespace(s[|s| - 1]) then
      var r := TrimEnd(s[..|s| - 1]);
      assert s[|r|..] == s[..|s| - 1][|r|..] + [s[|s| - 1]];
      r
    else
      s
  }

  /** `s` is `r` with only whitespace before it (the first `a` characters) and after it. */
  predicate SplitsAround(s: string, r: string, a: int) {
    && 0 <= a <= |s| - |r|
    && r == s[a..a + |r|]
    && AllWhitespace(s[..a])
    && AllWhitespace(s[a + |r|..])
  }

  /**
   * `s.trim()`: the result is the piece of `s` left once a whitespace prefix and
   * a whitespace suffix are cut off, and it starts and ends with a non-whitespace
   * character; it is empty exactly when `s` is all whitespace.
   */
  function Trim(s: string): (r: string)
    ensures exists a :: SplitsAround(s, r, a)
    ensures IsTrimmed(r)
    ensures r == [] <==> AllWhitespace(s)
  {
    var t := TrimStart(s);
    var r := TrimEnd(t);
    SplitAt(s, t, r);
    TrimEnds(s, t, r);
    r
  }

  lemma TrimEnds(s: string, t: string, r: string)
    requires |t| <= |s| && t == s[|s| - |t|..] && AllWhitespace(s[..|s| - |t|])
    requires t == [] || !IsWhitespace(t[0])
    requires |r| <= |t| && r == t[..|r|] && AllWhitespace(t[|r|..])
    requires r == [] || !IsWhitespace(r[|r| - 1])
    ensures IsTrimmed(r) && (r == [] <==> AllWhitespace(s))
  {
    var a := |s| - |t|;
    if r == [] {
      AllWhitespaceConcat(s[..a], t);
      assert s == s[..a] + t;
    } else {
      assert r[0] == t[0] == s[a];
    }
  }

  lemma SplitAt(s: string, t: string, r: string)
    requires |t| <= |s| && t == s[|s| - |t|..] && AllWhitespace(s[..|s| - |t|])
    requires |r| <= |t| && r == t[..|r|] && AllWhitespace(t[|r|..])
    ensures SplitsAround(s, r, |s| - |t|)
  {
    var a := |s| - |t|;
    assert s[a + |r|..] == t[|r|..];
  }

  lemma AllWhitespaceConcat(u: string, v: string)
    requires AllWhitespace(u) && AllWhitespace(v)
    ensures AllWhitespace(u + v)
  {
  }

  /** Trimming a string that neither begins nor ends with whitespace leaves it alone. */
  lemma TrimOfTrimmed(s: string)
    requires IsTrimmed(s)
    ensures Trim(s) == s
  {
    if s != [] {
      assert TrimStart(s) == s;
      assert TrimEnd(s) == s;
    }
  }

  /** `trim` is idempotent. */
  lemma TrimIdempotent(s: string)
    ensures Trim(Trim(s)) == Trim(s)
  {
    TrimOfTrimmed(Trim(s));
  }

  /**
   * `s.replace(/c/g, rep)`: every occurrence of the character `c` becomes `rep`.
   * On one character it gives `rep` for `c` and the character itself otherwise;
   * `ReplaceAllConcat` extends this to every string.
   */
  function ReplaceAll(s: string, c: char, rep: string): (r: string)
    ensures s == [c] ==> r == rep
    ensures |s| == 1 && s[0] != c ==> r == s
    ensures c !in s ==> r == s
    ensures c !in rep ==> c !in r
    ensures forall x :: x in r ==> (x in s && x != c) || x in rep
    ensures forall x :: x in s && x != c ==> x in r
  {
    if |s| == 0 then []
    else
      var rest := ReplaceAll(s[1..], c, rep);
      var r := (if s[0] == c then rep else [s[0]]) + rest;
      assert forall x :: x in s ==> x == s[0] || x in s[1..];
      r
  }

  /** The replacement works character by character: it distributes over concatenation. */
  lemma {:induction false} ReplaceAllConcat(a: string, b: string, c: char, rep: string)
    ensures ReplaceAll(a + b, c, rep) == ReplaceAll(a, c, rep) + ReplaceAll(b, c, rep)
    decreases |a|
  {
    if |a| == 0 {
      assert a + b == b;
    } else {
      assert (a + b)[0] == a[0];
      assert (a + b)[1..] == a[1..] + b;
      ReplaceAllConcat(a[1..], b, c, rep);
    }
  }

  /**
   * `s.split('\n')`: the pieces between line feeds, in order; there is always
   * at least one, and a text without line feeds is a single line.
   */
  function SplitLines(s: string): (lines: seq<string>)
    ensures |lines| >= 1
    ensures '\n' !in s ==> lines == [s]
    decreases |s|
  {
    if s == [] then [[]]
    else if s[0] == '\n' then [[]] + SplitLines(s[1..])
    else
      var rest := SplitLines(s[1..]);
      assert '\n' !in s ==> '\n' !in s[1..];
      assert s == [s[0]] + s[1..];
      [[s[0]] + rest[0]] + rest[1..]
  }

  /** A line without line feeds, a line feed, then more text: the line comes first, then the lines of the rest. */
  lemma {:induction false} SplitLinesJoin(a: string, b: string)
    requires '\n' !in a
    ensures SplitLines(a + "\n" + b) == [a] + SplitLines(b)
    decreases |a|
  {
    var s := a + "\n" + b;
    if a == [] {
      assert s == "\n" + b;
      assert s[1..] == b;
    } else {
      assert s[0] == a[0];
      assert s[1..] == a[1..] + "\n" + b;
      assert a[0] in a;
      SplitLinesJoin(a[1..], b);
      assert a == [a[0]] + a[1..];
    }
  }

  /** `lines.join('\n')`: the lines in order, a line feed between each two. */
  function JoinLines(lines: seq<string>): string
    decreases |lines|
  {
    if |lines| == 0 then ""
    else if |lines| == 1 then lines[0]
    else lines[0] + "\n" + JoinLines(lines[1..])
  }

  /** Splitting joined lines at the line feeds gives the lines back, when none of them holds a line feed. */
  lemma {:induction false} SplitJoinLines(lines: seq<string>)
    requires |lines| >= 1
    requires forall i :: 0 <= i < |lines| ==> '\n' !in lines[i]
    ensures SplitLines(JoinLines(lines)) == lines
    decreases |lines|
  {
    if |lines| > 1 {
      SplitJoinLines(lines[1..]);
      SplitLinesJoin(lines[0], JoinLines(lines[1..]));
      assert lines == [lines[0]] + lines[1..];
    }
  }
}
