/**
 * The client's HTML escaper (`escapeHtml`, `escapeAttr`): a character-wise
 * encoder of the five markup-significant characters, together with the decoder
 * a browser applies to those five entities when it reads text or an attribute
 * value back.
 */
module Escape {
  import opened JsText

  /** The characters `escapeHtml` rewrites. */
  predicate IsSpecial(c: char) {
    c == '&' || c == '<' || c == '>' || c == '\'' || c == '"'
  }

  /** Characters that may open or close a tag or a quoted attribute value. */
  predicate IsMarkup(c: char) {
    c == '<' || c == '>' || c == '\'' || c == '"'
  }

  /** The replacement of one character: its entity when it is special, itself otherwise. */
  function EscapeChar(c: char): (e: string)
    ensures IsSpecial(c) ==> OpensEntity(e) && |e| > 1
    ensures !IsSpecial(c) ==> e == [c]
    ensures forall i :: 0 <= i < |e| ==> !IsMarkup(e[i])
    ensures forall i :: 0 < i < |e| ==> e[i] != '&'
  {
    match c
    case '&' => "&amp;"
    case '<' => "&lt;"
    case '>' => "&gt;"
    case '\'' => "&#39;"
    case '"' => "&quot;"
    case _ => [c]
  }

  /** `t` begins with one of the five entities `escapeHtml` produces. */
  predicate OpensEntity(t: string) {
    "&amp;" <= t || "&lt;" <= t || "&gt;" <= t || "&#39;" <= t || "&quot;" <= t
  }

  /** Every `&` in `t` is the first character of an entity. */
  predicate AmpersandsOpenEntities(t: string) {
    forall i :: 0 <= i < |t| && t[i] == '&' ==> OpensEntity(t[i..])
  }

  /** No character of `t` can open or close a tag or an attribute value. */
  predicate FreeOfMarkup(t: string) {
    forall i :: 0 <= i < |t| ==> !IsMarkup(t[i])
  }

  /**
   * `escapeHtml` on a string: each special character is replaced by its entity,
   * every other character is kept. The output never holds `<`, `>`, `'` or `"`
   * and is never shorter than the input.
   */
  function EscapeHtml(s: string): (r: string)
    ensures FreeOfMarkup(r)
    ensures |r| >= |s|
  {
    if |s| == 0 then []
    else
      var e := EscapeChar(s[0]);
      var rest := EscapeHtml(s[1..]);
      assert forall i :: |e| <= i < |e| + |rest| ==> (e + rest)[i] == rest[i - |e|];
      e + rest
  }

  /** `escapeHtml(String(v))`. */
  function EscapeValue(v: JsValue): (r: string)
    ensures FreeOfMarkup(r)
    ensures UnescapeHtml(r) == ToJsString(v)
  {
    EscapeRoundTrip(ToJsString(v));
    EscapeHtml(ToJsString(v))
  }

  /**
   * `escapeAttr`: `escapeHtml` followed by a second replacement of `"`. Since
   * no `"` survives `escapeHtml`, the second step changes nothing.
   */
  function EscapeAttr(s: string): (r: string)
    ensures r == EscapeHtml(s)
    ensures '"' !in r
  {
    var h := EscapeHtml(s);
    assert '"' !in h by {
      forall i | 0 <= i < |h| ensures h[i] != '"' {
        assert !IsMarkup(h[i]);
      }
    }
    ReplaceAll(h, '"', "&quot;")
  }

  /** The browser's decoding of the five entities; any other character stands for itself. */
  function UnescapeHtml(t: string): (r: string)
    ensures |r| <= |t|
  {
    if |t| == 0 then []
    else if "&amp;" <= t then "&" + UnescapeHtml(t[5..])
    else if "&lt;" <= t then "<" + UnescapeHtml(t[4..])
    else if "&gt;" <= t then ">" + UnescapeHtml(t[4..])
    else if "&#39;" <= t then "'" + UnescapeHtml(t[5..])
    else if "&quot;" <= t then "\"" + UnescapeHtml(t[6..])
    else [t[0]] + UnescapeHtml(t[1..])
  }

  /** Every `&` that `escapeHtml` emits opens one of the five entities. */
  lemma {:induction false} EscapeHtmlAmpersands(s: string)
    ensures AmpersandsOpenEntities(EscapeHtml(s))
  {
    if |s| > 0 {
      var e := EscapeChar(s[0]);
      EscapeHtmlAmpersands(s[1..]);
      EscapeCharAmpersands(s[0]);
      AmpersandsConcat(e, EscapeHtml(s[1..]));
    }
  }

  lemma EscapeCharAmpersands(c: char)
    ensures AmpersandsOpenEntities(EscapeChar(c))
  {
    var e := EscapeChar(c);
    forall i | 0 <= i < |e| && e[i] == '&' ensures OpensEntity(e[i..]) {
      assert i == 0;
    }
  }

  lemma AmpersandsConcat(a: string, b: string)
    requires AmpersandsOpenEntities(a) && AmpersandsOpenEntities(b)
    ensures AmpersandsOpenEntities(a + b)
  {
    var t := a + b;
    forall i | 0 <= i < |t| && t[i] == '&' ensures OpensEntity(t[i..]) {
      if i < |a| {
        assert a[i] == '&';
        assert t[i..] == a[i..] + b;
      } else {
        assert t[i..] == b[i - |a|..];
        assert b[i - |a|] == '&';
      }
    }
  }

  /** `escapeHtml` works character by character: it distributes over concatenation. */
  lemma {:induction false} EscapeHtmlConcat(a: string, b: string)
    ensures EscapeHtml(a + b) == EscapeHtml(a) + EscapeHtml(b)
  {
    if |a| == 0 {
      assert a + b == b;
    } else {
      assert (a + b)[0] == a[0];
      assert (a + b)[1..] == a[1..] + b;
      EscapeHtmlConcat(a[1..], b);
    }
  }

  /** A string without special characters is left as it is. */
  lemma {:induction false} EscapeHtmlPlain(s: string)
    requires forall i :: 0 <= i < |s| ==> !IsSpecial(s[i])
    ensures EscapeHtml(s) == s
  {
    if |s| > 0 {
      EscapeHtmlPlain(s[1..]);
      assert s == [s[0]] + s[1..];
    }
  }

  /** Decoding what `escapeHtml` produced gives back its input. */
  lemma {:induction false} EscapeRoundTrip(s: string)
    ensures UnescapeHtml(EscapeHtml(s)) == s
  {
    if |s| > 0 {
      EscapeRoundTrip(s[1..]);
      UnescapeEntity(s[0], EscapeHtml(s[1..]));
      assert s == [s[0]] + s[1..];
    }
  }

  /** Decoding an escaped character followed by anything decodes the character first. */
  lemma UnescapeEntity(c: char, rest: string)
    ensures UnescapeHtml(EscapeChar(c) + rest) == [c] + UnescapeHtml(rest)
  {
    var t := EscapeChar(c) + rest;
    if c == '&' {
      assert "&amp;" <= t && t[5..] == rest;
    } else if c == '<' {
      Mismatch("&amp;", t, 1);
      assert "&lt;" <= t && t[4..] == rest;
    } else if c == '>' {
      Mismatch("&amp;", t, 1);
      Mismatch("&lt;", t, 1);
      assert "&gt;" <= t && t[4..] == rest;
    } else if c == '\'' {
      Mismatch("&amp;", t, 1);
      Mismatch("&lt;", t, 1);
      Mismatch("&gt;", t, 1);
      assert "&#39;" <= t && t[5..] == rest;
    } else if c == '"' {
      Mismatch("&amp;", t, 1);
      Mismatch("&lt;", t, 1);
      Mismatch("&gt;", t, 1);
      Mismatch("&#39;", t, 1);
      assert "&quot;" <= t && t[6..] == rest;
    } else {
      assert t[0] == c && t[1..] == rest;
      assert !OpensEntity(t);
    }
  }

  /** A string that differs from `p` at position `k` does not start with `p`. */
  lemma Mismatch(p: string, t: string, k: nat)
    requires k < |p| && k < |t| && p[k] != t[k]
    ensures !(p <= t)
  {
  }

  /** Distinct strings escape to distinct strings. */
  lemma EscapeHtmlInjective(a: string, b: string)
    requires EscapeHtml(a) == EscapeHtml(b)
    ensures a == b
  {
    EscapeRoundTrip(a);
    EscapeRoundTrip(b);
  }

  /** Where the parser meets the characters: inside an attribute value, or as text of an element in the body. */
  datatype Context = InAttribute | InText

  /** What a NUL character becomes: U+FFFD in an attribute value; in body text it is dropped. */
  function NulAs(ctx: Context): string {
    if ctx == InAttribute then "\U{FFFD}" else ""
  }

  /**
   * What the HTML parser makes of the raw characters of markup assigned to
   * `innerHTML`, before it decodes entities: the input-stream preprocessing
   * turns a CR LF pair and a lone CR into LF, and the tokenizer replaces or
   * drops each NUL according to the context.
   */
  function Preprocess(t: string, ctx: Context): string
    decreases |t|
  {
    if |t| == 0 then []
    else if t[0] == '\r' then "\n" + Preprocess(if |t| > 1 && t[1] == '\n' then t[2..] else t[1..], ctx)
    else if t[0] == '\0' then NulAs(ctx) + Preprocess(t[1..], ctx)
    else [t[0]] + Preprocess(t[1..], ctx)
  }

  /** The value the browser reports for markup characters `t`: `getAttribute` for an attribute, `textContent` for text. */
  function ReadBack(t: string, ctx: Context): string {
    UnescapeHtml(Preprocess(t, ctx))
  }

  /** Text without CR and NUL is what the parser leaves alone. */
  predicate ParserPlain(s: string) {
    forall i :: 0 <= i < |s| ==> s[i] != '\r' && s[i] != '\0'
  }

  /** The parser leaves text without CR and NUL as it is. */
  lemma {:induction false} PreprocessPlain(s: string, ctx: Context)
    requires ParserPlain(s)
    ensures Preprocess(s, ctx) == s
    decreases |s|
  {
    if |s| > 0 {
      PreprocessPlain(s[1..], ctx);
      assert s == [s[0]] + s[1..];
    }
  }

  /**
   * What the parser makes of an attribute value holds no CR and no NUL; a value
   * that held one comes out holding the LF or U+FFFD that replaced it.
   */
  lemma {:induction false} PreprocessNormalizes(s: string)
    ensures ParserPlain(Preprocess(s, InAttribute))
    ensures !ParserPlain(s) ==> '\n' in Preprocess(s, InAttribute) || '\U{FFFD}' in Preprocess(s, InAttribute)
    decreases |s|
  {
    if |s| > 0 {
      var crlf := s[0] == '\r' && |s| > 1 && s[1] == '\n';
      var rest := if crlf then s[2..] else s[1..];
      var head := if s[0] == '\r' then "\n" else if s[0] == '\0' then "\U{FFFD}" else [s[0]];
      PreprocessNormalizes(rest);
      var p := Preprocess(s, InAttribute);
      assert p == head + Preprocess(rest, InAttribute);
      forall i | 0 <= i < |p| ensures p[i] != '\r' && p[i] != '\0' {
        if i >= |head| {
          assert p[i] == Preprocess(rest, InAttribute)[i - |head|];
        }
      }
      if !ParserPlain(s) && s[0] != '\r' && s[0] != '\0' {
        var i :| 0 <= i < |s| && (s[i] == '\r' || s[i] == '\0');
        assert rest[i - 1] == s[i];
      }
    }
  }

  /** A prefix without CR and NUL passes through the parser, and the rest is read on its own. */
  lemma {:induction false} PreprocessPlainPrefix(e: string, x: string, ctx: Context)
    requires ParserPlain(e)
    ensures Preprocess(e + x, ctx) == e + Preprocess(x, ctx)
    decreases |e|
  {
    if |e| == 0 {
      assert e + x == x;
    } else {
      assert e + x == [e[0]] + (e[1..] + x);
      PreprocessKeep(e[0], e[1..] + x, ctx);
      PreprocessPlainPrefix(e[1..], x, ctx);
      assert e == [e[0]] + e[1..];
    }
  }

  /** A leading character other than CR and NUL passes through the parser. */
  lemma PreprocessKeep(c: char, x: string, ctx: Context)
    requires c != '\r' && c != '\0'
    ensures Preprocess([c] + x, ctx) == [c] + Preprocess(x, ctx)
  {
    assert ([c] + x)[1..] == x;
  }

  /** The replacement of a character other than CR and NUL holds neither. */
  lemma EscapeCharPlain(c: char)
    requires c != '\r' && c != '\0'
    ensures ParserPlain(EscapeChar(c))
  {
  }

  lemma PreprocessNul(x: string, ctx: Context)
    ensures Preprocess("\0" + x, ctx) == NulAs(ctx) + Preprocess(x, ctx)
  {
    assert ("\0" + x)[1..] == x;
  }

  lemma EscapeCons(c: char, s: string)
    ensures EscapeHtml([c] + s) == EscapeChar(c) + EscapeHtml(s)
  {
    assert ([c] + s)[1..] == s;
  }

  /**
   * Escaping and the parser's preprocessing commute: `escapeHtml` never writes
   * CR or NUL and never rewrites them, and the preprocessing never writes one
   * of the five special characters.
   */
  lemma {:induction false} PreprocessEscaped(s: string, ctx: Context)
    ensures Preprocess(EscapeHtml(s), ctx) == EscapeHtml(Preprocess(s, ctx))
    decreases |s|, 1
  {
    if |s| > 0 {
      var c := s[0];
      if c == '\r' {
        PreprocessEscapedCr(s, ctx);
      } else if c == '\0' {
        PreprocessEscapedNul(s, ctx);
      } else {
        PreprocessEscapedOther(s, ctx);
      }
    }
  }

  /** The case of `PreprocessEscaped` where `s` starts with NUL. */
  lemma {:induction false} PreprocessEscapedNul(s: string, ctx: Context)
    requires |s| > 0 && s[0] == '\0'
    ensures Preprocess(EscapeHtml(s), ctx) == EscapeHtml(Preprocess(s, ctx))
    decreases |s|, 0
  {
    EscapeCons('\0', s[1..]);
    PreprocessEscaped(s[1..], ctx);
    PreprocessNul(EscapeHtml(s[1..]), ctx);
    EscapeHtmlConcat(NulAs(ctx), Preprocess(s[1..], ctx));
    EscapeHtmlPlain(NulAs(ctx));
  }

  /** The case of `PreprocessEscaped` where `s` starts with neither CR nor NUL. */
  lemma {:induction false} PreprocessEscapedOther(s: string, ctx: Context)
    requires |s| > 0 && s[0] != '\r' && s[0] != '\0'
    ensures Preprocess(EscapeHtml(s), ctx) == EscapeHtml(Preprocess(s, ctx))
    decreases |s|, 0
  {
    var c := s[0];
    assert s == [c] + s[1..];
    EscapeCons(c, s[1..]);
    PreprocessEscaped(s[1..], ctx);
    EscapeCharPlain(c);
    PreprocessPlainPrefix(EscapeChar(c), EscapeHtml(s[1..]), ctx);
    PreprocessKeep(c, s[1..], ctx);
    EscapeCons(c, Preprocess(s[1..], ctx));
  }

  /** The case of `PreprocessEscaped` where `s` starts with CR, alone or before LF. */
  lemma {:induction false} PreprocessEscapedCr(s: string, ctx: Context)
    requires |s| > 0 && s[0] == '\r'
    ensures Preprocess(EscapeHtml(s), ctx) == EscapeHtml(Preprocess(s, ctx))
    decreases |s|, 0
  {
    var rest := if |s| > 1 && s[1] == '\n' then s[2..] else s[1..];
    var e := EscapeHtml(s[1..]);
    EscapeCons('\r', s[1..]);
    assert EscapeHtml(s) == "\r" + e;
    if |s| > 1 && s[1] == '\n' {
      assert s[1..] == ['\n'] + rest;
      EscapeCons('\n', rest);
      assert e == "\n" + EscapeHtml(rest);
      assert e[1..] == EscapeHtml(rest);
    } else if |s| > 1 {
      EscapeCons(s[1], s[2..]);
      assert s[1..] == [s[1]] + s[2..];
      assert e[0] != '\n';
    }
    var t := "\r" + e;
    assert t[1..] == e;
    if |e| > 0 {
      assert t[1] == e[0];
      assert t[2..] == e[1..];
    }
    assert Preprocess(t, ctx) == "\n" + Preprocess(EscapeHtml(rest), ctx);
    PreprocessEscaped(rest, ctx);
    EscapeCons('\n', Preprocess(rest, ctx));
  }

  /**
   * What the browser reports for escaped markup is the original text as the
   * parser's preprocessing leaves it: the text itself when it holds no CR or NUL.
   */
  lemma ReadBackEscaped(s: string, ctx: Context)
    ensures ReadBack(EscapeHtml(s), ctx) == Preprocess(s, ctx)
  {
    PreprocessEscaped(s, ctx);
    EscapeRoundTrip(Preprocess(s, ctx));
  }
}
