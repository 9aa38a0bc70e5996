/**
 * The server's `validateEmail`, the regular expression
 * `^[^\s@]+@[^\s@]+\.[^\s@]+$`, written out twice: as the pattern itself
 * (three runs of characters that are neither whitespace nor `@`, joined by an
 * `@` and a `.`) and as the check a reader would write by hand. The two agree
 * on every string.
 */
module EmailAddress {
  import opened JsText

  /** Every character of `t` matches `[^\s@]`. */
  predicate NoSpaceOrAt(t: string) {
    forall i :: 0 <= i < |t| ==> !IsWhitespace(t[i]) && t[i] != '@'
  }

  /** The pattern matches with the `@` at `i` and the chosen `.` at `j`. */
  predicate MatchesAt(s: string, i: int, j: int) {
    && 0 < i && i + 1 < j && j + 1 < |s|
    && s[i] == '@' && s[j] == '.'
    && NoSpaceOrAt(s[..i]) && NoSpaceOrAt(s[i + 1..j]) && NoSpaceOrAt(s[j + 1..])
  }

  /** `^[^\s@]+@[^\s@]+\.[^\s@]+$` matches `s`. */
  ghost predicate MatchesPattern(s: string) {
    exists i, j :: MatchesAt(s, i, j)
  }

  /** The position of the first `c` in `s`, or `|s|` when there is none. */
  function IndexOf(s: string, c: char): (k: nat)
    ensures k <= |s|
    ensures forall j :: 0 <= j < k ==> s[j] != c
    ensures k < |s| ==> s[k] == c
  {
    if |s| == 0 then 0
    else if s[0] == c then 0
    else 1 + IndexOf(s[1..], c)
  }

  /**
   * `validateEmail`: no whitespace anywhere, exactly one `@`, something before
   * it, and a `.` in the domain that is neither its first nor its last character.
   */
  function ValidateEmail(s: string): (ok: bool)
    ensures ok ==> '@' in s && forall k :: 0 <= k < |s| && k != IndexOf(s, '@') ==> s[k] != '@'
  {
    var at := IndexOf(s, '@');
    && (forall k :: 0 <= k < |s| ==> !IsWhitespace(s[k]))
    && 0 < at < |s|
    && '@' !in s[at + 1..]
    && var domain := s[at + 1..];
       3 <= |domain| && '.' in domain[1..|domain| - 1]
  }

  /** The hand-written check accepts exactly the strings the regular expression matches. */
  lemma ValidateEmailMatchesPattern(s: string)
    ensures ValidateEmail(s) <==> MatchesPattern(s)
  {
    if ValidateEmail(s) {
      ValidImpliesMatch(s);
    }
    if MatchesPattern(s) {
      var i, j :| MatchesAt(s, i, j);
      MatchImpliesValid(s, i, j);
    }
  }

  lemma ValidImpliesMatch(s: string)
    requires ValidateEmail(s)
    ensures MatchesPattern(s)
  {
    var at := IndexOf(s, '@');
    var domain := s[at + 1..];
    var m :| 0 <= m < |domain[1..|domain| - 1]| && domain[1..|domain| - 1][m] == '.';
    var j := at + 2 + m;
    assert s[j] == '.';
    assert forall k :: at < k < |s| ==> s[k] != '@' by {
      forall k | at < k < |s| ensures s[k] != '@' {
        assert s[k] == domain[k - at - 1];
      }
    }
    assert MatchesAt(s, at, j);
  }

  lemma MatchImpliesValid(s: string, i: int, j: int)
    requires MatchesAt(s, i, j)
    ensures ValidateEmail(s)
  {
    forall k | 0 <= k < |s| && k != i ensures !IsWhitespace(s[k]) && s[k] != '@' {
      if k < i {
        assert s[k] == s[..i][k];
      } else if k < j {
        assert s[k] == s[i + 1..j][k - i - 1];
      } else if k > j {
        assert s[k] == s[j + 1..][k - j - 1];
      }
    }
    assert IndexOf(s, '@') == i;
    var domain := s[i + 1..];
    assert '@' !in domain;
    assert domain[1..|domain| - 1][j - i - 2] == '.';
  }

  /** A plain address is accepted: `a@b.com`. */
  lemma AcceptsPlainAddress()
    ensures ValidateEmail("a@b.com")
  {
    var s := "a@b.com";
    forall k | 0 <= k < |s| ensures !IsWhitespace(s[k]) {
      VisibleAsciiNotWhitespace(s[k]);
    }
    assert IndexOf(s, '@') == 1;
    assert s[2..] == "b.com";
    assert "b.com"[1..4] == ".co";
  }

  /** Inputs rejected: no `@` at all, no dot in the domain, a space in the local part. */
  lemma RejectsMalformedAddresses()
    ensures !ValidateEmail("bad")
    ensures !ValidateEmail("a@b")
    ensures !ValidateEmail("a b@c.de")
  {
    assert IndexOf("a@b", '@') == 1;
    assert "a b@c.de"[1] == ' ';
  }

  /** The printable ASCII characters other than space are not whitespace. */
  lemma VisibleAsciiNotWhitespace(c: char)
    requires 0x21 <= c as int <= 0x7E
    ensures !IsWhitespace(c)
  {
  }
}
