/** The address check of controllers/listController.js, the regular
    expression `^[^\s@]+@[^\s@]+\.[^\s@]+$`: a simplified shape test, not the
    addr-spec grammar of RFC 5322. */
module EmailShape {
  import opened Js

  /** A character of the class `[^\s@]`. */
  predicate IsAtomChar(c: char) {
    !IsWhitespace(c) && c != '@'
  }

  predicate AllAtomChars(s: string) {
    forall i :: 0 <= i < |s| ==> IsAtomChar(s[i])
  }

  /** The pattern read literally: `s` splits at some `@` and some later `.`
      into three non-empty runs of `[^\s@]`. This is the reference the
      executable check below is proved equal to. */
  ghost predicate MatchesPattern(s: string) {
    exists at, dot :: PatternSplit(s, at, dot)
  }

  ghost predicate PatternSplit(s: string, at: int, dot: int) {
    && 0 < at && at + 1 < dot && dot + 1 < |s|
    && s[at] == '@' && s[dot] == '.'
    && AllAtomChars(s[..at]) && AllAtomChars(s[at + 1..dot]) && AllAtomChars(s[dot + 1..])
  }

  /** `emailRegex.test(s)`, decided directly: no whitespace, exactly one `@`
      with something before it, and a `.` in the part after the `@` with
      something on both sides of it. */
  predicate IsValidEmail(s: string) {
    && NoWhitespace(s)
    && '@' in s
    && var at := IndexOf(s, '@');
       && at > 0
       && '@' !in s[at + 1..]
       && var domain := s[at + 1..];
          |domain| >= 3 && '.' in domain[1..|domain| - 1]
  }

  /** The check decides exactly the pattern. */
  lemma ValidEmailMatchesPattern(s: string)
    ensures IsValidEmail(s) <==> MatchesPattern(s)
  {
    if IsValidEmail(s) {
      ValidEmailHasSplit(s);
    }
    if MatchesPattern(s) {
      var at, dot :| PatternSplit(s, at, dot);
      SplitIsValidEmail(s, at, dot);
    }
  }

  lemma ValidEmailHasSplit(s: string)
    requires IsValidEmail(s)
    ensures MatchesPattern(s)
  {
    var at := IndexOf(s, '@');
    var domain := s[at + 1..];
    var inner := domain[1..|domain| - 1];
    var k := IndexOf(inner, '.');
    var dot := at + 2 + k;
    assert s[dot] == '.';
    forall i | 0 <= i < |s| && i != at ensures IsAtomChar(s[i]) {
      if i < at {
        assert s[..at][i] == s[i];
      } else {
        assert domain[i - at - 1] == s[i];
      }
    }
    assert AllAtomChars(s[..at]);
    assert AllAtomChars(s[at + 1..dot]);
    assert AllAtomChars(s[dot + 1..]);
    assert PatternSplit(s, at, dot);
  }

  lemma SplitIsValidEmail(s: string, at: int, dot: int)
    requires PatternSplit(s, at, dot)
    ensures IsValidEmail(s)
  {
    forall i | 0 <= i < |s| ensures !IsWhitespace(s[i]) && (s[i] == '@' <==> i == at) {
      if i < at {
        assert s[..at][i] == s[i];
      } else if at < i < dot {
        assert s[at + 1..dot][i - at - 1] == s[i];
      } else if dot < i {
        assert s[dot + 1..][i - dot - 1] == s[i];
      }
    }
    assert '@' !in s[..at];
    assert IndexOf(s, '@') == at;
    var domain := s[at + 1..];
    assert domain[dot - at - 1] == '.';
    assert domain[1..|domain| - 1][dot - at - 2] == '.';
  }

  /** `s` and `t` agree on which positions hold whitespace, `@` and `.`. */
  ghost predicate SameShape(s: string, t: string) {
    |s| == |t| &&
    forall i :: 0 <= i < |s| ==>
      (IsWhitespace(t[i]) <==> IsWhitespace(s[i])) && (t[i] == '@' <==> s[i] == '@') && (t[i] == '.' <==> s[i] == '.')
  }

  lemma AtomRunTransfers(s: string, t: string, lo: int, hi: int)
    requires SameShape(s, t) && 0 <= lo <= hi <= |s|
    requires AllAtomChars(s[lo..hi])
    ensures AllAtomChars(t[lo..hi])
  {
    forall i | 0 <= i < hi - lo ensures IsAtomChar(t[lo..hi][i]) {
      assert s[lo..hi][i] == s[lo + i] && t[lo..hi][i] == t[lo + i];
    }
  }

  lemma PatternSplitTransfers(s: string, t: string, at: int, dot: int)
    requires SameShape(s, t) && PatternSplit(s, at, dot)
    ensures PatternSplit(t, at, dot)
  {
    AtomRunTransfers(s, t, 0, at);
    assert s[..at] == s[0..at] && t[..at] == t[0..at];
    AtomRunTransfers(s, t, at + 1, dot);
    AtomRunTransfers(s, t, dot + 1, |s|);
    assert s[dot + 1..] == s[dot + 1..|s|] && t[dot + 1..] == t[dot + 1..|t|];
  }

  /** Lowering ASCII letters never changes whether an address is valid, so an
      address that passed the check and is then stored lowercased is still
      valid. */
  lemma ValidEmailIgnoresCase(s: string)
    ensures IsValidEmail(ToLower(s)) <==> IsValidEmail(s)
  {
    var t := ToLower(s);
    assert SameShape(s, t);
    assert SameShape(t, s);
    ValidEmailMatchesPattern(s);
    ValidEmailMatchesPattern(t);
    if MatchesPattern(s) {
      var at, dot :| PatternSplit(s, at, dot);
      PatternSplitTransfers(s, t, at, dot);
    }
    if MatchesPattern(t) {
      var at, dot :| PatternSplit(t, at, dot);
      PatternSplitTransfers(t, s, at, dot);
    }
  }

  /** A valid address is whitespace-free at both ends, so trimming keeps it. */
  lemma ValidEmailIsTrimmed(s: string)
    requires IsValidEmail(s)
    ensures Trim(s) == s && s != []
  {
    TrimKeeps(s);
  }
}
