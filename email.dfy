/** The contact form's e-mail check, `isValidEmail` (script.js:145-148): the
    value must match `^[^\s@]+@[^\s@]+\.[^\s@]+$` in full. */
module Email {
  import opened Text

  /** A non-empty run of the class `[^\s@]`. */
  predicate Plain(t: string)
  {
    |t| > 0 && forall k :: 0 <= k < |t| ==> t[k] != '@' && !IsSpace(t[k])
  }

  /** The regular expression read literally: `s` splits as
      `A + "@" + B + "." + C` with each of A, B, C a run of `[^\s@]+`;
      `i` and `j` are where the `@` and the `.` stand. */
  ghost predicate MatchesEmailPattern(s: string)
  {
    exists i, j :: 0 <= i < j < |s| && s[i] == '@' && s[j] == '.' &&
      Plain(s[..i]) && Plain(s[i + 1..j]) && Plain(s[j + 1..])
  }

  /** Position of the first `c` in `s`, or `|s|` when there is none. */
  function IndexOf(s: string, c: char): (r: nat)
    ensures r <= |s|
    ensures r < |s| ==> s[r] == c
    ensures c !in s[..r]
  {
    if |s| == 0 then 0
    else if s[0] == c then 0
    else
      var r := 1 + IndexOf(s[1..], c);
      assert s[..r] == [s[0]] + s[1..][..r - 1];
      r
  }

  /** The part after the `@`: no `@`, no whitespace, and a `.` with at least
      one character on either side of it. */
  predicate DomainOk(d: string)
  {
    Plain(d) && exists j :: 0 < j < |d| - 1 && d[j] == '.'
  }

  /** `isValidEmail(s)`: split at the first `@`, then check both halves. */
  predicate IsValidEmail(s: string)
  {
    var at := IndexOf(s, '@');
    at < |s| && Plain(s[..at]) && DomainOk(s[at + 1..])
  }

  /** The split-at-the-first-`@` check accepts exactly the strings the
      regular expression matches. */
  lemma ValidEmailMatchesPattern(s: string)
    ensures IsValidEmail(s) <==> MatchesEmailPattern(s)
  {
    if IsValidEmail(s) {
      ValidEmailSplits(s);
    }
    if MatchesEmailPattern(s) {
      var i, j :| 0 <= i < j < |s| && s[i] == '@' && s[j] == '.' &&
        Plain(s[..i]) && Plain(s[i + 1..j]) && Plain(s[j + 1..]);
      PatternIsValidEmail(s, i, j);
    }
  }

  /** An accepted address splits as the pattern requires. */
  lemma ValidEmailSplits(s: string)
    requires IsValidEmail(s)
    ensures MatchesEmailPattern(s)
  {
    var at := IndexOf(s, '@');
    var d := s[at + 1..];
    var jd :| 0 < jd < |d| - 1 && d[jd] == '.';
    var j := at + 1 + jd;
    assert s[at + 1..j] == d[..jd];
    assert s[j + 1..] == d[jd + 1..];
    PlainSlice(d, 0, jd);
    PlainSlice(d, jd + 1, |d|);
    assert s[j] == '.';
  }

  /** A non-empty slice of a `Plain` run is `Plain`. */
  lemma PlainSlice(t: string, lo: nat, hi: nat)
    requires Plain(t) && lo < hi <= |t|
    ensures Plain(t[lo..hi])
  {
    forall k | 0 <= k < hi - lo ensures t[lo..hi][k] != '@' && !IsSpace(t[lo..hi][k]) {
      assert t[lo..hi][k] == t[lo + k];
    }
  }

  /** A pattern split at `i` and `j` is accepted by `IsValidEmail`. */
  lemma PatternIsValidEmail(s: string, i: nat, j: nat)
    requires 0 <= i < j < |s| && s[i] == '@' && s[j] == '.'
    requires Plain(s[..i]) && Plain(s[i + 1..j]) && Plain(s[j + 1..])
    ensures IsValidEmail(s)
  {
    forall k | 0 <= k < i ensures s[k] != '@' {
      assert s[k] == s[..i][k];
    }
    IndexOfFirst(s, '@', i);
    var d := s[i + 1..];
    var a, c := s[i + 1..j], s[j + 1..];
    assert d == a + ['.'] + c;
    assert d[|a|] == '.';
    forall k | 0 <= k < |d| ensures d[k] != '@' && !IsSpace(d[k]) {
      if k < |a| {
        assert d[k] == a[k];
      } else if k > |a| {
        assert d[k] == c[k - |a| - 1];
      }
    }
  }

  /** If `s[i]` is `c` and nothing before it is, `IndexOf` finds `i`. */
  lemma IndexOfFirst(s: string, c: char, i: nat)
    requires i < |s| && s[i] == c
    requires forall k :: 0 <= k < i ==> s[k] != c
    ensures IndexOf(s, c) == i
  {
    var r := IndexOf(s, c);
    assert r <= i;
    assert r >= i by {
      if r < i {}
    }
  }

  /** The characterisation as a list of requirements: exactly one `@`; a
      non-empty local part without whitespace; a domain without whitespace
      holding a `.` with a character on each side. */
  lemma ValidEmailIff(s: string)
    ensures IsValidEmail(s) <==>
      && multiset(s)['@'] == 1
      && var at := IndexOf(s, '@');
      && 0 < at < |s|
      && NoSpace(s[..at])
      && NoSpace(s[at + 1..])
      && exists j :: at + 1 < j < |s| - 1 && s[j] == '.'
  {
    var at := IndexOf(s, '@');
    SingleAt(s, at);
    if at < |s| {
      PlainIff(s[..at]);
      PlainIff(s[at + 1..]);
      DomainDot(s, at, s[at + 1..]);
    }
  }

  /** A `.` strictly inside the domain `s[at + 1..]` is a `.` of `s`
      between `at + 1` and `|s| - 1`, exclusive. */
  lemma DomainDot(s: string, at: nat, d: string)
    requires at < |s| && d == s[at + 1..]
    ensures (exists jd :: 0 < jd < |d| - 1 && d[jd] == '.') <==>
      (exists j :: at + 1 < j < |s| - 1 && s[j] == '.')
  {
    if jd :| 0 < jd < |d| - 1 && d[jd] == '.' {
      assert s[at + 1 + jd] == '.';
    }
    if j :| at + 1 < j < |s| - 1 && s[j] == '.' {
      assert d[j - at - 1] == '.';
    }
  }

  /** With `at` the first `@` of `s` (or `|s|`), exactly one `@` means:
      there is a first `@` and none after it. */
  lemma SingleAt(s: string, at: nat)
    requires at <= |s| && (at < |s| ==> s[at] == '@') && '@' !in s[..at]
    ensures multiset(s)['@'] == 1 <==> at < |s| && '@' !in s[at + 1..]
  {
    if at < |s| {
      var a, d := s[..at], s[at + 1..];
      assert s == a + [s[at]] + d;
      assert multiset(s)['@'] == 1 + multiset(d)['@'];
    } else {
      assert s[..at] == s;
    }
  }

  /** `Plain` is "non-empty, no `@`, no whitespace". */
  lemma PlainIff(t: string)
    ensures Plain(t) <==> |t| > 0 && '@' !in t && NoSpace(t)
  {
    if |t| > 0 && '@' !in t && NoSpace(t) {
      forall k | 0 <= k < |t| ensures t[k] != '@' {
        assert t[k] in t;
      }
    }
  }

  /** One accepted address and three rejected ones: no dot in the domain, a
      space in the local part, empty. */
  lemma EmailExamples()
    ensures IsValidEmail("a@b.c")
    ensures !IsValidEmail("ab@c")
    ensures !IsValidEmail("a b@c.d")
    ensures !IsValidEmail("")
  {
    assert IndexOf("a@b.c", '@') == 1;
    assert "a@b.c"[2..][1] == '.';
    assert IndexOf("ab@c", '@') == 2;
    assert IndexOf("a b@c.d", '@') == 3;
    assert "a b@c.d"[..3][1] == ' ';
  }
}
