/** The two input validators of the user service: the email regular
    expression `^[^\s@]+@[^\s@]+\.[^\s@]+$` and the minimum password length,
    together with a structural reading of the regular expression and the
    proof that the two agree. */
module Validators {

  const MinPasswordLength: nat := 8

  /** `validatePassword`: only the length counts, not what the characters are. */
  function ValidatePassword(password: string): (ok: bool)
    ensures ok <==> MinPasswordLength <= |password|
  {
    |password| >= MinPasswordLength
  }

  /** The code points `\s` matches in a JavaScript regular expression:
      the ECMAScript WhiteSpace and LineTerminator characters. */
  predicate IsWhitespace(c: char) {
    || ('\t' <= c <= '\r')   // tab, line feed, vertical tab, form feed, carriage return
    || c == ' '
    || c == '\U{00A0}'
    || c == '\U{1680}'
    || ('\U{2000}' <= c <= '\U{200A}')
    || c == '\U{2028}'
    || c == '\U{2029}'
    || c == '\U{202F}'
    || c == '\U{205F}'
    || c == '\U{3000}'
    || c == '\U{FEFF}'
  }

  /** One character of the class `[^\s@]`. */
  predicate EmailChar(c: char) {
    c != '@' && !IsWhitespace(c)
  }

  /** `[^\s@]+` matching all of `t`. */
  predicate EmailRun(t: string) {
    |t| > 0 && forall k | 0 <= k < |t| :: EmailChar(t[k])
  }

  /** `[^\s@]+\.[^\s@]+` matching all of `d`, for some choice of the dot. */
  predicate DomainMatches(d: string) {
    exists b | 0 < b < |d| - 1 :: d[b] == '.' && EmailRun(d[..b]) && EmailRun(d[b + 1..])
  }

  /** The anchored regular expression matches `s`, for some choice of the `@`. */
  predicate MatchesEmailPattern(s: string) {
    exists a | 0 < a < |s| :: s[a] == '@' && EmailRun(s[..a]) && DomainMatches(s[a + 1..])
  }

  /** Number of occurrences of `c` in `s`. */
  function CountOf(s: string, c: char): nat {
    if |s| == 0 then 0 else (if s[0] == c then 1 else 0) + CountOf(s[1..], c)
  }

  /** Position of the first `c` in `s`, or `|s|` when there is none. */
  function IndexOf(s: string, c: char): (i: nat)
    ensures i <= |s|
    ensures i < |s| ==> s[i] == c
    ensures forall k | 0 <= k < i :: s[k] != c
  {
    if |s| == 0 then 0
    else if s[0] == c then 0
    else 1 + IndexOf(s[1..], c)
  }

  /** The shape of an acceptable email, stated without the regular expression:
      no whitespace, exactly one `@`, something before it, and after it a
      domain with a dot that is neither its first nor its last character. */
  predicate WellFormedEmail(s: string) {
    && (forall k | 0 <= k < |s| :: !IsWhitespace(s[k]))
    && CountOf(s, '@') == 1
    && var a := IndexOf(s, '@');
       && 0 < a < |s|
       && var domain := s[a + 1..];
          exists b | 0 < b < |domain| - 1 :: domain[b] == '.'
  }

  lemma {:induction false} CountOfAppend(x: string, y: string, c: char)
    ensures CountOf(x + y, c) == CountOf(x, c) + CountOf(y, c)
  {
    if |x| == 0 {
      assert x + y == y;
    } else {
      assert (x + y)[1..] == x[1..] + y;
      CountOfAppend(x[1..], y, c);
    }
  }

  lemma {:induction false} CountOfZero(s: string, c: char)
    ensures CountOf(s, c) == 0 <==> forall k | 0 <= k < |s| :: s[k] != c
  {
    if |s| > 0 {
      CountOfZero(s[1..], c);
      assert forall k | 1 <= k < |s| :: s[k] == s[1..][k - 1];
    }
  }

  /** `s` split around position `a`, for counting. */
  lemma CountAround(s: string, a: nat, c: char)
    requires a < |s|
    ensures CountOf(s, c) == CountOf(s[..a], c) + (if s[a] == c then 1 else 0) + CountOf(s[a + 1..], c)
  {
    assert s == s[..a] + s[a..];
    CountOfAppend(s[..a], s[a..], c);
    assert s[a..][1..] == s[a + 1..];
  }

  /** In a match split at `a` (the `@`) and at `a + 1 + b` (the dot), every
      character but the `@` belongs to `[^\s@]`. */
  lemma MatchCharacters(s: string, a: nat, b: nat)
    requires 0 < a < |s| && 0 < b < |s| - a - 2
    requires EmailRun(s[..a]) && EmailRun(s[a + 1..][..b]) && EmailRun(s[a + 1..][b + 1..])
    requires s[a + 1 + b] == '.'
    ensures forall k | 0 <= k < |s| && k != a :: EmailChar(s[k])
  {
  }

  /** A match split at `a` and `a + 1 + b` has a single `@`, at `a`. */
  lemma MatchHasOneAt(s: string, a: nat, b: nat)
    requires 0 < a < |s| && 0 < b < |s| - a - 2 && s[a] == '@'
    requires forall k | 0 <= k < |s| && k != a :: EmailChar(s[k])
    ensures CountOf(s, '@') == 1 && IndexOf(s, '@') == a
  {
    var d := s[a + 1..];
    assert forall k | 0 <= k < |d| :: d[k] != '@' by {
      forall k | 0 <= k < |d| ensures d[k] != '@' {
        assert d[k] == s[a + 1 + k];
      }
    }
    CountAround(s, a, '@');
    CountOfZero(s[..a], '@');
    CountOfZero(d, '@');
  }

  /** A match of the regular expression has the well-formed shape. */
  lemma MatchIsWellFormed(s: string)
    requires MatchesEmailPattern(s)
    ensures WellFormedEmail(s)
  {
    var a :| 0 < a < |s| && s[a] == '@' && EmailRun(s[..a]) && DomainMatches(s[a + 1..]);
    var d := s[a + 1..];
    var b :| 0 < b < |d| - 1 && d[b] == '.' && EmailRun(d[..b]) && EmailRun(d[b + 1..]);
    MatchCharacters(s, a, b);
    MatchHasOneAt(s, a, b);
    assert forall k | 0 <= k < |s| :: !IsWhitespace(s[k]) by {
      forall k | 0 <= k < |s| ensures !IsWhitespace(s[k]) {
        if k != a {
          assert EmailChar(s[k]);
        }
      }
    }
    assert d[b] == '.';
  }

  /** A well-formed email is matched, splitting at its only `@` and at the
      inner dot of its domain. */
  lemma WellFormedMatches(s: string)
    requires WellFormedEmail(s)
    ensures MatchesEmailPattern(s)
  {
    var a := IndexOf(s, '@');
    var d := s[a + 1..];
    var b :| 0 < b < |d| - 1 && d[b] == '.';
    CountAround(s, a, '@');
    CountOfZero(d, '@');
    var local, left, right := s[..a], d[..b], d[b + 1..];
    assert EmailRun(local) by {
      forall k | 0 <= k < |local| ensures EmailChar(local[k]) {
        assert local[k] == s[k];
      }
    }
    assert EmailRun(left) by {
      forall k | 0 <= k < |left| ensures EmailChar(left[k]) {
        assert left[k] == d[k];
      }
    }
    assert EmailRun(right) by {
      forall k | 0 <= k < |right| ensures EmailChar(right[k]) {
        assert right[k] == d[b + 1 + k];
      }
    }
    assert DomainMatches(d);
  }

  /** The regular expression accepts exactly the well-formed emails. */
  lemma EmailPatternIsWellFormed(s: string)
    ensures MatchesEmailPattern(s) <==> WellFormedEmail(s)
  {
    if MatchesEmailPattern(s) {
      MatchIsWellFormed(s);
    }
    if WellFormedEmail(s) {
      WellFormedMatches(s);
    }
  }

  /** `validateEmail`: the regular expression's test, which accepts exactly
      the well-formed emails. */
  function ValidateEmail(s: string): (ok: bool)
    ensures ok <==> WellFormedEmail(s)
  {
    EmailPatternIsWellFormed(s);
    MatchesEmailPattern(s)
  }
}
