/** The e-mail address pattern `^[^\s@]+@[^\s@]+\.[^\s@]+$` used by the newsletter form, the checkout
    route and the subscribe route, written once: first as what the regular expression accepts, then as
    a hand-written check, with a proof that the two agree on every string. */
module Email {
  import opened Text

  /** A character of the class `[^\s@]`. */
  predicate IsPatternChar(c: char) {
    !IsSpace(c) && c != '@'
  }

  /** The pattern matches `s` split at `at` ('@') and `dot` ('.'): every other character is in `[^\s@]`. */
  ghost predicate PatternSplit(s: string, at: int, dot: int)
    requires 0 <= at < dot < |s|
  {
    s[at] == '@' && s[dot] == '.' && forall k :: 0 <= k < |s| && k != at ==> IsPatternChar(s[k])
  }

  /** What `RegExp.test` decides for the anchored pattern: three non-empty runs of `[^\s@]`
      separated by a literal '@' and a literal '.'. */
  ghost predicate MatchesPattern(s: string) {
    exists at: int, dot: int :: 0 < at && at + 1 < dot < |s| - 1 && PatternSplit(s, at, dot)
  }

  /** Number of occurrences of `c` in `s`. */
  function CountChar(s: string, c: char): (n: nat)
    ensures n <= |s|
  {
    if s == [] then 0 else (if s[0] == c then 1 else 0) + CountChar(s[1..], c)
  }

  /** Index of the first `c` in `s`, or `|s|` when there is none. */
  function IndexOf(s: string, c: char): (i: nat)
    ensures i <= |s|
    ensures i < |s| ==> s[i] == c
    ensures forall k :: 0 <= k < i ==> s[k] != c
  {
    if s == [] then 0 else if s[0] == c then 0 else 1 + IndexOf(s[1..], c)
  }

  predicate HasNoSpace(s: string) {
    forall i :: 0 <= i < |s| ==> !IsSpace(s[i])
  }

  /** The text before the first '@'. */
  function LocalPart(s: string): string {
    s[..IndexOf(s, '@')]
  }

  /** The text after the first '@' ("" when there is no '@'). */
  function DomainPart(s: string): string {
    var at := IndexOf(s, '@');
    if at < |s| then s[at + 1..] else ""
  }

  /** The domain has a '.' that is neither its first nor its last character. */
  predicate HasInnerDot(d: string) {
    |d| >= 3 && '.' in d[1..|d| - 1]
  }

  /** The hand-written check: exactly one '@', a non-empty local part, no white space anywhere,
      and a domain with an inner '.'. */
  predicate IsValidEmail(s: string) {
    && CountChar(s, '@') == 1
    && LocalPart(s) != ""
    && HasNoSpace(s)
    && HasInnerDot(DomainPart(s))
  }

  lemma {:induction false} CountCharAppend(a: string, b: string, c: char)
    ensures CountChar(a + b, c) == CountChar(a, c) + CountChar(b, c)
  {
    if a == [] {
      assert a + b == b;
    } else {
      assert (a + b)[1..] == a[1..] + b;
      CountCharAppend(a[1..], b, c);
    }
  }

  lemma {:induction false} CountCharZero(s: string, c: char)
    ensures CountChar(s, c) == 0 <==> forall k :: 0 <= k < |s| ==> s[k] != c
  {
    if s != [] {
      CountCharZero(s[1..], c);
      assert forall k :: 1 <= k < |s| ==> s[k] == s[1..][k - 1];
    }
  }

  /** Splitting `s` around its first `c`: the count is one more than the count after it. */
  lemma CountAroundFirst(s: string, c: char)
    requires IndexOf(s, c) < |s|
    ensures CountChar(s, c) == 1 + CountChar(s[IndexOf(s, c) + 1..], c)
  {
    var i := IndexOf(s, c);
    assert s == s[..i] + ([s[i]] + s[i + 1..]);
    CountCharAppend(s[..i], [s[i]] + s[i + 1..], c);
    CountCharAppend([s[i]], s[i + 1..], c);
    CountCharZero(s[..i], c);
  }

  lemma ValidEmailMatches(s: string)
    requires IsValidEmail(s)
    ensures MatchesPattern(s)
  {
    var at := IndexOf(s, '@');
    var d := DomainPart(s);
    CountAroundFirst(s, '@');
    CountCharZero(s[at + 1..], '@');
    var j :| 0 <= j < |d| - 2 && d[1..|d| - 1][j] == '.';
    var dot := at + 2 + j;
    assert s[dot] == d[j + 1];
    forall k | 0 <= k < |s| && k != at ensures IsPatternChar(s[k]) {
      assert !IsSpace(s[k]);
      if k > at { assert s[k] == s[at + 1..][k - at - 1]; }
    }
    assert PatternSplit(s, at, dot);
  }

  lemma MatchIsValidEmail(s: string)
    requires MatchesPattern(s)
    ensures IsValidEmail(s)
  {
    var at: int, dot: int :| 0 < at && at + 1 < dot < |s| - 1 && PatternSplit(s, at, dot);
    forall k | 0 <= k < at ensures s[k] != '@' {
      assert IsPatternChar(s[k]);
    }
    assert IndexOf(s, '@') == at;
    CountAroundFirst(s, '@');
    var t := s[at + 1..];
    forall k | 0 <= k < |t| ensures t[k] != '@' {
      assert t[k] == s[at + 1 + k];
      assert IsPatternChar(s[at + 1 + k]);
    }
    CountCharZero(t, '@');
    forall k | 0 <= k < |s| ensures !IsSpace(s[k]) {
      if k != at { assert IsPatternChar(s[k]); }
    }
    var d := DomainPart(s);
    assert d == t;
    assert d[1..|d| - 1][dot - at - 2] == '.';
  }

  /** The hand-written check accepts exactly the strings the pattern matches. */
  lemma ValidEmailIffPattern(s: string)
    ensures IsValidEmail(s) <==> MatchesPattern(s)
  {
    if IsValidEmail(s) { ValidEmailMatches(s); }
    if MatchesPattern(s) { MatchIsValidEmail(s); }
  }

  /** What the check promises, stated character by character. */
  lemma ValidEmailShape(s: string)
    requires IsValidEmail(s)
    ensures LocalPart(s) != "" && IndexOf(s, '@') < |s|
    ensures forall k :: 0 <= k < |s| && k != IndexOf(s, '@') ==> s[k] != '@'
    ensures HasNoSpace(s) && !IsBlank(s)
    ensures exists k :: IndexOf(s, '@') + 1 < k < |s| - 1 && s[k] == '.'
  {
    var at := IndexOf(s, '@');
    CountAroundFirst(s, '@');
    CountCharZero(s[at + 1..], '@');
    forall k | at < k < |s| ensures s[k] != '@' {
      assert s[k] == s[at + 1..][k - at - 1];
    }
    assert !IsSpace(s[0]);
    var d := DomainPart(s);
    var j :| 0 <= j < |d| - 2 && d[1..|d| - 1][j] == '.';
    assert s[at + 2 + j] == '.';
  }
}
