/**
 * The `Email` pattern (util/validation/email.ts): one to 256 allowed
 * characters, an `@`, then three to 253 allowed characters, where `@`, `;`,
 * `"` and space are not allowed. The pattern carries the case-insensitive
 * flag, which changes nothing since none of those characters has a case.
 */
module EmailValidation {
  import opened Strings

  /** `disallowedChars`. */
  const DisallowedChars: string := "@;\" "

  predicate Allowed(c: char) {
    c !in DisallowedChars
  }

  /** Every character matches the class `[^@;" ]`. */
  predicate AllAllowed(s: string) {
    forall k :: 0 <= k < |s| ==> Allowed(s[k])
  }

  /** The pattern read as a language: some split `local@domain` fits both repetitions. */
  ghost predicate IsEmail(s: string) {
    exists i :: 0 <= i < |s| && s[i] == '@' && Fits(s, i)
  }

  /** Splitting `s` at position `i` fits `{1,256}` before and `{3,253}` after. */
  predicate Fits(s: string, i: nat)
    requires i < |s|
  {
    && 1 <= i <= 256 && 3 <= |s| - i - 1 <= 253
    && AllAllowed(s[..i]) && AllAllowed(s[i + 1..])
  }

  /** The recogniser: the only candidate split is at the first `@`. */
  predicate Matches(s: string) {
    var i := IndexOf(s, '@');
    i < |s| && Fits(s, i)
  }

  // ------------------------------------------------------------ properties

  /** The recogniser accepts exactly the strings the pattern describes. */
  lemma MatchesIsEmail(s: string)
    ensures Matches(s) <==> IsEmail(s)
  {
    if IsEmail(s) {
      var i :| 0 <= i < |s| && s[i] == '@' && Fits(s, i);
      IndexOfAt(s, '@', i);
    }
  }

  lemma AllowedHasNoAt(t: string)
    requires AllAllowed(t)
    ensures multiset(t)['@'] == 0
  {
  }

  /** An accepted address holds exactly one `@` and at most 510 characters. */
  lemma AcceptedShape(s: string)
    requires Matches(s)
    ensures multiset(s)['@'] == 1
    ensures 5 <= |s| <= 510
  {
    var i := IndexOf(s, '@');
    assert s == s[..i] + [s[i]] + s[i + 1..];
    AllowedHasNoAt(s[..i]);
    AllowedHasNoAt(s[i + 1..]);
  }

  /** A character and its lower- or upper-case form are allowed alike. */
  lemma AllowedIgnoresCase(c: char)
    ensures Allowed(LowerChar(c)) == Allowed(c)
    ensures Allowed(UpperChar(c)) == Allowed(c)
    ensures (LowerChar(c) == '@') == (c == '@')
    ensures (UpperChar(c) == '@') == (c == '@')
  {
  }

  /** Case changes that keep every position keep the pattern's verdict. */
  lemma FitsIgnoresCase(s: string, t: string, i: nat)
    requires |s| == |t| && i < |s|
    requires forall k :: 0 <= k < |s| ==> t[k] == LowerChar(s[k]) || t[k] == UpperChar(s[k])
    ensures Fits(t, i) == Fits(s, i)
    ensures (t[i] == '@') == (s[i] == '@')
  {
    forall k | 0 <= k < |s|
      ensures Allowed(t[k]) == Allowed(s[k])
    {
      AllowedIgnoresCase(s[k]);
    }
    AllowedIgnoresCase(s[i]);
    assert AllAllowed(t[..i]) == AllAllowed(s[..i]) by {
      assert forall k :: 0 <= k < i ==> t[..i][k] == t[k] && s[..i][k] == s[k];
    }
  }

  /** A recolouring of case that keeps the `@` positions keeps the verdict. */
  lemma MatchesRecased(s: string, t: string)
    requires |s| == |t|
    requires forall k :: 0 <= k < |s| ==> t[k] == LowerChar(s[k]) || t[k] == UpperChar(s[k])
    ensures Matches(t) == Matches(s)
  {
    MatchesIsEmail(s);
    MatchesIsEmail(t);
    if IsEmail(s) {
      var i :| 0 <= i < |s| && s[i] == '@' && Fits(s, i);
      FitsIgnoresCase(s, t, i);
    }
    if IsEmail(t) {
      var i :| 0 <= i < |t| && t[i] == '@' && Fits(t, i);
      FitsIgnoresCase(s, t, i);
    }
  }

  /** Acceptance does not depend on letter case. */
  lemma MatchesIgnoresCase(s: string)
    ensures Matches(Lower(s)) == Matches(s)
    ensures Matches(Upper(s)) == Matches(s)
  {
    MatchesRecased(s, Lower(s));
    MatchesRecased(s, Upper(s));
  }

  /** An address the repository's own tests accept. */
  lemma AcceptedExample(s: string)
    requires s == "alex@example.com"
    ensures Matches(s)
  {
    IndexOfAt(s, '@', 4);
    assert s[..4] == "alex";
    assert s[5..] == "example.com";
  }

  /** A one-character local part is enough. */
  lemma AcceptedShortExample(s: string)
    requires s == "a@a.no"
    ensures Matches(s)
  {
    IndexOfAt(s, '@', 1);
    assert s[..1] == "a";
    assert s[2..] == "a.no";
  }

  /** Too short a domain, an empty local part, or a space is refused. */
  lemma RejectedExample(s: string)
    requires s == "a@b." || s == "@example.com" || s == "a b@example.com"
    ensures !Matches(s)
  {
    if s == "a@b." {
      IndexOfAt(s, '@', 1);
    } else if s == "@example.com" {
      IndexOfAt(s, '@', 0);
    } else {
      IndexOfAt(s, '@', 3);
      assert !Allowed(s[..3][1]);
    }
  }
}
