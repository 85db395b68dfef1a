/**
 * `normalizeEmail` (users/normalizeEmail.ts): the key under which the device
 * store files a device by its owner.
 */
module EmailNormalization {
  import opened Strings

  /**
   * `normalizeEmail`: trim, lower-case, split at `@`, keep the first two
   * parts and cut the local part at its first `+`. Without an `@` the domain
   * is `undefined`, which the template literal renders as the word itself.
   */
  function NormalizeEmail(email: string): (r: string)
    ensures IsLower(r)
    ensures '@' in r
    ensures '+' !in Before(r, '@')
  {
    var normalized := Lower(Trim(email));
    Recompose(normalized)
  }

  /** The part of `normalizeEmail` after trimming and lower-casing. */
  function Recompose(normalized: string): (r: string)
    ensures '@' in r
    ensures '+' !in Before(r, '@')
    ensures IsLower(normalized) ==> IsLower(r)
  {
    var parts := Split(normalized, '@');
    var user := Before(parts[0], '+');
    var domain := if |parts| > 1 then parts[1] else "undefined";
    assert parts[0] in parts;
    assert |parts| > 1 ==> parts[1] in parts;
    assert IsLower(normalized) ==> IsLower(user) && IsLower(domain) by {
      if IsLower(normalized) {
        SplitKeepsLower(normalized, '@');
      }
    }
    Glue(user, domain);
    user + "@" + domain
  }

  /** `${user}@${domain}` when the user part holds no `@`. */
  lemma Glue(user: string, domain: string)
    requires '@' !in user
    ensures '@' in user + "@" + domain
    ensures Before(user + "@" + domain, '@') == user
    ensures IsLower(user) && IsLower(domain) ==> IsLower(user + "@" + domain)
  {
    IndexOfSkips(user, "@" + domain, '@');
    assert (user + "@" + domain)[|user|] == '@';
    assert (user + "@" + domain)[..|user|] == user;
  }

  lemma RecomposeAt(a: string, d: string)
    requires '@' !in a
    ensures Recompose(a + "@" + d) == Before(a, '+') + "@" + Before(d, '@')
  {
    SplitConcat(a, d, '@');
    SplitWithout(a, '@');
  }

  lemma LowerKeepsSeparators(s: string)
    ensures '@' in Lower(s) <==> '@' in s
    ensures '+' in Lower(s) <==> '+' in s
  {
    LowerKeepsUncased(s, '@');
    LowerKeepsUncased(s, '+');
  }

  /** `trim` then `toLowerCase` of `a@d`, when neither side holds the `@`. */
  lemma NormalizedAt(a: string, d: string)
    ensures Lower(Trim(a + "@" + d)) == Lower(TrimStart(a)) + "@" + Lower(TrimEnd(d))
  {
    assert a + "@" + d == a + ['@'] + d;
    TrimStartAppend(a, '@', d);
    assert TrimStart(a + "@" + d) == TrimStart(a) + ['@'] + d;
    TrimEndAppend(TrimStart(a), '@', d);
    var t := TrimStart(a) + "@" + TrimEnd(d);
    assert Trim(a + "@" + d) == t;
    LowerAppend(TrimStart(a) + "@", TrimEnd(d));
    LowerAppend(TrimStart(a), "@");
    assert Lower("@") == "@";
  }

  // ------------------------------------------------------------ properties

  /** Leading and trailing whitespace is removed before anything else happens. */
  lemma NormalizeIgnoresPadding(pre: string, email: string, post: string)
    requires AllSpace(pre) && AllSpace(post)
    ensures NormalizeEmail(pre + email + post) == NormalizeEmail(email)
  {
    TrimPadding(pre, email, post);
  }

  /** Addresses that differ only in letter case normalise to the same key. */
  lemma NormalizeIgnoresCase(a: string, b: string)
    requires Lower(a) == Lower(b)
    ensures NormalizeEmail(a) == NormalizeEmail(b)
  {
    TrimLower(a);
    TrimLower(b);
  }

  /** A character without a case that `s` lacks is missing from `Lower(TrimStart(s))` too. */
  lemma LowerTrimStartLacks(s: string, c: char)
    requires c !in s && !('A' <= c <= 'Z') && !('a' <= c <= 'z')
    ensures c !in Lower(TrimStart(s))
  {
    assert TrimStart(s) == s[|s| - |TrimStart(s)|..];
    LowerKeepsUncased(TrimStart(s), c);
  }

  lemma BeforeFirst(a: string, c: char, rest: string)
    requires c !in a
    ensures Before(a + [c] + rest, c) == a
  {
    assert a + [c] + rest == a + ([c] + rest);
    IndexOfSkips(a, [c] + rest, c);
    assert (a + ([c] + rest))[..|a|] == a;
  }

  lemma LowerTrimStartTagged(user: string, tag: string)
    requires '+' !in user
    ensures Lower(TrimStart(user + "+" + tag)) == Lower(TrimStart(user)) + "+" + Lower(tag)
  {
    assert user + "+" + tag == user + ['+'] + tag;
    TrimStartAppend(user, '+', tag);
    LowerAppend(TrimStart(user) + "+", tag);
    LowerAppend(TrimStart(user), "+");
    assert Lower("+") == "+";
  }

  /** A `+tag` on the local part is dropped. */
  lemma NormalizeDropsPlusTag(user: string, tag: string, domain: string)
    requires '@' !in user && '+' !in user && '@' !in tag
    ensures NormalizeEmail(user + "+" + tag + "@" + domain) == NormalizeEmail(user + "@" + domain)
  {
    var tagged := user + "+" + tag;
    assert user + "+" + tag + "@" + domain == tagged + "@" + domain;
    var a := Lower(TrimStart(user));
    var d := Lower(TrimEnd(domain));
    var at := Lower(TrimStart(tagged));
    NormalizedAt(tagged, domain);
    NormalizedAt(user, domain);
    LowerTrimStartTagged(user, tag);
    assert at == a + "+" + Lower(tag);
    LowerTrimStartLacks(user, '@');
    LowerTrimStartLacks(user, '+');
    LowerKeepsSeparators(tag);
    assert '@' !in at;
    RecomposeAt(at, d);
    RecomposeAt(a, d);
    assert at == a + ['+'] + Lower(tag);
    BeforeFirst(a, '+', Lower(tag));
    SplitWithout(a, '+');
  }

  lemma RecomposeWithoutAt(n: string)
    requires '@' !in n
    ensures Recompose(n) == Before(n, '+') + "@undefined"
  {
    SplitWithout(n, '@');
  }

  /** With no `@` at all, the domain is the word `undefined`. */
  lemma NormalizeWithoutAt(email: string)
    requires '@' !in email
    ensures NormalizeEmail(email) == Before(Lower(Trim(email)), '+') + "@undefined"
  {
    var t := Trim(email);
    assert '@' !in t by {
      assert t == TrimStart(email)[..|t|];
      assert TrimStart(email) == email[|email| - |TrimStart(email)|..];
    }
    LowerKeepsSeparators(t);
    RecomposeWithoutAt(Lower(t));
  }

  /** Anything after a second `@` is ignored. */
  lemma RecomposeIgnoresTail(n: string, tail: string)
    requires '@' in n
    ensures Recompose(n + "@" + tail) == Recompose(n)
  {
    assert n + "@" + tail == n + ['@'] + tail;
    SplitConcat(n, tail, '@');
    var p := Split(n, '@');
    assert |p| >= 2;
    assert (p + Split(tail, '@'))[0] == p[0];
    assert (p + Split(tail, '@'))[1] == p[1];
  }

  /** Trimming stops at the second `@` when the domain does not end in whitespace. */
  lemma TrimKeepsSecondAt(local: string, domain: string, rest: string)
    requires domain == [] || !IsSpace(domain[|domain| - 1])
    ensures Trim(local + "@" + domain + "@" + rest) == Trim(local + "@" + domain) + "@" + TrimEnd(rest)
    ensures '@' in Trim(local + "@" + domain)
  {
    var short := local + "@" + domain;
    var long := local + "@" + domain + "@" + rest;
    assert long == short + ['@'] + rest;
    assert short == local + ['@'] + domain;
    TrimStartAppend(local, '@', domain);
    var ts := TrimStart(short);
    assert ts == TrimStart(local) + ['@'] + domain;
    TrimStartAppend(short, '@', rest);
    TrimEndAppend(ts, '@', rest);
    assert TrimEnd(ts) == ts by {
      assert ts[|ts| - 1] == if domain == [] then '@' else domain[|domain| - 1];
    }
    assert ts[|TrimStart(local)|] == '@';
  }

  /** Only the first two `@`-separated parts are kept. */
  lemma NormalizeKeepsFirstTwoParts(local: string, domain: string, rest: string)
    requires domain == [] || !IsSpace(domain[|domain| - 1])
    ensures NormalizeEmail(local + "@" + domain + "@" + rest) == NormalizeEmail(local + "@" + domain)
  {
    var t := Trim(local + "@" + domain);
    var tail := TrimEnd(rest);
    TrimKeepsSecondAt(local, domain, rest);
    calc {
      NormalizeEmail(local + "@" + domain + "@" + rest);
      Recompose(Lower(t + "@" + tail));
    == { LowerAround(t, '@', tail); }
      Recompose(Lower(t) + "@" + Lower(tail));
    == { LowerKeepsUncased(t, '@');
         RecomposeIgnoresTail(Lower(t), Lower(tail)); }
      Recompose(Lower(t));
    }
  }

  /** `normalizeEmail` on an address whose two sides hold no `@`. */
  lemma NormalizeAt(local: string, domain: string)
    requires '@' !in local && '@' !in domain
    ensures NormalizeEmail(local + "@" + domain)
         == Before(Lower(TrimStart(local)), '+') + "@" + Lower(TrimEnd(domain))
  {
    NormalizedAt(local, domain);
    LowerTrimStartLacks(local, '@');
    var d := Lower(TrimEnd(domain));
    assert TrimEnd(domain) == domain[..|TrimEnd(domain)|];
    LowerKeepsUncased(TrimEnd(domain), '@');
    RecomposeAt(Lower(TrimStart(local)), d);
    SplitWithout(d, '@');
  }

  /** An address already in normal form is left as it is. */
  lemma NormalizeFixed(user: string, domain: string)
    requires '@' !in user && '+' !in user && '@' !in domain
    requires IsLower(user) && IsLower(domain)
    requires TrimStart(user) == user && TrimEnd(domain) == domain
    ensures NormalizeEmail(user + "@" + domain) == user + "@" + domain
  {
    NormalizeAt(user, domain);
    LowerOfLower(user);
    LowerOfLower(domain);
    SplitWithout(user, '+');
  }

  /** An address with exactly one `@` is `local@domain` with no `@` on either side. */
  lemma OneAt(email: string) returns (local: string, domain: string)
    requires multiset(email)['@'] == 1
    ensures email == local + "@" + domain && '@' !in local && '@' !in domain
  {
    var i := IndexOf(email, '@');
    assert i < |email|;
    local, domain := email[..i], email[i + 1..];
    assert email == local + "@" + domain;
    assert multiset(email) == multiset(local) + multiset{'@'} + multiset(domain);
  }

  /** What the first pass leaves of the local part is in normal form. */
  lemma FirstPassUser(local: string)
    requires '@' !in local
    ensures var user := Before(Lower(TrimStart(local)), '+');
      '@' !in user && '+' !in user && IsLower(user) && TrimStart(user) == user
  {
    var a := Lower(TrimStart(local));
    var user := Before(a, '+');
    LowerTrimStartLacks(local, '@');
    assert '@' !in user;
    if user != [] {
      LowerCharSpace(TrimStart(local)[0]);
      assert user[0] == a[0];
    }
  }

  /** What the first pass leaves of the domain is in normal form. */
  lemma FirstPassDomain(domain: string)
    requires '@' !in domain
    ensures var dom := Lower(TrimEnd(domain));
      '@' !in dom && IsLower(dom) && TrimEnd(dom) == dom
  {
    var t := TrimEnd(domain);
    assert t == domain[..|t|];
    LowerKeepsUncased(t, '@');
    if t != [] {
      LowerCharSpace(t[|t| - 1]);
    }
  }

  /** What the first pass leaves of `local@domain` is in normal form. */
  lemma FirstPassNormal(local: string, domain: string)
    requires '@' !in local && '@' !in domain
    ensures var user, dom := Before(Lower(TrimStart(local)), '+'), Lower(TrimEnd(domain));
      && '@' !in user && '+' !in user && '@' !in dom
      && IsLower(user) && IsLower(dom)
      && TrimStart(user) == user && TrimEnd(dom) == dom
  {
    FirstPassUser(local);
    FirstPassDomain(domain);
  }

  /** On an address with exactly one `@`, normalising twice changes nothing more. */
  lemma NormalizeIdempotent(email: string)
    requires multiset(email)['@'] == 1
    ensures NormalizeEmail(NormalizeEmail(email)) == NormalizeEmail(email)
  {
    var local, domain := OneAt(email);
    NormalizeAt(local, domain);
    FirstPassNormal(local, domain);
    NormalizeFixed(Before(Lower(TrimStart(local)), '+'), Lower(TrimEnd(domain)));
  }

  /** An address with nothing to trim and no tag is only lower-cased. */
  lemma NormalizePlain(user: string, domain: string)
    requires '@' !in user && '+' !in user && '@' !in domain
    requires TrimStart(user) == user && TrimEnd(domain) == domain
    ensures NormalizeEmail(user + "@" + domain) == Lower(user) + "@" + Lower(domain)
  {
    NormalizeAt(user, domain);
    LowerKeepsUncased(user, '+');
    SplitWithout(Lower(user), '+');
  }

  lemma ExampleUser(user: string)
    requires user == "Alex"
    ensures '@' !in user && '+' !in user && TrimStart(user) == user
    ensures Lower(user) == "alex"
  {
    assert !IsSpace(user[0]);
  }

  lemma ExampleDomain(domain: string)
    requires domain == "Example.Com"
    ensures '@' !in domain && TrimEnd(domain) == domain
    ensures Lower(domain) == "example.com"
  {
    assert !IsSpace(domain[|domain| - 1]);
  }

  lemma ExampleParts(user: string, domain: string)
    requires user == "Alex" && domain == "Example.Com"
    ensures '@' !in user && '+' !in user && '@' !in domain
    ensures TrimStart(user) == user && TrimEnd(domain) == domain
    ensures Lower(user) + "@" + Lower(domain) == "alex@example.com"
  {
    ExampleUser(user);
    ExampleDomain(domain);
  }

  /** The plain case the repository's own tests spell out. */
  lemma NormalizeExample(user: string, domain: string)
    requires user == "Alex" && domain == "Example.Com"
    ensures NormalizeEmail(user + "@" + domain) == "alex@example.com"
  {
    ExampleParts(user, domain);
    NormalizePlain(user, domain);
  }

  /** The tagged case the repository's own tests spell out. */
  lemma NormalizeTaggedExample(user: string, tag: string, domain: string)
    requires user == "Alex" && tag == "Extension" && domain == "Example.Com"
    ensures NormalizeEmail(user + "+" + tag + "@" + domain) == "alex@example.com"
  {
    NormalizeDropsPlusTag(user, tag, domain);
    NormalizeExample(user, domain);
  }
}
