/**
 * The JavaScript string operations the core relies on: `toLowerCase`,
 * `toUpperCase`, `trim`, `split`, `indexOf` and `endsWith`, over strings as
 * sequences of characters.
 */
module Strings {

  /** `toLowerCase` on one character; only ASCII letters have a case here. */
  function LowerChar(c: char): char {
    if 'A' <= c <= 'Z' then (c as int + 32) as char else c
  }

  /** `toUpperCase` on one character; only ASCII letters have a case here. */
  function UpperChar(c: char): char {
    if 'a' <= c <= 'z' then (c as int - 32) as char else c
  }

  predicate IsLower(s: string) {
    forall k :: 0 <= k < |s| ==> !('A' <= s[k] <= 'Z')
  }

  function Lower(s: string): (r: string)
    ensures |r| == |s| && IsLower(r)
  {
    seq(|s|, i requires 0 <= i < |s| => LowerChar(s[i]))
  }

  function Upper(s: string): (r: string)
    ensures |r| == |s|
    ensures forall k :: 0 <= k < |s| ==> !('a' <= r[k] <= 'z')
  {
    seq(|s|, i requires 0 <= i < |s| => UpperChar(s[i]))
  }

  /** The code points JavaScript's `trim` removes: WhiteSpace and LineTerminator. */
  predicate IsSpace(c: char) {
    || c == ' ' || '\t' <= c <= '\r'
    || c == '\U{00A0}' || c == '\U{1680}' || '\U{2000}' <= c <= '\U{200A}'
    || c == '\U{2028}' || c == '\U{2029}' || c == '\U{202F}' || c == '\U{205F}'
    || c == '\U{3000}' || c == '\U{FEFF}'
  }

  /** Drops the longest all-whitespace prefix. */
  function TrimStart(s: string): (r: string)
    ensures |r| <= |s| && r == s[|s| - |r|..]
    ensures forall k :: 0 <= k < |s| - |r| ==> IsSpace(s[k])
    ensures r == [] || !IsSpace(r[0])
  {
    if |s| > 0 && IsSpace(s[0]) then TrimStart(s[1..]) else s
  }

  /** Drops the longest all-whitespace suffix. */
  function TrimEnd(s: string): (r: string)
    ensures |r| <= |s| && r == s[..|r|]
    ensures forall k :: |r| <= k < |s| ==> IsSpace(s[k])
    ensures r == [] || !IsSpace(r[|r| - 1])
  {
    if |s| > 0 && IsSpace(s[|s| - 1]) then TrimEnd(s[..|s| - 1]) else s
  }

  /** `s.trim()`. */
  function Trim(s: string): string {
    TrimEnd(TrimStart(s))
  }

  /** `s.indexOf(c)`, with "not found" reported as `|s|` instead of -1. */
  function IndexOf(s: string, c: char): (i: nat)
    ensures i <= |s|
    ensures i < |s| ==> s[i] == c
    ensures c !in s[..i]
  {
    if |s| == 0 || s[0] == c then 0
    else
      var j := IndexOf(s[1..], c);
      assert s[..1 + j] == [s[0]] + s[1..][..j];
      1 + j
  }

  /** `s.split(c)[0]`: everything before the first `c`. */
  function Before(s: string, c: char): string {
    s[..IndexOf(s, c)]
  }

  /** `s.split(c)` for a one-character separator. */
  function Split(s: string, c: char): (parts: seq<string>)
    ensures |parts| >= 1 && parts[0] == Before(s, c)
    decreases |s|
  {
    var i := IndexOf(s, c);
    if i == |s| then [s] else [s[..i]] + Split(s[i + 1..], c)
  }

  /** `parts.join(c)`, the inverse of `Split`. */
  function Join(parts: seq<string>, c: char): string
    requires |parts| >= 1
  {
    if |parts| == 1 then parts[0] else parts[0] + [c] + Join(parts[1..], c)
  }

  /** `s.endsWith(suffix)`. */
  predicate EndsWith(s: string, suffix: string) {
    |suffix| <= |s| && s[|s| - |suffix|..] == suffix
  }

  // ---------------------------------------------------------------- split

  /** One step of `Split`: the piece before the first separator, then the rest split. */
  lemma SplitAt(s: string, c: char)
    requires IndexOf(s, c) < |s|
    ensures Split(s, c) == [s[..IndexOf(s, c)]] + Split(s[IndexOf(s, c) + 1..], c)
  {
  }

  lemma JoinCons(p: string, parts: seq<string>, c: char)
    requires |parts| >= 1
    ensures Join([p] + parts, c) == p + [c] + Join(parts, c)
  {
    assert ([p] + parts)[1..] == parts;
  }

  lemma Around(s: string, i: nat)
    requires i < |s|
    ensures s == s[..i] + [s[i]] + s[i + 1..]
  {
  }

  lemma {:induction false} SplitJoin(s: string, c: char)
    ensures Join(Split(s, c), c) == s
    decreases |s|, 1
  {
    if IndexOf(s, c) < |s| {
      SplitJoinAt(s, c);
    }
  }

  /** `SplitJoin` when `s` holds the separator. */
  lemma {:induction false} SplitJoinAt(s: string, c: char)
    requires IndexOf(s, c) < |s|
    ensures Join(Split(s, c), c) == s
    decreases |s|, 0
  {
    var i := IndexOf(s, c);
    var rest := s[i + 1..];
    var parts := Split(rest, c);
    SplitAt(s, c);
    JoinCons(s[..i], parts, c);
    SplitJoin(rest, c);
    Around(s, i);
  }

  lemma {:induction false} IndexOfSkips(a: string, b: string, c: char)
    requires c !in a
    ensures IndexOf(a + b, c) == |a| + IndexOf(b, c)
  {
    if a != [] {
      assert (a + b)[1..] == a[1..] + b;
      IndexOfSkips(a[1..], b, c);
    } else {
      assert a + b == b;
    }
  }

  /** `IndexOf` finds the first occurrence. */
  lemma IndexOfAt(s: string, c: char, i: nat)
    requires i < |s| && s[i] == c && c !in s[..i]
    ensures IndexOf(s, c) == i
  {
  }

  lemma SplitWithout(s: string, c: char)
    requires c !in s
    ensures Split(s, c) == [s]
  {
    assert IndexOf(s, c) == |s|;
  }

  /** Splitting at a separator splits the two sides independently. */
  lemma SplitConcatPlain(a: string, b: string, c: char)
    requires c !in a
    ensures Split(a + [c] + b, c) == [a] + Split(b, c)
  {
    var s := a + [c] + b;
    assert a + ([c] + b) == s;
    IndexOfSkips(a, [c] + b, c);
    SplitAt(s, c);
    assert s[|a| + 1..] == b;
    assert s[..|a|] == a;
  }

  lemma SplitConcatLeft(x: string, y: string, b: string, c: char)
    requires c !in x
    ensures Split(x + [c] + y + [c] + b, c) == [x] + Split(y + [c] + b, c)
  {
    assert x + [c] + y + [c] + b == x + [c] + (y + [c] + b);
    SplitConcatPlain(x, y + [c] + b, c);
  }

  lemma {:induction false} SplitConcat(a: string, b: string, c: char)
    ensures Split(a + [c] + b, c) == Split(a, c) + Split(b, c)
    decreases |a|
  {
    var i := IndexOf(a, c);
    if i == |a| {
      assert a[..i] == a;
      SplitConcatPlain(a, b, c);
      SplitWithout(a, c);
    } else {
      var x, y := a[..i], a[i + 1..];
      Around(a, i);
      calc {
        Split(a + [c] + b, c);
      == { SplitConcatLeft(x, y, b, c); }
        [x] + Split(y + [c] + b, c);
      == { SplitConcat(y, b, c); }
        [x] + (Split(y, c) + Split(b, c));
      ==
        ([x] + Split(y, c)) + Split(b, c);
      == { SplitConcatPlain(x, y, c); }
        Split(a, c) + Split(b, c);
      }
    }
  }

  /** Every piece of a lower-case string is lower case. */
  lemma {:induction false} SplitKeepsLower(s: string, c: char)
    requires IsLower(s)
    ensures forall p :: p in Split(s, c) ==> IsLower(p)
    decreases |s|, 1
  {
    if IndexOf(s, c) < |s| {
      SplitKeepsLowerAt(s, c);
    }
  }

  lemma {:induction false} SplitKeepsLowerAt(s: string, c: char)
    requires IsLower(s) && IndexOf(s, c) < |s|
    ensures forall p :: p in Split(s, c) ==> IsLower(p)
    decreases |s|, 0
  {
    var i := IndexOf(s, c);
    var rest := s[i + 1..];
    assert IsLower(s[..i]) && IsLower(rest);
    SplitAt(s, c);
    SplitKeepsLower(rest, c);
    forall p | p in Split(s, c)
      ensures IsLower(p)
    {
      if p != s[..i] {
        assert p in Split(rest, c);
      }
    }
  }

  // ---------------------------------------------------------------- case

  lemma LowerAppend(a: string, b: string)
    ensures Lower(a + b) == Lower(a) + Lower(b)
  {
  }

  /** Lower-casing around a character without a case keeps that character. */
  lemma LowerAround(a: string, c: char, b: string)
    requires !('A' <= c <= 'Z')
    ensures Lower(a + [c] + b) == Lower(a) + [c] + Lower(b)
  {
    LowerAppend(a + [c], b);
    LowerAppend(a, [c]);
  }

  lemma LowerSlice(s: string, i: nat, j: nat)
    requires i <= j <= |s|
    ensures Lower(s)[i..j] == Lower(s[i..j])
  {
  }

  lemma LowerOfLower(s: string)
    requires IsLower(s)
    ensures Lower(s) == s
  {
  }

  lemma LowerIdempotent(s: string)
    ensures Lower(Lower(s)) == Lower(s)
  {
    LowerOfLower(Lower(s));
  }

  lemma LowerUpper(s: string)
    ensures Lower(Upper(s)) == Lower(s)
  {
  }

  /** Characters without a case are found in `Lower(s)` exactly where they are in `s`. */
  lemma LowerKeepsUncased(s: string, c: char)
    requires !('A' <= c <= 'Z') && !('a' <= c <= 'z')
    ensures c in Lower(s) <==> c in s
  {
    if c in s {
      var k :| 0 <= k < |s| && s[k] == c;
      assert Lower(s)[k] == c;
    }
    if c in Lower(s) {
      var k :| 0 <= k < |s| && Lower(s)[k] == c;
      assert s[k] == c;
    }
  }

  lemma {:induction false} TrimStartLower(s: string)
    ensures TrimStart(Lower(s)) == Lower(TrimStart(s))
    decreases |s|
  {
    if |s| > 0 {
      LowerCharSpace(s[0]);
    }
    if |s| > 0 && IsSpace(s[0]) {
      assert Lower(s)[1..] == Lower(s[1..]);
      TrimStartLower(s[1..]);
    }
  }

  lemma {:induction false} TrimEndLower(s: string)
    ensures TrimEnd(Lower(s)) == Lower(TrimEnd(s))
    decreases |s|
  {
    if |s| > 0 {
      LowerCharSpace(s[|s| - 1]);
    }
    if |s| > 0 && IsSpace(s[|s| - 1]) {
      assert Lower(s)[..|s| - 1] == Lower(s[..|s| - 1]);
      TrimEndLower(s[..|s| - 1]);
    }
  }

  /** Trimming and lower-casing commute, since no whitespace has a case. */
  lemma TrimLower(s: string)
    ensures Trim(Lower(s)) == Lower(Trim(s))
  {
    TrimStartLower(s);
    TrimEndLower(TrimStart(s));
  }

  // ---------------------------------------------------------------- trim

  /** Trimming from the start stops at the first non-whitespace character. */
  lemma {:induction false} TrimStartAppend(a: string, c: char, b: string)
    requires !IsSpace(c)
    ensures TrimStart(a + [c] + b) == TrimStart(a) + [c] + b
    decreases |a|
  {
    if a == [] {
      assert a + [c] + b == [c] + b;
    } else {
      assert (a + [c] + b)[1..] == a[1..] + [c] + b;
      TrimStartAppend(a[1..], c, b);
    }
  }

  /** Trimming from the end stops at the last non-whitespace character. */
  lemma {:induction false} TrimEndAppend(a: string, c: char, b: string)
    requires !IsSpace(c)
    ensures TrimEnd(a + [c] + b) == a + [c] + TrimEnd(b)
    decreases |b|
  {
    var s := a + [c] + b;
    if b == [] {
      assert s == a + [c];
    } else if IsSpace(b[|b| - 1]) {
      assert s[..|s| - 1] == a + [c] + b[..|b| - 1];
      TrimEndAppend(a, c, b[..|b| - 1]);
    }
  }

  lemma {:induction false} TrimStartPadding(w: string, s: string)
    requires AllSpace(w)
    ensures TrimStart(w + s) == TrimStart(s)
    decreases |w|
  {
    if w != [] {
      assert (w + s)[1..] == w[1..] + s;
      TrimStartPadding(w[1..], s);
    } else {
      assert w + s == s;
    }
  }

  lemma {:induction false} TrimEndPadding(s: string, w: string)
    requires AllSpace(w)
    ensures TrimEnd(s + w) == TrimEnd(s)
    decreases |w|
  {
    if w != [] {
      assert (s + w)[..|s + w| - 1] == s + w[..|w| - 1];
      TrimEndPadding(s, w[..|w| - 1]);
    } else {
      assert s + w == s;
    }
  }

  lemma LowerCharSpace(c: char)
    ensures IsSpace(LowerChar(c)) == IsSpace(c)
  {
  }

  predicate AllSpace(w: string) {
    forall k :: 0 <= k < |w| ==> IsSpace(w[k])
  }

  lemma TrimStartOfSpaces(w: string)
    requires AllSpace(w)
    ensures TrimStart(w) == []
  {
  }

  /** Trailing whitespace survives `TrimStart` unless nothing else is left. */
  lemma {:induction false} TrimStartBeforeSpaces(s: string, post: string)
    requires AllSpace(post)
    ensures TrimStart(s + post) == if TrimStart(s) == [] then [] else TrimStart(s) + post
    decreases |s|
  {
    if s == [] {
      assert s + post == post;
      TrimStartOfSpaces(post);
    } else if IsSpace(s[0]) {
      assert (s + post)[1..] == s[1..] + post;
      TrimStartBeforeSpaces(s[1..], post);
    }
  }

  lemma TrimStartPadded(pre: string, s: string, post: string)
    requires AllSpace(pre) && AllSpace(post)
    ensures TrimStart(pre + s + post) == if TrimStart(s) == [] then [] else TrimStart(s) + post
  {
    assert pre + s + post == pre + (s + post);
    TrimStartPadding(pre, s + post);
    TrimStartBeforeSpaces(s, post);
  }

  /** Whitespace around a string makes no difference to `trim`. */
  lemma TrimPadding(pre: string, s: string, post: string)
    requires AllSpace(pre) && AllSpace(post)
    ensures Trim(pre + s + post) == Trim(s)
  {
    TrimStartPadded(pre, s, post);
    if TrimStart(s) != [] {
      TrimEndPadding(TrimStart(s), post);
    }
  }

  lemma {:induction false} TrimStartKeeps(s: string, c: char)
    requires !IsSpace(c)
    ensures c in TrimStart(s) <==> c in s
    decreases |s|
  {
    if |s| > 0 && IsSpace(s[0]) {
      assert s == [s[0]] + s[1..];
      TrimStartKeeps(s[1..], c);
    }
  }

  lemma TrimEndKeeps(s: string, c: char)
    requires !IsSpace(c)
    ensures c in TrimEnd(s) <==> c in s
  {
    var r := TrimEnd(s);
    if c in s {
      var k :| 0 <= k < |s| && s[k] == c;
      assert r[k] == c;
    }
    if c in r {
      var j :| 0 <= j < |r| && r[j] == c;
      assert s[j] == c;
    }
  }

  /** Trimming removes whitespace only: every other character stays. */
  lemma TrimKeeps(s: string, c: char)
    requires !IsSpace(c)
    ensures c in Trim(s) <==> c in s
  {
    TrimStartKeeps(s, c);
    TrimEndKeeps(TrimStart(s), c);
  }
}
