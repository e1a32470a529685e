/**
 * The JavaScript built-ins the generation code relies on: String.prototype
 * trim, includes, startsWith, endsWith, indexOf, lastIndexOf, a global
 * `replace(/pattern/g, '')`, Array.prototype.join and the Math.max/Math.min
 * clamp. Strings are sequences of characters.
 */
module Builtins {

  /** ECMAScript WhiteSpace and LineTerminator: what `trim()` removes and what `\s` matches. */
  predicate IsWhitespace(c: char)
  {
    c == '\t' || c == '\n' || c == '\U{000B}' || c == '\U{000C}' || c == '\r' || c == ' ' ||
    c == '\U{00A0}' || c == '\U{1680}' || ('\U{2000}' <= c <= '\U{200A}') ||
    c == '\U{2028}' || c == '\U{2029}' || c == '\U{202F}' || c == '\U{205F}' ||
    c == '\U{3000}' || c == '\U{FEFF}'
  }

  predicate AllWhitespace(s: string)
  {
    forall i :: 0 <= i < |s| ==> IsWhitespace(s[i])
  }

  /** Neither the first nor the last character is whitespace. */
  predicate IsTrimmed(s: string)
  {
    s == [] || (!IsWhitespace(s[0]) && !IsWhitespace(s[|s| - 1]))
  }

  /** `s.trim().length > 0` */
  predicate NonBlank(s: string)
  {
    !AllWhitespace(s)
  }

  /** Length of the whitespace run `s` begins with. */
  function LeadingSpace(s: string): (k: nat)
    ensures k <= |s|
    ensures forall i :: 0 <= i < k ==> IsWhitespace(s[i])
    ensures k < |s| ==> !IsWhitespace(s[k])
  {
    if |s| > 0 && IsWhitespace(s[0]) then
      var k := LeadingSpace(s[1..]);
      assert forall i :: 1 <= i < k + 1 ==> s[i] == s[1..][i - 1];
      k + 1
    else 0
  }

  /** Length of the whitespace run `s` ends with. */
  function TrailingSpace(s: string): (k: nat)
    ensures k <= |s|
    ensures forall i :: |s| - k <= i < |s| ==> IsWhitespace(s[i])
    ensures k < |s| ==> !IsWhitespace(s[|s| - k - 1])
  {
    if |s| > 0 && IsWhitespace(s[|s| - 1]) then
      var init := s[..|s| - 1];
      var k := TrailingSpace(init);
      assert forall i :: |s| - (k + 1) <= i < |s| - 1 ==> s[i] == init[i];
      k + 1
    else 0
  }

  /** Leading whitespace removed: a leading `\s` run. */
  function TrimStart(s: string): string
  {
    s[LeadingSpace(s)..]
  }

  /** Trailing whitespace removed: a trailing `\s` run. */
  function TrimEnd(s: string): string
  {
    s[..|s| - TrailingSpace(s)]
  }

  /** `s.trim()`: the piece of `s` left after removing whitespace at both ends. */
  function Trim(s: string): (r: string)
    ensures IsTrimmed(r)
    ensures |r| <= |s|
    ensures r == [] <==> AllWhitespace(s)
    ensures IsTrimmed(s) ==> r == s
  {
    TrimStartLeavesStart(s);
    TrimEndTrimmed(TrimStart(s));
    TrimEmptyIff(s);
    TrimKeepsTrimmed(s);
    TrimEnd(TrimStart(s))
  }

  /** What is left after the leading whitespace starts with a non-space, if anything. */
  lemma TrimStartLeavesStart(s: string)
    ensures var a := TrimStart(s); a == [] || !IsWhitespace(a[0])
  {
    var k := LeadingSpace(s);
    if k < |s| {
      assert TrimStart(s)[0] == s[k];
    }
  }

  /** Trimming gives nothing exactly when there was only whitespace. */
  lemma TrimEmptyIff(s: string)
    ensures TrimEnd(TrimStart(s)) == [] <==> AllWhitespace(s)
  {
    var i := LeadingSpace(s);
    var a := TrimStart(s);
    assert |a| == |s| - i;
    var k := TrailingSpace(a);
    // a whitespace first character of `a` would have been part of the leading run
    TrimStartLeavesStart(s);
    assert k == |a| ==> |a| == 0;
    if AllWhitespace(s) {
      assert i == |s|;
    }
  }

  /** Text with no whitespace at either end is left alone. */
  lemma TrimKeepsTrimmed(s: string)
    ensures IsTrimmed(s) ==> TrimEnd(TrimStart(s)) == s
  {
    if IsTrimmed(s) && s != [] {
      assert LeadingSpace(s) == 0;
      assert TrimStart(s) == s;
      assert TrailingSpace(s) == 0;
    }
  }

  /** `trim()` keeps a piece of the text and removes only whitespace around it. */
  lemma TrimRemovesOnlySpace(s: string)
    ensures var r := Trim(s);
      exists i :: 0 <= i <= |s| - |r| && r == s[i..i + |r|]
                  && AllWhitespace(s[..i]) && AllWhitespace(s[i + |r|..])
  {
    var a := TrimStart(s);
    var r := TrimEnd(a);
    assert Trim(s) == r;
    TrimStartSplits(s);
    var pre :| AllWhitespace(pre) && s == pre + a;
    TrimEndSplits(a);
    var post :| AllWhitespace(post) && a == r + post;
    var i := |pre|;
    assert s == pre + r + post;
    assert s[..i] == pre;
    assert s[i..i + |r|] == r;
    assert s[i + |r|..] == post;
  }

  /** Leading whitespace ends where the first non-whitespace character stands. */
  lemma TrimStartPastSpace(w: string, x: string)
    requires AllWhitespace(w)
    requires x == [] || !IsWhitespace(x[0])
    ensures TrimStart(w + x) == x
  {
    var t := w + x;
    assert forall i :: 0 <= i < |w| ==> t[i] == w[i];
    assert x != [] ==> t[|w|] == x[0];
    assert LeadingSpace(t) == |w|;
    assert t[|w|..] == x;
  }

  /** Removing leading whitespace from text that ends in a non-space leaves trimmed text. */
  lemma TrimStartTrimmed(x: string)
    requires x == [] || !IsWhitespace(x[|x| - 1])
    ensures IsTrimmed(TrimStart(x))
  {
    var k := LeadingSpace(x);
    if k < |x| {
      assert TrimStart(x)[0] == x[k];
      assert TrimStart(x)[|x| - k - 1] == x[|x| - 1];
    }
  }

  /** Removing trailing whitespace from text that starts with a non-space leaves trimmed text. */
  lemma TrimEndTrimmed(x: string)
    requires x == [] || !IsWhitespace(x[0])
    ensures IsTrimmed(TrimEnd(x))
  {
    var k := TrailingSpace(x);
    if k < |x| {
      assert TrimEnd(x)[0] == x[0];
      assert TrimEnd(x)[|x| - k - 1] == x[|x| - k - 1];
    }
  }

  /** Trailing whitespace starts right after the last non-whitespace character. */
  lemma TrimEndPastSpace(x: string, w: string)
    requires AllWhitespace(w)
    requires x == [] || !IsWhitespace(x[|x| - 1])
    ensures TrimEnd(x + w) == x
  {
    var t := x + w;
    assert forall i :: |x| <= i < |t| ==> t[i] == w[i - |x|];
    assert x != [] ==> t[|x| - 1] == x[|x| - 1];
    assert TrailingSpace(t) == |w|;
    assert t[..|x|] == x;
  }

  /** `trimStart` removes a whitespace prefix and nothing else. */
  lemma TrimStartSplits(s: string)
    ensures exists w :: AllWhitespace(w) && s == w + TrimStart(s)
  {
    var w := s[..LeadingSpace(s)];
    assert AllWhitespace(w);
    assert s == w + TrimStart(s);
  }

  /** `trimEnd` removes a whitespace suffix and nothing else. */
  lemma TrimEndSplits(s: string)
    ensures exists w :: AllWhitespace(w) && s == TrimEnd(s) + w
  {
    var k := |s| - TrailingSpace(s);
    var w := s[k..];
    forall i | 0 <= i < |w| ensures IsWhitespace(w[i]) {
      assert w[i] == s[k + i];
    }
    assert TrimEnd(s) == s[..k];
    assert s == s[..k] + w;
  }

  /** `s.startsWith(p)` */
  predicate StartsWith(s: string, p: string)
  {
    |p| <= |s| && s[..|p|] == p
  }

  /** `s.endsWith(p)` */
  predicate EndsWith(s: string, p: string)
  {
    |p| <= |s| && s[|s| - |p|..] == p
  }

  /** `s.includes(p)`: `p` occurs at some position of `s`. */
  predicate Contains(s: string, p: string)
    decreases |s|
  {
    |p| <= |s| && (StartsWith(s, p) || (|s| > 0 && Contains(s[1..], p)))
  }

  /** An occurrence of `p + q` is an occurrence of `p`. */
  lemma {:induction false} ContainsLonger(s: string, p: string, q: string)
    requires Contains(s, p + q)
    ensures Contains(s, p)
    decreases |s|
  {
    if StartsWith(s, p + q) {
      assert s[..|p|] == (p + q)[..|p|] == p;
    } else {
      ContainsLonger(s[1..], p, q);
    }
  }

  /** No occurrence in a string means no occurrence in any piece of it. */
  lemma {:induction false} NotContainsSlice(s: string, p: string, i: nat, j: nat)
    requires i <= j <= |s|
    requires !Contains(s, p)
    ensures !Contains(s[i..j], p)
    decreases |s|
  {
    if i > 0 {
      assert s[i..j] == s[1..][i - 1..j - 1];
      NotContainsSlice(s[1..], p, i - 1, j - 1);
    } else {
      if |p| <= j {
        assert s[..j][..|p|] == s[..|p|];
      }
      if j > 0 {
        assert s[..j][1..] == s[1..][0..j - 1];
        NotContainsSlice(s[1..], p, 0, j - 1);
      }
    }
  }

  /** No match starts inside a match-free prefix when the rest begins with a character the pattern does not use. */
  lemma NoMatchAtSeam(a: string, b: string, p: string)
    requires !Contains(a, p)
    requires |b| > 0 && b[0] !in p
    ensures !StartsWith(a + b, p)
  {
    var s := a + b;
    if |p| <= |a| {
      assert a[..|p|] == s[..|p|];
    } else if |p| <= |s| {
      assert s[..|p|][|a|] == b[0];
    }
  }

  /**
   * Gluing two strings creates no occurrence across the seam when the
   * second begins with a character the pattern does not use.
   */
  lemma {:induction false} NotContainsConcat(a: string, b: string, p: string)
    requires !Contains(a, p) && !Contains(b, p)
    requires |b| > 0 && b[0] !in p
    ensures !Contains(a + b, p)
    decreases |a|
  {
    if a == [] {
      assert a + b == b;
    } else {
      var s := a + b;
      NoMatchAtSeam(a, b, p);
      assert s[1..] == a[1..] + b;
      NotContainsConcat(a[1..], b, p);
    }
  }

  /** `s.indexOf(c)`: the first position of `c`, or -1. */
  function IndexOf(s: string, c: char): (r: int)
    ensures -1 <= r < |s|
    ensures r == -1 <==> c !in s
    ensures r >= 0 ==> s[r] == c
    ensures forall i :: 0 <= i < |s| && s[i] == c ==> 0 <= r <= i
  {
    if |s| == 0 then -1
    else if s[0] == c then 0
    else
      var k := IndexOf(s[1..], c);
      assert forall i :: 1 <= i < |s| ==> s[i] == s[1..][i - 1];
      if k == -1 then -1 else k + 1
  }

  /** `s.lastIndexOf(c)`: the last position of `c`, or -1. */
  function LastIndexOf(s: string, c: char): (r: int)
    ensures -1 <= r < |s|
    ensures r == -1 <==> c !in s
    ensures r >= 0 ==> s[r] == c
    ensures forall i :: 0 <= i < |s| && s[i] == c ==> i <= r
  {
    if |s| == 0 then -1
    else if s[|s| - 1] == c then |s| - 1
    else
      var init := s[..|s| - 1];
      assert s == init + [s[|s| - 1]];
      LastIndexOf(init, c)
  }

  /** The first `c` is the one right after a prefix free of `c`. */
  lemma IndexOfAfter(pre: string, rest: string, c: char)
    requires c !in pre && |rest| > 0 && rest[0] == c
    ensures IndexOf(pre + rest, c) == |pre|
  {
    var t := pre + rest;
    assert t[|pre|] == c;
    assert forall k :: 0 <= k < |pre| ==> t[k] == pre[k];
  }

  /** The last `c` is the one right before a suffix free of `c`. */
  lemma LastIndexOfBefore(rest: string, post: string, c: char)
    requires c !in post && |rest| > 0 && rest[|rest| - 1] == c
    ensures LastIndexOf(rest + post, c) == |rest| - 1
  {
    var t := rest + post;
    assert t[|rest| - 1] == c;
    assert forall k :: |rest| <= k < |t| ==> t[k] == post[k - |rest|];
  }

  /**
   * `s.replace(/p\n?/g, '')` when `eatNewline`, else `s.replace(/p/g, '')`:
   * matches are searched left to right, each resumes after the previous one,
   * so they never overlap.
   */
  function RemoveAll(s: string, p: string, eatNewline: bool): (r: string)
    requires p != []
    ensures |r| <= |s|
    decreases |s|
  {
    if |s| == 0 then []
    else if StartsWith(s, p) then
      var rest := s[|p|..];
      if eatNewline && |rest| > 0 && rest[0] == '\n' then RemoveAll(rest[1..], p, eatNewline)
      else RemoveAll(rest, p, eatNewline)
    else [s[0]] + RemoveAll(s[1..], p, eatNewline)
  }

  /** A replace finds nothing to remove in text without the pattern. */
  lemma {:induction false} RemoveAllWithoutMatch(s: string, p: string, eatNewline: bool)
    requires p != [] && !Contains(s, p)
    ensures RemoveAll(s, p, eatNewline) == s
    decreases |s|
  {
    if |s| > 0 {
      NotContainsTail(s, p);
      RemoveAllWithoutMatch(s[1..], p, eatNewline);
      assert [s[0]] + s[1..] == s;
    }
  }

  /** Where no match starts, the first character is kept. */
  lemma RemoveAllKeepsFirst(s: string, p: string, eatNewline: bool)
    requires p != [] && |s| > 0 && !StartsWith(s, p)
    ensures RemoveAll(s, p, eatNewline) == [s[0]] + RemoveAll(s[1..], p, eatNewline)
  {
  }

  /** No occurrence in a string means none in its tail. */
  lemma NotContainsTail(a: string, p: string)
    requires |a| > 0 && !Contains(a, p)
    ensures !Contains(a[1..], p)
  {
  }

  /**
   * Matches never straddle the end of a prefix that holds no match, when the
   * rest begins with a character the pattern does not use.
   */
  lemma {:induction false} RemoveAllConcat(a: string, b: string, p: string, eatNewline: bool)
    requires p != []
    requires !Contains(a, p)
    requires |b| > 0 && b[0] !in p
    ensures RemoveAll(a + b, p, eatNewline) == a + RemoveAll(b, p, eatNewline)
    decreases |a|
  {
    if a == [] {
      assert a + b == b;
    } else {
      var s := a + b;
      NoMatchAtSeam(a, b, p);
      RemoveAllKeepsFirst(s, p, eatNewline);
      assert s[1..] == a[1..] + b;
      NotContainsTail(a, p);
      RemoveAllConcat(a[1..], b, p, eatNewline);
      assert [a[0]] + (a[1..] + RemoveAll(b, p, eatNewline)) == a + RemoveAll(b, p, eatNewline);
    }
  }

  /** Number of backticks `s` begins with. */
  function LeadingTicks(s: string): nat
  {
    if |s| > 0 && s[0] == '`' then 1 + LeadingTicks(s[1..]) else 0
  }

  /** Putting one character in front of a fence-free string whose backtick run stays under three keeps it fence-free. */
  lemma ConsKeepsNoFence(c: char, t: string)
    requires !Contains(t, "```")
    requires c == '`' ==> LeadingTicks(t) <= 1
    ensures !Contains([c] + t, "```")
    ensures LeadingTicks([c] + t) == if c == '`' then 1 + LeadingTicks(t) else 0
  {
    var r := [c] + t;
    assert r[1..] == t;
    assert |t| >= 2 && t[0] == '`' && t[1] == '`' ==> LeadingTicks(t) >= 2 by {
      if |t| >= 2 && t[0] == '`' && t[1] == '`' {
        assert t[1..][0] == t[1];
      }
    }
    assert |r| < 3 || r[..3] != "```" by {
      if |r| >= 3 {
        assert r[..3][0] == c && r[..3][1] == t[0] && r[..3][2] == t[1];
      }
    }
  }

  /** A string opening with a fence has three more leading backticks than what follows the fence. */
  lemma FenceTicks(s: string)
    requires StartsWith(s, "```")
    ensures LeadingTicks(s) == 3 + LeadingTicks(s[3..])
  {
    assert s[..3][0] == s[0] && s[..3][1] == s[1] && s[..3][2] == s[2];
    assert s[1..][0] == s[1] && s[1..][1..] == s[2..];
    assert s[2..][0] == s[2] && s[2..][1..] == s[3..];
    assert LeadingTicks(s[2..]) == 1 + LeadingTicks(s[3..]);
    assert LeadingTicks(s[1..]) == 1 + LeadingTicks(s[2..]);
  }

  /** A string opening with one or two backticks but no fence. */
  lemma ShortTickRun(s: string)
    requires |s| > 0 && s[0] == '`' && !StartsWith(s, "```")
    ensures LeadingTicks(s[1..]) <= 1
  {
    if |s| >= 2 && s[1] == '`' {
      assert s[1..][1..] == s[2..];
      assert |s| < 3 || s[..3] != "```";
    }
  }

  /**
   * `s.replace(/```/g, '')` leaves no triple backtick: each run of k
   * backticks shrinks to k % 3 of them and the characters between runs stay.
   */
  lemma {:induction false} RemoveTicksLeavesNoFence(s: string)
    ensures !Contains(RemoveAll(s, "```", false), "```")
    ensures LeadingTicks(RemoveAll(s, "```", false)) == LeadingTicks(s) % 3
    decreases |s|
  {
    if |s| == 0 {
    } else if StartsWith(s, "```") {
      assert RemoveAll(s, "```", false) == RemoveAll(s[3..], "```", false);
      RemoveTicksLeavesNoFence(s[3..]);
      FenceTicks(s);
    } else {
      assert RemoveAll(s, "```", false) == [s[0]] + RemoveAll(s[1..], "```", false);
      RemoveTicksLeavesNoFence(s[1..]);
      KeptCharKeepsNoFence(s, RemoveAll(s[1..], "```", false));
    }
  }

  /** The step of the lemma above where the first character is kept. */
  lemma KeptCharKeepsNoFence(s: string, t: string)
    requires |s| > 0 && !StartsWith(s, "```")
    requires !Contains(t, "```") && LeadingTicks(t) == LeadingTicks(s[1..]) % 3
    ensures !Contains([s[0]] + t, "```")
    ensures LeadingTicks([s[0]] + t) == LeadingTicks(s) % 3
  {
    if s[0] == '`' {
      ShortTickRun(s);
      assert LeadingTicks(s) == 1 + LeadingTicks(s[1..]);
    }
    ConsKeepsNoFence(s[0], t);
  }

  /** `xs.join(sep)` */
  function Join(xs: seq<string>, sep: string): string
  {
    if |xs| == 0 then []
    else if |xs| == 1 then xs[0]
    else xs[0] + sep + Join(xs[1..], sep)
  }

  /** Joining whitespace with whitespace yields only whitespace. */
  lemma {:induction false} JoinWhitespace(xs: seq<string>, sep: string)
    requires forall i :: 0 <= i < |xs| ==> AllWhitespace(xs[i])
    requires AllWhitespace(sep)
    ensures AllWhitespace(Join(xs, sep))
    decreases |xs|
  {
    if |xs| > 1 {
      JoinWhitespace(xs[1..], sep);
      var a, b := xs[0] + sep, Join(xs[1..], sep);
      assert AllWhitespace(a) by {
        forall k | 0 <= k < |a| ensures IsWhitespace(a[k]) {
          if k < |xs[0]| { assert a[k] == xs[0][k]; } else { assert a[k] == sep[k - |xs[0]|]; }
        }
      }
      forall k | 0 <= k < |a + b| ensures IsWhitespace((a + b)[k]) {
        if k < |a| { assert (a + b)[k] == a[k]; } else { assert (a + b)[k] == b[k - |a|]; }
      }
    }
  }

  /** `Math.max(lo, Math.min(hi, n))` */
  function Clamp(lo: int, hi: int, n: int): (r: int)
    requires lo <= hi
    ensures lo <= r <= hi
    ensures lo <= n <= hi ==> r == n
    ensures n < lo ==> r == lo
    ensures n > hi ==> r == hi
  {
    var m := if hi < n then hi else n;
    if lo > m then lo else m
  }
}
