/**
 * The string operations of Python that the bot applies to incoming text:
 * `str.strip()`, `str.split()`, `str.split(sep)`, `' '.join(...)`,
 * `str.startswith`, `str.endswith` and `str.replace(pat, '')`.
 */
module Text {
  import Seqs

  /** Python's `str.isspace` for one character: the separators of `split()` and `strip()`. */
  predicate IsSpace(c: char) {
    || c == ' '
    || ('\t' <= c <= '\r')
    || ('\U{001C}' <= c <= '\U{001F}')
    || c == '\U{0085}' || c == '\U{00A0}' || c == '\U{1680}'
    || ('\U{2000}' <= c <= '\U{200A}')
    || c == '\U{2028}' || c == '\U{2029}' || c == '\U{202F}' || c == '\U{205F}' || c == '\U{3000}'
  }

  predicate NoSpace(s: string) {
    forall i :: 0 <= i < |s| ==> !IsSpace(s[i])
  }

  predicate StartsWith(s: string, prefix: string) {
    |prefix| <= |s| && s[..|prefix|] == prefix
  }

  predicate EndsWith(s: string, suffix: string) {
    |suffix| <= |s| && s[|s| - |suffix|..] == suffix
  }

  // ---------------------------------------------------------------------------
  // strip()

  /** `s` without its leading whitespace. */
  function TrimLeft(s: string): (r: string)
    ensures |r| <= |s|
    ensures r == [] || !IsSpace(r[0])
    ensures forall i :: 0 <= i < |s| - |r| ==> IsSpace(s[i])
  {
    if s != [] && IsSpace(s[0]) then TrimLeft(s[1..]) else s
  }

  /**
   * What TrimLeft keeps is a suffix of its input. This is a lemma rather than
   * part of TrimLeft's contract: that equation, always in scope, sends the
   * solver into long chains of nested slices.
   */
  lemma {:induction false} TrimLeftSuffix(s: string)
    ensures TrimLeft(s) == s[|s| - |TrimLeft(s)|..]
  {
    if s != [] && IsSpace(s[0]) {
      TrimLeftSuffix(s[1..]);
      assert s[1..][|s[1..]| - |TrimLeft(s[1..])|..] == s[|s| - |TrimLeft(s)|..];
    }
  }

  /** `s` without its trailing whitespace. */
  function TrimRight(s: string): (r: string)
    ensures |r| <= |s| && r == s[..|r|]
    ensures r == [] || !IsSpace(r[|r| - 1])
    ensures forall i :: |r| <= i < |s| ==> IsSpace(s[i])
  {
    if s != [] && IsSpace(s[|s| - 1]) then TrimRight(s[..|s| - 1]) else s
  }

  /** Python's `s.strip()`. */
  function Strip(s: string): (r: string)
    ensures r == [] || (!IsSpace(r[0]) && !IsSpace(r[|r| - 1]))
    ensures |r| <= |s|
  {
    TrimRight(TrimLeft(s))
  }

  predicate AllSpace(s: string) {
    forall i :: 0 <= i < |s| ==> IsSpace(s[i])
  }

  /** Strip removes exactly the surrounding whitespace and nothing of a stripped core. */
  lemma {:induction false} StripAround(pre: string, t: string, post: string)
    requires AllSpace(pre) && AllSpace(post)
    requires t == [] || (!IsSpace(t[0]) && !IsSpace(t[|t| - 1]))
    ensures Strip(pre + t + post) == t
  {
    if t == [] {
      var s := pre + t + post;
      assert AllSpace(s);
      TrimLeftSuffix(s);
    } else {
      TrimLeftSpaces(pre, t + post);
      assert pre + t + post == pre + (t + post);
      TrimRightSpaces(t, post);
    }
  }

  lemma {:induction false} TrimLeftSpaces(pre: string, rest: string)
    requires AllSpace(pre)
    requires rest == [] || !IsSpace(rest[0])
    ensures TrimLeft(pre + rest) == rest
  {
    if pre != [] {
      assert (pre + rest)[1..] == pre[1..] + rest;
      TrimLeftSpaces(pre[1..], rest);
    }
  }

  lemma {:induction false} TrimRightSpaces(t: string, post: string)
    requires AllSpace(post)
    requires t == [] || !IsSpace(t[|t| - 1])
    ensures TrimRight(t + post) == t
  {
    if post != [] {
      assert (t + post)[..|t + post| - 1] == t + post[..|post| - 1];
      TrimRightSpaces(t, post[..|post| - 1]);
    } else {
      assert t + post == t;
    }
  }

  // ---------------------------------------------------------------------------
  // split() with no argument: the maximal runs of non-whitespace characters

  /** The longest prefix of `s` that holds no whitespace. */
  function Word(s: string): (w: string)
    ensures |w| <= |s| && w == s[..|w|] && NoSpace(w)
    ensures |w| == |s| || IsSpace(s[|w|])
  {
    if s == [] || IsSpace(s[0]) then [] else [s[0]] + Word(s[1..])
  }

  /** Python's `s.split()`. */
  function Split(s: string): (r: seq<string>)
    ensures forall k :: 0 <= k < |r| ==> r[k] != [] && NoSpace(r[k])
    decreases |s|
  {
    if s == [] then []
    else if IsSpace(s[0]) then Split(s[1..])
    else
      var w := Word(s);
      [w] + Split(s[|w|..])
  }

  /** Python's `' '.join(tokens)`. */
  function Join(tokens: seq<string>): string {
    if |tokens| == 0 then ""
    else if |tokens| == 1 then tokens[0]
    else tokens[0] + " " + Join(tokens[1..])
  }

  predicate AreTokens(tokens: seq<string>) {
    forall k :: 0 <= k < |tokens| ==> tokens[k] != [] && NoSpace(tokens[k])
  }

  /** A word is not cut short by what follows it when a whitespace character comes next. */
  lemma {:induction false} WordExtend(a: string, t: string)
    requires |Word(a)| < |a| || t == [] || IsSpace(t[0])
    ensures Word(a + t) == Word(a)
  {
    if a == [] {
    } else if IsSpace(a[0]) {
    } else {
      assert (a + t)[1..] == a[1..] + t;
      WordExtend(a[1..], t);
    }
  }

  /** A whitespace character separates: the tokens of both sides, in order. */
  lemma {:induction false} SplitAroundSpace(a: string, c: char, b: string)
    requires IsSpace(c)
    ensures Split(a + [c] + b) == Split(a) + Split(b)
    decreases |a|, 1
  {
    if a == [] {
      var s := a + [c] + b;
      assert s[1..] == b;
      assert Split(s) == Split(b);
    } else if IsSpace(a[0]) {
      SplitAroundSpaceAfterSpace(a, c, b);
    } else {
      SplitAroundSpaceAfterWord(a, c, b);
    }
  }

  /** The case of SplitAroundSpace where `a` starts with whitespace. */
  lemma {:induction false} SplitAroundSpaceAfterSpace(a: string, c: char, b: string)
    requires IsSpace(c) && a != [] && IsSpace(a[0])
    ensures Split(a + [c] + b) == Split(a) + Split(b)
    decreases |a|, 0
  {
    var s := a + [c] + b;
    var r := a[1..];
    assert s[1..] == r + [c] + b;
    SplitAroundSpace(r, c, b);
    assert Split(s) == Split(r + [c] + b);
    assert Split(a) == Split(r);
  }

  /** The case of SplitAroundSpace where `a` starts with a word. */
  lemma {:induction false} SplitAroundSpaceAfterWord(a: string, c: char, b: string)
    requires IsSpace(c) && a != [] && !IsSpace(a[0])
    ensures Split(a + [c] + b) == Split(a) + Split(b)
    decreases |a|, 0
  {
    var w := Word(a);
    var r := a[|w|..];
    SplitAfterWord(a, c, b);
    SplitAroundSpace(r, c, b);
    var x, y := Split(r), Split(b);
    assert Split(a) == [w] + x;
    Seqs.ConsAppend(w, x, y);
  }

  /** The first word of `a` is the first token of `a + [c] + b`, and the rest is split after it. */
  lemma SplitAfterWord(a: string, c: char, b: string)
    requires IsSpace(c) && a != [] && !IsSpace(a[0])
    ensures |Word(a)| > 0
    ensures Split(a + [c] + b) == [Word(a)] + Split(a[|Word(a)|..] + [c] + b)
  {
    var s := a + [c] + b;
    var w := Word(a);
    assert s == a + ([c] + b);
    WordExtend(a, [c] + b);
    assert s[|w|..] == a[|w|..] + [c] + b;
  }

  lemma {:induction false} WordOfToken(w: string)
    requires NoSpace(w)
    ensures Word(w) == w
  {
    if w != [] {
      WordOfToken(w[1..]);
    }
  }

  /** A single token splits into itself. */
  lemma SplitToken(w: string)
    requires w != [] && NoSpace(w)
    ensures Split(w) == [w]
  {
    WordOfToken(w);
    assert w[|w|..] == [];
  }

  /** Splitting undoes joining: `' '.join(t).split() == t` for whitespace-free, non-empty tokens. */
  lemma {:induction false} SplitJoin(tokens: seq<string>)
    requires AreTokens(tokens)
    ensures Split(Join(tokens)) == tokens
  {
    if |tokens| == 0 {
    } else if |tokens| == 1 {
      SplitToken(tokens[0]);
    } else {
      SplitToken(tokens[0]);
      SplitJoin(tokens[1..]);
      assert Join(tokens) == tokens[0] + [' '] + Join(tokens[1..]);
      SplitAroundSpace(tokens[0], ' ', Join(tokens[1..]));
      assert tokens == [tokens[0]] + tokens[1..];
    }
  }

  /** Joining what was split normalises whitespace; joining it again changes nothing. */
  lemma JoinSplitNormal(s: string)
    ensures Join(Split(Join(Split(s)))) == Join(Split(s))
  {
    SplitJoin(Split(s));
  }

  // ---------------------------------------------------------------------------
  // split(sep): cut at every separator, keeping empty parts

  /** Python's `s.split(sep)` for a one-character separator. */
  function SplitOn(s: string, sep: char): (parts: seq<string>)
    ensures |parts| >= 1
    ensures forall k :: 0 <= k < |parts| ==> sep !in parts[k]
  {
    if s == [] then [[]]
    else
      var rest := SplitOn(s[1..], sep);
      if s[0] == sep then [[]] + rest
      else [[s[0]] + rest[0]] + rest[1..]
  }

  /** Python's `sep.join(parts)`. */
  function JoinWith(parts: seq<string>, sep: char): string {
    if |parts| == 0 then ""
    else if |parts| == 1 then parts[0]
    else parts[0] + [sep] + JoinWith(parts[1..], sep)
  }

  /** The last part ends the joined text, right after a separator unless it is all of it. */
  lemma {:induction false} JoinWithLast(parts: seq<string>, sep: char)
    requires |parts| >= 1
    ensures var s, last := JoinWith(parts, sep), parts[|parts| - 1];
      EndsWith(s, last) && (last == s || s[|s| - |last| - 1] == sep)
  {
    if |parts| > 1 {
      var rest := parts[1..];
      JoinWithLast(rest, sep);
      var s, t, last := JoinWith(parts, sep), JoinWith(rest, sep), rest[|rest| - 1];
      assert s == parts[0] + [sep] + t;
      assert s[|s| - |last|..] == t[|t| - |last|..];
      if last == t {
        assert s[|s| - |last| - 1] == sep;
      } else {
        assert s[|s| - |last| - 1] == t[|t| - |last| - 1];
      }
    }
  }

  /** Joining the parts back with the separator gives the original text. */
  lemma {:induction false} JoinSplitOn(s: string, sep: char)
    ensures JoinWith(SplitOn(s, sep), sep) == s
  {
    if s != [] {
      var rest := SplitOn(s[1..], sep);
      JoinSplitOn(s[1..], sep);
      if s[0] == sep {
        assert SplitOn(s, sep) == [[]] + rest;
      } else {
        var parts := SplitOn(s, sep);
        assert parts == [[s[0]] + rest[0]] + rest[1..];
        if |rest| == 1 {
          assert JoinWith(parts, sep) == [s[0]] + rest[0];
        } else {
          assert rest == [rest[0]] + rest[1..];
          assert JoinWith(rest, sep) == rest[0] + [sep] + JoinWith(rest[1..], sep);
          assert parts[1..] == rest[1..];
          assert JoinWith(parts, sep) == [s[0]] + rest[0] + [sep] + JoinWith(rest[1..], sep);
        }
        assert s == [s[0]] + s[1..];
      }
    }
  }

  /** A separator splits the text into the parts of each side. */
  lemma {:induction false} SplitOnAroundSep(a: string, sep: char, b: string)
    ensures SplitOn(a + [sep] + b, sep) == SplitOn(a, sep) + SplitOn(b, sep)
  {
    var s := a + [sep] + b;
    if a == [] {
      assert s[1..] == b;
    } else {
      assert s[1..] == a[1..] + [sep] + b;
      SplitOnAroundSep(a[1..], sep, b);
    }
  }

  /** Text free of the separator is a single part. */
  lemma {:induction false} SplitOnNoSep(a: string, sep: char)
    requires sep !in a
    ensures SplitOn(a, sep) == [a]
  {
    if a != [] {
      assert a[0] in a;
      assert forall c :: c in a[1..] ==> c in a;
      SplitOnNoSep(a[1..], sep);
      assert a == [a[0]] + a[1..];
    }
  }

  /** Splitting undoes joining when no part holds the separator. */
  lemma {:induction false} SplitOnJoinWith(parts: seq<string>, sep: char)
    requires |parts| >= 1
    requires forall k :: 0 <= k < |parts| ==> sep !in parts[k]
    ensures SplitOn(JoinWith(parts, sep), sep) == parts
  {
    if |parts| == 1 {
      SplitOnNoSep(parts[0], sep);
    } else {
      SplitOnJoinWith(parts[1..], sep);
      SplitOnAroundSep(parts[0], sep, JoinWith(parts[1..], sep));
      SplitOnNoSep(parts[0], sep);
      assert parts == [parts[0]] + parts[1..];
    }
  }

  // ---------------------------------------------------------------------------
  // replace(pat, '')

  /** Python's `s.replace(pat, '')`: every non-overlapping occurrence, left to right, removed. */
  function RemoveAll(s: string, pat: string): string
    requires pat != []
    decreases |s|
  {
    if |s| < |pat| then s
    else if s[..|pat|] == pat then RemoveAll(s[|pat|..], pat)
    else [s[0]] + RemoveAll(s[1..], pat)
  }

  /** Text that never contains the first character of the pattern is left as it is. */
  lemma {:induction false} RemoveAllAbsent(s: string, pat: string)
    requires pat != [] && pat[0] !in s
    ensures RemoveAll(s, pat) == s
    decreases |s|
  {
    if |s| >= |pat| {
      assert s[..|pat|][0] == s[0];
      assert forall c :: c in s[1..] ==> c in s;
      RemoveAllAbsent(s[1..], pat);
      assert s == [s[0]] + s[1..];
    }
  }

  /** A leading occurrence of the pattern goes, and the rest of the text is kept. */
  lemma RemoveAllPrefix(pat: string, t: string)
    requires pat != [] && pat[0] !in t
    ensures RemoveAll(pat + t, pat) == t
  {
    assert (pat + t)[..|pat|] == pat;
    assert (pat + t)[|pat|..] == t;
    RemoveAllAbsent(t, pat);
  }

  // ---------------------------------------------------------------------------
  // Ordering of TEXT values: SQLite's BINARY collation compares the UTF-8
  // bytes, which orders strings as their code points do.

  predicate LexLe(a: string, b: string) {
    a == [] || (b != [] && (a[0] < b[0] || (a[0] == b[0] && LexLe(a[1..], b[1..]))))
  }

  lemma {:induction false} LexTotal(a: string, b: string)
    ensures LexLe(a, b) || LexLe(b, a)
  {
    if a != [] && b != [] && a[0] == b[0] {
      LexTotal(a[1..], b[1..]);
    }
  }

  lemma {:induction false} LexTransitive(a: string, b: string, c: string)
    requires LexLe(a, b) && LexLe(b, c)
    ensures LexLe(a, c)
  {
    if a != [] && b != [] && c != [] && a[0] == b[0] && b[0] == c[0] {
      LexTransitive(a[1..], b[1..], c[1..]);
    }
  }

  lemma {:induction false} LexAntisymmetric(a: string, b: string)
    requires LexLe(a, b) && LexLe(b, a)
    ensures a == b
  {
    if a != [] && b != [] {
      LexAntisymmetric(a[1..], b[1..]);
      assert a == [a[0]] + a[1..] && b == [b[0]] + b[1..];
    }
  }
}
