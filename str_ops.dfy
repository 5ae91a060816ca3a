/** The few operations of Rust's `str` that the selection engine relies on,
    over strings as sequences of characters. */
module Str {

  /** `char::is_whitespace`: the characters with the Unicode White_Space property. */
  predicate IsWhitespace(c: char) {
    || ('\U{0009}' <= c <= '\U{000D}')
    || c == ' '
    || c == '\U{0085}'
    || c == '\U{00A0}'
    || c == '\U{1680}'
    || ('\U{2000}' <= c <= '\U{200A}')
    || c == '\U{2028}'
    || c == '\U{2029}'
    || c == '\U{202F}'
    || c == '\U{205F}'
    || c == '\U{3000}'
  }

  /** `str::starts_with` with a string pattern. */
  predicate StartsWith(s: string, prefix: string) {
    |prefix| <= |s| && s[..|prefix|] == prefix
  }

  /** `str::ends_with` with a string pattern. */
  predicate EndsWith(s: string, suffix: string) {
    |suffix| <= |s| && s[|s| - |suffix|..] == suffix
  }

  /** True when every character of `s` is whitespace (so `s.trim()` is empty). */
  predicate AllWhitespace(s: string) {
    forall k :: 0 <= k < |s| ==> IsWhitespace(s[k])
  }

  /** The first index at or after `i` whose character is not whitespace,
      `|s|` when there is none. */
  function SkipWhitespace(s: string, i: nat): (j: nat)
    requires i <= |s|
    ensures i <= j <= |s|
    ensures forall k :: i <= k < j ==> IsWhitespace(s[k])
    ensures j < |s| ==> !IsWhitespace(s[j])
    decreases |s| - i
  {
    if i < |s| && IsWhitespace(s[i]) then SkipWhitespace(s, i + 1) else i
  }

  /** The least `e` in `lo..j` such that `s[e..j]` is all whitespace. */
  function SkipWhitespaceBack(s: string, lo: nat, j: nat): (e: nat)
    requires lo <= j <= |s|
    ensures lo <= e <= j
    ensures forall k :: e <= k < j ==> IsWhitespace(s[k])
    ensures e > lo ==> !IsWhitespace(s[e - 1])
    decreases j - lo
  {
    if j > lo && IsWhitespace(s[j - 1]) then SkipWhitespaceBack(s, lo, j - 1) else j
  }

  /** Where the text kept by `str::trim` starts. */
  function Lead(s: string): (n: nat)
    ensures n <= |s|
  {
    SkipWhitespace(s, 0)
  }

  /** `str::trim`: the infix of `s` left after removing whitespace at both
      ends. Every character outside it is whitespace, its own ends are not,
      and it is empty exactly when `s` is all whitespace. */
  function Trim(s: string): (r: string)
    ensures Lead(s) + |r| <= |s| && r == s[Lead(s)..Lead(s) + |r|]
    ensures forall k :: 0 <= k < |s| && !(Lead(s) <= k < Lead(s) + |r|) ==> IsWhitespace(s[k])
    ensures r != [] ==> !IsWhitespace(r[0]) && !IsWhitespace(r[|r| - 1])
    ensures r == [] <==> AllWhitespace(s)
  {
    var a := SkipWhitespace(s, 0);
    var e := SkipWhitespaceBack(s, a, |s|);
    s[a..e]
  }

  /** Trimming a string that is already trimmed leaves it unchanged. */
  lemma TrimIdempotent(s: string)
    ensures Trim(Trim(s)) == Trim(s)
  {
    var r := Trim(s);
    if r != [] {
      assert SkipWhitespace(r, 0) == 0;
      assert SkipWhitespaceBack(r, 0, |r|) == |r|;
      assert r[0..|r|] == r;
    }
  }

  /** Number of occurrences of `c` in `s`. */
  function Count(s: string, c: char): nat
    decreases |s|
  {
    if s == [] then 0 else (if s[0] == c then 1 else 0) + Count(s[1..], c)
  }

  /** The pieces joined back together with `sep` between neighbours. */
  function JoinWith(pieces: seq<string>, sep: char): string
    decreases |pieces|
  {
    if |pieces| == 0 then []
    else if |pieces| == 1 then pieces[0]
    else pieces[0] + [sep] + JoinWith(pieces[1..], sep)
  }

  /** `str::split` on a single character: the maximal runs of `s` free of
      `sep`, one more piece than there are separators, empty pieces kept. */
  function Split(s: string, sep: char): (r: seq<string>)
    ensures |r| == Count(s, sep) + 1
    ensures forall k :: 0 <= k < |r| ==> sep !in r[k]
    ensures JoinWith(r, sep) == s
    decreases |s|
  {
    if s == [] then [[]]
    else
      var t := Split(s[1..], sep);
      if s[0] == sep then
        assert ([[]] + t)[1..] == t;
        [[]] + t
      else
        var r := [[s[0]] + t[0]] + t[1..];
        assert r[1..] == t[1..];
        assert JoinWith(r, sep) == [s[0]] + JoinWith(t, sep);
        assert s == [s[0]] + s[1..];
        r
  }

  /** `s` without one trailing carriage return, if it has one. */
  function StripCr(s: string): (r: string)
    ensures r == s || (EndsWith(s, "\r") && r == s[..|s| - 1])
  {
    if s != [] && s[|s| - 1] == '\r' then s[..|s| - 1] else s
  }

  /** `str::lines`: pieces between line feeds; a line ended by "\r\n" loses
      the carriage return; an empty piece after the final line feed is not a line. */
  function Lines(s: string): (r: seq<string>)
    ensures forall k :: 0 <= k < |r| ==> '\n' !in r[k]
    ensures s != [] && '\n' !in s ==> r == [s]
    ensures s == [] ==> r == []
    ensures |r| == Count(s, '\n') + (if s == [] || s[|s| - 1] == '\n' then 0 else 1)
    ensures '\r' !in s ==> JoinWith(r, '\n') + (if s != [] && s[|s| - 1] == '\n' then "\n" else "") == s
  {
    var ps := Split(s, '\n');
    var n := if ps[|ps| - 1] == [] then |ps| - 1 else |ps|;
    var r := seq(n, k requires 0 <= k < n => if k < |ps| - 1 then StripCr(ps[k]) else ps[k]);
    assert KeptLines(ps, r);
    LinesFacts(s, ps, r);
    r
  }

  /** `r` holds the pieces `ps` of a text split at line feeds, all but the
      last with a final carriage return dropped, and without the last
      piece when it is empty. */
  predicate KeptLines(ps: seq<string>, r: seq<string>)
    requires |ps| > 0
  {
    && |r| == (if ps[|ps| - 1] == [] then |ps| - 1 else |ps|)
    && forall k :: 0 <= k < |r| ==> r[k] == if k < |ps| - 1 then StripCr(ps[k]) else ps[k]
  }

  lemma LinesFacts(s: string, ps: seq<string>, r: seq<string>)
    requires ps == Split(s, '\n') && KeptLines(ps, r)
    ensures forall k :: 0 <= k < |r| ==> '\n' !in r[k]
    ensures s != [] && '\n' !in s ==> r == [s]
    ensures s == [] ==> r == []
    ensures |r| == Count(s, '\n') + (if s == [] || s[|s| - 1] == '\n' then 0 else 1)
    ensures '\r' !in s ==> JoinWith(r, '\n') + (if s != [] && s[|s| - 1] == '\n' then "\n" else "") == s
  {
    assert forall k :: 0 <= k < |r| ==> '\n' !in r[k] by {
      forall k | 0 <= k < |r| ensures '\n' !in r[k] {
        if k < |ps| - 1 { StripCrKeepsAbsent(ps[k], '\n'); }
      }
    }
    assert s != [] && '\n' !in s ==> r == [s] by {
      if s != [] && '\n' !in s { CountAbsent(s, '\n'); }
    }
    assert |r| == Count(s, '\n') + (if s == [] || s[|s| - 1] == '\n' then 0 else 1) by {
      SplitLastEmpty(s, '\n');
    }
    if '\r' !in s { LinesJoin(s, ps, r); }
  }

  /** Dropping a final carriage return adds no character. */
  lemma StripCrKeepsAbsent(s: string, c: char)
    requires c !in s
    ensures c !in StripCr(s)
  {
    if s != [] && s[|s| - 1] == '\r' {
      assert forall k :: 0 <= k < |s| - 1 ==> StripCr(s)[k] == s[k];
    }
  }

  /** Without carriage returns, the kept lines joined with line feeds give
      the text back, less its final line feed. */
  lemma LinesJoin(s: string, ps: seq<string>, r: seq<string>)
    requires '\r' !in s && ps == Split(s, '\n') && KeptLines(ps, r)
    ensures JoinWith(r, '\n') + (if s != [] && s[|s| - 1] == '\n' then "\n" else "") == s
  {
    assert r == ps[..|r|] by {
      forall k | 0 <= k < |r| ensures r[k] == ps[k] {
        PieceInJoin(ps, '\n', k);
        StripCrAbsent(ps[k]);
      }
    }
    SplitLastEmpty(s, '\n');
    JoinKept(ps, r, '\n');
  }

  /** The pieces joined, less an empty last piece that leaves its separator
      behind. */
  lemma JoinKept(ps: seq<string>, r: seq<string>, sep: char)
    requires |ps| > 0
    requires |r| == (if ps[|ps| - 1] == [] then |ps| - 1 else |ps|) && r == ps[..|r|]
    ensures var j := JoinWith(ps, sep);
      JoinWith(r, sep) + (if j != [] && j[|j| - 1] == sep && ps[|ps| - 1] == [] then [sep] else []) == j
  {
    if |r| < |ps| {
      if |ps| > 1 {
        JoinDropLast(ps, sep);
      } else {
        assert ps == [[]] && r == [];
      }
    } else {
      assert ps[..|r|] == ps;
    }
  }

  /** A string without carriage returns loses nothing to `StripCr`. */
  lemma StripCrAbsent(s: string)
    requires '\r' !in s
    ensures StripCr(s) == s
  {
    if s != [] { assert s[|s| - 1] in s; }
  }

  /** The last piece of a split is empty exactly when the text is empty or
      ends with the separator. */
  lemma {:induction false} SplitLastEmpty(s: string, sep: char)
    ensures var ps := Split(s, sep); ps[|ps| - 1] == [] <==> s == [] || s[|s| - 1] == sep
    decreases |s|
  {
    if s != [] {
      var t := Split(s[1..], sep);
      SplitLastEmpty(s[1..], sep);
      if s[0] != sep && |t| == 1 {
        assert JoinWith(t, sep) == t[0] == s[1..];
        assert s[1..] != [] ==> s[|s| - 1] == s[1..][|s[1..]| - 1] && sep !in t[0];
      }
    }
  }

  /** Every character of a piece occurs in the joined text. */
  lemma {:induction false} PieceInJoin(pieces: seq<string>, sep: char, k: nat)
    requires k < |pieces|
    ensures forall c :: c in pieces[k] ==> c in JoinWith(pieces, sep)
    decreases |pieces|
  {
    if |pieces| > 1 {
      if k > 0 {
        PieceInJoin(pieces[1..], sep, k - 1);
        assert pieces[1..][k - 1] == pieces[k];
      }
    }
  }

  /** Joining all but an empty last piece and adding the separator gives the
      join of all the pieces. */
  lemma {:induction false} JoinDropLast(pieces: seq<string>, sep: char)
    requires |pieces| > 1 && pieces[|pieces| - 1] == []
    ensures JoinWith(pieces[..|pieces| - 1], sep) + [sep] == JoinWith(pieces, sep)
    decreases |pieces|
  {
    var init := pieces[..|pieces| - 1];
    if |pieces| == 2 {
      assert init == [pieces[0]];
    } else {
      JoinDropLast(pieces[1..], sep);
      assert pieces[1..][..|pieces| - 2] == init[1..];
    }
  }

  lemma {:induction false} CountAbsent(s: string, c: char)
    requires c !in s
    ensures Count(s, c) == 0
    decreases |s|
  {
    if s != [] { CountAbsent(s[1..], c); }
  }

  /** `s.rsplit('/').next()`: the text after the last '/', the whole of `s`
      when it has none. It is the longest suffix of `s` free of '/'. */
  function BaseName(s: string): (r: string)
    ensures '/' !in r && EndsWith(s, r)
    ensures |r| < |s| ==> s[|s| - |r| - 1] == '/'
    decreases |s|
  {
    if s == [] || s[|s| - 1] == '/' then []
    else
      var r := BaseName(s[..|s| - 1]) + [s[|s| - 1]];
      assert s[|s| - |r|..] == s[..|s| - 1][|s| - |r|..] + [s[|s| - 1]];
      r
  }

  /** The base name of a path ending in "/name" (or of a bare name) is the name. */
  lemma {:induction false} BaseNameAfterSlash(prefix: string, name: string)
    requires prefix == [] || prefix[|prefix| - 1] == '/'
    requires '/' !in name
    ensures BaseName(prefix + name) == name
    decreases |name|
  {
    if name != [] {
      var init := name[..|name| - 1];
      assert (prefix + name)[..|prefix + name| - 1] == prefix + init;
      BaseNameAfterSlash(prefix, init);
      assert init + [name[|name| - 1]] == name;
    } else {
      assert prefix + name == prefix;
    }
  }
}
