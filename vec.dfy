/** Rust's `Vec::dedup`: removes consecutive repeated elements, keeping the
    first of each run, in place. */
module Vecs {

  /** No two neighbours are equal. */
  predicate NoAdjacentDup<T(==)>(s: seq<T>) {
    forall k :: 0 < k < |s| ==> s[k - 1] != s[k]
  }

  /** `s` with every run of equal neighbours collapsed to one element. */
  function Collapse<T(==)>(s: seq<T>): (r: seq<T>)
    ensures |r| <= |s|
    ensures r == [] <==> s == []
    ensures s != [] ==> r[|r| - 1] == s[|s| - 1]
    decreases |s|
  {
    if |s| <= 1 then s
    else if s[|s| - 2] == s[|s| - 1] then Collapse(s[..|s| - 1])
    else Collapse(s[..|s| - 1]) + [s[|s| - 1]]
  }

  /** No two neighbours of a collapsed sequence are equal. */
  lemma {:induction false} CollapseNoAdjacentDup<T>(s: seq<T>)
    ensures NoAdjacentDup(Collapse(s))
    decreases |s|
  {
    if |s| > 1 {
      var init := s[..|s| - 1];
      CollapseNoAdjacentDup(init);
      if s[|s| - 2] != s[|s| - 1] {
        var c := Collapse(init);
        var cc := c + [s[|s| - 1]];
        assert init[|init| - 1] == s[|s| - 2];
        forall k | 0 < k < |cc| ensures cc[k - 1] != cc[k] {
          if k < |c| { assert cc[k] == c[k] && cc[k - 1] == c[k - 1]; }
        }
      }
    }
  }

  /** Collapsing drops repeats only: the same values remain. */
  lemma {:induction false} CollapseSameElements<T>(s: seq<T>, x: T)
    ensures x in Collapse(s) <==> x in s
    decreases |s|
  {
    if |s| > 1 {
      var init := s[..|s| - 1];
      CollapseSameElements(init, x);
      assert s == init + [s[|s| - 1]];
      if s[|s| - 2] == s[|s| - 1] {
        assert s[|s| - 1] == init[|init| - 1];
      }
    }
  }

  /** A sequence without neighbouring repeats is left as it is. */
  lemma {:induction false} CollapseKeepsDistinctNeighbours<T>(s: seq<T>)
    requires NoAdjacentDup(s)
    ensures Collapse(s) == s
    decreases |s|
  {
    if |s| > 1 {
      var init := s[..|s| - 1];
      assert NoAdjacentDup(init) by {
        forall k | 0 < k < |init| ensures init[k - 1] != init[k] {
          assert init[k - 1] == s[k - 1] && init[k] == s[k];
        }
      }
      CollapseKeepsDistinctNeighbours(init);
      assert init + [s[|s| - 1]] == s;
    }
  }

  /** Collapsing twice is collapsing once. */
  lemma CollapseIdempotent<T>(s: seq<T>)
    ensures Collapse(Collapse(s)) == Collapse(s)
  {
    CollapseNoAdjacentDup(s);
    CollapseKeepsDistinctNeighbours(Collapse(s));
  }

  /** Only neighbours are merged: equal elements kept apart by another
      element all survive. */
  lemma CollapseKeepsSeparatedRepeats<T>(x: T, y: T)
    requires x != y
    ensures Collapse([x, y, x]) == [x, y, x]
  {
    CollapseKeepsDistinctNeighbours([x, y, x]);
  }

  /** `n` copies of `x`. */
  function Repeat<T>(x: T, n: nat): (r: seq<T>)
    ensures |r| == n
  {
    if n == 0 then [] else Repeat(x, n - 1) + [x]
  }

  /** Each `xs[i]` written `counts[i]` times, in order. */
  function Stretch<T>(xs: seq<T>, counts: seq<nat>): seq<T>
    requires |xs| == |counts|
    decreases |xs|
  {
    if xs == [] then []
    else Stretch(xs[..|xs| - 1], counts[..|xs| - 1]) + Repeat(xs[|xs| - 1], counts[|xs| - 1])
  }

  /** The length of each run of equal neighbours of `s`, in order. */
  function RunLengths<T(==)>(s: seq<T>): (r: seq<nat>)
    ensures |r| == |Collapse(s)|
    ensures forall i :: 0 <= i < |r| ==> r[i] >= 1
    decreases |s|
  {
    if |s| == 0 then []
    else if |s| == 1 then [1]
    else
      var rl := RunLengths(s[..|s| - 1]);
      if s[|s| - 2] == s[|s| - 1] then rl[|rl| - 1 := rl[|rl| - 1] + 1]
      else rl + [1]
  }

  /** Collapsing only merges neighbours: `s` is each element of its collapse
      repeated one or more times, in order. With `CollapseNoAdjacentDup`
      this fixes the collapse of every sequence. */
  lemma {:induction false} CollapseStretches<T>(s: seq<T>)
    ensures Stretch(Collapse(s), RunLengths(s)) == s
    decreases |s|
  {
    if |s| <= 1 {
      StretchesShort(s);
    } else {
      var init := s[..|s| - 1];
      var x := s[|s| - 1];
      CollapseStretches(init);
      var c := Collapse(init);
      var rl := RunLengths(init);
      RunStep(s);
      if s[|s| - 2] == x {
        StretchRepeatLast(c, rl, x);
      } else {
        StretchAppend(c, rl, x, 1);
      }
    }
  }

  lemma StretchesShort<T>(s: seq<T>)
    requires |s| <= 1
    ensures Stretch(Collapse(s), RunLengths(s)) == s
  {
    if |s| == 1 {
      assert Collapse(s) == [] + [s[0]] && RunLengths(s) == [] + [1];
      assert Repeat(s[0], 1) == [s[0]];
      StretchAppend([], [], s[0], 1);
    }
  }

  /** The last element either lengthens the last run or starts a run of
      its own. */
  lemma RunStep<T>(s: seq<T>)
    requires |s| > 1
    ensures var init := s[..|s| - 1]; var x := s[|s| - 1];
      var c := Collapse(init); var rl := RunLengths(init);
      && s == init + [x]
      && (s[|s| - 2] == x ==> c[|c| - 1] == x && Collapse(s) == c && RunLengths(s) == rl[|rl| - 1 := rl[|rl| - 1] + 1])
      && (s[|s| - 2] != x ==> Collapse(s) == c + [x] && RunLengths(s) == rl + [1])
  {
  }

  /** One more copy of the last element of `xs` is one more repeat of it. */
  lemma StretchRepeatLast<T>(xs: seq<T>, counts: seq<nat>, x: T)
    requires |xs| == |counts| > 0 && xs[|xs| - 1] == x
    ensures Stretch(xs, counts[|xs| - 1 := counts[|xs| - 1] + 1]) == Stretch(xs, counts) + [x]
  {
    var m := |xs|;
    assert xs == xs[..m - 1] + [x];
    assert counts == counts[..m - 1] + [counts[m - 1]];
    assert counts[m - 1 := counts[m - 1] + 1] == counts[..m - 1] + [counts[m - 1] + 1];
    StretchGrowLast(xs[..m - 1], counts[..m - 1], x, counts[m - 1]);
  }

  lemma StretchAppend<T>(xs: seq<T>, counts: seq<nat>, x: T, n: nat)
    requires |xs| == |counts|
    ensures Stretch(xs + [x], counts + [n]) == Stretch(xs, counts) + Repeat(x, n)
  {
    assert (xs + [x])[..|xs|] == xs && (counts + [n])[..|xs|] == counts;
  }

  lemma StretchGrowLast<T>(xs: seq<T>, counts: seq<nat>, x: T, n: nat)
    requires |xs| == |counts|
    ensures Stretch(xs + [x], counts + [n + 1]) == Stretch(xs + [x], counts + [n]) + [x]
  {
    StretchAppend(xs, counts, x, n + 1);
    StretchAppend(xs, counts, x, n);
  }

  /** Extending a sequence by one element extends its collapse by that
      element unless it repeats the last one. */
  lemma CollapseSnoc<T>(s: seq<T>, r: nat)
    requires 0 < r < |s|
    ensures Collapse(s[..r + 1]) ==
      if s[r - 1] == s[r] then Collapse(s[..r]) else Collapse(s[..r]) + [s[r]]
  {
    assert s[..r + 1][..r] == s[..r];
  }

  /** `Vec::dedup` on the elements `a[..]`: afterwards the kept elements are
      `a[..len]`, the rest of the array being the dropped tail. */
  method Dedup<T(==)>(a: array<T>) returns (len: nat)
    modifies a
    ensures len <= a.Length
    ensures a[..len] == Collapse(old(a[..]))
  {
    if a.Length == 0 {
      return 0;
    }
    ghost var s := a[..];
    var w := 1;
    var r := 1;
    assert a[..1] == s[..1];
    while r < a.Length
      invariant 1 <= w <= r <= a.Length
      invariant forall k :: r <= k < a.Length ==> a[k] == s[k]
      invariant a[..w] == Collapse(s[..r])
      invariant a[w - 1] == s[r - 1]
      decreases a.Length - r
    {
      var x := a[r];
      CollapseSnoc(s, r);
      if x != a[w - 1] {
        ghost var kept := a[..w];
        a[w] := x;
        assert a[..w + 1] == kept + [x];
        w := w + 1;
      }
      r := r + 1;
    }
    assert s[..r] == s;
    len := w;
  }

  /** `Iterator::flat_map` collected: the lists `f(x)` concatenated in the
      order of `xs`. */
  function FlatMap<A, B>(xs: seq<A>, f: A -> seq<B>): (r: seq<B>)
    ensures xs != [] ==> |f(xs[|xs| - 1])| <= |r|
    decreases |xs|
  {
    if xs == [] then [] else FlatMap(xs[..|xs| - 1], f) + f(xs[|xs| - 1])
  }

  /** An element is in the flattened list exactly when it is in the list of
      some `x`. */
  lemma {:induction false} FlatMapMembers<A, B>(xs: seq<A>, f: A -> seq<B>, y: B)
    ensures y in FlatMap(xs, f) <==> exists j :: 0 <= j < |xs| && y in f(xs[j])
    decreases |xs|
  {
    if xs != [] {
      var init := xs[..|xs| - 1];
      FlatMapMembers(init, f, y);
      assert FlatMap(xs, f) == FlatMap(init, f) + f(xs[|xs| - 1]);
      if y in FlatMap(init, f) {
        var j :| 0 <= j < |init| && y in f(init[j]);
        assert xs[j] == init[j];
      }
      if exists j :: 0 <= j < |xs| && y in f(xs[j]) {
        var j :| 0 <= j < |xs| && y in f(xs[j]);
        if j < |init| {
          assert init[j] == xs[j];
        }
      }
    }
  }
}
