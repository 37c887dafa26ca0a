/**
 * The iterator adapters the bot uses on its vectors: `position`, `find` and `any`,
 * each scanning from the front and stopping at the first element that satisfies
 * the predicate.
 */
module Seqs {
  import opened Wrappers

  /** `i` is the first index of `s` whose element satisfies `p`. */
  predicate IsFirstMatch<T>(s: seq<T>, p: T -> bool, i: int)
  {
    0 <= i < |s| && p(s[i]) && forall j :: 0 <= j < i ==> !p(s[j])
  }

  /** `Iterator::position`: the first index whose element satisfies `p`. */
  function Position<T>(s: seq<T>, p: T -> bool): (r: Option<nat>)
    ensures r.Some? ==> IsFirstMatch(s, p, r.value)
    ensures r.None? <==> forall i :: 0 <= i < |s| ==> !p(s[i])
    decreases |s|
  {
    if s == [] then None
    else if p(s[0]) then Some(0)
    else
      match Position(s[1..], p)
      case Some(k) => Some(k + 1)
      case None => None
  }

  /** The first match is the only index that can be called first. */
  lemma FirstMatchUnique<T>(s: seq<T>, p: T -> bool, i: int, j: int)
    requires IsFirstMatch(s, p, i) && IsFirstMatch(s, p, j)
    ensures i == j
  {
  }

  /** `Iterator::find`: the first element that satisfies `p`. */
  function Find<T>(s: seq<T>, p: T -> bool): (r: Option<T>)
    ensures r.Some? <==> exists i :: 0 <= i < |s| && p(s[i])
    ensures r.Some? ==> exists i :: IsFirstMatch(s, p, i) && s[i] == r.value
  {
    match Position(s, p)
    case Some(i) => Some(s[i])
    case None => None
  }

  /** `Iterator::any`. */
  function Any<T>(s: seq<T>, p: T -> bool): (r: bool)
    ensures r <==> exists i :: 0 <= i < |s| && p(s[i])
  {
    Position(s, p).Some?
  }

  /** `Iterator::filter_map`, written as the loops that push each `Some` value:
      the values `f` gives, in order, with the `None`s dropped. */
  function FilterMap<A, B>(s: seq<A>, f: A -> Option<B>): (r: seq<B>)
    ensures |r| <= |s|
  {
    if s == [] then []
    else FilterMap(s[..|s| - 1], f) + match f(s[|s| - 1]) case Some(b) => [b] case None => []
  }

  /** A value is kept exactly when `f` gives it for some element. */
  lemma {:induction false} FilterMapMembers<A, B>(s: seq<A>, f: A -> Option<B>, b: B)
    ensures b in FilterMap(s, f) <==> exists i :: 0 <= i < |s| && f(s[i]) == Some(b)
    decreases |s|
  {
    if s != [] {
      var n := |s| - 1;
      var init := s[..n];
      var tail: seq<B> := match f(s[n]) case Some(v) => [v] case None => [];
      assert FilterMap(s, f) == FilterMap(init, f) + tail;
      FilterMapMembers(init, f, b);
      if b in FilterMap(s, f) {
        if b in FilterMap(init, f) {
          var i :| 0 <= i < |init| && f(init[i]) == Some(b);
          assert s[i] == init[i];
        } else {
          assert f(s[n]) == Some(b);
        }
      }
      if exists i :: 0 <= i < |s| && f(s[i]) == Some(b) {
        var i :| 0 <= i < |s| && f(s[i]) == Some(b);
        if i < n {
          assert init[i] == s[i];
        }
      }
    }
  }

  /** Each piece of a four-part concatenation can be sliced back out of it. */
  lemma Pieces<T>(a: seq<T>, b: seq<T>, c: seq<T>, d: seq<T>)
    ensures var r := a + b + c + d;
      && |r| == |a| + |b| + |c| + |d|
      && r[..|a|] == a
      && r[|a|..|a| + |b|] == b
      && r[|a| + |b|..|r| - |d|] == c
      && r[|r| - |d|..] == d
  {
    var r := a + b + c + d;
    assert r == a + (b + (c + d));
    assert r[|a|..|a| + |b|] == (b + (c + d))[..|b|];
    assert r[|a| + |b|..|r| - |d|] == (c + d)[..|c|];
  }

  /** `f` applied to every element, the pieces joined in order: what a loop that
      extends one sequence by `f(x)` for each `x` builds. */
  function ConcatMap<T, U>(s: seq<T>, f: T -> seq<U>): seq<U>
  {
    if s == [] then [] else ConcatMap(s[..|s| - 1], f) + f(s[|s| - 1])
  }

  /** Joining distributes over concatenation. */
  lemma {:induction false} ConcatMapAppend<T, U>(a: seq<T>, b: seq<T>, f: T -> seq<U>)
    ensures ConcatMap(a + b, f) == ConcatMap(a, f) + ConcatMap(b, f)
    decreases |b|
  {
    if b == [] {
      assert a + b == a;
    } else {
      var init := b[..|b| - 1];
      var e := f(b[|b| - 1]);
      assert (a + b)[..|a + b| - 1] == a + init;
      ConcatMapAppend(a, init, f);
      assert ConcatMap(a, f) + ConcatMap(init, f) + e == ConcatMap(a, f) + (ConcatMap(init, f) + e);
    }
  }

  /** An element is in the join exactly when it is in the piece of some element. */
  lemma {:induction false} ConcatMapMembers<T, U>(s: seq<T>, f: T -> seq<U>, x: U)
    ensures x in ConcatMap(s, f) <==> exists i :: 0 <= i < |s| && x in f(s[i])
    decreases |s|
  {
    if s != [] {
      var n := |s| - 1;
      var init := s[..n];
      ConcatMapMembers(init, f, x);
      if x in ConcatMap(s, f) {
        if x in ConcatMap(init, f) {
          var i :| 0 <= i < |init| && x in f(init[i]);
          assert s[i] == init[i];
        } else {
          assert x in f(s[n]);
        }
      }
      if exists i :: 0 <= i < |s| && x in f(s[i]) {
        var i :| 0 <= i < |s| && x in f(s[i]);
        if i < n {
          assert init[i] == s[i];
        }
      }
    }
  }
}
