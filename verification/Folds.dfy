/** Iteration and folding over an arbitrary state, and when a run can be traced back from its end. */
module Folds {

  function Iterate<S>(f: S -> S, start: S, n: nat): S
    decreases n
  {
    if n == 0 then start else Iterate(f, f(start), n - 1)
  }

  function Fold<S, T>(f: (S, T) -> S, start: S, items: seq<T>): S
    decreases |items|
  {
    if items == [] then start else Fold(f, f(start, items[0]), items[1..])
  }

  lemma {:induction false} FoldAppend<S, T>(f: (S, T) -> S, start: S, first: seq<T>, second: seq<T>)
    ensures Fold(f, start, first + second) == Fold(f, Fold(f, start, first), second)
    decreases |first|
  {
    if first == [] {
      assert first + second == second;
    } else {
      assert (first + second)[1..] == first[1..] + second;
      FoldAppend(f, f(start, first[0]), first[1..], second);
    }
  }

  lemma {:induction false} IterateIsInjective<S(!new)>(f: S -> S, a: S, b: S, n: nat)
    requires forall x, y :: f(x) == f(y) ==> x == y
    requires Iterate(f, a, n) == Iterate(f, b, n)
    ensures a == b
    decreases n
  {
    if n > 0 {
      IterateIsInjective(f, f(a), f(b), n - 1);
    }
  }

  lemma {:induction false} FoldIsInjective<S(!new), T(!new)>(f: (S, T) -> S, a: S, b: S, items: seq<T>)
    requires forall x, y, t :: f(x, t) == f(y, t) ==> x == y
    requires Fold(f, a, items) == Fold(f, b, items)
    ensures a == b
    decreases |items|
  {
    if items != [] {
      FoldIsInjective(f, f(a, items[0]), f(b, items[0]), items[1..]);
    }
  }

  // ---------- A word mixed in at once, or its parts fed lowest first ----------

  function LowestFirst<W, T>(low: W -> T, half: W -> W, word: W, n: nat): (parts: seq<T>)
    ensures |parts| == n
    decreases n
  {
    if n == 0 then [] else [low(word)] + LowestFirst(low, half, half(word), n - 1)
  }

  lemma {:induction false} LowestFirstAt<W, T>(low: W -> T, half: W -> W, word: W, n: nat, i: nat)
    requires i < n
    ensures LowestFirst(low, half, word, n)[i] == low(Iterate(half, word, i))
    decreases n
  {
    if i > 0 {
      LowestFirstAt(low, half, half(word), n - 1, i - 1);
    }
  }

  lemma {:induction false} MixedAtOnceOrFed<S(!new), W(!new), T>(
      move: S -> S, mix: (S, W) -> S, feed: (S, T) -> S, low: W -> T, half: W -> W, start: S, word: W, n: nat)
    requires forall s, w :: move(mix(s, w)) == mix(feed(s, low(w)), half(w))
    ensures Iterate(move, mix(start, word), n)
         == mix(Fold(feed, start, LowestFirst(low, half, word, n)), Iterate(half, word, n))
    decreases n
  {
    if n > 0 {
      MixedAtOnceOrFed(move, mix, feed, low, half, feed(start, low(word)), half(word), n - 1);
    }
  }

  // ---------- Tracing back ----------

  /**
   * agree(n, a, b) says that a and b coincide wherever n steps could not have reached; f may lose at most
   * one such place a step for the first `span` steps, and always shows there which item it was fed.
   */
  ghost predicate Traceable<S(!new), T(!new)>(f: (S, T) -> S, agree: (nat, S, S) -> bool, span: nat) {
    && (forall a :: agree(0, a, a))
    && (forall a, b, t :: f(a, t) == f(b, t) ==> a == b)
    && (forall n: nat, a, b, s, t :: n < span && agree(n, f(a, s), f(b, t)) ==> agree(n + 1, a, b))
    && (forall n: nat, a, s, t :: n < span && agree(n, f(a, s), f(a, t)) ==> s == t)
  }

  lemma {:induction false} MeetingRunsAgreed<S(!new), T(!new)>(
      f: (S, T) -> S, agree: (nat, S, S) -> bool, span: nat, a: S, b: S, p: seq<T>, q: seq<T>)
    requires Traceable(f, agree, span)
    requires |p| == |q| <= span
    requires Fold(f, a, p) == Fold(f, b, q)
    ensures agree(|p|, a, b)
    decreases |p|
  {
    if p != [] {
      MeetingRunsAgreed(f, agree, span, f(a, p[0]), f(b, q[0]), p[1..], q[1..]);
    }
  }

  lemma {:induction false} ShortRunsAreDetermined<S(!new), T(!new)>(
      f: (S, T) -> S, agree: (nat, S, S) -> bool, span: nat, start: S, p: seq<T>, q: seq<T>)
    requires Traceable(f, agree, span)
    requires |p| == |q| <= span
    requires Fold(f, start, p) == Fold(f, start, q)
    ensures p == q
    decreases |p|
  {
    if p != [] {
      MeetingRunsAgreed(f, agree, span, f(start, p[0]), f(start, q[0]), p[1..], q[1..]);
      ShortRunsAreDetermined(f, agree, span, f(start, p[0]), p[1..], q[1..]);
    }
  }

  ghost predicate DifferOnlyWithin<T>(p: seq<T>, q: seq<T>, from: nat, to: nat) {
    |p| == |q| && forall k :: 0 <= k < |p| && !(from <= k < to) ==> p[k] == q[k]
  }

  /** A change confined to `span` consecutive items always shows in the final state. */
  lemma BurstShows<S(!new), T(!new)>(
      f: (S, T) -> S, agree: (nat, S, S) -> bool, span: nat, start: S, p: seq<T>, q: seq<T>, from: nat, to: nat)
    requires Traceable(f, agree, span)
    requires from <= to <= |p| && to - from <= span
    requires DifferOnlyWithin(p, q, from, to)
    requires Fold(f, start, p) == Fold(f, start, q)
    ensures p == q
  {
    var lead, tail := p[..from], p[to..];
    assert q[..from] == lead && q[to..] == tail;
    assert p == lead + (p[from..to] + tail) && q == lead + (q[from..to] + tail);
    var reached := Fold(f, start, lead);
    FoldAppend(f, start, lead, p[from..to] + tail);
    FoldAppend(f, start, lead, q[from..to] + tail);
    FoldAppend(f, reached, p[from..to], tail);
    FoldAppend(f, reached, q[from..to], tail);
    FoldIsInjective(f, Fold(f, reached, p[from..to]), Fold(f, reached, q[from..to]), tail);
    ShortRunsAreDetermined(f, agree, span, reached, p[from..to], q[from..to]);
  }
}
