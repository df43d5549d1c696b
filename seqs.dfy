/** Mapping a partial function over a sequence, element by element from the
    front, as the parsing loops append one result per input line. */
module Seqs {

  /** Concatenation regrouped; stated once so that proofs about growing
      logs and paths need not rediscover it. */
  lemma AppendRegroup<T>(e: seq<T>, r: seq<T>, x: seq<T>)
    ensures e + (r + x) == (e + r) + x
  {
  }

  function MapSeq<A, B>(f: A --> B, xs: seq<A>): (ys: seq<B>)
    requires forall j :: 0 <= j < |xs| ==> f.requires(xs[j])
    ensures |ys| == |xs|
  {
    if xs == [] then [] else MapSeq(f, xs[..|xs| - 1]) + [f(xs[|xs| - 1])]
  }

  /** Element `j` of the result is `f` of element `j`. */
  lemma {:induction false} MapSeqAt<A, B>(f: A --> B, xs: seq<A>)
    requires forall j :: 0 <= j < |xs| ==> f.requires(xs[j])
    ensures forall j :: 0 <= j < |xs| ==> MapSeq(f, xs)[j] == f(xs[j])
  {
    if xs != [] {
      var init := xs[..|xs| - 1];
      assert forall j :: 0 <= j < |init| ==> init[j] == xs[j];
      MapSeqAt(f, init);
    }
  }

  /** A left fold: `f` applied to each element in turn, from the front,
      starting from `s`. */
  function FoldSeq<S, A>(f: (S, A) -> S, s: S, xs: seq<A>): S {
    if xs == [] then s else f(FoldSeq(f, s, xs[..|xs| - 1]), xs[|xs| - 1])
  }

  /** The index of the last element that satisfies `p`, or -1. */
  function LastWhere<A>(p: A -> bool, xs: seq<A>): (i: int)
    ensures -1 <= i < |xs|
    ensures i >= 0 ==> p(xs[i])
    ensures forall k :: i < k < |xs| ==> !p(xs[k])
  {
    if xs == [] then -1
    else if p(xs[|xs| - 1]) then |xs| - 1
    else LastWhere(p, xs[..|xs| - 1])
  }

  /** When each step sets a component `g` of the state to `v(a)` for an
      element satisfying `p`, and leaves it alone otherwise, the component
      after the fold comes from the last such element, or from the start
      state when there is none. */
  lemma {:induction false} FoldLastWins<S, A, B>(f: (S, A) -> S, g: S -> B, p: A -> bool, v: A -> B,
                                                 s: S, xs: seq<A>)
    requires forall t, a :: g(f(t, a)) == if p(a) then v(a) else g(t)
    ensures g(FoldSeq(f, s, xs)) == if LastWhere(p, xs) < 0 then g(s) else v(xs[LastWhere(p, xs)])
    decreases |xs|
  {
    if xs != [] {
      var init := xs[..|xs| - 1];
      FoldLastWins(f, g, p, v, s, init);
      if !p(xs[|xs| - 1]) {
        var i := LastWhere(p, init);
        assert i >= 0 ==> init[i] == xs[i];
      }
    }
  }
}
