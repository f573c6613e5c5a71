/** Sequence helpers shared by the period merger and the batcher. */
module Seqs {

  /** The sequences of `xss` concatenated in order. */
  function Flatten<T>(xss: seq<seq<T>>): seq<T>
  {
    if xss == [] then [] else xss[0] + Flatten(xss[1..])
  }

  lemma {:induction false} FlattenAppend<T>(xss: seq<seq<T>>, xs: seq<T>)
    ensures Flatten(xss + [xs]) == Flatten(xss) + xs
  {
    if xss == [] {
      assert [xs][1..] == [];
    } else {
      assert (xss + [xs])[1..] == xss[1..] + [xs];
      FlattenAppend(xss[1..], xs);
    }
  }

  /** `f` applied to each element of `s`, the results concatenated in order. */
  function FlatMap<A, B>(f: A -> seq<B>, s: seq<A>): seq<B>
  {
    if s == [] then [] else FlatMap(f, s[..|s| - 1]) + f(s[|s| - 1])
  }

  lemma FlatMapAppend<A, B>(f: A -> seq<B>, s: seq<A>, x: A)
    ensures FlatMap(f, s + [x]) == FlatMap(f, s) + f(x)
  {
    assert (s + [x])[..|s|] == s;
  }

  lemma {:induction false} FlatMapConcat<A, B>(f: A -> seq<B>, a: seq<A>, b: seq<A>)
    ensures FlatMap(f, a + b) == FlatMap(f, a) + FlatMap(f, b)
    decreases |b|
  {
    if b == [] {
      assert a + b == a;
    } else {
      var c, x := b[..|b| - 1], b[|b| - 1];
      assert b == c + [x];
      calc {
        FlatMap(f, a + b);
        { assert a + b == (a + c) + [x]; }
        FlatMap(f, (a + c) + [x]);
        { FlatMapAppend(f, a + c, x); }
        FlatMap(f, a + c) + f(x);
        { FlatMapConcat(f, a, c); }
        FlatMap(f, a) + FlatMap(f, c) + f(x);
        { FlatMapAppend(f, c, x); }
        FlatMap(f, a) + FlatMap(f, b);
      }
    }
  }
}
