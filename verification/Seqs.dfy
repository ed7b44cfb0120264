/** Sequences taken from the end, and joined. */
module Seqs {
  function Front<T>(s: seq<T>): seq<T>
    requires s != []
  {
    s[..|s| - 1]
  }

  function Last<T>(s: seq<T>): T
    requires s != []
  {
    s[|s| - 1]
  }

  function Concat<T>(ss: seq<seq<T>>): seq<T> {
    if ss == [] then [] else Concat(Front(ss)) + Last(ss)
  }

  lemma {:induction false} ConcatAppend<T>(a: seq<seq<T>>, b: seq<seq<T>>)
    ensures Concat(a + b) == Concat(a) + Concat(b)
  {
    if b == [] {
      assert a + b == a;
    } else {
      ConcatAppend(a, Front(b));
      assert Front(a + b) == a + Front(b);
    }
  }

  lemma ConcatOne<T>(a: seq<seq<T>>, s: seq<T>)
    ensures Concat([s]) == s && Concat(a + [s]) == Concat(a) + s
  {
    assert Front([s]) == [] && Front(a + [s]) == a;
  }
}
