/** What holds after every prefix of a run, and before each of its events. */
module Prefixes {
  ghost predicate AfterEvery<E(!new)>(p: seq<E> -> bool, run: seq<E>) {
    forall k | 0 <= k <= |run| :: p(run[..k])
  }

  ghost predicate BeforeEach<E(!new)>(p: (seq<E>, E) -> bool, run: seq<E>) {
    forall k | 0 <= k < |run| :: p(run[..k], run[k])
  }

  lemma AfterEveryByStep<E(!new)>(p: seq<E> -> bool, run: seq<E>)
    requires run != []
    ensures var before := run[..|run| - 1];
            (AfterEvery(p, run) <==> AfterEvery(p, before) && p(run)) && (AfterEvery(p, before) ==> p(before))
  {
    var before := run[..|run| - 1];
    assert run[..|run|] == run && before[..|before|] == before;
    forall k | 0 <= k < |run| ensures before[..k] == run[..k] {
    }
  }

  lemma BeforeEachByStep<E(!new)>(p: (seq<E>, E) -> bool, run: seq<E>)
    requires run != []
    ensures var n := |run| - 1;
            BeforeEach(p, run) <==> BeforeEach(p, run[..n]) && p(run[..n], run[n])
  {
    var before := run[..|run| - 1];
    forall k | 0 <= k < |before| ensures before[..k] == run[..k] && before[k] == run[k] {
    }
  }
}
