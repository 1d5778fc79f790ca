/** What a run of actions does to a world, for any step function. */
module Runs {

  ghost function Fold<W(!new), A(!new)>(step: (W, A) -> W, w: W, run: seq<A>): W {
    if run == [] then w else step(Fold(step, w, run[..|run| - 1]), run[|run| - 1])
  }

  lemma {:induction false} FoldConcat<W(!new), A(!new)>(step: (W, A) -> W, w: W, first: seq<A>, later: seq<A>)
    ensures Fold(step, w, first + later) == Fold(step, Fold(step, w, first), later)
  {
    if later == [] {
      assert first + later == first;
    } else {
      var front := later[..|later| - 1];
      FoldConcat(step, w, first, front);
      assert (first + later)[..|first + later| - 1] == first + front;
    }
  }

  lemma FoldSnoc<W(!new), A(!new)>(step: (W, A) -> W, w: W, run: seq<A>, a: A)
    ensures Fold(step, w, run + [a]) == step(Fold(step, w, run), a)
  {
    assert (run + [a])[..|run|] == run;
  }

  lemma FoldOne<W(!new), A(!new)>(step: (W, A) -> W, w: W, a: A)
    ensures Fold(step, w, [a]) == step(w, a)
  {
    assert [a][..0] == [];
  }
}
