/** Order-preserving subsequences. */
module Subsequences {

  function Front<T>(s: seq<T>): seq<T>
    requires s != []
  {
    s[..|s| - 1]
  }

  function Last<T>(s: seq<T>): T
    requires s != []
  {
    s[|s| - 1]
  }

  /** `xs` is `ys` with some elements left out. */
  predicate Sub<T(==)>(xs: seq<T>, ys: seq<T>)
    decreases |ys|
  {
    || xs == []
    || (ys != [] && (Sub(xs, Front(ys)) || (Last(xs) == Last(ys) && Sub(Front(xs), Front(ys)))))
  }

  lemma {:induction false} SubReflexive<T>(xs: seq<T>)
    ensures Sub(xs, xs)
  {
    if xs != [] {
      SubReflexive(Front(xs));
    }
  }

  /** Nothing new at the end of the longer sequence, or the same on both. */
  lemma SubAppend<T>(xs: seq<T>, ys: seq<T>, y: T)
    requires Sub(xs, ys)
    ensures Sub(xs, ys + [y]) && Sub(xs + [y], ys + [y])
  {
    assert Front(ys + [y]) == ys && Front(xs + [y]) == xs;
  }

  lemma {:induction false} SubFront<T>(xs: seq<T>, ys: seq<T>)
    requires xs != [] && Sub(xs, ys)
    ensures Sub(Front(xs), ys)
    decreases |ys|
  {
    if Sub(xs, Front(ys)) {
      SubFront(xs, Front(ys));
    } else {
      SubAppend(Front(xs), Front(ys), Last(ys));
      assert Front(ys) + [Last(ys)] == ys;
    }
  }

  lemma {:induction false} SubTransitive<T>(xs: seq<T>, ys: seq<T>, zs: seq<T>)
    requires Sub(xs, ys) && Sub(ys, zs)
    ensures Sub(xs, zs)
    decreases |zs|
  {
    if xs != [] && zs != [] {
      if Sub(ys, Front(zs)) {
        SubTransitive(xs, ys, Front(zs));
      } else if Sub(xs, Front(ys)) {
        SubTransitive(xs, Front(ys), Front(zs));
      } else {
        SubTransitive(Front(xs), Front(ys), Front(zs));
      }
    }
  }

  lemma {:induction false} SubBoth<T>(xs: seq<T>, ys: seq<T>, zs: seq<T>)
    requires Sub(xs, ys)
    ensures Sub(xs + zs, ys + zs)
    decreases |zs|
  {
    if zs == [] {
      assert xs + zs == xs && ys + zs == ys;
    } else {
      SubBoth(xs, ys, Front(zs));
      SubAppend(xs + Front(zs), ys + Front(zs), Last(zs));
      assert (xs + Front(zs)) + [Last(zs)] == xs + zs && (ys + Front(zs)) + [Last(zs)] == ys + zs;
    }
  }

  /** Leaving one element out. */
  lemma SubWithout<T>(xs: seq<T>, x: T, zs: seq<T>)
    ensures Sub(xs + zs, xs + [x] + zs)
  {
    SubReflexive(xs);
    SubAppend(xs, xs, x);
    SubBoth(xs, xs + [x], zs);
  }

  /** Each element of the subsequence has a place in the sequence, and the places keep the order. */
  lemma {:induction false} SubPlaces<T>(xs: seq<T>, ys: seq<T>) returns (places: seq<nat>)
    requires Sub(xs, ys)
    ensures |places| == |xs|
    ensures forall i | 0 <= i < |xs| :: places[i] < |ys| && ys[places[i]] == xs[i]
    ensures forall i, j | 0 <= i < j < |xs| :: places[i] < places[j]
    decreases |ys|
  {
    if xs == [] {
      places := [];
    } else if Sub(xs, Front(ys)) {
      places := SubPlaces(xs, Front(ys));
    } else {
      var before := SubPlaces(Front(xs), Front(ys));
      places := before + [|ys| - 1];
    }
  }

  lemma {:induction false} SubLonger<T>(xs: seq<T>, ys: seq<T>, zs: seq<T>)
    requires Sub(xs, ys)
    ensures Sub(xs, ys + zs)
    decreases |zs|
  {
    if zs == [] {
      assert ys + zs == ys;
    } else {
      SubLonger(xs, ys, Front(zs));
      SubAppend(xs, ys + Front(zs), Last(zs));
      assert (ys + Front(zs)) + [Last(zs)] == ys + zs;
    }
  }

  lemma SubOfOne<T>(xs: seq<T>, ys: seq<T>)
    requires Sub(xs, ys) && |ys| <= 1
    ensures xs == [] || xs == ys
  {
    if xs != [] {
      assert Sub(Front(xs), Front(ys)) && Front(ys) == [];
      assert xs == [Last(xs)] && ys == [Last(ys)];
    }
  }
}
