/** Generic sequence helpers used by the workout model: an Option type,
    Swift's `firstIndex(where:)`, and flattening a sequence of nodes into the
    sequence of all values they carry (used to collect entity ids). */
module Seqs {

  datatype Option<+T> = None | Some(value: T)

  /** The position of the first element satisfying `p`, or None when no
      element does (Swift's `Array.firstIndex(where:)`). */
  function FirstIndex<T>(xs: seq<T>, p: T -> bool): (r: Option<nat>)
    ensures r.Some? ==> r.value < |xs| && p(xs[r.value])
    ensures r.Some? ==> forall j :: 0 <= j < r.value ==> !p(xs[j])
    ensures r.None? <==> forall j :: 0 <= j < |xs| ==> !p(xs[j])
    decreases |xs|
  {
    if |xs| == 0 then None
    else if p(xs[0]) then Some(0)
    else
      match FirstIndex(xs[1..], p)
      case None => None
      case Some(i) => Some(i + 1)
  }

  /** The concatenation of `f(x)` for every `x` of `xs`, in order. */
  function Flatten<T, U>(xs: seq<T>, f: T -> seq<U>): seq<U>
    decreases |xs|
  {
    if |xs| == 0 then [] else f(xs[0]) + Flatten(xs[1..], f)
  }

  lemma {:induction false} FlattenAppend<T, U>(xs: seq<T>, ys: seq<T>, f: T -> seq<U>)
    ensures Flatten(xs + ys, f) == Flatten(xs, f) + Flatten(ys, f)
    decreases |xs|
  {
    if |xs| == 0 {
      assert xs + ys == ys;
    } else {
      assert (xs + ys)[1..] == xs[1..] + ys;
      FlattenAppend(xs[1..], ys, f);
    }
  }

  lemma FlattenSingleton<T, U>(x: T, f: T -> seq<U>)
    ensures Flatten([x], f) == f(x)
  {
    assert [x][1..] == [];
  }

  /** The values of `xs` split around position `i`. */
  lemma FlattenSplit<T, U>(xs: seq<T>, i: nat, f: T -> seq<U>)
    requires i < |xs|
    ensures multiset(Flatten(xs, f))
         == multiset(Flatten(xs[..i], f)) + multiset(f(xs[i])) + multiset(Flatten(xs[i + 1..], f))
  {
    FlattenAround(xs, i, f);
  }

  lemma {:induction false} FlattenAround<T, U>(xs: seq<T>, i: nat, f: T -> seq<U>)
    requires i < |xs|
    ensures Flatten(xs, f) == Flatten(xs[..i], f) + f(xs[i]) + Flatten(xs[i + 1..], f)
    decreases i
  {
    if i == 0 {
      assert xs[..0] == [];
    } else {
      var tail := xs[1..];
      FlattenAround(tail, i - 1, f);
      assert tail[..i - 1] == xs[..i][1..];
      assert tail[i - 1] == xs[i] && tail[i..] == xs[i + 1..];
      assert xs[..i][0] == xs[0];
    }
  }

  /** Every element contributes its own values to the flattening. */
  lemma FlattenContains<T, U>(xs: seq<T>, i: nat, f: T -> seq<U>)
    requires i < |xs|
    ensures multiset(f(xs[i])) <= multiset(Flatten(xs, f))
  {
    FlattenSplit(xs, i, f);
  }

  /** Replacing one element replaces exactly its values. */
  lemma FlattenUpdate<T, U>(xs: seq<T>, i: nat, x: T, f: T -> seq<U>)
    requires i < |xs|
    ensures multiset(Flatten(xs[i := x], f))
         == multiset(Flatten(xs, f)) - multiset(f(xs[i])) + multiset(f(x))
  {
    var ys := xs[i := x];
    FlattenSplit(xs, i, f);
    FlattenSplit(ys, i, f);
    assert ys[..i] == xs[..i];
    assert ys[i + 1..] == xs[i + 1..];
  }

  /** Removing one element removes exactly its values. */
  lemma FlattenRemove<T, U>(xs: seq<T>, i: nat, f: T -> seq<U>)
    requires i < |xs|
    ensures multiset(Flatten(xs[..i] + xs[i + 1..], f))
         == multiset(Flatten(xs, f)) - multiset(f(xs[i]))
  {
    FlattenSplit(xs, i, f);
    FlattenAppend(xs[..i], xs[i + 1..], f);
  }

  /** A value carried by two different elements occurs twice. */
  lemma FlattenTwo<T, U>(xs: seq<T>, i: nat, j: nat, f: T -> seq<U>, u: U)
    requires i < j < |xs|
    requires u in f(xs[i]) && u in f(xs[j])
    ensures multiset(Flatten(xs, f))[u] >= 2
  {
    FlattenSplit(xs, j, f);
    assert xs[..j][i] == xs[i];
    FlattenContains(xs[..j], i, f);
  }

  /* ---- bag arithmetic, kept out of the larger proofs ---- */

  /** Swapping a part `out` of a bag for `inn` adds at most `extra`. */
  lemma BagSwap<T>(bag: multiset<T>, out: multiset<T>, inn: multiset<T>, extra: multiset<T>)
    requires out <= bag && inn <= out + extra
    ensures bag - out + inn <= bag + extra
  {
  }

  /** Removing a part of the tail of a bag is removing it from the bag. */
  lemma BagRemoveTail<T>(head: multiset<T>, tail: multiset<T>, part: multiset<T>)
    requires part <= tail
    ensures head + (tail - part) == (head + tail) - part
  {
  }
}
