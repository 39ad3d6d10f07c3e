/** Failure-carrying datatypes shared by every module. */
module Prelude {
  datatype Option<+T> = None | Some(value: T)

  datatype Result<+T, +E> = Ok(value: T) | Err(error: E)

  /** Places in a list of length `n`, in order: a choice of its members that keeps their order. */
  ghost predicate Picks(places: seq<nat>, n: nat) {
    && (forall i :: 0 <= i < |places| ==> places[i] < n)
    && (forall i, j :: 0 <= i < j < |places| ==> places[i] < places[j])
  }

  /** The places of the flags that are set. */
  function PlacesOf(flags: seq<bool>): seq<nat> {
    if flags == [] then []
    else
      var k := |flags| - 1;
      PlacesOf(flags[..k]) + if flags[k] then [k] else []
  }

  lemma {:induction false} PlacesOfExactly(flags: seq<bool>)
    ensures Picks(PlacesOf(flags), |flags|)
    ensures forall k :: 0 <= k < |flags| ==> (k in PlacesOf(flags) <==> flags[k])
  {
    if flags != [] {
      var k := |flags| - 1;
      PlacesOfExactly(flags[..k]);
      assert forall l :: 0 <= l < k ==> flags[..k][l] == flags[l];
    }
  }

  /** What holds of a member of the list also holds of the one behind it. */
  ghost predicate Inherited<T>(p: T -> bool, xs: seq<T>, k: nat)
    requires k + 1 < |xs|
  {
    p(xs[k]) ==> p(xs[k + 1])
  }

  /** Induction along a list, between two of its members. */
  lemma {:induction false} Along<T>(p: T -> bool, xs: seq<T>, i: nat, j: nat)
    requires i <= j < |xs| && p(xs[i])
    requires forall k :: i <= k < j ==> Inherited(p, xs, k)
    ensures p(xs[j])
    decreases j
  {
    if i < j {
      Along(p, xs, i, j - 1);
      assert Inherited(p, xs, j - 1);
    }
  }
}
