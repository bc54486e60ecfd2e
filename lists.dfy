/**
 * The list-building loop shared by several operations: walk a list in order and append `f(x)` for
 * every element `x` where `f` gives a value, skipping the others.
 */
module Lists {
  import opened Wrappers

  /** The values `f` gives over `xs`, in the order of `xs`. */
  function FilterMap<A, B>(xs: seq<A>, f: A -> Option<B>): seq<B>
    decreases |xs|
  {
    if xs == [] then []
    else FilterMap(xs[..|xs| - 1], f) + Kept(f(xs[|xs| - 1]))
  }

  /** What one element contributes: its value, or nothing. */
  function Kept<B>(y: Option<B>): seq<B> {
    if y.Some? then [y.value] else []
  }

  /** One more turn of the loop: the result so far and what the next element contributes. */
  lemma FilterMapStep<A, B>(xs: seq<A>, i: nat, f: A -> Option<B>)
    requires i < |xs|
    ensures FilterMap(xs[..i + 1], f) == FilterMap(xs[..i], f) + Kept(f(xs[i]))
  {
    assert xs[..i + 1][..i] == xs[..i];
  }

  /** The values over a concatenation are the values over its halves, in order. */
  lemma {:induction false} FilterMapAppend<A, B>(xs: seq<A>, ys: seq<A>, f: A -> Option<B>)
    ensures FilterMap(xs + ys, f) == FilterMap(xs, f) + FilterMap(ys, f)
    decreases |ys|
  {
    if ys == [] {
      assert xs + ys == xs;
    } else {
      var init := ys[..|ys| - 1];
      assert (xs + ys)[..|xs + ys| - 1] == xs + init;
      FilterMapAppend(xs, init, f);
    }
  }

  /** A value is in the result exactly when `f` gives it for some element. */
  lemma {:induction false} FilterMapMembers<A, B>(xs: seq<A>, f: A -> Option<B>, y: B)
    ensures y in FilterMap(xs, f) <==> exists i :: 0 <= i < |xs| && f(xs[i]) == Some(y)
    decreases |xs|
  {
    if xs != [] {
      var n := |xs| - 1;
      var init := xs[..n];
      FilterMapMembers(init, f, y);
      assert forall i :: 0 <= i < n ==> init[i] == xs[i];
    }
  }

  /** At most one value per element. */
  lemma {:induction false} FilterMapLength<A, B>(xs: seq<A>, f: A -> Option<B>)
    ensures |FilterMap(xs, f)| <= |xs|
    decreases |xs|
  {
    if xs != [] {
      FilterMapLength(xs[..|xs| - 1], f);
    }
  }

  /** When `f` gives a value for every element, the result is those values, one per element. */
  lemma {:induction false} FilterMapTotal<A, B>(xs: seq<A>, f: A -> Option<B>)
    requires forall i :: 0 <= i < |xs| ==> f(xs[i]).Some?
    ensures |FilterMap(xs, f)| == |xs|
    ensures forall i :: 0 <= i < |xs| ==> FilterMap(xs, f)[i] == f(xs[i]).value
    decreases |xs|
  {
    if xs != [] {
      var n := |xs| - 1;
      var init := xs[..n];
      assert forall i :: 0 <= i < n ==> init[i] == xs[i];
      FilterMapTotal(init, f);
    }
  }

  /** The first value `f` gives over `xs`, in the order of `xs`. */
  function FirstSome<A, B>(xs: seq<A>, f: A -> Option<B>): Option<B>
    decreases |xs|
  {
    if xs == [] then None else if f(xs[0]).Some? then f(xs[0]) else FirstSome(xs[1..], f)
  }

  /** A first value comes from some element, and `f` gives no value for any element before it. */
  lemma {:induction false} FirstSomeIndex<A, B>(xs: seq<A>, f: A -> Option<B>) returns (i: int)
    requires FirstSome(xs, f).Some?
    ensures 0 <= i < |xs| && FirstSome(xs, f) == f(xs[i])
    ensures forall j :: 0 <= j < i ==> f(xs[j]).None?
    decreases |xs|
  {
    if f(xs[0]).Some? {
      i := 0;
    } else {
      var k := FirstSomeIndex(xs[1..], f);
      i := k + 1;
      assert xs[i] == xs[1..][k];
      forall j | 0 <= j < i ensures f(xs[j]).None? {
        if j != 0 {
          assert xs[j] == xs[1..][j - 1];
        }
      }
    }
  }

  /** How many of the flags in `bs` are set. */
  function Trues(bs: seq<bool>): nat
    decreases |bs|
  {
    if bs == [] then 0 else Trues(bs[..|bs| - 1]) + (if bs[|bs| - 1] then 1 else 0)
  }

  /** One more flag at the end of a counting loop. */
  lemma TruesSnoc(bs: seq<bool>, b: bool)
    ensures Trues(bs + [b]) == Trues(bs) + (if b then 1 else 0)
  {
    assert (bs + [b])[..|bs|] == bs;
  }

  /**
   * The count is at most the number of flags; it is zero exactly when no flag is set, and the
   * number of flags exactly when every flag is set.
   */
  lemma {:induction false} TruesBounds(bs: seq<bool>)
    ensures Trues(bs) <= |bs|
    ensures Trues(bs) == 0 <==> forall i :: 0 <= i < |bs| ==> !bs[i]
    ensures Trues(bs) == |bs| <==> forall i :: 0 <= i < |bs| ==> bs[i]
    decreases |bs|
  {
    if bs != [] {
      var n := |bs| - 1;
      var init := bs[..n];
      TruesBounds(init);
      assert forall i :: 0 <= i < n ==> init[i] == bs[i];
    }
  }
}
