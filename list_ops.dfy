/** Sequence operations the handlers and the client state use: find the first
    match, select, replace or transform the matching elements. */
module ListOps {
  import opened Wrappers

  /** The elements of `xs` that satisfy `p`, in their original order. */
  function Select<T(==,!new)>(xs: seq<T>, p: T -> bool): (r: seq<T>)
    ensures |r| <= |xs|
    ensures forall x :: multiset(r)[x] == if p(x) then multiset(xs)[x] else 0
    ensures forall i :: 0 <= i < |r| ==> p(r[i])
  {
    if xs == [] then []
    else
      var rest := Select(xs[1..], p);
      assert xs == [xs[0]] + xs[1..];
      if p(xs[0]) then [xs[0]] + rest else rest
  }

  lemma SelectMembers<T(!new)>(xs: seq<T>, p: T -> bool, x: T)
    ensures x in Select(xs, p) <==> x in xs && p(x)
  {
    assert x in Select(xs, p) <==> multiset(Select(xs, p))[x] > 0;
    assert x in xs <==> multiset(xs)[x] > 0;
  }

  /** Selection distributes over concatenation, so the kept elements stay in
      their original order. */
  lemma {:induction false} SelectAppend<T(!new)>(xs: seq<T>, ys: seq<T>, p: T -> bool)
    ensures Select(xs + ys, p) == Select(xs, p) + Select(ys, p)
  {
    if xs == [] {
      assert xs + ys == ys;
    } else {
      assert (xs + ys)[0] == xs[0];
      assert (xs + ys)[1..] == xs[1..] + ys;
      SelectAppend(xs[1..], ys, p);
    }
  }

  /** Selecting from a sequence whose elements all qualify returns it whole. */
  lemma {:induction false} SelectAll<T(!new)>(xs: seq<T>, p: T -> bool)
    requires forall i :: 0 <= i < |xs| ==> p(xs[i])
    ensures Select(xs, p) == xs
  {
    if xs != [] {
      SelectAll(xs[1..], p);
    }
  }

  /** Selecting drops exactly the one element that fails `p`. */
  lemma {:induction false} SelectAllBut<T(!new)>(xs: seq<T>, p: T -> bool, k: nat)
    requires k < |xs| && !p(xs[k])
    requires forall i :: 0 <= i < |xs| && i != k ==> p(xs[i])
    ensures Select(xs, p) == xs[..k] + xs[k + 1..]
  {
    var tail := xs[1..];
    assert forall i :: 0 <= i < |tail| ==> tail[i] == xs[i + 1];
    if k == 0 {
      SelectAll(tail, p);
    } else {
      SelectAllBut(tail, p, k - 1);
      DropInTail(xs, k);
    }
  }

  /** Dropping position k > 0 keeps the head and drops position k - 1 of the tail. */
  lemma DropInTail<T>(xs: seq<T>, k: nat)
    requires 0 < k < |xs|
    ensures xs[..k] + xs[k + 1..] == [xs[0]] + (xs[1..][..k - 1] + xs[1..][k..])
  {
    assert xs[..k] == [xs[0]] + xs[1..][..k - 1];
    assert xs[k + 1..] == xs[1..][k..];
  }

  /** The index of the first element satisfying `p`, as `findOne`/`findById`. */
  function IndexWhere<T>(xs: seq<T>, p: T -> bool): (r: Option<nat>)
    ensures r.Some? ==> r.value < |xs| && p(xs[r.value])
    ensures r.Some? ==> forall k :: 0 <= k < r.value ==> !p(xs[k])
    ensures r.None? ==> forall k :: 0 <= k < |xs| ==> !p(xs[k])
  {
    if xs == [] then None
    else if p(xs[0]) then Some(0)
    else
      match IndexWhere(xs[1..], p)
      case None => None
      case Some(i) => Some(i + 1)
  }

  /** `xs.map(x => p(x) ? f(x) : x)`. */
  function MapWhere<T>(xs: seq<T>, p: T -> bool, f: T -> T): (r: seq<T>)
    ensures |r| == |xs|
    ensures forall i :: 0 <= i < |xs| ==> r[i] == if p(xs[i]) then f(xs[i]) else xs[i]
  {
    seq(|xs|, i requires 0 <= i < |xs| => if p(xs[i]) then f(xs[i]) else xs[i])
  }

  /** The sequence without its element at `k`; the others keep their order. */
  function RemoveAt<T>(xs: seq<T>, k: nat): (r: seq<T>)
    requires k < |xs|
    ensures |r| == |xs| - 1
    ensures forall i :: 0 <= i < k ==> r[i] == xs[i]
    ensures forall i :: k <= i < |r| ==> r[i] == xs[i + 1]
  {
    xs[..k] + xs[k + 1..]
  }

  /** The negation of a test. */
  function Unmatched<T>(p: T -> bool): T -> bool {
    x => !p(x)
  }

  /** `xs.filter(x => !p(x))`: the selection of the elements that do not match,
      in order. */
  function RemoveWhere<T(==,!new)>(xs: seq<T>, p: T -> bool): (r: seq<T>)
    ensures |r| <= |xs|
    ensures forall x :: multiset(r)[x] == if p(x) then 0 else multiset(xs)[x]
    ensures forall i :: 0 <= i < |r| ==> !p(r[i])
  {
    Select(xs, Unmatched(p))
  }

  /** Removal works piece by piece, so the kept elements keep their order. */
  lemma RemoveWhereAppend<T(!new)>(xs: seq<T>, ys: seq<T>, p: T -> bool)
    ensures RemoveWhere(xs + ys, p) == RemoveWhere(xs, p) + RemoveWhere(ys, p)
  {
    SelectAppend(xs, ys, Unmatched(p));
  }

  /** Nothing is removed from a sequence without a match. */
  lemma RemoveWhereNone<T(!new)>(xs: seq<T>, p: T -> bool)
    requires forall i :: 0 <= i < |xs| ==> !p(xs[i])
    ensures RemoveWhere(xs, p) == xs
  {
    SelectAll(xs, Unmatched(p));
  }

  /** Replacing the matching elements by matching ones and then removing the
      matches is the same as removing them straight away. */
  lemma {:induction false} RemoveAfterMapWhere<T(!new)>(xs: seq<T>, p: T -> bool, f: T -> T)
    requires forall x :: p(x) ==> p(f(x))
    ensures RemoveWhere(MapWhere(xs, p, f), p) == RemoveWhere(xs, p)
  {
    if xs != [] {
      var m := MapWhere(xs, p, f);
      assert m[1..] == MapWhere(xs[1..], p, f);
      RemoveAfterMapWhere(xs[1..], p, f);
    }
  }

  /** A new first element that matches is dropped by the removal. */
  lemma RemoveWherePrepended<T(!new)>(x: T, xs: seq<T>, p: T -> bool)
    requires p(x)
    ensures RemoveWhere([x] + xs, p) == RemoveWhere(xs, p)
  {
    assert ([x] + xs)[1..] == xs;
  }
}
