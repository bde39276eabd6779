/** `Array.prototype.sort` with a comparator, as the instance manager uses
    it: a comparator that is a total preorder, and a result that is ordered
    by it and is a permutation of the input. */
module Sorting {

  /** `le(a, b)` means the comparator does not put `b` before `a`. */
  ghost predicate TotalPreorder<T(!new)>(le: (T, T) -> bool) {
    && (forall x, y :: le(x, y) || le(y, x))
    && (forall x, y, z :: le(x, y) && le(y, z) ==> le(x, z))
  }

  predicate SortedBy<T>(le: (T, T) -> bool, xs: seq<T>) {
    forall i, j :: 0 <= i < j < |xs| ==> le(xs[i], xs[j])
  }

  /** A lower bound of every element of `ys` and of `x` bounds every element
      of a permutation of `ys` plus `x`. */
  lemma BoundOfPermutation<T>(le: (T, T) -> bool, b: T, x: T, ys: seq<T>, zs: seq<T>)
    requires le(b, x)
    requires forall j :: 0 <= j < |ys| ==> le(b, ys[j])
    requires multiset(zs) == multiset(ys) + multiset{x}
    ensures forall k :: 0 <= k < |zs| ==> le(b, zs[k])
  {
    forall k | 0 <= k < |zs| ensures le(b, zs[k]) {
      assert zs[k] in multiset(zs);
      if zs[k] != x {
        assert zs[k] in multiset(ys);
        var j :| 0 <= j < |ys| && ys[j] == zs[k];
      }
    }
  }

  /** Places `x` before the first element it does not follow. */
  function Insert<T(!new)>(le: (T, T) -> bool, x: T, xs: seq<T>): (r: seq<T>)
    requires TotalPreorder(le)
    requires SortedBy(le, xs)
    ensures SortedBy(le, r)
    ensures multiset(r) == multiset(xs) + multiset{x}
  {
    if xs == [] then [x]
    else if le(x, xs[0]) then
      assert forall j :: 0 <= j < |xs| ==> le(x, xs[j]) by {
        forall j | 0 <= j < |xs| ensures le(x, xs[j]) {
          if j > 0 { assert le(xs[0], xs[j]); }
        }
      }
      [x] + xs
    else
      var tail := Insert(le, x, xs[1..]);
      assert xs == [xs[0]] + xs[1..];
      BoundOfPermutation(le, xs[0], x, xs[1..], tail);
      [xs[0]] + tail
  }

  /** Insertion sort; elements that compare equal keep their input order. */
  function Sort<T(!new)>(le: (T, T) -> bool, xs: seq<T>): (r: seq<T>)
    requires TotalPreorder(le)
    ensures SortedBy(le, r)
    ensures multiset(r) == multiset(xs)
  {
    if xs == [] then []
    else
      assert xs == [xs[0]] + xs[1..];
      Insert(le, xs[0], Sort(le, xs[1..]))
  }
}
