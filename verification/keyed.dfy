/**
 Maps built by a loop that stores each element of a sequence under its key,
 the shape of both Go map-building loops in this program. `Index` lets a
 later element replace an earlier one with the same key (last write wins);
 `FirstIndex` keeps the first one and ignores the rest (first write wins).
 */
module Keyed {

  /** The map after `for _, x := range xs { m[key(x)] = val(x) }`. */
  function Index<T, V>(xs: seq<T>, key: T -> string, val: T -> V): map<string, V> {
    if |xs| == 0 then map[]
    else Index(xs[..|xs| - 1], key, val)[key(xs[|xs| - 1]) := val(xs[|xs| - 1])]
  }

  /** The map after `for _, x := range xs { if _, ok := m[key(x)]; !ok { m[key(x)] = val(x) } }`. */
  function FirstIndex<T, V>(xs: seq<T>, key: T -> string, val: T -> V): map<string, V> {
    if |xs| == 0 then map[]
    else
      var m := FirstIndex(xs[..|xs| - 1], key, val);
      if key(xs[|xs| - 1]) in m then m else m[key(xs[|xs| - 1]) := val(xs[|xs| - 1])]
  }

  /** Position of the last element whose key is `k`, or -1. */
  function LastWithKey<T>(xs: seq<T>, key: T -> string, k: string): (i: int)
    ensures -1 <= i < |xs|
    ensures i >= 0 ==> key(xs[i]) == k
    ensures forall j :: i < j < |xs| ==> key(xs[j]) != k
  {
    if |xs| == 0 then -1
    else if key(xs[|xs| - 1]) == k then |xs| - 1
    else LastWithKey(xs[..|xs| - 1], key, k)
  }

  /** Position of the first element whose key is `k`, or |xs| when there is none. */
  function FirstWithKey<T>(xs: seq<T>, key: T -> string, k: string): (i: nat)
    ensures i <= |xs|
    ensures i < |xs| ==> key(xs[i]) == k
    ensures forall j :: 0 <= j < i ==> key(xs[j]) != k
  {
    if |xs| == 0 then 0
    else if key(xs[0]) == k then 0
    else 1 + FirstWithKey(xs[1..], key, k)
  }

  /** Last write wins: the keys are the keys of the elements, each holding the value of the last element with that key. */
  lemma {:induction false} IndexLastWins<T, V>(xs: seq<T>, key: T -> string, val: T -> V, k: string)
    ensures k in Index(xs, key, val) <==> LastWithKey(xs, key, k) >= 0
    ensures k in Index(xs, key, val) ==> Index(xs, key, val)[k] == val(xs[LastWithKey(xs, key, k)])
  {
    if |xs| > 0 {
      var init := xs[..|xs| - 1];
      IndexLastWins(init, key, val, k);
      if key(xs[|xs| - 1]) != k {
        assert LastWithKey(xs, key, k) == LastWithKey(init, key, k);
        assert LastWithKey(init, key, k) >= 0 ==> xs[LastWithKey(init, key, k)] == init[LastWithKey(init, key, k)];
      }
    }
  }

  /** An index never has more entries than there were elements. */
  lemma {:induction false} IndexSize<T, V>(xs: seq<T>, key: T -> string, val: T -> V)
    ensures |Index(xs, key, val)| <= |xs|
  {
    if |xs| > 0 {
      var m := Index(xs[..|xs| - 1], key, val);
      IndexSize(xs[..|xs| - 1], key, val);
      assert m[key(xs[|xs| - 1]) := val(xs[|xs| - 1])].Keys == m.Keys + {key(xs[|xs| - 1])};
    }
  }

  /** First write wins: the keys are the keys of the elements, each holding the value of the first element with that key. */
  lemma {:induction false} FirstIndexFirstWins<T, V>(xs: seq<T>, key: T -> string, val: T -> V, k: string)
    ensures k in FirstIndex(xs, key, val) <==> FirstWithKey(xs, key, k) < |xs|
    ensures k in FirstIndex(xs, key, val) ==> FirstIndex(xs, key, val)[k] == val(xs[FirstWithKey(xs, key, k)])
  {
    if |xs| > 0 {
      var init := xs[..|xs| - 1];
      FirstIndexFirstWins(init, key, val, k);
      FirstWithKeyPrefix(xs, key, k);
    }
  }

  /** Dropping the last element moves the first position of `k` only when that element was its only occurrence. */
  lemma {:induction false} FirstWithKeyPrefix<T>(xs: seq<T>, key: T -> string, k: string)
    requires |xs| > 0
    ensures var f := FirstWithKey(xs[..|xs| - 1], key, k);
      if f < |xs| - 1 then FirstWithKey(xs, key, k) == f
      else FirstWithKey(xs, key, k) == (if key(xs[|xs| - 1]) == k then |xs| - 1 else |xs|)
  {
    if key(xs[0]) != k && |xs| > 1 {
      FirstWithKeyPrefix(xs[1..], key, k);
      assert xs[1..][..|xs| - 2] == xs[..|xs| - 1][1..];
    }
  }

  /** An entry of a first-wins index is never overwritten by later elements. */
  lemma {:induction false} FirstIndexStable<T, V>(xs: seq<T>, ys: seq<T>, key: T -> string, val: T -> V, k: string)
    requires k in FirstIndex(xs, key, val)
    ensures k in FirstIndex(xs + ys, key, val)
    ensures FirstIndex(xs + ys, key, val)[k] == FirstIndex(xs, key, val)[k]
  {
    if |ys| > 0 {
      FirstIndexStable(xs, ys[..|ys| - 1], key, val, k);
      assert (xs + ys)[..|xs + ys| - 1] == xs + ys[..|ys| - 1];
    } else {
      assert xs + ys == xs;
    }
  }
}
