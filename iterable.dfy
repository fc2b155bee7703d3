/** The scan helpers every iterable container inherits (IterableBase in src/iterable.ts).

    A container is seen here through the sequence its iterator yields, oldest element
    first. Callbacks receive the element and its position; the container itself, which
    the source passes as a third argument, is not modelled. */
module Iterable {

  /** `T | undefined` of the source. */
  datatype Option<T> = None | Some(value: T)

  function Max(a: nat, b: nat): nat
  {
    if a < b then b else a
  }

  /** No element of `xs` satisfies `p` at its own position. */
  ghost predicate NoMatch<T>(xs: seq<T>, p: (T, nat) -> bool)
  {
    forall j :: 0 <= j < |xs| ==> !p(xs[j], j)
  }

  /** `k` is the position of the first element of `xs` that satisfies `p`. */
  ghost predicate IsFirstMatch<T>(xs: seq<T>, p: (T, nat) -> bool, k: int)
  {
    0 <= k < |xs| && p(xs[k], k) && forall j :: 0 <= j < k ==> !p(xs[j], j)
  }

  /** The first position at or after `from` whose element satisfies `p`, or -1. */
  function FirstMatchFrom<T>(xs: seq<T>, p: (T, nat) -> bool, from: nat): (k: int)
    requires from <= |xs|
    ensures k == -1 || from <= k < |xs|
    ensures k == -1 ==> forall j :: from <= j < |xs| ==> !p(xs[j], j)
    ensures k != -1 ==> p(xs[k], k) && forall j :: from <= j < k ==> !p(xs[j], j)
    decreases |xs| - from
  {
    if from == |xs| then -1
    else if p(xs[from], from) then from
    else FirstMatchFrom(xs, p, from + 1)
  }

  /** `findIndex`: the position of the first element satisfying `p`, or -1. */
  function FindIndex<T>(xs: seq<T>, p: (T, nat) -> bool): (k: int)
    ensures -1 <= k < |xs|
    ensures k == -1 <==> NoMatch(xs, p)
    ensures k != -1 ==> IsFirstMatch(xs, p, k)
  {
    FirstMatchFrom(xs, p, 0)
  }

  /** `find`: the first element satisfying `p`, or undefined. */
  function Find<T>(xs: seq<T>, p: (T, nat) -> bool): (r: Option<T>)
    ensures r == None <==> NoMatch(xs, p)
    ensures r.Some? ==> exists k :: IsFirstMatch(xs, p, k) && r.value == xs[k]
  {
    var k := FindIndex(xs, p);
    if k == -1 then None else Some(xs[k])
  }

  /** `_find`: one pass with a running counter, returning at the first match. */
  method FindEntry<T>(xs: seq<T>, p: (T, nat) -> bool) returns (element: Option<T>, index: int)
    ensures index == FindIndex(xs, p)
    ensures element == Find(xs, p)
  {
    var i := 0;
    while i < |xs|
      invariant 0 <= i <= |xs|
      invariant forall j :: 0 <= j < i ==> !p(xs[j], j)
    {
      if p(xs[i], i) {
        return Some(xs[i]), i;
      }
      i := i + 1;
    }
    return None, -1;
  }

  /** `indexOf`: `findIndex` with strict equality against `e`. */
  function IndexOf<T(==)>(xs: seq<T>, e: T): (k: int)
    ensures k == -1 <==> e !in xs
    ensures k != -1 ==> 0 <= k < |xs| && xs[k] == e && e !in xs[..k]
  {
    FindIndex(xs, (x, _) => x == e)
  }

  /** The generic `getEelementAt`: `find` on the position alone, so linear in `index`. */
  function ElementAt<T>(xs: seq<T>, index: int): (r: Option<T>)
    ensures r == if 0 <= index < |xs| then Some(xs[index]) else None
  {
    var p := (_, i: nat) => i == index;
    assert 0 <= index < |xs| ==> p(xs[index], index);
    Find(xs, p)
  }

  /** The effect of calling `callback` on every element from position `from` on, in order;
      the callback's side effects are threaded through as a state `s`. */
  function ForEachFrom<T, S>(xs: seq<T>, callback: (S, T, nat) -> S, s: S, from: nat): S
    requires from <= |xs|
    decreases |xs| - from
  {
    if from == |xs| then s else ForEachFrom(xs, callback, callback(s, xs[from], from), from + 1)
  }

  /** `forEach`: a full pass, as `_find` makes with a predicate that runs `callback` and
      never matches. */
  function ForEach<T, S>(xs: seq<T>, callback: (S, T, nat) -> S, s: S): S
  {
    ForEachFrom(xs, callback, s, 0)
  }

  /** A callback that records every call it receives. */
  function Record<T>(log: seq<(T, nat)>, e: T, i: nat): seq<(T, nat)>
  {
    log + [(e, i)]
  }

  lemma {:induction false} ForEachFromRecords<T>(xs: seq<T>, log: seq<(T, nat)>, from: nat)
    requires from <= |xs| && |log| == from
    requires forall i :: 0 <= i < from ==> log[i] == (xs[i], i)
    ensures var calls := ForEachFrom(xs, Record, log, from);
      |calls| == |xs| && forall i :: 0 <= i < |xs| ==> calls[i] == (xs[i], i)
    decreases |xs| - from
  {
    if from < |xs| {
      ForEachFromRecords(xs, Record(log, xs[from], from), from + 1);
    }
  }

  /** `forEach` calls its callback exactly once per element, in order, with positions
      0 .. |xs|-1, and never stops early. */
  lemma ForEachCallsInOrder<T>(xs: seq<T>)
    ensures var calls := ForEach(xs, Record, []);
      |calls| == |xs| && forall i :: 0 <= i < |xs| ==> calls[i] == (xs[i], i)
  {
    ForEachFromRecords(xs, [], 0);
  }

  /** `n` unset slots of a fresh JavaScript array. */
  function Holes<T>(n: nat): (h: seq<Option<T>>)
    ensures |h| == n && forall i :: 0 <= i < n ==> h[i] == None
  {
    seq(n, _ => None)
  }

  /** The callback `toArray` hands to `forEach`: `arr[i] = ele`, which grows the array
      when `i` is past its end. */
  function Store<T>(arr: seq<Option<T>>, e: T, i: nat): (r: seq<Option<T>>)
  {
    if i < |arr| then arr[i := Some(e)] else arr + Holes(i - |arr|) + [Some(e)]
  }

  /** The array `toArray` produces for a container yielding `xs` whose length guess is `len`. */
  function Materialized<T>(xs: seq<T>, len: nat): seq<Option<T>>
  {
    seq(Max(len, |xs|), i requires 0 <= i < Max(len, |xs|) => if i < |xs| then Some(xs[i]) else None)
  }

  lemma {:induction false} ForEachFromStores<T>(xs: seq<T>, len: nat, arr: seq<Option<T>>, from: nat)
    requires from <= |xs| && |arr| == Max(len, from)
    requires forall i :: 0 <= i < |arr| ==> arr[i] == if i < from then Some(xs[i]) else None
    ensures ForEachFrom(xs, Store, arr, from) == Materialized(xs, len)
    decreases |xs| - from
  {
    if from < |xs| {
      ForEachFromStores(xs, len, Store(arr, xs[from], from), from + 1);
    }
  }

  /** Filling `new Array(len)` through `forEach` leaves element `i` at slot `i` and holes
      only past the end of the sequence. */
  lemma ToArrayByForEach<T>(xs: seq<T>, len: nat)
    ensures ForEach(xs, Store, Holes(len)) == Materialized(xs, len)
    ensures |Materialized(xs, len)| == Max(len, |xs|)
    ensures forall i :: 0 <= i < |xs| ==> Materialized(xs, len)[i] == Some(xs[i])
  {
    ForEachFromStores(xs, len, Holes(len), 0);
  }

  /** `toArray`: a fresh array of the guessed length, filled element by element. */
  method ToArray<T>(xs: seq<T>, len: nat) returns (arr: array<Option<T>>)
    ensures fresh(arr)
    ensures arr[..] == ForEach(xs, Store, Holes(len))
    ensures arr.Length == Max(len, |xs|)
    ensures forall i :: 0 <= i < |xs| ==> arr[i] == Some(xs[i])
  {
    arr := new Option<T>[Max(len, |xs|)](_ => None);
    var i := 0;
    while i < |xs|
      invariant 0 <= i <= |xs|
      invariant forall j :: 0 <= j < arr.Length ==> arr[j] == if j < i then Some(xs[j]) else None
    {
      arr[i] := Some(xs[i]);
      i := i + 1;
    }
    ToArrayByForEach(xs, len);
  }
}
