/** Sums over the threads of a system, one of which moves at a time. */
module Tallies {
  function Tally<T>(threads: seq<T>, weight: T -> int): int {
    if threads == [] then 0 else weight(threads[0]) + Tally(threads[1..], weight)
  }

  lemma {:induction false} TallyUpdate<T>(threads: seq<T>, weight: T -> int, t: nat, x: T)
    requires t < |threads|
    ensures Tally(threads[t := x], weight) == Tally(threads, weight) - weight(threads[t]) + weight(x)
  {
    if t == 0 {
      assert threads[0 := x][1..] == threads[1..];
    } else {
      assert threads[t := x][1..] == threads[1..][t - 1 := x];
      TallyUpdate(threads[1..], weight, t - 1, x);
    }
  }

  lemma {:induction false} TallyBetween<T>(threads: seq<T>, weight: T -> int, lo: int, hi: int)
    requires lo <= 0 <= hi
    requires forall i :: 0 <= i < |threads| ==> lo <= weight(threads[i]) <= hi
    ensures lo * |threads| <= Tally(threads, weight) <= hi * |threads|
  {
    if threads != [] {
      TallyBetween(threads[1..], weight, lo, hi);
      assert hi * |threads| == hi * |threads[1..]| + hi && lo * |threads| == lo * |threads[1..]| + lo;
    }
  }

  lemma {:induction false} TallyZero<T>(threads: seq<T>, weight: T -> int)
    requires forall i :: 0 <= i < |threads| ==> weight(threads[i]) == 0
    ensures Tally(threads, weight) == 0
  {
    if threads != [] {
      TallyZero(threads[1..], weight);
    }
  }

  /** Changing every other thread changes the sum by at most so much a thread. */
  lemma {:induction false} TallyChange<T>(before: seq<T>, after: seq<T>, weight: T -> int, weight': T -> int, t: nat, d: int)
    requires t < |before| == |after| && d >= 0
    requires forall i :: 0 <= i < |before| && i != t ==> weight'(after[i]) <= weight(before[i]) + d
    ensures Tally(after, weight') - weight'(after[t]) <= Tally(before, weight) - weight(before[t]) + d * (|before| - 1)
  {
    if t == 0 {
      TallyRest(before[1..], after[1..], weight, weight', d);
    } else {
      TallyChange(before[1..], after[1..], weight, weight', t - 1, d);
      assert d * (|before| - 1) == d * (|before[1..]| - 1) + d;
    }
  }

  lemma {:induction false} TallyRest<T>(before: seq<T>, after: seq<T>, weight: T -> int, weight': T -> int, d: int)
    requires |before| == |after| && d >= 0
    requires forall i :: 0 <= i < |before| ==> weight'(after[i]) <= weight(before[i]) + d
    ensures Tally(after, weight') <= Tally(before, weight) + d * |before|
  {
    if before != [] {
      TallyRest(before[1..], after[1..], weight, weight', d);
      assert d * |before| == d * |before[1..]| + d;
    }
  }
}
