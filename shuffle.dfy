/**
 * The in-place shuffle the roulette applies to its non-winning pool before
 * drawing from it. The order of exchanges is that of Python's random.shuffle:
 * positions n-1 down to 1 are visited, and position i is exchanged with a
 * position j, 0 <= j <= i, drawn at random. The random draws are an input here.
 */
module Shuffle {

  /** draws[i] is the draw made when position i is visited; draws[0] is never used. */
  predicate ValidDraws(draws: seq<nat>, n: nat) {
    |draws| == n && forall i :: 0 < i < n ==> draws[i] <= i
  }

  /** The sequence s with the elements at positions i and j exchanged. */
  function Swap<T>(s: seq<T>, i: nat, j: nat): (r: seq<T>)
    requires i < |s| && j < |s|
    ensures |r| == |s| && r[i] == s[j] && r[j] == s[i]
    ensures forall k :: 0 <= k < |s| && k != i && k != j ==> r[k] == s[k]
    ensures multiset(r) == multiset(s)
  {
    s[i := s[j]][j := s[i]]
  }

  /** What remains of the shuffle once positions k-1 down to 1 are still to be visited. */
  function ShuffleSteps<T>(s: seq<T>, draws: seq<nat>, k: nat): (r: seq<T>)
    requires k <= |s| && ValidDraws(draws, |s|)
    ensures |r| == |s| && multiset(r) == multiset(s)
    decreases k
  {
    if k <= 1 then s else ShuffleSteps(Swap(s, k - 1, draws[k - 1]), draws, k - 1)
  }

  /** The result of shuffling s with the given draws. */
  function Shuffled<T>(s: seq<T>, draws: seq<nat>): seq<T>
    requires ValidDraws(draws, |s|)
  {
    ShuffleSteps(s, draws, |s|)
  }

  /** Shuffling neither adds nor drops an element: every element of the result comes from s and vice versa. */
  lemma ShuffledHasSameMembers<T>(s: seq<T>, draws: seq<nat>)
    requires ValidDraws(draws, |s|)
    ensures |Shuffled(s, draws)| == |s|
    ensures forall x :: x in Shuffled(s, draws) <==> x in s
  {
    var r := Shuffled(s, draws);
    forall x ensures x in r <==> x in s {
      assert x in r <==> x in multiset(r);
      assert x in s <==> x in multiset(s);
    }
  }

  /** Shuffles a in place, visiting positions from the last down to the second. */
  method ShuffleInPlace<T>(a: array<T>, draws: seq<nat>)
    requires ValidDraws(draws, a.Length)
    modifies a
    ensures a[..] == Shuffled(old(a[..]), draws)
    ensures multiset(a[..]) == multiset(old(a[..]))
  {
    var i := a.Length;
    while i > 1
      invariant 0 <= i <= a.Length
      invariant ShuffleSteps(a[..], draws, i) == Shuffled(old(a[..]), draws)
    {
      i := i - 1;
      var j := draws[i];
      ghost var before := a[..];
      var t := a[i];
      a[i] := a[j];
      a[j] := t;
      assert a[..] == Swap(before, i, j);
    }
  }

  /** Copies s into a fresh array, shuffles the array in place, and returns its contents. */
  method ShuffleCopy<T>(s: seq<T>, draws: seq<nat>) returns (r: seq<T>)
    requires ValidDraws(draws, |s|)
    ensures r == Shuffled(s, draws)
    ensures multiset(r) == multiset(s)
  {
    var a := new T[|s|](i requires 0 <= i < |s| => s[i]);
    assert a[..] == s;
    ShuffleInPlace(a, draws);
    r := a[..];
  }
}
