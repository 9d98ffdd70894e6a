/** Stable partition of a sequence by membership in a set. */
module Partition {
  /** The members of `s` that are in `d`, in order. */
  function Pick<T(==)>(s: seq<T>, d: set<T>): seq<T> {
    if s == [] then [] else Pick(s[..|s| - 1], d) + if s[|s| - 1] in d then [s[|s| - 1]] else []
  }

  /** The members of `s` that are not in `d`, in order. */
  function Drop<T(==)>(s: seq<T>, d: set<T>): seq<T> {
    if s == [] then [] else Drop(s[..|s| - 1], d) + if s[|s| - 1] in d then [] else [s[|s| - 1]]
  }

  /** Every element lands in exactly one of the two, as often as it occurred. */
  lemma {:induction false} PickDropPartition<T>(s: seq<T>, d: set<T>)
    ensures multiset(Pick(s, d)) + multiset(Drop(s, d)) == multiset(s)
    ensures forall p | p in Pick(s, d) :: p in d
    ensures forall p | p in Drop(s, d) :: p !in d
  {
    if s == [] {
    } else {
      assert s == s[..|s| - 1] + [s[|s| - 1]];
      PickDropPartition(s[..|s| - 1], d);
    }
  }

  predicate NoDup<T(==)>(s: seq<T>) {
    forall i, j | 0 <= i < j < |s| :: s[i] != s[j]
  }

  lemma {:induction false} PickDropMembers<T>(s: seq<T>, d: set<T>)
    ensures forall p :: p in Pick(s, d) <==> p in s && p in d
    ensures forall p :: p in Drop(s, d) <==> p in s && p !in d
    ensures NoDup(s) ==> NoDup(Pick(s, d)) && NoDup(Drop(s, d))
  {
    if s == [] {
    } else {
      var r, x := s[..|s| - 1], s[|s| - 1];
      PickDropMembers(r, d);
      assert s == r + [x];
      if NoDup(s) {
        assert NoDup(r) && x !in r;
      }
    }
  }

  /** Dropping elements moves nobody back. */
  lemma {:induction false} DropAdvances<T>(s: seq<T>, d: set<T>, i: nat) returns (j: nat)
    requires i < |s| && s[i] !in d
    ensures j <= i && j < |Drop(s, d)| && Drop(s, d)[j] == s[i]
  {
    if i == |s| - 1 {
      j := |Drop(s[..i], d)|;
      DropShorter(s[..i], d);
    } else {
      j := DropAdvances(s[..|s| - 1], d, i);
    }
  }

  lemma {:induction false} DropShorter<T>(s: seq<T>, d: set<T>)
    ensures |Drop(s, d)| <= |s|
  {
    if s == [] {
    } else {
      DropShorter(s[..|s| - 1], d);
    }
  }

  lemma NoDupAppend<T>(s: seq<T>, t: seq<T>)
    requires NoDup(s) && NoDup(t) && forall x | x in t :: x !in s
    ensures NoDup(s + t)
  {
    forall i, j | 0 <= i < j < |s + t|
      ensures (s + t)[i] != (s + t)[j]
    {
      assert i < |s| <= j ==> (s + t)[i] in s && (s + t)[j] in t;
    }
  }

  lemma NoDupTail<T>(s: seq<T>)
    requires NoDup(s) && s != []
    ensures NoDup(s[1..]) && forall x :: x in s[1..] <==> x in s && x != s[0]
  {
    assert s == [s[0]] + s[1..];
  }
}
