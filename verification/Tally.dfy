/**
 What a list of `MPIP_Pready` calls adds to the counters when nothing runs beside them.
 This is the meaning of the sequential calls, and the yardstick for the interleaved ones.
 */
module Tally {
  import opened Partitioning

  /** How many entries of `ids` are counted towards message `i`. */
  function Hits(c: Layout, ids: seq<nat>, i: nat): nat
    requires c.Positive()
  {
    if ids == [] then 0
    else Hits(c, ids[..|ids| - 1], i) + (if c.Maps(ids[|ids| - 1], i) then 1 else 0)
  }

  lemma OneHit(c: Layout, id: nat)
    requires c.Positive()
    ensures forall i: nat :: Hits(c, [id], i) == if c.Maps(id, i) then 1 else 0
  {
    assert [id][..0] == [];
  }

  predicate Distinct(ids: seq<nat>) {
    forall j, k :: 0 <= j < k < |ids| ==> ids[j] != ids[k]
  }

  ghost function Counting(c: Layout, ids: seq<nat>, i: nat): set<nat>
    requires c.Positive()
  {
    set p: nat | p in ids && c.Maps(p, i)
  }

  /** Without repetitions the tally is the number of listed partitions mapped to the message. */
  lemma {:induction false} HitsOfDistinct(c: Layout, ids: seq<nat>, i: nat)
    requires c.Positive() && Distinct(ids)
    ensures Hits(c, ids, i) == |Counting(c, ids, i)|
  {
    if ids == [] {
      assert Counting(c, ids, i) == {};
    } else {
      var front, p := ids[..|ids| - 1], ids[|ids| - 1];
      HitsOfDistinct(c, front, i);
      assert ids == front + [p];
      assert p !in front;
      assert Counting(c, ids, i) == Counting(c, front, i) + (if c.Maps(p, i) then {p} else {});
    }
  }

  /** Marking a set in pieces counts like marking it at once. */
  lemma {:induction false} HitsOfConcat(c: Layout, a: seq<nat>, b: seq<nat>, i: nat)
    requires c.Positive()
    ensures Hits(c, a + b, i) == Hits(c, a, i) + Hits(c, b, i)
  {
    if b == [] {
      assert a + b == a;
    } else {
      HitsOfConcat(c, a, b[..|b| - 1], i);
      assert (a + b)[..|a + b| - 1] == a + b[..|b| - 1];
    }
  }

  /** The order of the calls does not matter. */
  lemma {:induction false} HitsOfPermutation(c: Layout, a: seq<nat>, b: seq<nat>, i: nat)
    requires c.Positive() && multiset(a) == multiset(b)
    ensures Hits(c, a, i) == Hits(c, b, i)
  {
    if a == [] {
      assert |multiset(b)| == 0;
    } else {
      var front, p := a[..|a| - 1], a[|a| - 1];
      assert a == front + [p];
      var j := Find(b, p);
      var rest := b[..j] + b[j + 1..];
      Without(b, j);
      assert multiset(front) == multiset(rest);
      HitsOfPermutation(c, front, rest, i);
      HitsOfInsert(c, b, j, i);
    }
  }

  lemma Find(b: seq<nat>, p: nat) returns (j: nat)
    requires p in multiset(b)
    ensures j < |b| && b[j] == p
  {
    assert p in b;
    j :| j < |b| && b[j] == p;
  }

  lemma Without(b: seq<nat>, j: nat)
    requires j < |b|
    ensures multiset(b[..j] + b[j + 1..]) == multiset(b) - multiset{b[j]}
  {
    assert b == b[..j] + [b[j]] + b[j + 1..];
  }

  lemma HitsOfInsert(c: Layout, b: seq<nat>, j: nat, i: nat)
    requires c.Positive() && j < |b|
    ensures Hits(c, b, i) == Hits(c, b[..j] + b[j + 1..], i) + (if c.Maps(b[j], i) then 1 else 0)
  {
    assert b == (b[..j] + [b[j]]) + b[j + 1..];
    HitsOfConcat(c, b[..j] + [b[j]], b[j + 1..], i);
    HitsOfConcat(c, b[..j], b[j + 1..], i);
    assert (b[..j] + [b[j]])[..j] == b[..j];
  }
}
