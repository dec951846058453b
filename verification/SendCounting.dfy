/**
 Any number of `general_send` calls running at once over one array of atomic counters.

 A call is one slot of `calls`.  With `n` user partitions there are `2 * n` slots: slot `p` is the
 call made by `MPIP_Pready(p)`, slot `n + p` the call the catch-up scan makes for partition `p`.
 A call walks its message range; every visit is one atomic increment (`Add`), followed by the
 start of the message (`Fire`) when the increment reached the threshold.
 */
module SendCounting {
  import opened Partitioning
  import opened Mpi
  import opened Tally

  /** `At(i)`: about to increment counter `i`, or to return when `i` is past the range.
      `Hit(i)`: its increment of counter `i` reached the threshold; about to start message `i`. */
  datatype Call = Uncalled | At(next: nat) | Hit(msg: nat) | Done

  /** `starts[i]` records how often `MPI_Start` was called on message `i` since the last reset. */
  datatype Board = Board(counts: seq<nat>, reqs: seq<Phase>, starts: seq<nat>, calls: seq<Call>)

  function PartOf(c: Layout, k: nat): nat
  {
    if k < c.users then k else k - c.users
  }

  predicate Shaped(c: Layout, b: Board) {
    |b.counts| == |b.reqs| == |b.starts| == c.parts && |b.calls| == 2 * c.users
  }

  // ----- the steps of a call

  function Enter(c: Layout, b: Board, k: nat): Board
    requires c.Positive() && k < |b.calls|
  {
    b.(calls := b.calls[k := At(c.First(PartOf(c, k)))])
  }

  predicate CanAdd(c: Layout, b: Board, k: nat)
    requires c.Positive()
  {
    k < |b.calls| && b.calls[k].At? && b.calls[k].next < c.Last(PartOf(c, k))
  }

  /** The atomic increment and the comparison of its result with the threshold. */
  function Add(c: Layout, b: Board, k: nat): Board
    requires c.Positive() && CanAdd(c, b, k) && b.calls[k].next < |b.counts|
  {
    var i := b.calls[k].next;
    b.(counts := b.counts[i := b.counts[i] + 1],
       calls := b.calls[k := if b.counts[i] + 1 == c.Threshold() then Hit(i) else At(i + 1)])
  }

  predicate CanFire(b: Board, k: nat) {
    k < |b.calls| && b.calls[k].Hit?
  }

  /** `MPI_Start` on the message whose threshold was reached. */
  function Fire(b: Board, k: nat): Board
    requires CanFire(b, k) && b.calls[k].msg < |b.reqs| && b.calls[k].msg < |b.starts|
  {
    var i := b.calls[k].msg;
    b.(reqs := b.reqs[i := Started],
       starts := b.starts[i := b.starts[i] + 1],
       calls := b.calls[k := At(i + 1)])
  }

  predicate CanReturn(c: Layout, b: Board, k: nat)
    requires c.Positive()
  {
    k < |b.calls| && b.calls[k].At? && b.calls[k].next >= c.Last(PartOf(c, k))
  }

  function Return(b: Board, k: nat): Board
    requires k < |b.calls|
  {
    b.(calls := b.calls[k := Done])
  }

  /** The transport finishes message `i`. */
  function Transfer(b: Board, i: nat): Board
    requires i < |b.reqs|
  {
    b.(reqs := b.reqs[i := Complete])
  }

  // ----- what every step keeps

  /** Call `k` has incremented counter `i`. */
  predicate Past(c: Layout, k: nat, call: Call, i: nat)
    requires c.Positive()
  {
    c.Maps(PartOf(c, k), i) &&
    match call
    case Uncalled => false
    case At(j) => i < j
    case Hit(j) => i <= j
    case Done => true
  }

  ghost function PastCalls(c: Layout, calls: seq<Call>, i: nat): set<nat>
    requires c.Positive()
  {
    set k: nat | k < |calls| && Past(c, k, calls[k], i)
  }

  /** Some call's increment took counter `i` to the threshold and the start of the message is pending. */
  ghost predicate AboutToStart(calls: seq<Call>, i: nat) {
    exists k: nat :: k < |calls| && calls[k] == Hit(i)
  }

  ghost predicate Placed(c: Layout, k: nat, call: Call)
    requires c.Positive()
  {
    && (call.At? ==> c.First(PartOf(c, k)) <= call.next <= c.Last(PartOf(c, k)))
    && (call.Hit? ==> c.First(PartOf(c, k)) <= call.msg < c.Last(PartOf(c, k)))
  }

  /** The counter of message `i` is the number of calls that have incremented it, and the message
      was started, once, as soon as that number reached the threshold and the call that reached it
      went on to start it. */
  ghost predicate Counted(c: Layout, b: Board, i: nat)
    requires c.Positive() && Shaped(c, b) && i < c.parts
  {
    && b.counts[i] == |PastCalls(c, b.calls, i)|
    && (b.reqs[i] != Inactive <==> b.counts[i] >= c.Threshold() && !AboutToStart(b.calls, i))
    && b.starts[i] == (if b.reqs[i] != Inactive then 1 else 0)
  }

  ghost predicate SoleHit(c: Layout, b: Board, k: nat)
    requires c.Positive() && Shaped(c, b) && k < |b.calls|
  {
    b.calls[k].Hit? ==>
      && b.calls[k].msg < c.parts && b.counts[b.calls[k].msg] >= c.Threshold()
      && forall l: nat :: l < |b.calls| && b.calls[l] == b.calls[k] ==> l == k
  }

  ghost predicate BoardInv(c: Layout, b: Board) {
    && c.Safe() && Shaped(c, b)
    && (forall k: nat :: k < |b.calls| ==> Placed(c, k, b.calls[k]))
    && (forall k: nat :: k < |b.calls| ==> SoleHit(c, b, k))
    && (forall i: nat :: i < c.parts ==> Counted(c, b, i))
  }

  lemma FreshBoard(c: Layout, b: Board)
    requires c.Safe() && Shaped(c, b)
    requires forall k: nat :: k < |b.calls| ==> b.calls[k] == Uncalled
    requires forall i: nat :: i < c.parts ==> b.counts[i] == 0 && b.reqs[i] == Inactive && b.starts[i] == 0
    ensures BoardInv(c, b)
  {
    ThresholdPositive(c);
    forall i: nat | i < c.parts
      ensures Counted(c, b, i)
    {
      assert PastCalls(c, b.calls, i) == {};
    }
  }

  /** Replacing one call so that it has passed the same counters changes no set of past calls. */
  lemma SamePast(c: Layout, calls: seq<Call>, k: nat, call: Call, i: nat)
    requires c.Positive() && k < |calls|
    requires Past(c, k, call, i) == Past(c, k, calls[k], i)
    ensures PastCalls(c, calls[k := call], i) == PastCalls(c, calls, i)
  {}

  lemma SameStarters(calls: seq<Call>, k: nat, call: Call, i: nat)
    requires k < |calls| && (call == Hit(i) <==> calls[k] == Hit(i))
    ensures AboutToStart(calls[k := call], i) <==> AboutToStart(calls, i)
  {
    var after := calls[k := call];
    if l: nat :| l < |calls| && calls[l] == Hit(i) { assert after[l] == Hit(i); }
    if l: nat :| l < |after| && after[l] == Hit(i) { assert calls[l] == Hit(i); }
  }

  lemma EnterKeeps(c: Layout, b: Board, k: nat)
    requires BoardInv(c, b) && k < |b.calls| && b.calls[k] == Uncalled
    ensures BoardInv(c, Enter(c, b, k))
  {
    var b' := Enter(c, b, k);
    RangeInBounds(c, PartOf(c, k));
    forall i: nat | i < c.parts
      ensures Counted(c, b', i)
    {
      assert Counted(c, b, i);
      SamePast(c, b.calls, k, b'.calls[k], i);
      SameStarters(b.calls, k, b'.calls[k], i);
    }
    forall l: nat | l < |b.calls|
      ensures SoleHit(c, b', l)
    {
      assert SoleHit(c, b, l);
    }
  }

  lemma AddKeeps(c: Layout, b: Board, k: nat)
    requires BoardInv(c, b) && CanAdd(c, b, k)
    ensures b.calls[k].next < c.parts && BoardInv(c, Add(c, b, k))
  {
    RangeInBounds(c, PartOf(c, k));
    assert Placed(c, k, b.calls[k]);
    AddCounts(c, b, k);
    forall j: nat | j < c.parts && j != b.calls[k].next
      ensures Counted(c, Add(c, b, k), j)
    {
      AddLeavesOthers(c, b, k, j);
    }
    forall l: nat | l < |b.calls|
      ensures SoleHit(c, Add(c, b, k), l) && Placed(c, l, Add(c, b, k).calls[l])
    {
      AddPlaces(c, b, k, l);
    }
  }

  lemma AddLeavesOthers(c: Layout, b: Board, k: nat, j: nat)
    requires BoardInv(c, b) && CanAdd(c, b, k) && b.calls[k].next < c.parts
    requires j < c.parts && j != b.calls[k].next
    ensures Counted(c, Add(c, b, k), j)
  {
    var b' := Add(c, b, k);
    assert Counted(c, b, j);
    SamePast(c, b.calls, k, b'.calls[k], j);
    SameStarters(b.calls, k, b'.calls[k], j);
  }

  lemma AddPlaces(c: Layout, b: Board, k: nat, l: nat)
    requires BoardInv(c, b) && CanAdd(c, b, k) && b.calls[k].next < c.parts && l < |b.calls|
    ensures SoleHit(c, Add(c, b, k), l) && Placed(c, l, Add(c, b, k).calls[l])
  {
    assert Placed(c, k, b.calls[k]) && Placed(c, l, b.calls[l]) && SoleHit(c, b, l);
    var b' := Add(c, b, k);
    if b'.calls[k].Hit? {
      forall m: nat | m < |b.calls| && m != k
        ensures b'.calls[m] != b'.calls[k]
      {
        assert SoleHit(c, b, m);
      }
    }
  }

  lemma AddCounts(c: Layout, b: Board, k: nat)
    requires BoardInv(c, b) && CanAdd(c, b, k) && b.calls[k].next < c.parts
    ensures Counted(c, Add(c, b, k), b.calls[k].next)
  {
    var i := b.calls[k].next;
    var b' := Add(c, b, k);
    assert Placed(c, k, b.calls[k]) && Counted(c, b, i);
    assert PastCalls(c, b'.calls, i) == PastCalls(c, b.calls, i) + {k};
    if b'.calls[k] == Hit(i) {
      if b.reqs[i] != Inactive { assert false; }
      assert AboutToStart(b'.calls, i);
    } else {
      SameStarters(b.calls, k, b'.calls[k], i);
      if AboutToStart(b.calls, i) {
        var l: nat :| l < |b.calls| && b.calls[l] == Hit(i);
        assert SoleHit(c, b, l);
      }
    }
  }

  /** `MPI_Start` is called only on an inactive message, and the invariant survives it. */
  lemma FireKeeps(c: Layout, b: Board, k: nat)
    requires BoardInv(c, b) && CanFire(b, k)
    ensures b.calls[k].msg < c.parts && b.reqs[b.calls[k].msg] == Inactive && b.starts[b.calls[k].msg] == 0
    ensures BoardInv(c, Fire(b, k))
  {
    var i := b.calls[k].msg;
    assert Placed(c, k, b.calls[k]) && SoleHit(c, b, k);
    assert Counted(c, b, i) && AboutToStart(b.calls, i);
    var b' := Fire(b, k);
    forall j: nat | j < c.parts
      ensures Counted(c, b', j)
    {
      assert Counted(c, b, j);
      SamePast(c, b.calls, k, b'.calls[k], j);
      if j != i { SameStarters(b.calls, k, b'.calls[k], j); }
    }
    forall l: nat | l < |b.calls|
      ensures SoleHit(c, b', l) && Placed(c, l, b'.calls[l])
    {
      assert SoleHit(c, b, l) && Placed(c, l, b.calls[l]);
    }
  }

  lemma ReturnKeeps(c: Layout, b: Board, k: nat)
    requires BoardInv(c, b) && CanReturn(c, b, k)
    ensures BoardInv(c, Return(b, k))
  {
    var b' := Return(b, k);
    assert Placed(c, k, b.calls[k]);
    forall i: nat | i < c.parts
      ensures Counted(c, b', i)
    {
      assert Counted(c, b, i);
      SamePast(c, b.calls, k, Done, i);
      SameStarters(b.calls, k, Done, i);
    }
    forall l: nat | l < |b.calls|
      ensures SoleHit(c, b', l) && Placed(c, l, b'.calls[l])
    {
      assert SoleHit(c, b, l) && Placed(c, l, b.calls[l]);
    }
  }

  lemma TransferKeeps(c: Layout, b: Board, i: nat)
    requires BoardInv(c, b) && i < c.parts && b.reqs[i] == Started
    ensures BoardInv(c, Transfer(b, i))
  {
    var b' := Transfer(b, i);
    forall j: nat | j < c.parts
      ensures Counted(c, b', j)
    {
      assert Counted(c, b, j);
    }
    forall l: nat | l < |b.calls|
      ensures SoleHit(c, b', l)
    {
      assert SoleHit(c, b, l);
    }
  }

  // ----- one call alone

  /** Call `k` runs from where it is to its return, and nothing else moves. */
  ghost function Solo(c: Layout, b: Board, k: nat): Board
    requires BoardInv(c, b) && k < |b.calls| && b.calls[k].At?
    decreases c.Last(PartOf(c, k)) - b.calls[k].next
  {
    if !CanAdd(c, b, k) then Return(b, k)
    else
      AddKeeps(c, b, k);
      var b1 := Add(c, b, k);
      if CanFire(b1, k) then
        FireKeeps(c, b1, k);
        Solo(c, Fire(b1, k), k)
      else Solo(c, b1, k)
  }

  lemma {:induction false} SoloFrom(c: Layout, b: Board, k: nat, i: nat)
    requires BoardInv(c, b) && k < |b.calls| && b.calls[k].At? && i < c.parts
    ensures Shaped(c, Solo(c, b, k)) && Solo(c, b, k).calls == b.calls[k := Done]
    ensures Solo(c, b, k).counts[i] == b.counts[i] + if b.calls[k].next <= i < c.Last(PartOf(c, k)) then 1 else 0
    ensures Solo(c, b, k).reqs[i] ==
      if b.counts[i] < c.Threshold() <= Solo(c, b, k).counts[i] then Started else b.reqs[i]
    decreases c.Last(PartOf(c, k)) - b.calls[k].next
  {
    if CanAdd(c, b, k) {
      AddKeeps(c, b, k);
      var b1 := Add(c, b, k);
      if CanFire(b1, k) {
        FireKeeps(c, b1, k);
        SoloFrom(c, Fire(b1, k), k, i);
      } else {
        SoloFrom(c, b1, k, i);
      }
    }
  }

  /** A call that runs without interference increments exactly the counters its partition is mapped
      to, and starts exactly the messages it brings to the threshold: what the sequential
      `general_send` is specified to do. */
  lemma SoloCallIsSequential(c: Layout, b: Board, k: nat, i: nat)
    requires BoardInv(c, b) && k < |b.calls| && b.calls[k] == Uncalled && i < c.parts
    ensures BoardInv(c, Enter(c, b, k)) && Enter(c, b, k).calls[k].At?
    ensures var r := Solo(c, Enter(c, b, k), k);
      && Shaped(c, r) && r.calls == b.calls[k := Done]
      && r.counts[i] == b.counts[i] + Hits(c, [PartOf(c, k)], i)
      && r.reqs[i] == if b.counts[i] < c.Threshold() <= r.counts[i] then Started else b.reqs[i]
  {
    EnterKeeps(c, b, k);
    SoloFrom(c, Enter(c, b, k), k, i);
    OneHit(c, PartOf(c, k));
  }
}
