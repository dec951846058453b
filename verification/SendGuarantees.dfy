/**
 What every run of the sending side guarantees, whatever the interleaving.
 */
module SendGuarantees {
  import opened Partitioning
  import opened Mpi
  import opened Basics
  import opened SendCounting
  import opened SendProtocol
  import opened Tally

  // ----- sets of calls and the partitions they stand for

  ghost function PartsOf(c: Layout, calls: set<nat>): set<nat> {
    set k | k in calls :: PartOf(c, k)
  }

  lemma {:induction false} PartsOfSize(c: Layout, calls: set<nat>)
    ensures |PartsOf(c, calls)| <= |calls|
    ensures (forall k, l :: k in calls && l in calls && PartOf(c, k) == PartOf(c, l) ==> k == l)
            ==> |PartsOf(c, calls)| == |calls|
    decreases |calls|
  {
    if calls == {} {
      assert PartsOf(c, calls) == {};
    } else {
      var k :| k in calls;
      var rest := calls - {k};
      PartsOfSize(c, rest);
      assert PartsOf(c, calls) == PartsOf(c, rest) + {PartOf(c, k)};
    }
  }

  lemma SubsetSize<T>(a: set<T>, b: set<T>)
    requires a <= b
    ensures |a| <= |b|
    ensures |a| == |b| ==> a == b
  {
    assert b == a + (b - a);
  }

  /** In a safe layout the messages that are reached at all need exactly their mapped partitions. */
  lemma MappersOfReached(c: Layout, i: nat)
    requires c.Safe() && i < c.parts && c.Reached(i)
    ensures |c.Mappers(i)| == c.Threshold()
  {
    if c.users <= c.parts {
      RangesTile(c, i);
      var p: nat :| p < c.users && c.Maps(p, i);
      assert c.Mappers(i) == {p};
    } else {
      MappersSize(c, i);
    }
  }

  /** The partitions behind the calls that counted towards `i` were all marked ready. */
  lemma PastPartsMarked(c: Config, s: Sender, i: nat)
    requires Inv(c, s) && InRound(s) && i < c.layout.parts
    ensures PartsOf(c.layout, PastCalls(c.layout, s.board.calls, i)) <= c.layout.Mappers(i)
    ensures forall p :: p in PartsOf(c.layout, PastCalls(c.layout, s.board.calls, i)) ==>
      p < c.layout.users && s.users[p] != Idle
  {
    forall k | k in PastCalls(c.layout, s.board.calls, i)
      ensures PartOf(c.layout, k) in c.layout.Mappers(i) && s.users[PartOf(c.layout, k)] != Idle
    {
      assert PartitionInv(c, s, PartOf(c.layout, k));
    }
  }

  /** No partition that counts towards message `i` was caught in the gap. */
  ghost predicate Ungapped(c: Config, s: Sender, i: nat)
    requires c.layout.Positive()
  {
    forall p :: p in s.gap ==> !c.layout.Maps(p, i)
  }

  /** A partition is counted twice towards a message only if the scan caught it in the gap, which
      can only happen in the first round. */
  lemma DoubleCountMeansGap(c: Config, s: Sender, i: nat)
    requires Inv(c, s) && InRound(s) && i < c.layout.parts && (s.round >= 2 || Ungapped(c, s, i))
    ensures |PartsOf(c.layout, PastCalls(c.layout, s.board.calls, i))| == |PastCalls(c.layout, s.board.calls, i)|
  {
    var past := PastCalls(c.layout, s.board.calls, i);
    forall k, l | k in past && l in past && PartOf(c.layout, k) == PartOf(c.layout, l)
      ensures k == l
    {
      assert PartitionInv(c, s, PartOf(c.layout, k));
    }
    PartsOfSize(c.layout, past);
  }

  // ----- no early send

  /** Message `i` is under way or over only if every partition with elements in it was marked ready
      in this round. */
  ghost predicate OnTime(g: Geometry, s: Sender, i: nat) {
    i < |s.board.reqs| && s.board.reqs[i] != Inactive ==>
      forall p: nat :: p < |s.users| && g.Overlap(p, i) ==> s.users[p] != Idle
  }

  ghost predicate NoEarlySend(g: Geometry, s: Sender) {
    forall i: nat :: i < |s.board.reqs| ==> OnTime(g, s, i)
  }

  /** The double count cannot have happened to message `i`, or cannot hurt it. */
  ghost predicate Harmless(c: Config, s: Sender, i: nat)
    requires c.layout.Positive()
  {
    c.layout.Threshold() == 1 || Ungapped(c, s, i)
  }

  lemma StartedMeansAllMarked(c: Config, s: Sender, i: nat, p: nat)
    requires Inv(c, s) && InRound(s) && Built(s) && i < c.layout.parts
    requires s.round >= 2 || Harmless(c, s, i)
    requires s.board.reqs[i] != Inactive
    requires p in c.layout.Mappers(i)
    ensures s.users[p] != Idle
  {
    var past := PastCalls(c.layout, s.board.calls, i);
    var marked := PartsOf(c.layout, past);
    assert Counted(c.layout, s.board, i);
    PastPartsMarked(c, s, i);
    assert c.layout.Reached(i);
    MappersOfReached(c.layout, i);
    SubsetSize(marked, c.layout.Mappers(i));
    if c.layout.Threshold() == 1 {
      ThresholdPositive(c.layout);
      var k :| k in past;
      assert PartOf(c.layout, k) in marked;
      SubsetSize({PartOf(c.layout, k)}, marked);
    } else {
      DoubleCountMeansGap(c, s, i);
    }
    assert marked == c.layout.Mappers(i);
  }

  lemma NoEarlySendInv(c: Config, g: Geometry, s: Sender, i: nat)
    requires Inv(c, s) && g.Valid() && g.layout == c.layout && c.layout.Aligned()
    requires s.round >= 2 || Harmless(c, s, i)
    ensures OnTime(g, s, i)
  {
    if InRound(s) && Built(s) && i < |s.board.reqs| && s.board.reqs[i] != Inactive {
      forall p: nat | p < |s.users| && g.Overlap(p, i)
        ensures s.users[p] != Idle
      {
        AlignedMapsExactlyOverlaps(g, p, i);
        StartedMeansAllMarked(c, s, i, p);
      }
    }
  }

  /** In every run of an aligned layout, a message is started only after all the partitions it
      carries elements of are marked.  The one exception is a message of the first round that takes
      several partitions, one of which the catch-up scan found in the gap of its `MPIP_Pready`. */
  lemma NoEarlySendInRuns(c: Config, g: Geometry, es: seq<Event>, i: nat)
    requires g.Valid() && g.layout == c.layout && c.layout.Aligned() && Possible(c, es)
    requires After(c, es).round >= 2 || Harmless(c, After(c, es), i)
    ensures OnTime(g, After(c, es), i)
  {
    AlignedIsSafe(c.layout);
    AlwaysInv(c, es);
    NoEarlySendInv(c, g, After(c, es), i);
  }

  // ----- how often a partition goes through general_send

  function CallsMade(c: Config, s: Sender, p: nat): nat
    requires p < c.layout.users && |s.board.calls| == 2 * c.layout.users
  {
    (if s.board.calls[p] == Uncalled then 0 else 1) +
    (if s.board.calls[c.layout.users + p] == Uncalled then 0 else 1)
  }

  predicate SeesFlag(s: Sender, p: nat) {
    s.sync == Scan(p) && p < |s.flags| && s.flags[p]
  }

  /** At some point of the run the scan, under the lock, found the flag of `p` up. */
  ghost predicate ScanSawFlag(c: Config, es: seq<Event>, p: nat)
    requires Possible(c, es)
    decreases |es|
  {
    es != [] && (ScanSawFlag(c, es[..|es| - 1], p) ||
                 (es[|es| - 1] == Visit && SeesFlag(After(c, es[..|es| - 1]), p)))
  }

  /** At some point of the run `MPIP_Pready(p)` read the status after the scan's unlock. */
  ghost predicate ReadAfterUnlock(c: Config, es: seq<Event>, p: nat)
    requires Possible(c, es)
    decreases |es|
  {
    es != [] && (ReadAfterUnlock(c, es[..|es| - 1], p) ||
                 (es[|es| - 1] == ReadStatus(p) && After(c, es[..|es| - 1]).sync == Ended))
  }

  /** In the first round the two calls for a partition are exactly those two moments of the run. */
  lemma {:induction false} CallsAreMoments(c: Config, es: seq<Event>, p: nat)
    requires c.layout.Safe() && c.threaded && Possible(c, es) && p < c.layout.users
    requires After(c, es).round <= 1
    ensures |After(c, es).board.calls| == 2 * c.layout.users
    ensures After(c, es).board.calls[c.layout.users + p] != Uncalled <==> ScanSawFlag(c, es, p)
    ensures After(c, es).board.calls[p] != Uncalled <==> ReadAfterUnlock(c, es, p)
    decreases |es|
  {
    AlwaysInv(c, es);
    if es != [] {
      var f := es[..|es| - 1];
      AlwaysInv(c, f);
      CallsAreMoments(c, f, p);
      CallsChange(c, After(c, f), es[|es| - 1], p);
    }
  }

  lemma CallsChange(c: Config, s: Sender, e: Event, p: nat)
    requires Inv(c, s) && c.threaded && Enabled(c, s, e) && p < c.layout.users && Apply(c, s, e).round <= 1
    ensures CallsChanged(c, s, e, p)
  {
    if e.Reset? {
      ResetChangesNoCall(c, s, p);
    } else if e.Visit? {
      VisitChangesCall(c, s, p);
    } else {
      OthersChangeCalls(c, s, e, p);
    }
  }

  ghost predicate CallsChanged(c: Config, s: Sender, e: Event, p: nat)
    requires Enabled(c, s, e)
  {
    var calls := Apply(c, s, e).board.calls;
    && |s.board.calls| == |calls| == 2 * c.layout.users && p < c.layout.users
    && (calls[c.layout.users + p] != Uncalled <==>
          s.board.calls[c.layout.users + p] != Uncalled || (e == Visit && SeesFlag(s, p)))
    && (calls[p] != Uncalled <==> s.board.calls[p] != Uncalled || (e == ReadStatus(p) && s.sync == Ended))
  }

  lemma ResetChangesNoCall(c: Config, s: Sender, p: nat)
    requires Inv(c, s) && Enabled(c, s, Reset) && p < c.layout.users && s.round <= 1
    ensures CallsChanged(c, s, Reset, p)
  {}

  lemma VisitChangesCall(c: Config, s: Sender, p: nat)
    requires Shape(c, s) && Enabled(c, s, Visit) && p < c.layout.users
    ensures CallsChanged(c, s, Visit, p)
  {}

  lemma OthersChangeCalls(c: Config, s: Sender, e: Event, p: nat)
    requires Shape(c, s) && Control(c, s) && c.threaded && Enabled(c, s, e) && p < c.layout.users
    requires !e.Reset? && !e.Visit?
    ensures CallsChanged(c, s, e, p)
  {}

  /** No partition is lost and none goes through `general_send` more than twice: once its
      `MPIP_Pready` has returned and set-up is over, it went through it twice in the first round of
      a threaded set-up if the scan saw its flag and its own status read came after the scan's
      unlock, and once otherwise. */
  lemma OnceOrTwice(c: Config, es: seq<Event>, p: nat)
    requires c.layout.Safe() && Possible(c, es) && p < c.layout.users
    requires InRound(After(c, es)) && Returned(After(c, es), p) && SetUpOver(After(c, es))
    ensures |After(c, es).board.calls| == 2 * c.layout.users
    ensures CallsMade(c, After(c, es), p) ==
      if c.threaded && After(c, es).round == 1 && ScanSawFlag(c, es, p) && ReadAfterUnlock(c, es, p) then 2 else 1
  {
    AlwaysInv(c, es);
    CallsOfReturned(c, After(c, es), p);
    if c.threaded && After(c, es).round == 1 {
      CallsAreMoments(c, es, p);
      CountCalls(c, After(c, es), p, ScanSawFlag(c, es, p), ReadAfterUnlock(c, es, p));
    }
  }

  lemma CountCalls(c: Config, s: Sender, p: nat, saw: bool, late: bool)
    requires p < c.layout.users && |s.board.calls| == 2 * c.layout.users && CallsMade(c, s, p) >= 1
    requires s.board.calls[c.layout.users + p] != Uncalled <==> saw
    requires s.board.calls[p] != Uncalled <==> late
    ensures CallsMade(c, s, p) == if saw && late then 2 else 1
  {}

  lemma CallsOfReturned(c: Config, s: Sender, p: nat)
    requires Inv(c, s) && InRound(s) && p < c.layout.users && Returned(s, p) && SetUpOver(s)
    ensures s.board.calls[p] == Uncalled || s.board.calls[p] == Done
    ensures s.board.calls[c.layout.users + p] == Uncalled || s.board.calls[c.layout.users + p] == Done
    ensures CallsMade(c, s, p) >= 1
    ensures !c.threaded || s.round != 1 ==> CallsMade(c, s, p) == 1
  {
    assert PartitionInv(c, s, p);
  }

  // ----- every message exactly once

  lemma ReturnedMeansPast(c: Config, s: Sender, p: nat, i: nat)
    requires Inv(c, s) && InRound(s) && SetUpOver(s) && p < c.layout.users && i < c.layout.parts
    requires Returned(s, p) && c.layout.Maps(p, i)
    ensures p in PartsOf(c.layout, PastCalls(c.layout, s.board.calls, i))
  {
    assert PartitionInv(c, s, p);
    var k := if s.users[p] == Delayed then c.layout.users + p else p;
    assert Past(c.layout, k, s.board.calls[k], i);
    assert k in PastCalls(c.layout, s.board.calls, i);
    assert PartOf(c.layout, k) == p;
  }

  lemma QuietMeansNoHit(c: Config, s: Sender)
    requires Inv(c, s) && InRound(s) && SetUpOver(s)
    requires forall p: nat :: p < c.layout.users && s.users[p] != Idle ==> Returned(s, p)
    ensures forall i: nat :: !AboutToStart(s.board.calls, i)
  {
    forall k: nat | k < |s.board.calls|
      ensures !s.board.calls[k].Hit?
    {
      assert PartitionInv(c, s, PartOf(c.layout, k));
    }
  }

  lemma PastMeansReached(c: Layout, calls: seq<Call>, i: nat)
    requires c.Positive() && |calls| == 2 * c.users
    ensures PastCalls(c, calls, i) != {} ==> c.Reached(i)
  {
    if PastCalls(c, calls, i) != {} {
      var k :| k in PastCalls(c, calls, i);
      assert c.Maps(PartOf(c, k), i);
    }
  }

  lemma StartsInv(c: Config, s: Sender, i: nat)
    requires Inv(c, s) && InRound(s) && SetUpOver(s) && i < c.layout.parts
    requires forall p: nat :: p < c.layout.users ==> Returned(s, p)
    ensures Built(s) && s.board.starts[i] == if c.layout.Reached(i) then 1 else 0
    ensures s.board.reqs[i] != Inactive <==> c.layout.Reached(i)
  {
    var past := PastCalls(c.layout, s.board.calls, i);
    assert Counted(c.layout, s.board, i);
    QuietMeansNoHit(c, s);
    ThresholdPositive(c.layout);
    if c.layout.Reached(i) {
      forall p | p in c.layout.Mappers(i)
        ensures p in PartsOf(c.layout, past)
      {
        ReturnedMeansPast(c, s, p, i);
      }
      SubsetSize(c.layout.Mappers(i), PartsOf(c.layout, past));
      PartsOfSize(c.layout, past);
      MappersOfReached(c.layout, i);
    } else {
      PastMeansReached(c.layout, s.board.calls, i);
      assert past == {};
    }
  }

  /** Once every partition is marked, every `MPIP_Pready` has returned and set-up is over, each
      message has been started exactly once if some partition is mapped to it and never otherwise,
      even when partitions were counted twice. */
  lemma ExactlyOnceStart(c: Config, es: seq<Event>, i: nat)
    requires c.layout.Safe() && Possible(c, es) && i < c.layout.parts
    requires var s := After(c, es); InRound(s) && SetUpOver(s) && forall p: nat :: p < c.layout.users ==> Returned(s, p)
    ensures |After(c, es).board.starts| == |After(c, es).board.reqs| == c.layout.parts
    ensures After(c, es).board.starts[i] == if c.layout.Reached(i) then 1 else 0
    ensures After(c, es).board.reqs[i] != Inactive <==> c.layout.Reached(i)
  {
    AlwaysInv(c, es);
    StartsInv(c, After(c, es), i);
  }

  /** All the messages of a complete round are started exactly once if and only if one of the two
      counts divides the other. */
  lemma ExactlyOnceIffAligned(c: Config, es: seq<Event>)
    requires c.layout.Safe() && Possible(c, es)
    requires var s := After(c, es); InRound(s) && SetUpOver(s) && forall p: nat :: p < c.layout.users ==> Returned(s, p)
    ensures |After(c, es).board.starts| == c.layout.parts
    ensures (forall i: nat :: i < c.layout.parts ==> After(c, es).board.starts[i] == 1) <==> c.layout.Aligned()
  {
    AlwaysInv(c, es);
    AllReachedIffAligned(c.layout);
    forall i: nat | i < c.layout.parts
      ensures After(c, es).board.starts[i] == 1 <==> c.layout.Reached(i)
    {
      ExactlyOnceStart(c, es, i);
    }
  }

  /** `MPI_Start` never hits an active message: whenever a call is about to start a message, that
      message exists and is inactive, and was not started before in the round. */
  lemma NeverStartsActive(c: Config, es: seq<Event>, k: nat)
    requires c.layout.Safe() && Possible(c, es)
    requires CanFire(After(c, es).board, k)
    ensures Enabled(c, After(c, es), Firing(k))
    ensures var b := After(c, es).board; b.reqs[b.calls[k].msg] == Inactive && b.starts[b.calls[k].msg] == 0
  {
    AlwaysInv(c, es);
    BusyCall(c, After(c, es), k);
    FireKeeps(c.layout, After(c, es).board, k);
  }

  /** While a round is on, each counter is the number of `general_send` calls that have incremented
      it, no call touches a counter outside the array, and a message is active or over exactly if
      its counter has reached the threshold and the call that took it there has gone on. */
  lemma CountersCountCalls(c: Config, es: seq<Event>, i: nat)
    requires c.layout.Safe() && Possible(c, es) && InRound(After(c, es)) && Built(After(c, es))
    requires i < c.layout.parts
    ensures Shaped(c.layout, After(c, es).board)
    ensures var b := After(c, es).board;
      && b.counts[i] == |PastCalls(c.layout, b.calls, i)|
      && (b.reqs[i] != Inactive <==> b.counts[i] >= c.layout.Threshold() && !AboutToStart(b.calls, i))
    ensures var b := After(c, es).board;
      forall k: nat :: k < |b.calls| && CanAdd(c.layout, b, k) ==> b.calls[k].next < c.layout.parts
  {
    AlwaysInv(c, es);
    var b := After(c, es).board;
    assert Counted(c.layout, b, i);
    forall k: nat | k < |b.calls| && CanAdd(c.layout, b, k)
      ensures b.calls[k].next < c.layout.parts
    {
      AddKeeps(c.layout, b, k);
    }
  }

  /** The return of the wait closes the round: the request and all its messages are inactive, and it can
      be started again. */
  lemma WaitCloses(c: Config, es: seq<Event>)
    requires c.layout.Safe() && Possible(c, es) && Enabled(c, After(c, es), EndWait)
    ensures var t := Apply(c, After(c, es), EndWait);
      && !t.active && t.main == Out && t.round == After(c, es).round && SetUpOver(t)
      && |t.board.reqs| == c.layout.parts && (forall i :: 0 <= i < |t.board.reqs| ==> t.board.reqs[i] == Inactive)
      && Enabled(c, t, Begin) && Apply(c, t, Begin).active
  {
    AlwaysInv(c, es);
  }

  /** `MPIP_Pready` never waits for set-up: in a round any partition can be marked, and once it is, the
      call goes on as soon as the lock is free.  If set-up is still running it returns at once and leaves
      the partition to the scan; otherwise it enters `general_send`. */
  lemma PreadyProceeds(c: Config, es: seq<Event>, p: nat)
    requires c.layout.Safe() && Possible(c, es) && InRound(After(c, es)) && p < c.layout.users
    ensures |After(c, es).users| == c.layout.users && |After(c, es).board.calls| == 2 * c.layout.users
    ensures After(c, es).users[p] == Idle && After(c, es).main == In ==> Enabled(c, After(c, es), Mark(p))
    ensures After(c, es).users[p] == Marked && LockFree(After(c, es)) ==>
      && Enabled(c, After(c, es), ReadStatus(p))
      && var t := Apply(c, After(c, es), ReadStatus(p));
         if SetUpOver(After(c, es)) then t.users[p] == Sending && t.board.calls[p] == At(c.layout.First(p))
         else t.users[p] == Delayed && t.board == After(c, es).board
  {
    AlwaysInv(c, es);
    assert PartitionInv(c, After(c, es), p);
  }

  // ----- threaded set-up against synchronous set-up

  /** The partitions counted towards message `i` that the scan caught in the gap of this round. */
  ghost function Doubled(c: Config, s: Sender, i: nat): set<nat>
    requires c.layout.Positive()
  {
    set p | p in s.gap && s.round == 1 && c.layout.Maps(p, i)
  }

  /** `ids` lists the partitions marked in this round, and the `MPIP_Pready` of each has returned. */
  ghost predicate MarkedAndReturned(s: Sender, ids: seq<nat>) {
    && Distinct(ids) && (forall p: nat :: p in ids <==> p < |s.users| && s.users[p] != Idle)
    && (forall p: nat :: p in ids ==> Returned(s, p))
  }

  /** Once set-up is over and no `MPIP_Pready` is pending, each counter is the tally of the sequential
      calls, in any order, of the same partitions on a request whose set-up was finished beforehand,
      plus one for every partition caught in the gap; a message is started exactly if its counter has
      reached the threshold; and the flags are those of the sequential calls. */
  lemma CountersExactly(c: Config, es: seq<Event>, ids: seq<nat>, i: nat)
    requires c.layout.Safe() && Possible(c, es) && i < c.layout.parts
    requires InRound(After(c, es)) && SetUpOver(After(c, es)) && MarkedAndReturned(After(c, es), ids)
    ensures Shaped(c.layout, After(c, es).board)
    ensures After(c, es).board.counts[i] == Hits(c.layout, ids, i) + |Doubled(c, After(c, es), i)|
    ensures After(c, es).board.reqs[i] != Inactive <==> After(c, es).board.counts[i] >= c.layout.Threshold()
    ensures After(c, es).flags == seq(c.layout.users, p => p in ids)
  {
    var s := After(c, es);
    AlwaysInv(c, es);
    CountsAreHits(c, s, ids, i);
    forall p: nat | p < c.layout.users
      ensures s.flags[p] <==> p in ids
    {
      assert PartitionInv(c, s, p);
    }
  }

  lemma CountsAreHits(c: Config, s: Sender, ids: seq<nat>, i: nat)
    requires Inv(c, s) && InRound(s) && SetUpOver(s) && i < c.layout.parts && MarkedAndReturned(s, ids)
    ensures s.board.counts[i] == Hits(c.layout, ids, i) + |Doubled(c, s, i)|
    ensures s.board.reqs[i] != Inactive <==> s.board.counts[i] >= c.layout.Threshold()
  {
    assert Counted(c.layout, s.board, i);
    QuietMeansNoHit(c, s);
    PastSize(c.layout, s.board.calls, i);
    PastOfReturned(c, s, ids, i);
    HitsOfDistinct(c.layout, ids, i);
  }

  /** Own calls and scan calls together stand for the marked partitions, and both for those in the gap. */
  lemma PastOfReturned(c: Config, s: Sender, ids: seq<nat>, i: nat)
    requires Inv(c, s) && InRound(s) && SetUpOver(s) && i < c.layout.parts && MarkedAndReturned(s, ids)
    ensures |PartsPast(c.layout, s.board.calls, 0, i)| + |PartsPast(c.layout, s.board.calls, c.layout.users, i)|
            == |Counting(c.layout, ids, i)| + |Doubled(c, s, i)|
  {
    forall p: nat
      ensures p in Counting(c.layout, ids, i) <==>
        p in PartsPast(c.layout, s.board.calls, 0, i) || p in PartsPast(c.layout, s.board.calls, c.layout.users, i)
      ensures p in Doubled(c, s, i) <==>
        p in PartsPast(c.layout, s.board.calls, 0, i) && p in PartsPast(c.layout, s.board.calls, c.layout.users, i)
    {
      PartOfReturned(c, s, ids, p, i);
    }
    UnionSize(PartsPast(c.layout, s.board.calls, 0, i), PartsPast(c.layout, s.board.calls, c.layout.users, i),
              Counting(c.layout, ids, i), Doubled(c, s, i));
  }

  lemma UnionSize(a: set<nat>, b: set<nat>, union: set<nat>, both: set<nat>)
    requires forall p: nat :: p in union <==> p in a || p in b
    requires forall p: nat :: p in both <==> p in a && p in b
    ensures |a| + |b| == |union| + |both|
  {
    assert union == a + b && both == a * b;
  }

  /** The partitions that went past counter `i` in the calls from `first` on: their own ones with 0,
      those of the scan with the number of partitions. */
  ghost function PartsPast(c: Layout, calls: seq<Call>, first: nat, i: nat): set<nat>
    requires c.Positive()
  {
    set p: nat | p < c.users && Went(c, calls, first, p, i)
  }

  ghost predicate Went(c: Layout, calls: seq<Call>, first: nat, p: nat, i: nat)
    requires c.Positive()
  {
    first + p < |calls| && Past(c, first + p, calls[first + p], i)
  }

  lemma PastSize(c: Layout, calls: seq<Call>, i: nat)
    requires c.Positive() && |calls| == 2 * c.users
    ensures |PastCalls(c, calls, i)| == |PartsPast(c, calls, 0, i)| + |PartsPast(c, calls, c.users, i)|
  {
    var past, own, scan := PastCalls(c, calls, i), PartsPast(c, calls, 0, i), PartsPast(c, calls, c.users, i);
    forall k: nat
      ensures k in past <==> k in own || k in Shifted(scan, c.users)
      ensures !(k in own && k in Shifted(scan, c.users))
    {
      PastOne(c, calls, k, i);
    }
    ShiftedSize(scan, c.users);
    UnionSize(own, Shifted(scan, c.users), past, {});
  }

  lemma PastOne(c: Layout, calls: seq<Call>, k: nat, i: nat)
    requires c.Positive() && |calls| == 2 * c.users
    ensures k in PastCalls(c, calls, i) <==>
      k in PartsPast(c, calls, 0, i) || k in Shifted(PartsPast(c, calls, c.users, i), c.users)
    ensures !(k in PartsPast(c, calls, 0, i) && k in Shifted(PartsPast(c, calls, c.users, i), c.users))
  {
    if k < c.users {
      assert k in PartsPast(c, calls, 0, i) <==> Went(c, calls, 0, k, i);
    } else {
      var p := k - c.users;
      assert k in Shifted(PartsPast(c, calls, c.users, i), c.users) <==> p in PartsPast(c, calls, c.users, i);
      assert p in PartsPast(c, calls, c.users, i) <==> p < c.users && Went(c, calls, c.users, p, i);
    }
  }

  ghost function Shifted(ps: set<nat>, n: nat): set<nat> {
    set p | p in ps :: n + p
  }

  lemma {:induction false} ShiftedSize(ps: set<nat>, n: nat)
    ensures |Shifted(ps, n)| == |ps|
    decreases |ps|
  {
    if ps != {} {
      var p :| p in ps;
      ShiftedSize(ps - {p}, n);
      assert ps == (ps - {p}) + {p};
      assert Shifted(ps, n) == Shifted(ps - {p}, n) + {n + p};
    }
  }

  lemma PartOfReturned(c: Config, s: Sender, ids: seq<nat>, p: nat, i: nat)
    requires Inv(c, s) && InRound(s) && SetUpOver(s) && i < c.layout.parts && MarkedAndReturned(s, ids)
    ensures p in Counting(c.layout, ids, i) <==>
      p in PartsPast(c.layout, s.board.calls, 0, i) || p in PartsPast(c.layout, s.board.calls, c.layout.users, i)
    ensures p in Doubled(c, s, i) <==>
      p in PartsPast(c.layout, s.board.calls, 0, i) && p in PartsPast(c.layout, s.board.calls, c.layout.users, i)
  {
    assert p in ids <==> p < |s.users| && s.users[p] != Idle;
    if p < c.layout.users {
      assert PartOf(c.layout, c.layout.users + p) == p;
      assert PartitionInv(c, s, p);
    } else {
      assert p !in ids && p !in s.gap;
    }
  }

  /** A message none of whose partitions fell into the gap of this round has exactly the counter of
      the sequential calls, and conversely; where this or a threshold of one is given, exactly the
      messages the sequential calls start are started. */
  lemma ThreadedRefinesSynchronous(c: Config, es: seq<Event>, ids: seq<nat>, i: nat)
    requires c.layout.Safe() && Possible(c, es) && i < c.layout.parts
    requires InRound(After(c, es)) && SetUpOver(After(c, es)) && MarkedAndReturned(After(c, es), ids)
    ensures Shaped(c.layout, After(c, es).board)
    ensures After(c, es).board.counts[i] == Hits(c.layout, ids, i) <==>
      After(c, es).round >= 2 || Ungapped(c, After(c, es), i)
    ensures After(c, es).round >= 2 || Harmless(c, After(c, es), i) ==>
      (After(c, es).board.reqs[i] != Inactive <==> Hits(c.layout, ids, i) >= c.layout.Threshold())
    ensures After(c, es).flags == seq(c.layout.users, p => p in ids)
  {
    var s := After(c, es);
    AlwaysInv(c, es);
    CountersExactly(c, es, ids, i);
    HitsOfDistinct(c.layout, ids, i);
    if s.round >= 2 || Ungapped(c, s, i) {
      assert Doubled(c, s, i) == {};
    } else {
      var p :| p in s.gap && c.layout.Maps(p, i);
      assert p in Doubled(c, s, i);
      assert PartitionInv(c, s, p) && p in Counting(c.layout, ids, i);
    }
  }
}
