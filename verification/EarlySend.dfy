/**
 When can a message leave before all of its partitions are ready?

 `MPIP_Pready` writes the flag of its partition outside the lock and reads the thread status under
 the lock afterwards.  A catch-up scan that falls between the two counts the partition, and the
 `MPIP_Pready` then counts it again.  This module builds the runs in which that starts a message
 early, for every layout that groups partitions, and so settles exactly which configurations never
 send early.
 */
module EarlySend {
  import opened Partitioning
  import opened Mpi
  import opened Basics
  import opened SendCounting
  import opened SendProtocol
  import opened SendGuarantees

  /** Some run leads to `s` before the transport has moved anything. */
  ghost predicate Reachable(c: Config, s: Sender) {
    exists es :: Possible(c, es) && Untransported(es) && After(c, es) == s
  }

  lemma ReachInit(c: Config)
    ensures Reachable(c, Init(c))
  {
    assert Possible(c, []) && After(c, []) == Init(c);
  }

  lemma ReachStep(c: Config, s: Sender, e: Event) returns (s': Sender)
    requires Reachable(c, s) && Enabled(c, s, e) && !e.Transport?
    ensures s' == Apply(c, s, e) && Reachable(c, s')
  {
    var es :| Possible(c, es) && Untransported(es) && After(c, es) == s;
    s' := Apply(c, s, e);
    assert (es + [e])[..|es + [e]| - 1] == es;
    assert Possible(c, es + [e]) && After(c, es + [e]) == s';
  }

  // ----- a layout that is not aligned

  lemma FinishedSetUp(c: Config) returns (s: Sender)
    requires c.layout.Safe()
    ensures Reachable(c, s) && Inv(c, s) && s.main == Out && s.threaded != Running && Built(s) && SetUpOver(s)
  {
    ReachInit(c);
    s := Init(c);
    InitInv(c);
    if c.threaded {
      SetUpKeeps(c, s);
      s := ReachStep(c, s, SetUp);
      LockKeeps(c, s);
      s := ReachStep(c, s, Lock);
      ReleaseKeeps(c, s);
      s := ReachStep(c, s, Release);
    }
  }

  lemma OpenRound(c: Config) returns (s: Sender)
    requires c.layout.Safe()
    ensures Reachable(c, s) && Inv(c, s) && s.main == In && s.threaded != Running && Built(s) && LockFree(s)
    ensures forall p :: 0 <= p < |s.users| ==> s.users[p] == Idle
    ensures forall i :: 0 <= i < |s.board.counts| ==> s.board.counts[i] == 0
  {
    s := FinishedSetUp(c);
    BeginKeeps(c, s);
    s := ReachStep(c, s, Begin);
    ResetKeeps(c, s);
    s := ReachStep(c, s, Reset);
  }

  lemma UnalignedSendsEarly(c: Config, g: Geometry) returns (s: Sender)
    requires g.Valid() && g.layout == c.layout && c.layout.Safe() && !c.layout.Aligned()
    ensures Reachable(c, s) && !NoEarlySend(g, s)
  {
    UnalignedSharesAMessage(g);
    RangeInBounds(c.layout, 1);
    s := OpenRound(c);
    s := ReachStep(c, s, Mark(1));
    s := ReachStep(c, s, ReadStatus(1));
    s := ReachStep(c, s, Adding(1));
    s := ReachStep(c, s, Firing(1));
    var i := c.layout.First(1);
    assert s.board.reqs[i] != Inactive && g.Overlap(0, i) && s.users[0] == Idle;
    assert !OnTime(g, s, i);
  }

  // ----- a threaded set-up of a layout that groups partitions

  /** The first `k` partitions are marked and wait to read the status; nothing else happened. */
  ghost predicate Marking(c: Config, s: Sender, k: nat) {
    && Reachable(c, s) && s.main == In && s.active && s.round == 1 && s.threaded == Running && k <= c.layout.users
    && |s.flags| == |s.users| == c.layout.users && |s.board.calls| == 2 * c.layout.users
    && (forall q :: 0 <= q < c.layout.users ==> (s.flags[q] <==> q < k))
    && (forall q :: 0 <= q < c.layout.users ==> s.users[q] == if q < k then Marked else Idle)
  }

  lemma MarkSome(c: Config, k: nat) returns (s: Sender)
    requires c.layout.Positive() && c.threaded && k <= c.layout.users
    ensures Marking(c, s, k) && s.sync == Negotiating
    ensures forall j :: 0 <= j < |s.board.calls| ==> s.board.calls[j] == Uncalled
    decreases k
  {
    if k == 0 {
      ReachInit(c);
      s := Init(c);
      s := ReachStep(c, s, Begin);
      s := ReachStep(c, s, Reset);
    } else {
      s := MarkSome(c, k - 1);
      s := ReachStep(c, s, Mark(k - 1));
    }
  }

  /** The scan has come to partition `q` and counted the marked ones before it towards message 0. */
  ghost predicate Scanning(c: Config, s: Sender, k: nat, q: nat)
    requires c.layout.Positive()
  {
    && Marking(c, s, k) && s.sync == Scan(q) && q <= c.layout.users
    && Shaped(c.layout, s.board) && s.board.reqs[0] == Inactive
    && s.board.counts[0] == (if q < k then q else k)
    && (forall j :: 0 <= j < c.layout.users + q ==> s.board.calls[j] == Uncalled || s.board.calls[j] == Done)
    && (forall j :: c.layout.users + q <= j < 2 * c.layout.users ==> s.board.calls[j] == Uncalled)
    && s.board.calls[0] == Uncalled
  }

  lemma FirstGroup(c: Layout, q: nat)
    requires c.Positive() && c.users > c.parts && q < c.Threshold()
    ensures c.First(q) == 0 && c.Last(q) == 1
  {
    DivUnique(q, c.Threshold(), 0);
  }

  lemma ScanOne(c: Config, s0: Sender, k: nat, q: nat) returns (s: Sender)
    requires c.layout.Positive() && c.layout.users > c.layout.parts && k < c.layout.Threshold()
    requires Scanning(c, s0, k, q) && q < c.layout.users
    ensures Scanning(c, s, k, q + 1)
  {
    if q < k {
      FirstGroup(c.layout, q);
      var j := c.layout.users + q;
      s := ReachStep(c, s0, Visit);
      s := ReachStep(c, s, Adding(j));
      s := ReachStep(c, s, Returning(j));
    } else {
      s := ReachStep(c, s0, Visit);
    }
  }

  lemma ScanUpTo(c: Config, k: nat, q: nat) returns (s: Sender)
    requires c.layout.Positive() && c.layout.users > c.layout.parts && c.threaded
    requires k < c.layout.Threshold() && k <= c.layout.users && q <= c.layout.users
    ensures Scanning(c, s, k, q)
    decreases q
  {
    if q == 0 {
      s := MarkSome(c, k);
      s := ReachStep(c, s, SetUp);
      s := ReachStep(c, s, Lock);
    } else {
      s := ScanUpTo(c, k, q - 1);
      s := ScanOne(c, s, k, q - 1);
    }
  }

  /** One partition fewer than message 0 needs is marked; the scan counts them all; partition 0,
      caught in the gap, is counted once more and message 0 starts without its last partition. */
  lemma ThreadedGroupSendsEarly(c: Config, g: Geometry) returns (s: Sender)
    requires g.Valid() && g.layout == c.layout && c.layout.Aligned()
    requires c.threaded && c.layout.Threshold() > 1
    ensures Reachable(c, s) && !NoEarlySend(g, s)
    ensures s.main == In && s.round == 1 && s.sync == Ended && |s.board.reqs| > 0 && s.board.reqs[0] == Started
    ensures c.layout.Threshold() <= |s.users| && s.users[c.layout.Threshold() - 1] == Idle
  {
    AlignedGroups(c.layout);
    var t := c.layout.Threshold();
    MulMono(1, c.layout.parts, t);
    FirstGroup(c.layout, 0);
    FirstGroup(c.layout, t - 1);
    s := ScanUpTo(c, t - 1, c.layout.users);
    s := CountAgain(c, s, t);
    AlignedMapsExactlyOverlaps(g, t - 1, 0);
    assert s.board.reqs[0] != Inactive && g.Overlap(t - 1, 0) && s.users[t - 1] == Idle;
    assert !OnTime(g, s, 0);
  }

  /** The pending `MPIP_Pready(0)` counts its partition after the scan has, and fills the counter. */
  lemma CountAgain(c: Config, s0: Sender, t: nat) returns (s: Sender)
    requires c.layout.Positive() && 1 < t == c.layout.Threshold() <= c.layout.users
    requires Scanning(c, s0, t - 1, c.layout.users) && c.layout.First(0) == 0 && c.layout.Last(0) == 1
    ensures Reachable(c, s) && s.main == In && s.round == 1 && s.sync == Ended
    ensures |s.board.reqs| > 0 && s.board.reqs[0] == Started && t <= |s.users| && s.users[t - 1] == Idle
  {
    s := ReachStep(c, s0, Release);
    s := ReachStep(c, s, ReadStatus(0));
    s := ReachStep(c, s, Adding(0));
    s := ReachStep(c, s, Firing(0));
  }

  ghost predicate NeverEarly(c: Config, g: Geometry) {
    forall es :: Possible(c, es) ==> NoEarlySend(g, After(c, es))
  }

  lemma SometimesEarly(c: Config, g: Geometry)
    requires g.Valid() && g.layout == c.layout && c.layout.Safe()
    requires !c.layout.Aligned() || (c.threaded && c.layout.Threshold() > 1)
    ensures !NeverEarly(c, g)
  {
    if c.layout.Aligned() {
      var s := ThreadedGroupSendsEarly(c, g);
      assert !NoEarlySend(g, s);
    } else {
      var s := UnalignedSendsEarly(c, g);
      assert !NoEarlySend(g, s);
    }
  }

  lemma SufficientForNeverEarly(c: Config, g: Geometry)
    requires g.Valid() && g.layout == c.layout && c.layout.Aligned()
    requires c.layout.Threshold() == 1 || !c.threaded
    ensures NeverEarly(c, g)
  {
    AlignedIsSafe(c.layout);
    forall es | Possible(c, es)
      ensures NoEarlySend(g, After(c, es))
    {
      AlwaysInv(c, es);
      forall i: nat | i < |After(c, es).board.reqs|
        ensures OnTime(g, After(c, es), i)
      {
        NoEarlySendInRuns(c, g, es, i);
      }
    }
  }

  /** Exactly which configurations never send early: one count must divide the other, and either a
      single partition starts a message or set-up does not run in the background. */
  lemma NeverEarlyExactly(c: Config, g: Geometry)
    requires g.Valid() && g.layout == c.layout && c.layout.Safe()
    ensures NeverEarly(c, g) <==> c.layout.Aligned() && (c.layout.Threshold() == 1 || !c.threaded)
  {
    ThresholdPositive(c.layout);
    if c.layout.Aligned() && (c.layout.Threshold() == 1 || !c.threaded) {
      SufficientForNeverEarly(c, g);
    } else {
      SometimesEarly(c, g);
    }
  }
}
