/**
 The catch-up of the background thread, run without interruption, against the contract of the
 sequential `threaded_sync_driver`: the step system and the request object agree on it.
 */
module CatchUp {
  import opened Partitioning
  import opened Mpi
  import opened Basics
  import opened Tally
  import opened SendCounting
  import opened SendProtocol
  import opened Requests
  import G = SendGuarantees
  import P = SendProgress
  import E = EarlySend

  /** The events of the background thread, among them those of the calls it makes. */
  predicate OfThread(c: Config, e: Event) {
    e.SetUp? || e.Lock? || e.Visit? || e.Release? ||
    ((e.Adding? || e.Firing? || e.Returning?) && e.call >= c.layout.users)
  }

  ghost predicate Alone(c: Config, es: seq<Event>) {
    forall e :: e in es ==> OfThread(c, e)
  }

  /** The thread, working alone since `s0`, has made the calls of exactly the raised flags it has come
      past. */
  ghost predicate CaughtUp(c: Config, s0: Sender, s: Sender) {
    && InRound(s) && s.flags == s0.flags && s.users == s0.users && s.sync != Absent
    && |s.flags| == c.layout.users && |s.board.calls| == 2 * c.layout.users
    && (forall p: nat :: p < c.layout.users ==> s.board.calls[p] == Uncalled)
    && (forall q: nat :: q < c.layout.users ==> Scanned(c, s, q))
    && (forall i: nat :: i < |s.board.reqs| ==> s.board.reqs[i] != Complete)
  }

  ghost predicate Scanned(c: Config, s: Sender, q: nat)
    requires q < c.layout.users == |s.flags| && |s.board.calls| == 2 * c.layout.users
  {
    var call := s.board.calls[c.layout.users + q];
    var over := if s.flags[q] then Done else Uncalled;
    match s.sync
    case Absent => true
    case Negotiating => call == Uncalled
    case Ready => call == Uncalled
    case Scan(r) => call == if q < r then over else Uncalled
    case InCall(r) => if q == r then s.flags[q] else call == if q < r then over else Uncalled
    case Ended => call == over
  }

  lemma AtFirst(c: Config, s: Sender)
    requires Inv(c, s) && InRound(s) && s.sync == Negotiating
    ensures CaughtUp(c, s, s)
  {
    forall q: nat | q < c.layout.users
      ensures s.board.calls[q] == Uncalled && Scanned(c, s, q)
    {
      assert PartitionInv(c, s, q);
    }
  }

  lemma ThreadStep(c: Config, s0: Sender, s: Sender, e: Event)
    requires Inv(c, s) && CaughtUp(c, s0, s) && Enabled(c, s, e) && OfThread(c, e)
    ensures CaughtUp(c, s0, Apply(c, s, e))
  {
    if e.Adding? || e.Firing? || e.Returning? { BusyCall(c, s, e.call); }
    var t := Apply(c, s, e);
    forall q: nat | q < c.layout.users
      ensures Scanned(c, t, q)
    {
      assert Scanned(c, s, q);
    }
  }

  lemma {:induction false} ThreadRun(c: Config, s0: Sender, s: Sender, fs: seq<Event>, t: Sender)
    requires Inv(c, s) && CaughtUp(c, s0, s) && Alone(c, fs) && P.Leads(c, s, fs, t)
    ensures Inv(c, t) && CaughtUp(c, s0, t)
    decreases |fs|
  {
    if fs != [] {
      assert fs[0] in fs;
      StepKeeps(c, s, fs[0]);
      ThreadStep(c, s0, s, fs[0]);
      ThreadRun(c, s0, Apply(c, s, fs[0]), fs[1..], t);
    }
  }

  lemma CountsOfScan(c: Config, s0: Sender, s: Sender, i: nat)
    requires Inv(c, s) && CaughtUp(c, s0, s) && s.sync == Ended && i < c.layout.parts
    ensures s.board.counts[i] == Hits(c.layout, Flagged(s0.flags), i)
    ensures s.board.reqs[i] == if s.board.counts[i] >= c.layout.Threshold() then Started else Inactive
  {
    assert Counted(c.layout, s.board, i);
    assert forall k: nat :: k < |s.board.calls| ==> !s.board.calls[k].Hit? by {
      forall k: nat | k < |s.board.calls|
        ensures !s.board.calls[k].Hit?
      {
        if k >= c.layout.users { assert Scanned(c, s, k - c.layout.users); }
      }
    }
    G.PastSize(c.layout, s.board.calls, i);
    assert G.PartsPast(c.layout, s.board.calls, 0, i) == {};
    PartsOfScan(c, s0, s, i);
    HitsOfDistinct(c.layout, Flagged(s0.flags), i);
  }

  lemma PartsOfScan(c: Config, s0: Sender, s: Sender, i: nat)
    requires c.layout.Positive() && CaughtUp(c, s0, s) && s.sync == Ended
    ensures G.PartsPast(c.layout, s.board.calls, c.layout.users, i) == Counting(c.layout, Flagged(s0.flags), i)
  {
    forall p: nat
      ensures p in G.PartsPast(c.layout, s.board.calls, c.layout.users, i) <==> p in Counting(c.layout, Flagged(s0.flags), i)
    {
      if p < c.layout.users {
        assert Scanned(c, s, p);
        assert PartOf(c.layout, c.layout.users + p) == p;
        assert p in G.PartsPast(c.layout, s.board.calls, c.layout.users, i) <==>
          G.Went(c.layout, s.board.calls, c.layout.users, p, i);
      }
    }
  }

  /** If nothing runs beside the background thread from the negotiation to the release of the lock, it
      leaves what `threaded_sync_driver` promises for an active sender: the fresh messages after the
      tally of the flags that were up when it began. */
  lemma AloneIsSequential(c: Config, es: seq<Event>, fs: seq<Event>, t: Sender, size: nat, tag: int, extent: nat)
    requires c.layout.Safe() && Possible(c, es) && InRound(After(c, es)) && After(c, es).sync == Negotiating
    requires Alone(c, fs) && P.Leads(c, After(c, es), fs, t) && t.sync == Ended
    ensures |t.board.reqs| == c.layout.parts && t.flags == After(c, es).flags && t.users == After(c, es).users
    ensures Tallied(c.layout, Uniform<nat>(c.layout.parts, 0), FreshRequests(c.layout.parts, size, tag, extent),
                    Flagged(After(c, es).flags), t.board.counts,
                    InPhases(FreshRequests(c.layout.parts, size, tag, extent), t.board.reqs))
  {
    var s := After(c, es);
    AlwaysInv(c, es);
    AtFirst(c, s);
    ThreadRun(c, s, s, fs, t);
    ThresholdPositive(c.layout);
    forall i: nat | i < c.layout.parts
      ensures t.board.counts[i] == Hits(c.layout, Flagged(s.flags), i)
      ensures t.board.reqs[i] == if t.board.counts[i] >= c.layout.Threshold() then Started else Inactive
    {
      CountsOfScan(c, s, t, i);
    }
  }

  // ----- the thread can do its work alone

  ghost predicate ReachAlone(c: Config, s: Sender, t: Sender) {
    Inv(c, t) && exists fs :: Alone(c, fs) && P.Leads(c, s, fs, t)
  }

  lemma OnwardAlone(c: Config, s: Sender, t: Sender, e: Event) returns (u: Sender)
    requires ReachAlone(c, s, t) && Enabled(c, t, e) && OfThread(c, e)
    ensures u == Apply(c, t, e) && ReachAlone(c, s, u)
  {
    var fs :| Alone(c, fs) && P.Leads(c, s, fs, t);
    u := Apply(c, t, e);
    StepKeeps(c, t, e);
    assert P.Leads(c, u, [e][1..], u);
    P.LeadsJoin(c, s, fs, t, [e], u);
    assert Alone(c, fs + [e]);
  }

  lemma FinishCall(c: Config, s: Sender, s0: Sender, k: nat) returns (t: Sender)
    requires ReachAlone(c, s, s0) && c.layout.users <= k < |s0.board.calls|
    requires s0.board.calls[k].At? || s0.board.calls[k].Hit?
    ensures ReachAlone(c, s, t) && t.sync == Scan(k - c.layout.users + 1)
    decreases P.CallLeft(c, s0, k)
  {
    BusyCall(c, s0, k);
    assert Placed(c.layout, k, s0.board.calls[k]);
    if s0.board.calls[k].Hit? {
      FireKeeps(c.layout, s0.board, k);
      t := OnwardAlone(c, s, s0, Firing(k));
      t := FinishCall(c, s, t, k);
    } else if CanAdd(c.layout, s0.board, k) {
      AddKeeps(c.layout, s0.board, k);
      t := OnwardAlone(c, s, s0, Adding(k));
      t := FinishCall(c, s, t, k);
    } else {
      t := OnwardAlone(c, s, s0, Returning(k));
    }
  }

  lemma FinishScan(c: Config, s: Sender, s0: Sender) returns (t: Sender)
    requires ReachAlone(c, s, s0) && (s0.sync.Scan? || s0.sync.InCall?)
    ensures ReachAlone(c, s, t) && t.sync == Ended
    decreases c.layout.users - (if s0.sync.Scan? then s0.sync.next else s0.sync.part), s0.sync.Scan?
  {
    if s0.sync.InCall? {
      P.ScanCallBusy(c, s0);
      t := FinishCall(c, s, s0, c.layout.users + s0.sync.part);
      t := FinishScan(c, s, t);
    } else if s0.sync.next < c.layout.users {
      t := OnwardAlone(c, s, s0, Visit);
      t := FinishScan(c, s, t);
    } else {
      t := OnwardAlone(c, s, s0, Release);
    }
  }

  /** From wherever a run has come to before the end of the negotiation, the background thread can go
      through to the release of the lock without anybody else moving. */
  lemma CanFinishAlone(c: Config, es: seq<Event>) returns (fs: seq<Event>, t: Sender)
    requires c.layout.Safe() && Possible(c, es) && After(c, es).sync == Negotiating
    ensures Alone(c, fs) && P.Leads(c, After(c, es), fs, t) && t.sync == Ended
  {
    AlwaysInv(c, es);
    var s := After(c, es);
    assert Alone(c, []) && P.Leads(c, s, [], s);
    t := OnwardAlone(c, s, s, SetUp);
    t := OnwardAlone(c, s, t, Lock);
    t := FinishScan(c, s, t);
    fs :| Alone(c, fs) && P.Leads(c, s, fs, t);
  }

  // ----- a round that is over for the users before set-up has begun

  /** The first `n` partitions were marked and left to the scan, and set-up has not begun. */
  ghost predicate AllDelayed(c: Config, s: Sender, n: nat) {
    && s.main == In && s.active && s.round == 1 && s.sync == Negotiating && s.threaded == Running
    && n <= |s.users| == |s.flags| == c.layout.users && |s.board.calls| == 2 * c.layout.users
    && forall p :: 0 <= p < |s.users| ==> s.users[p] == (if p < n then Delayed else Idle) && (s.flags[p] <==> p < n)
  }

  lemma DelayUpTo(c: Config, n: nat) returns (s: Sender)
    requires c.layout.Positive() && c.threaded && n <= c.layout.users
    ensures E.Reachable(c, s) && AllDelayed(c, s, n)
    decreases n
  {
    if n == 0 {
      E.ReachInit(c);
      s := E.ReachStep(c, Init(c), Begin);
      s := E.ReachStep(c, s, Reset);
    } else {
      s := DelayUpTo(c, n - 1);
      s := E.ReachStep(c, s, Mark(n - 1));
      s := E.ReachStep(c, s, ReadStatus(n - 1));
    }
  }

  /** With background set-up, all the user's calls of the first round may come before set-up begins: every
      `MPIP_Pready` has returned and `MPIP_Wait` has been entered.  However the background thread then runs,
      it alone starts each message some partition is mapped to, and no other. */
  lemma WholeRoundBeforeSetUp(c: Config) returns (es: seq<Event>)
    requires c.layout.Safe() && c.threaded
    ensures Possible(c, es) && After(c, es).main == Waiting(false) && After(c, es).sync == Negotiating
    ensures After(c, es).flags == Uniform(c.layout.users, true)
    ensures forall fs, t, i: nat :: Alone(c, fs) && P.Leads(c, After(c, es), fs, t) && t.sync == Ended && i < |t.board.reqs| ==>
      (t.board.reqs[i] == Started <==> c.layout.Reached(i))
  {
    var s := DelayUpTo(c, c.layout.users);
    s := E.ReachStep(c, s, BeginWait);
    es :| Possible(c, es) && After(c, es) == s;
    forall fs, t, i: nat | Alone(c, fs) && P.Leads(c, s, fs, t) && t.sync == Ended && i < |t.board.reqs|
      ensures t.board.reqs[i] == Started <==> c.layout.Reached(i)
    {
      ScanReaches(c, es, fs, t, i);
    }
  }

  lemma ScanReaches(c: Config, es: seq<Event>, fs: seq<Event>, t: Sender, i: nat)
    requires c.layout.Safe() && Possible(c, es) && InRound(After(c, es)) && After(c, es).sync == Negotiating
    requires After(c, es).flags == Uniform(c.layout.users, true)
    requires Alone(c, fs) && P.Leads(c, After(c, es), fs, t) && t.sync == Ended && i < |t.board.reqs|
    ensures t.board.reqs[i] == Started <==> c.layout.Reached(i)
  {
    var s := After(c, es);
    AlwaysInv(c, es);
    AtFirst(c, s);
    ThreadRun(c, s, s, fs, t);
    CountsOfScan(c, s, t, i);
    HitsOfAll(c.layout, i);
  }

  /** When all flags are up, a message collects all the partitions mapped to it. */
  lemma HitsOfAll(c: Layout, i: nat)
    requires c.Safe() && i < c.parts
    ensures Hits(c, Flagged(Uniform(c.users, true)), i) >= c.Threshold() <==> c.Reached(i)
  {
    var all := Flagged(Uniform(c.users, true));
    HitsOfDistinct(c, all, i);
    assert Counting(c, all, i) == c.Mappers(i);
    ThresholdPositive(c);
    if c.Reached(i) {
      G.MappersOfReached(c, i);
    } else {
      assert c.Mappers(i) == {};
    }
  }
}
