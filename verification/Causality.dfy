/**
 Exactly when does a positive answer of `MPIP_Parrived` mean that the elements are there?

 `EndToEnd.ArrivalCausality` shows it for a receiver whose counts are aligned, wherever the double
 count cannot happen or cannot hurt.  Here are the runs in which it fails otherwise.  A receiver that
 is not aligned has a partition whose range leaves out a message with some of its elements: all other
 messages land, and the partition is reported although that element is missing.  A sender that groups
 partitions and sets up in the background can let a message land that was never ready, and an aligned
 receiver reports a partition of it.
 */
module Causality {
  import opened Partitioning
  import opened Mpi
  import opened Basics
  import opened EndToEnd
  import opened SystemRuns
  import M = Misdelivery
  import S = SendProtocol
  import P = SendProgress
  import R = ReceiveProtocol
  import Q = ReceiveRuns

  // ----- a sender that marks element x with value 1

  lemma LaunchMarked(c: Config, x: nat) returns (s: System)
    requires c.Valid() && c.send.layout.Aligned() && x < c.send.Total()
    ensures Launched(c, FromBlank(c), s, x) && s.rbuf == Blank(c).rbuf
  {
    BlankReached(c);
    s := WriteStep(c, FromBlank(c), Blank(c), x, 1);
    s := LiftAnyStep(c, FromBlank(c), s, S.Begin);
    s := SendAll(c, s);
    AllUnderWay(c, s, x);
  }

  lemma SendAll(c: Config, s0: System) returns (s: System)
    requires c.Valid() && Reach(c, FromBlank(c), s0) && Sized(c, s0) && s0.snd.main != S.Out
    ensures Reach(c, FromBlank(c), s) && Sized(c, s) && OnlySender(s0, s)
    ensures s.snd.main == S.Waiting(true) && s.snd.round == s0.snd.round
  {
    assert S.Inv(c.Sending(), s0.snd) by { ReachedInv(c, FromBlank(c), s0); }
    var u := P.CanWait(c.Sending(), s0.snd);
    var fs :| S.Untransported(fs) && P.Leads(c.Sending(), s0.snd, fs, u);
    s := LiftRun(c, FromBlank(c), s0, fs, u);
  }

  lemma AllUnderWay(c: Config, s: System, x: nat)
    requires c.Valid() && c.send.layout.Aligned() && Reach(c, FromBlank(c), s) && Sized(c, s)
    requires s.snd.main == S.Waiting(true) && s.snd.round == 1
    requires x < |s.sbuf| && s.sbuf[x] == 1
    ensures |s.snd.board.reqs| == c.Parts() && RecordedAsOne(s, x)
    ensures forall i: nat :: i < c.Parts() ==> s.snd.board.reqs[i] != Inactive
  {
    assert Base(c, s) by { ReachedInv(c, FromBlank(c), s); }
    AllReturned(c.Sending(), s.snd);
    PartitionOfElement(c.send, x);
    AfterFinish(c, s, x);
  }

  lemma AllReturned(c: S.Config, u: S.Sender)
    requires S.Inv(c, u) && u.main.Waiting?
    ensures forall p: nat :: p < c.layout.users ==> S.Returned(u, p)
  {
    forall p: nat | p < c.layout.users
      ensures S.Returned(u, p)
    {
      assert S.PartitionInv(c, u, p);
    }
  }

  // ----- asking

  /** Asked for partition `r`, whose messages have all landed, a first poll is about to yield 1. */
  lemma AskFor(c: Config, s0: System, w: nat, r: nat) returns (s: System)
    requires c.Valid() && c.pollers > 0 && Landing(c, FromBlank(c), s0, c.Parts(), w)
    requires r < c.recv.layout.users && c.recv.layout.InRange(r) && (w < c.Parts() ==> !c.recv.layout.Maps(r, w))
    ensures Reach(c, FromBlank(c), s) && s.rbuf == s0.rbuf && s.log == s0.log && s.rcv.round == 1
    ensures R.InRound(s.rcv) && Enabled(c, s, Recv(R.Store(0))) && R.Answers1(s.rcv, R.Store(0), r)
  {
    AskSteps(c.Receiving(), s0.rcv, r);
    s := RecvStep(c, FromBlank(c), s0, R.Ask(0, r));
    s := RecvStep(c, FromBlank(c), s, R.ReadCache(0));
    s := RecvStep(c, FromBlank(c), s, R.TestRange(0));
  }

  lemma AskSteps(c: R.Config, s: R.Receiver, r: nat)
    requires c.layout.Positive() && c.pollers > 0 && Q.Unasked(c, s)
    requires r < c.layout.users && c.layout.InRange(r)
    requires forall i: nat :: i < c.layout.parts && c.layout.Maps(r, i) ==> s.reqs[i] == Complete
    ensures R.Enabled(c, s, R.Ask(0, r))
    ensures var t := R.Apply(c, s, R.Ask(0, r)); R.Enabled(c, t, R.ReadCache(0))
    ensures var t := R.Apply(c, R.Apply(c, s, R.Ask(0, r)), R.ReadCache(0)); R.Enabled(c, t, R.TestRange(0))
    ensures var t := R.Apply(c, R.Apply(c, R.Apply(c, s, R.Ask(0, r)), R.ReadCache(0)), R.TestRange(0));
      R.Enabled(c, t, R.Store(0)) && R.Answers1(t, R.Store(0), r) && R.InRound(t) && t.round == 1
  {}

  // ----- the exact condition

  /** If `MPIP_Parrived` yields 1 for partition `r` in round `k`, its element `x` has a value it was
      marked ready with in the sender's round `k`. */
  ghost predicate CausalAt(c: Config, s0: System, es: seq<Event>, a: R.Event, r: nat, x: nat, k: nat)
    requires c.Valid()
  {
    Possible(c, s0, es) && Enabled(c, After(c, s0, es), Recv(a)) && R.Answers1(After(c, s0, es).rcv, a, r) &&
    R.InRound(After(c, s0, es).rcv) && After(c, s0, es).rcv.round == k &&
    r < c.recv.layout.users && c.recv.InPartition(r, x) ==>
      x < |After(c, s0, es).rbuf| && MarkedReady(c, s0, es, k, x, After(c, s0, es).rbuf[x])
  }

  ghost predicate AlwaysCausal(c: Config, k: nat)
    requires c.Valid()
  {
    forall s0: System, es: seq<Event>, a: R.Event, r: nat, x: nat :: CausalAt(c, s0, es, a, r, x, k)
  }

  lemma NotCausal(c: Config, s0: System, w: nat, r: nat, x: nat)
    requires c.Valid() && c.pollers > 0 && Landing(c, FromBlank(c), s0, c.Parts(), w)
    requires r < c.recv.layout.users && c.recv.layout.InRange(r) && (w < c.Parts() ==> !c.recv.layout.Maps(r, w))
    requires c.recv.InPartition(r, x) && x < |s0.rbuf| && s0.rbuf[x] == 0 && RecordedAsOne(s0, x)
    ensures !AlwaysCausal(c, 1)
  {
    var s := AskFor(c, s0, w, r);
    var es := RunFromBlank(c, s);
    RecordIsHistory(c, Blank(c), es, 1, x, 0);
    assert !CausalAt(c, Blank(c), es, R.Store(0), r, x, 1);
  }

  lemma UnalignedNotCausal(c: Config)
    requires c.Valid() && c.send.layout.Aligned() && c.pollers > 0 && !c.recv.layout.Aligned()
    ensures !AlwaysCausal(c, 1)
  {
    var r, i, x := UnalignedMisses(c.recv);
    assert x < c.send.Total() by { MessageOf(c.recv, i, x); }
    var s := LaunchMarked(c, x);
    s := ReceiveAllBut(c, FromBlank(c), s, i, x, i);
    NotCausal(c, s, i, r, x);
  }

  lemma GroupingNotCausal(c: Config)
    requires c.Valid() && c.pollers > 0 && c.recv.layout.Aligned()
    requires c.sendThreaded && c.send.layout.Threshold() > 1
    ensures !AlwaysCausal(c, 1)
  {
    var x := M.Victim(c);
    var s := M.LandWrong(c, x);
    PartitionOfElement(c.recv, x);
    AlignedIsSafe(c.recv.layout);
    RangeInBounds(c.recv.layout, x / c.recv.userSize);
    NotCausal(c, s, c.Parts(), x / c.recv.userSize, x);
  }

  lemma CausalIf(c: Config, k: nat)
    requires c.Valid() && c.send.layout.Aligned() && c.recv.layout.Aligned()
    requires k != 1 || c.send.layout.Threshold() == 1 || !c.sendThreaded
    ensures AlwaysCausal(c, k)
  {
    forall s0: System, es: seq<Event>, a: R.Event, r: nat, x: nat
      ensures CausalAt(c, s0, es, a, r, x, k)
    {
      if Possible(c, s0, es) && Enabled(c, After(c, s0, es), Recv(a)) && R.Answers1(After(c, s0, es).rcv, a, r) &&
         R.InRound(After(c, s0, es).rcv) && After(c, s0, es).rcv.round == k &&
         r < c.recv.layout.users && c.recv.InPartition(r, x) {
        assert k >= 1 by { AlwaysBase(c, s0, es); }
        MulMono(r + 1, c.recv.layout.users, c.recv.userSize);
        var i := FindSlice(c.send, x);
        if k < 2 { AlwaysTrusted(c, s0, es, i, k); }
        ArrivalCausality(c, s0, es, a, r, i, x);
      }
    }
  }

  /** Causality in every run, exactly.  For a pair that agrees on its messages, whose sender is aligned
      and whose receiver polls at all, every positive answer of the first round is causal if and only
      if the receiver is aligned too, and a single partition starts each message or the sender's
      set-up does not run in the background; and this is also exactly when every positive answer of
      every round is.  For an aligned receiver all later rounds are causal in any case. */
  lemma CausalityExactly(c: Config)
    requires c.Valid() && c.send.layout.Aligned() && c.pollers > 0
    ensures AlwaysCausal(c, 1) <==>
      c.recv.layout.Aligned() && (c.send.layout.Threshold() == 1 || !c.sendThreaded)
    ensures AlwaysCausal(c, 1) ==> forall k: nat :: AlwaysCausal(c, k)
    ensures c.recv.layout.Aligned() ==> forall k: nat :: k >= 2 ==> AlwaysCausal(c, k)
  {
    ThresholdPositive(c.send.layout);
    if !c.recv.layout.Aligned() {
      UnalignedNotCausal(c);
    } else {
      if c.sendThreaded && c.send.layout.Threshold() > 1 { GroupingNotCausal(c); }
      forall k: nat | k != 1 || c.send.layout.Threshold() == 1 || !c.sendThreaded
        ensures AlwaysCausal(c, k)
      {
        CausalIf(c, k);
      }
    }
  }
}
