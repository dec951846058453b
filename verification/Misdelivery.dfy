/**
 Exactly when does every run deliver what was marked ready?

 `EndToEnd` shows delivery wherever the double count cannot happen or cannot hurt.  Here the early
 start of `EarlySend` is carried through both sides to the return of the receiver's wait: the
 transport reads the message while its last partition is still being written, and the receiver ends
 its round with a value that was never marked ready.
 */
module Misdelivery {
  import opened Partitioning
  import opened Mpi
  import opened Basics
  import opened EndToEnd
  import opened SystemRuns
  import S = SendProtocol
  import P = SendProgress
  import E = EarlySend
  import R = ReceiveProtocol
  import Q = ReceiveRuns

  // ----- the sending half of the run

  lemma AlignedIfGrouping(c: Config)
    requires c.Valid() && c.send.layout.Threshold() > 1
    ensures c.send.layout.Aligned() && c.send.layout.users > c.send.layout.parts
  {}

  /** The first element of the last partition that message 0 needs. */
  lemma Victim(c: Config) returns (x: nat)
    requires c.Valid() && c.send.layout.Threshold() > 1
    ensures x < c.send.size <= c.send.Total()
    ensures x / c.send.userSize == c.send.layout.Threshold() - 1 < c.send.layout.users
  {
    AlignedIfGrouping(c);
    AlignedGroups(c.send.layout);
    var t := c.send.layout.Threshold();
    SizesByMultiple(c.send.layout.parts, t, c.send.size, c.send.userSize);
    x := (t - 1) * c.send.userSize;
    StrictScale(t - 1, t, c.send.userSize);
    DivUnique(x, c.send.userSize, t - 1);
    MulMono(1, c.send.layout.parts, c.send.size);
    MulMono(1, c.send.layout.parts, t);
  }

  /** The early start: message 0 is under way although the partition of `x` is not marked. */
  lemma StartEarly(c: Config, x: nat) returns (s: System)
    requires c.Valid() && c.sendThreaded && c.send.layout.Threshold() > 1
    requires x / c.send.userSize == c.send.layout.Threshold() - 1
    ensures Early(c, s, x)
  {
    BlankReached(c);
    AlignedIfGrouping(c);
    var early := E.ThreadedGroupSendsEarly(c.Sending(), c.send);
    var es :| S.Possible(c.Sending(), es) && S.Untransported(es) && S.After(c.Sending(), es) == early;
    RunLeads(c.Sending(), es);
    s := LiftRun(c, FromBlank(c), Blank(c), es, early);
  }

  ghost predicate Early(c: Config, s: System, x: nat)
    requires c.Valid()
  {
    && Reach(c, FromBlank(c), s) && Sized(c, s) && s == Blank(c).(snd := s.snd, log := s.log)
    && s.snd.main == S.In && s.snd.round == 1 && S.SetUpOver(s.snd)
    && |s.snd.board.reqs| > 0 && s.snd.board.reqs[0] == Started
    && (forall i: nat :: i < |s.snd.board.reqs| ==> s.snd.board.reqs[i] != Complete)
    && x / c.send.userSize < |s.snd.users| && s.snd.users[x / c.send.userSize] == S.Idle
  }

  /** Message 0 is on its way with the blank value of `x`, which has since been set to 1. */
  ghost predicate Spoiled(c: Config, s: System, x: nat)
    requires c.Valid()
  {
    && Reach(c, FromBlank(c), s) && Sized(c, s) && s.snd.main == S.In && s.snd.round == 1 && S.SetUpOver(s.snd)
    && s.rcv == R.Init(c.Receiving()) && BlankHead(s, x)
    && x < |s.sbuf| && s.sbuf[x] == 1
    && (forall i: nat :: i < |s.snd.board.reqs| && s.snd.board.reqs[i] == Complete ==> i == 0)
  }

  /** The first message in queue 0 has the blank value at `x`. */
  predicate BlankHead(s: System, x: nat) {
    0 < |s.chan| && s.chan[0] != [] && x < |s.chan[0][0]| && s.chan[0][0][x] == 0
  }

  lemma Spoil(c: Config, s0: System, x: nat) returns (s: System)
    requires c.Valid() && Early(c, s0, x) && x < c.send.size && x < |s0.sbuf|
    ensures Spoiled(c, s, x)
  {
    s := TransferStep(c, FromBlank(c), s0, 0);
    assert s.chan[0][0][x] in s.chan[0][0];
    s := WriteStep(c, FromBlank(c), s, x, 1);
  }

  lemma Launch(c: Config, s0: System, x: nat) returns (s: System)
    requires c.Valid() && c.send.layout.Aligned() && Spoiled(c, s0, x) && x / c.send.userSize < c.send.layout.users
    ensures Launched(c, FromBlank(c), s, x) && BlankHead(s, x)
  {
    s := FinishSender(c, s0);
    assert |s.snd.board.reqs| == c.Parts() && RecordedAsOne(s, x)
      && forall i: nat :: i < c.Parts() ==> s.snd.board.reqs[i] != Inactive by
    {
      ReachedInv(c, FromBlank(c), s);
      AfterFinish(c, s, x);
    }
  }

  lemma FinishSender(c: Config, s0: System) returns (s: System)
    requires c.Valid() && Reach(c, FromBlank(c), s0) && Sized(c, s0) && s0.snd.main == S.In && S.SetUpOver(s0.snd)
    ensures Reach(c, FromBlank(c), s) && Sized(c, s) && OnlySender(s0, s)
    ensures s.snd.main == S.In && S.SetUpOver(s.snd) && s.snd.round == s0.snd.round
    ensures forall p: nat :: p < c.send.layout.users ==> S.Returned(s.snd, p)
  {
    ReachedInv(c, FromBlank(c), s0);
    P.Stay(c.Sending(), s0.snd);
    var u := P.FinishPartitions(c.Sending(), s0.snd, s0.snd, c.send.layout.users);
    var fs :| S.Untransported(fs) && P.Leads(c.Sending(), s0.snd, fs, u);
    s := LiftRun(c, FromBlank(c), s0, fs, u);
  }

  // ----- the receiving half

  /** All messages have landed in the receiver's first round, and element `x` has the blank value
      although it was marked ready with value 1. */
  ghost predicate LandedWrong(c: Config, s: System, x: nat)
    requires c.Valid()
  {
    Landing(c, FromBlank(c), s, c.Parts(), c.Parts()) && RecordedAsOne(s, x) && x < |s.rbuf| && s.rbuf[x] == 0
  }

  lemma SendWrong(c: Config, x: nat) returns (s: System)
    requires c.Valid() && c.sendThreaded && c.send.layout.Threshold() > 1 && x < c.send.size <= c.send.Total()
    requires x / c.send.userSize == c.send.layout.Threshold() - 1 < c.send.layout.users
    ensures Launched(c, FromBlank(c), s, x) && BlankHead(s, x)
  {
    s := StartEarly(c, x);
    s := Spoil(c, s, x);
    AlignedIfGrouping(c);
    s := Launch(c, s, x);
  }

  lemma LandWrong(c: Config, x: nat) returns (s: System)
    requires c.Valid() && c.sendThreaded && c.send.layout.Threshold() > 1 && x < c.send.size <= c.send.Total()
    requires x / c.send.userSize == c.send.layout.Threshold() - 1 < c.send.layout.users
    ensures LandedWrong(c, s, x)
  {
    s := SendWrong(c, x);
    assert x < |s.rbuf|;
    s := ReceiveWrong(c, s, x);
  }

  lemma ReceiveWrong(c: Config, s0: System, x: nat) returns (s: System)
    requires c.Valid() && Launched(c, FromBlank(c), s0, x) && BlankHead(s0, x) && x < c.send.size && x < |s0.rbuf|
    ensures LandedWrong(c, s, x)
  {
    s := ReceiveAllBut(c, FromBlank(c), s0, c.Parts(), x, 0);
    assert Heads(c, s0, 0, x, s.rbuf[x]);
  }

  lemma WaitReturns(c: R.Config, r: R.Receiver)
    requires c.layout.Positive() && Q.Unasked(c, r) && forall i: nat :: i < c.layout.parts ==> r.reqs[i] == Complete
    ensures R.Enabled(c, r, R.BeginWait)
    ensures R.Enabled(c, R.Apply(c, r, R.BeginWait), R.EndWait) && R.Apply(c, r, R.BeginWait).round == 1
  {}

  /** The receiver's wait can return, with the blank value at `x`. */
  lemma EndWrong(c: Config, s0: System, x: nat) returns (s: System)
    requires c.Valid() && LandedWrong(c, s0, x)
    ensures Reach(c, FromBlank(c), s) && RecordedAsOne(s, x) && x < |s.rbuf| && s.rbuf[x] == 0
    ensures s.rcv.round == 1 && Enabled(c, s, Recv(R.EndWait))
  {
    WaitReturns(c.Receiving(), s0.rcv);
    s := RecvStep(c, FromBlank(c), s0, R.BeginWait);
  }

  // ----- the exact condition

  /** If round `k` of the receiver ends after the run `es`, element `x` has a value it was marked ready
      with in the sender's round `k`. */
  ghost predicate DeliversAt(c: Config, s0: System, es: seq<Event>, a: R.Event, x: nat, k: nat)
    requires c.Valid()
  {
    Possible(c, s0, es) && Enabled(c, After(c, s0, es), Recv(a)) && After(c, s0, es).rcv.round == k &&
    R.Completes(c.Receiving(), After(c, s0, es).rcv, a) && x < c.send.Total() ==>
      x < |After(c, s0, es).rbuf| && MarkedReady(c, s0, es, k, x, After(c, s0, es).rbuf[x])
  }

  ghost predicate AlwaysDelivers(c: Config, k: nat)
    requires c.Valid()
  {
    forall s0: System, es: seq<Event>, a: R.Event, x: nat :: DeliversAt(c, s0, es, a, x, k)
  }

  lemma SometimesWrong(c: Config)
    requires c.Valid() && c.sendThreaded && c.send.layout.Threshold() > 1
    ensures !AlwaysDelivers(c, 1)
  {
    var x := Victim(c);
    var s := LandWrong(c, x);
    s := EndWrong(c, s, x);
    var es := RunFromBlank(c, s);
    RecordIsHistory(c, Blank(c), es, 1, x, 0);
    assert !DeliversAt(c, Blank(c), es, R.EndWait, x, 1);
  }

  lemma AlwaysRight(c: Config, k: nat)
    requires c.Valid() && (k != 1 || c.send.layout.Threshold() == 1 || !c.sendThreaded)
    ensures AlwaysDelivers(c, k)
  {
    forall s0: System, es: seq<Event>, a: R.Event, x: nat
      ensures DeliversAt(c, s0, es, a, x, k)
    {
      if Possible(c, s0, es) && Enabled(c, After(c, s0, es), Recv(a)) && After(c, s0, es).rcv.round == k &&
         R.Completes(c.Receiving(), After(c, s0, es).rcv, a) && x < c.send.Total() {
        CompletesInARound(c, s0, es, a);
        DeliveredIfSound(c, s0, es, a, x);
      }
    }
  }

  lemma CompletesInARound(c: Config, s0: System, es: seq<Event>, a: R.Event)
    requires Possible(c, s0, es)
    requires Enabled(c, After(c, s0, es), Recv(a)) && R.Completes(c.Receiving(), After(c, s0, es).rcv, a)
    ensures After(c, s0, es).rcv.round >= 1
  {
    AlwaysBase(c, s0, es);
    CompletionMeansLanded(c.Receiving(), After(c, s0, es).rcv, a, 0);
  }

  /** Delivery in every run, exactly, round by round: for a pair that agrees on its messages, whose
      sender's partitions are counted inside the array, every run delivers in round `k` what was marked ready in round `k` if and
      only if `k` is not the first round, or a single partition starts each message, or the sender's
      set-up does not run in the background. */
  lemma DeliveryExactly(c: Config, k: nat)
    requires c.Valid()
    ensures AlwaysDelivers(c, k) <==> k != 1 || c.send.layout.Threshold() == 1 || !c.sendThreaded
  {
    ThresholdPositive(c.send.layout);
    if k != 1 || c.send.layout.Threshold() == 1 || !c.sendThreaded {
      AlwaysRight(c, k);
    } else {
      SometimesWrong(c);
    }
  }
}
