/**
 A pair with an aligned sender never gets stuck in a round of the receiver: from wherever a run of
 both sides has come to, some continuation takes the receiver's wait to its return.  The sender first
 completes as many rounds as the receiver has begun, then the receiver takes what is missing out of
 the queues.
 */
module RoundProgress {
  import opened Partitioning
  import opened Mpi
  import opened Basics
  import opened EndToEnd
  import opened SystemRuns
  import S = SendProtocol
  import P = SendProgress
  import R = ReceiveProtocol

  // ----- the sender

  /** After set-up the scan is over and the gap does not change any more. */
  lemma {:induction false} LeadsKeepsGap(c: S.Config, s: S.Sender, fs: seq<S.Event>, t: S.Sender)
    requires S.SetUpOver(s) && P.Leads(c, s, fs, t)
    ensures S.SetUpOver(t) && t.gap == s.gap
    decreases |fs|
  {
    if fs != [] {
      LeadsKeepsGap(c, S.Apply(c, s, fs[0]), fs[1..], t);
    }
  }

  lemma SetSenderUp(c: Config, o: Origin, s0: System) returns (s: System)
    requires Reach(c, o, s0)
    ensures Reach(c, o, s) && s.rcv == s0.rcv && s.snd.main == s0.snd.main && s.snd.round == s0.snd.round
    ensures S.SetUpOver(s.snd) && (S.SetUpOver(s0.snd) ==> s == s0)
  {
    if S.SetUpOver(s0.snd) {
      s := s0;
    } else {
      assert S.Inv(c.Sending(), s0.snd) by { ReachedInv(c, o, s0); }
      P.Stay(c.Sending(), s0.snd);
      var u := P.FinishSetUp(c.Sending(), s0.snd, s0.snd);
      var fs :| S.Untransported(fs) && P.Leads(c.Sending(), s0.snd, fs, u);
      s := LiftAnyRun(c, o, s0, fs, u);
    }
  }

  /** One more round of the sender is over. */
  lemma SendRound(c: Config, o: Origin, s0: System) returns (s: System)
    requires Reach(c, o, s0) && S.SetUpOver(s0.snd)
    ensures Reach(c, o, s) && s.rcv == s0.rcv && S.SetUpOver(s.snd) && s.snd.gap == s0.snd.gap
    ensures RoundsSent(s.snd) == RoundsSent(s0.snd) + 1
  {
    s := s0;
    assert c.send.layout.Positive() by { ReachedInv(c, o, s0); }
    if s.snd.main == S.Out { s := LiftAnyStep(c, o, s, S.Begin); }
    assert S.Inv(c.Sending(), s.snd) by { ReachedInv(c, o, s); }
    var fs, u := P.CanEnd(c.Sending(), s.snd);
    LeadsKeepsGap(c.Sending(), s.snd, fs, u);
    s := LiftAnyRun(c, o, s, fs, u);
  }

  lemma SendRounds(c: Config, o: Origin, s0: System, k: int) returns (s: System)
    requires Reach(c, o, s0) && S.SetUpOver(s0.snd)
    ensures Reach(c, o, s) && s.rcv == s0.rcv && s.snd.gap == s0.snd.gap && RoundsSent(s.snd) >= k
    ensures S.SetUpOver(s.snd)
    ensures RoundsSent(s0.snd) >= k ==> s == s0
    decreases k - RoundsSent(s0.snd)
  {
    if RoundsSent(s0.snd) >= k {
      s := s0;
    } else {
      s := SendRound(c, o, s0);
      s := SendRounds(c, o, s, k);
    }
  }

  // ----- the receiver

  /** Only the receiver's protocol has moved, within its round. */
  ghost predicate OnlyReceiver(s: System, t: System) {
    t.snd == s.snd && t.log == s.log && t.rcv.round == s.rcv.round
  }

  lemma EnterRound(c: Config, o: Origin, s0: System) returns (s: System)
    requires c.Valid() && Reach(c, o, s0) && Sized(c, s0) && s0.rcv.main != R.Out
    ensures Reach(c, o, s) && Sized(c, s) && OnlyReceiver(s0, s) && R.InRound(s.rcv)
  {
    s := s0;
    if s.rcv.main.Opening? { s := RecvStep(c, o, s, R.Reset); }
    if s.rcv.main == R.Cleared { s := RecvStep(c, o, s, R.StartReceives); }
  }

  lemma FinishSetUp(c: Config, o: Origin, s0: System) returns (s: System)
    requires c.Valid() && Reach(c, o, s0) && Sized(c, s0)
    ensures Reach(c, o, s) && Sized(c, s) && OnlyReceiver(s0, s) && s.rcv.main == s0.rcv.main && R.SetUpOver(s.rcv)
  {
    s := s0;
    if s.rcv.sync == R.Negotiating { s := RecvStep(c, o, s, R.SetUp); }
    if s.rcv.sync == R.Ready { s := RecvStep(c, o, s, R.Lock); }
    if s.rcv.sync == R.Locked { s := RecvStep(c, o, s, R.CatchUp); }
    if s.rcv.sync == R.Caught { s := RecvStep(c, o, s, R.Release); }
  }

  /** The receiver is in round `k`, set up, and of the first `n` messages none is missing. */
  ghost predicate Taking(c: Config, o: Origin, s: System, n: nat, k: nat)
    requires c.Valid()
  {
    && Reach(c, o, s) && Sized(c, s) && RoundsSent(s.snd) >= k
    && R.InRound(s.rcv) && R.SetUpOver(s.rcv) && s.rcv.round == k && s.rcv.main != R.Waiting(false)
    && n <= c.Parts() == |s.rcv.reqs| && forall i: nat :: i < n ==> s.rcv.reqs[i] != Started
  }

  /** A message that is still missing is waiting in its queue. */
  lemma MissingIsQueued(c: Config, o: Origin, s: System, i: nat)
    requires c.Valid() && c.send.layout.Aligned() && Reach(c, o, s) && Sized(c, s)
    requires RoundsSent(s.snd) >= s.rcv.round && s.rcv.main != R.Out
    requires i < c.Parts() && i < |s.rcv.reqs| && s.rcv.reqs[i] == Started
    ensures s.chan[i] != []
  {
    ReachedInv(c, o, s);
    AllReachedIffAligned(c.send.layout);
    assert QueueInv(c, s, i) && LandingInv(c, s, i);
  }

  lemma TakeOne(c: Config, o: Origin, s: System, n: nat, k: nat) returns (t: System)
    requires c.Valid() && c.send.layout.Aligned() && Taking(c, o, s, n, k) && n < c.Parts()
    ensures Taking(c, o, t, n + 1, k) && t.snd == s.snd && t.log == s.log
  {
    t := s;
    if s.rcv.reqs[n] == Started {
      MissingIsQueued(c, o, s, n);
      t := LandOne(c, o, s, n);
    }
  }

  lemma TakeUpTo(c: Config, o: Origin, s0: System, n: nat, k: nat) returns (s: System)
    requires c.Valid() && c.send.layout.Aligned() && Taking(c, o, s0, 0, k) && n <= c.Parts()
    ensures Taking(c, o, s, n, k) && s.snd == s0.snd && s.log == s0.log
    decreases n
  {
    if n == 0 {
      s := s0;
    } else {
      s := TakeUpTo(c, o, s0, n - 1, k);
      s := TakeOne(c, o, s, n - 1, k);
    }
  }

  /** The sender has finished the rounds the receiver has begun, and both are set up. */
  lemma ReadyToTake(c: Config, o: Origin, s0: System) returns (s: System)
    requires c.Valid() && Reach(c, o, s0) && s0.rcv.main != R.Out && RoundsSent(s0.snd) >= s0.rcv.round
    ensures Taking(c, o, s, 0, s0.rcv.round) && s.snd == s0.snd && s.log == s0.log
  {
    assert Sized(c, s0) by { ReachedInv(c, o, s0); }
    s := EnterRound(c, o, s0);
    s := FinishSetUp(c, o, s);
    s := JoinSetUp(c, o, s);
    assert |s.rcv.reqs| == c.Parts() by { ReachedInv(c, o, s); }
  }

  lemma JoinSetUp(c: Config, o: Origin, s0: System) returns (s: System)
    requires c.Valid() && Reach(c, o, s0) && Sized(c, s0) && R.InRound(s0.rcv) && R.SetUpOver(s0.rcv)
    ensures Reach(c, o, s) && Sized(c, s) && OnlyReceiver(s0, s)
    ensures R.InRound(s.rcv) && R.SetUpOver(s.rcv) && s.rcv.main != R.Waiting(false)
  {
    s := s0;
    if s.rcv.main == R.Waiting(false) {
      assert s.rcv.sync == R.Ended by {
        ReachedInv(c, o, s);
        WaitingIsThreaded(c.Receiving(), s.rcv);
      }
      s := RecvStep(c, o, s, R.Join);
    }
  }

  lemma WaitingIsThreaded(c: R.Config, r: R.Receiver)
    requires R.Inv(c, r) && r.main == R.Waiting(false)
    ensures c.threaded && r.sync != R.Absent
  {}

  lemma EndRound(c: Config, o: Origin, s0: System, k: nat) returns (s: System)
    requires c.Valid() && Taking(c, o, s0, c.Parts(), k)
    ensures Reach(c, o, s) && s.snd == s0.snd && s.log == s0.log && s.rcv.round == k && Enabled(c, s, Recv(R.EndWait))
  {
    s := GoWaiting(c, o, s0);
    CanEndWait(c.Receiving(), s.rcv);
  }

  lemma GoWaiting(c: Config, o: Origin, s0: System) returns (s: System)
    requires c.Valid() && Reach(c, o, s0) && Sized(c, s0)
    requires R.InRound(s0.rcv) && R.SetUpOver(s0.rcv) && s0.rcv.main != R.Waiting(false)
    ensures Reach(c, o, s) && Sized(c, s) && s == s0.(rcv := s0.rcv.(main := R.Waiting(true)))
  {
    s := s0;
    if s.rcv.main == R.In {
      assert R.Inv(c.Receiving(), s.rcv) by { ReachedInv(c, o, s); }
      CanWait(c.Receiving(), s.rcv);
      s := RecvStep(c, o, s, R.BeginWait);
    }
  }

  lemma CanWait(c: R.Config, r: R.Receiver)
    requires R.Inv(c, r) && r.main == R.In && R.SetUpOver(r)
    ensures R.Enabled(c, r, R.BeginWait) && R.Apply(c, r, R.BeginWait) == r.(main := R.Waiting(true))
  {}

  lemma CanEndWait(c: R.Config, r: R.Receiver)
    requires c.layout.Positive() && r.main == R.Waiting(true)
    requires forall i: nat :: i < |r.reqs| ==> r.reqs[i] != Started
    ensures R.Enabled(c, r, R.EndWait)
  {}

  lemma ReceiverCanEnd(c: Config, o: Origin, s0: System) returns (s: System)
    requires c.Valid() && c.send.layout.Aligned() && Reach(c, o, s0) && s0.rcv.main != R.Out
    ensures Reach(c, o, s) && s.rcv.round == s0.rcv.round && Enabled(c, s, Recv(R.EndWait))
    ensures S.SetUpOver(s.snd) && (S.SetUpOver(s0.snd) ==> s.snd.gap == s0.snd.gap)
    ensures S.SetUpOver(s0.snd) && RoundsSent(s0.snd) >= s0.rcv.round ==> s.snd == s0.snd && s.log == s0.log
  {
    s := SetSenderUp(c, o, s0);
    s := SendRounds(c, o, s, s.rcv.round);
    s := ReadyToTake(c, o, s);
    s := TakeUpTo(c, o, s, c.Parts(), s.rcv.round);
    s := EndRound(c, o, s, s.rcv.round);
  }

  /** From every state a run of a pair with an aligned sender can be in while the receiver is in its round
      `k`, some continuation takes the wait of round `k` to its return; if the sender's set-up is over,
      without another partition falling into the gap. */
  lemma RoundCanComplete(c: Config, s0: System, es: seq<Event>) returns (fs: seq<Event>)
    requires Possible(c, s0, es) && c.send.layout.Aligned() && After(c, s0, es).rcv.main != R.Out
    ensures Possible(c, s0, es + fs) && After(c, s0, es + fs).rcv.round == After(c, s0, es).rcv.round
    ensures Enabled(c, After(c, s0, es + fs), Recv(R.EndWait))
    ensures R.Completes(c.Receiving(), After(c, s0, es + fs).rcv, R.EndWait)
    ensures S.SetUpOver(After(c, s0, es).snd) ==> After(c, s0, es + fs).snd.gap == After(c, s0, es).snd.gap
  {
    AlwaysBase(c, s0, es);
    var o := Origin(s0, es);
    assert es + [] == es;
    var s := ReceiverCanEnd(c, o, After(c, s0, es));
    fs :| Possible(c, s0, es + fs) && After(c, s0, es + fs) == s;
  }

  /** If moreover message `i` cannot have been started early by a double count, the round that ends
      this way delivers it: the hypotheses of `DeliveredOnCompletion` are met. */
  lemma RoundCanDeliver(c: Config, s0: System, es: seq<Event>, i: nat, x: nat) returns (fs: seq<Event>)
    requires Possible(c, s0, es) && c.send.layout.Aligned()
    requires After(c, s0, es).rcv.main != R.Out && S.SetUpOver(After(c, s0, es).snd)
    requires c.Valid() && i < c.Parts() && c.send.InSlice(i, x)
    requires Trusted(c, After(c, s0, es), i, After(c, s0, es).rcv.round)
    ensures Possible(c, s0, es + fs) && Enabled(c, After(c, s0, es + fs), Recv(R.EndWait))
    ensures x < |After(c, s0, es + fs).rbuf|
    ensures MarkedReady(c, s0, es + fs, After(c, s0, es).rcv.round, x, After(c, s0, es + fs).rbuf[x])
  {
    fs := RoundCanComplete(c, s0, es);
    DeliveredOnCompletion(c, s0, es + fs, R.EndWait, i, x);
  }

  /** Some round of the receiver can end. */
  ghost predicate SomeRoundEnds(c: Config) {
    exists s0: System, es: seq<Event>, a: R.Event :: RoundEnds(c, s0, es, a)
  }

  ghost predicate RoundEnds(c: Config, s0: System, es: seq<Event>, a: R.Event) {
    Possible(c, s0, es) && Enabled(c, After(c, s0, es), Recv(a)) && R.Completes(c.Receiving(), After(c, s0, es).rcv, a)
  }

  /** The receiver's wait can return, in any round and from anywhere in it, if and only if the sender is
      aligned; otherwise no round of the receiver ever ends. */
  lemma SomeRoundEndsIffAligned(c: Config)
    requires c.Valid()
    ensures SomeRoundEnds(c) <==> c.send.layout.Aligned()
  {
    if c.send.layout.Aligned() {
      var es := BeginAtOnce(c);
      var fs := RoundCanComplete(c, Blank(c), es);
      assert RoundEnds(c, Blank(c), es + fs, R.EndWait);
    } else {
      forall s0: System, es: seq<Event>, a: R.Event
        ensures !RoundEnds(c, s0, es, a)
      {
        if Possible(c, s0, es) { NeverEnds(c, s0, es, a); }
      }
    }
  }

  lemma BeginAtOnce(c: Config) returns (es: seq<Event>)
    requires c.Valid()
    ensures Possible(c, Blank(c), es) && After(c, Blank(c), es).rcv.main != R.Out
  {
    BlankReached(c);
    var s := RecvStep(c, FromBlank(c), Blank(c), R.Begin);
    es := RunFromBlank(c, s);
  }
}
