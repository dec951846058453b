/**
 Rounds without end, and what they can carry: a pair with an aligned sender can bring any further round
 of the receiver to its end, and any contents of the send buffer to the receive buffer in it.
 */
module ManyRounds {
  import opened Partitioning
  import opened Mpi
  import opened Basics
  import opened EndToEnd
  import opened SystemRuns
  import opened RoundProgress
  import S = SendProtocol
  import P = SendProgress
  import G = SendGuarantees
  import R = ReceiveProtocol

  // ----- from one round of the receiver to the next

  /** Nothing but the receiver's protocol has moved, and that only in its polls. */
  ghost predicate OnlyPolls(s: System, t: System) {
    && t == s.(rcv := t.rcv) && t.rcv.main == s.rcv.main && t.rcv.round == s.rcv.round && t.rcv.sync == s.rcv.sync
    && |t.rcv.polls| == |s.rcv.polls|
  }

  /** Poller `k` finishes the call it is in. */
  lemma FinishPoll(c: Config, o: Origin, s0: System, k: nat) returns (s: System)
    requires c.Valid() && Reach(c, o, s0) && Sized(c, s0) && k < |s0.rcv.polls|
    ensures Reach(c, o, s) && Sized(c, s) && OnlyPolls(s0, s)
    ensures s.rcv.polls == s0.rcv.polls[k := R.Rest]
    decreases StepsLeft(s0.rcv.polls[k])
  {
    if s0.rcv.polls[k] == R.Rest {
      s := s0;
    } else {
      s := PollStep(c, o, s0, k);
      s := FinishPoll(c, o, s, k);
    }
  }

  function StepsLeft(p: R.Poll): nat {
    match p
    case Rest => 0
    case Asked(_) => 3
    case Missed(_) => 2
    case Tested(_, _) => 1
  }

  /** The next step of the call poller `k` is in. */
  lemma PollStep(c: Config, o: Origin, s: System, k: nat) returns (t: System)
    requires c.Valid() && Reach(c, o, s) && Sized(c, s) && k < |s.rcv.polls| && s.rcv.polls[k] != R.Rest
    ensures Reach(c, o, t) && Sized(c, t) && OnlyPolls(s, t)
    ensures t.rcv.polls == s.rcv.polls[k := t.rcv.polls[k]]
    ensures StepsLeft(t.rcv.polls[k]) < StepsLeft(s.rcv.polls[k])
  {
    R.PollCanGoOn(c.Receiving(), s.rcv, k) by { ReachedInv(c, o, s); }
    match s.rcv.polls[k]
    case Asked(_) => t := RecvStep(c, o, s, R.ReadCache(k));
    case Missed(_) => t := RecvStep(c, o, s, R.TestRange(k));
    case Tested(_, _) => t := RecvStep(c, o, s, R.Store(k));
  }

  lemma FinishPolls(c: Config, o: Origin, s0: System, n: nat) returns (s: System)
    requires c.Valid() && Reach(c, o, s0) && Sized(c, s0) && n <= |s0.rcv.polls|
    ensures Reach(c, o, s) && Sized(c, s) && OnlyPolls(s0, s) && forall k :: 0 <= k < n ==> s.rcv.polls[k] == R.Rest
    decreases n
  {
    if n == 0 {
      s := s0;
    } else {
      s := FinishPolls(c, o, s0, n - 1);
      s := FinishPoll(c, o, s, n - 1);
    }
  }

  /** The next round of the receiver begins. */
  lemma BeginRound(c: Config, o: Origin, s0: System) returns (s: System)
    requires c.Valid() && Reach(c, o, s0) && s0.rcv.main == R.Out
    ensures Reach(c, o, s) && s.snd == s0.snd && s.log == s0.log
    ensures s.rcv.main != R.Out && s.rcv.round == s0.rcv.round + 1
  {
    assert Sized(c, s0) by { ReachedInv(c, o, s0); }
    s := FinishSetUp(c, o, s0);
    s := FinishPolls(c, o, s, |s.rcv.polls|);
    s := RecvStep(c, o, s, R.Begin);
  }

  /** The receiver's wait returns. */
  lemma CloseRound(c: Config, o: Origin, s0: System) returns (s: System)
    requires c.Valid() && Reach(c, o, s0) && Enabled(c, s0, Recv(R.EndWait))
    ensures Reach(c, o, s) && s.snd == s0.snd && s.log == s0.log
    ensures s.rcv.main == R.Out && s.rcv.round == s0.rcv.round
  {
    s := Onward(c, o, s0, Recv(R.EndWait));
  }

  /** The wait of round `k` can return after `s`. */
  ghost predicate CanReturn(c: Config, s: System, k: nat) {
    s.rcv.round == k && Enabled(c, s, Recv(R.EndWait))
  }

  lemma RoundsCanEnd(c: Config, o: Origin, s0: System, k: nat) returns (s: System)
    requires c.Valid() && c.send.layout.Aligned() && Reach(c, o, s0)
    requires k > s0.rcv.round || (k == s0.rcv.round && s0.rcv.main != R.Out)
    ensures Reach(c, o, s) && CanReturn(c, s, k)
    ensures S.SetUpOver(s0.snd) ==> S.SetUpOver(s.snd) && s.snd.gap == s0.snd.gap
    ensures S.SetUpOver(s0.snd) && RoundsSent(s0.snd) >= k ==> s.snd == s0.snd && s.log == s0.log
    decreases k - s0.rcv.round, s0.rcv.main != R.Out
  {
    if s0.rcv.main == R.Out {
      s := BeginRound(c, o, s0);
      s := RoundsCanEnd(c, o, s, k);
    } else {
      s := ReceiverCanEnd(c, o, s0);
      if k > s0.rcv.round {
        s := CloseRound(c, o, s);
        s := RoundsCanEnd(c, o, s, k);
      }
    }
  }

  /** From every state a run of a pair with an aligned sender can be in, every round of the receiver that is
      not over yet can be brought to the return of its wait: the receiver goes through as many rounds as it
      likes. */
  lemma EveryRoundCanEnd(c: Config, s0: System, es: seq<Event>, k: nat) returns (fs: seq<Event>)
    requires Possible(c, s0, es) && c.send.layout.Aligned()
    requires k > After(c, s0, es).rcv.round || (k == After(c, s0, es).rcv.round && After(c, s0, es).rcv.main != R.Out)
    ensures Possible(c, s0, es + fs) && CanReturn(c, After(c, s0, es + fs), k)
    ensures R.Completes(c.Receiving(), After(c, s0, es + fs).rcv, R.EndWait)
  {
    AlwaysBase(c, s0, es);
    var o := Origin(s0, es);
    assert es + [] == es;
    var s := RoundsCanEnd(c, o, After(c, s0, es), k);
    fs :| Possible(c, s0, es + fs) && After(c, s0, es + fs) == s;
  }

  // ----- what a round can carry

  lemma Refilled(b: seq<Elem>, a: seq<Elem>, n: nat)
    requires 0 < n <= |b| == |a|
    ensures (b[..n - 1] + a[n - 1..])[n - 1 := b[n - 1]] == b[..n] + a[n..]
  {}

  /** The users may put anything into their buffers between two rounds. */
  lemma FillSendBuffer(c: Config, o: Origin, s0: System, b: seq<Elem>, n: nat) returns (s: System)
    requires c.Valid() && Reach(c, o, s0) && Sized(c, s0) && s0.snd.main == S.Out && |b| == c.send.Total() && n <= |b|
    ensures Reach(c, o, s) && Sized(c, s) && s == s0.(sbuf := b[..n] + s0.sbuf[n..])
    decreases n
  {
    if n == 0 {
      s := s0;
    } else {
      var r := FillSendBuffer(c, o, s0, b, n - 1);
      s := WriteStep(c, o, r, n - 1, b[n - 1]);
      Refilled(b, s0.sbuf, n);
    }
  }

  lemma FillReceiveBuffer(c: Config, o: Origin, s0: System, b: seq<Elem>, n: nat) returns (s: System)
    requires c.Valid() && Reach(c, o, s0) && Sized(c, s0) && s0.rcv.main == R.Out && |b| == c.send.Total() && n <= |b|
    ensures Reach(c, o, s) && Sized(c, s) && s == s0.(rbuf := b[..n] + s0.rbuf[n..])
    decreases n
  {
    if n == 0 {
      s := s0;
    } else {
      var r := FillReceiveBuffer(c, o, s0, b, n - 1);
      s := Onward(c, o, r, Scribble(n - 1, b[n - 1]));
      Refilled(b, s0.rbuf, n);
    }
  }

  /** The record of the sender's present round holds nothing but values of `b`, which is what the send
      buffer holds; the earlier records are those of `log`. */
  ghost predicate Recording(s: System, log: seq<map<nat, Elem>>, b: seq<Elem>) {
    && s.sbuf == b && |s.log| == |log| + 1 && s.log[..|log|] == log
    && forall x: nat :: x in s.log[|log|] ==> x < |b| && s.log[|log|][x] == b[x]
  }

  lemma StepRecords(c: Config, o: Origin, s: System, a: S.Event, log: seq<map<nat, Elem>>, b: seq<Elem>)
    returns (t: System)
    requires Reach(c, o, s) && S.Enabled(c.Sending(), s.snd, a) && !a.Begin? && Recording(s, log, b)
    ensures Reach(c, o, t) && t.snd == S.Apply(c.Sending(), s.snd, a) && t.rcv == s.rcv && Recording(t, log, b)
  {
    t := LiftAnyStep(c, o, s, a);
  }

  lemma {:induction false} RoundsGrow(c: S.Config, s: S.Sender, fs: seq<S.Event>, u: S.Sender)
    requires P.Leads(c, s, fs, u)
    ensures s.round <= u.round
    decreases |fs|
  {
    if fs != [] { RoundsGrow(c, S.Apply(c, s, fs[0]), fs[1..], u); }
  }

  lemma {:induction false} RunRecords(
    c: Config, o: Origin, s: System, fs: seq<S.Event>, u: S.Sender, log: seq<map<nat, Elem>>, b: seq<Elem>)
    returns (t: System)
    requires Reach(c, o, s) && P.Leads(c.Sending(), s.snd, fs, u) && u.round == s.snd.round && Recording(s, log, b)
    ensures Reach(c, o, t) && t.snd == u && t.rcv == s.rcv && Recording(t, log, b)
    decreases |fs|
  {
    if fs == [] {
      t := s;
    } else {
      RoundsGrow(c.Sending(), S.Apply(c.Sending(), s.snd, fs[0]), fs[1..], u);
      var r := StepRecords(c, o, s, fs[0], log, b);
      t := RunRecords(c, o, r, fs[1..], u, log, b);
    }
  }

  /** A whole round of the sender with `b` in its buffer. */
  lemma SendContents(c: Config, o: Origin, s0: System, b: seq<Elem>) returns (s: System)
    requires c.Valid() && Reach(c, o, s0) && Sized(c, s0) && S.SetUpOver(s0.snd) && s0.snd.main == S.Out && s0.sbuf == b
    ensures Reach(c, o, s) && s.rcv == s0.rcv && S.SetUpOver(s.snd) && s.snd.gap == s0.snd.gap
    ensures s.snd.main == S.Out && s.snd.round == s0.snd.round + 1 && Recording(s, s0.log, b)
  {
    s := LiftAnyStep(c, o, s0, S.Begin);
    assert S.Inv(c.Sending(), s.snd) by { ReachedInv(c, o, s); }
    var fs, u := P.CanEnd(c.Sending(), s.snd);
    LeadsKeepsGap(c.Sending(), s.snd, fs, u);
    s := RunRecords(c, o, s, fs, u, s0.log, b);
  }

  /** The receiver never has more rounds behind it than the sender. */
  lemma ReceiverBehind(c: Config, o: Origin, s: System)
    requires c.Valid() && c.send.layout.Aligned() && Reach(c, o, s) && s.snd.main == S.Out
    ensures RoundsReceived(s.rcv) <= s.snd.round
  {
    ReachedInv(c, o, s);
    AllReachedIffAligned(c.send.layout);
    assert QueueInv(c, s, 0) && LandingInv(c, s, 0);
  }

  /** Between two rounds nothing is in the gap of the first. */
  lemma NoGapYet(c: Config, o: Origin, s: System)
    requires Reach(c, o, s) && s.snd.main == S.Out && s.snd.round == 0
    ensures s.snd.gap == {}
  {
    ReachedInv(c, o, s);
  }

  /** The sender's next round is over, with `b` in its buffer. */
  lemma SentNext(c: Config, o: Origin, s0: System, b: seq<Elem>) returns (s: System)
    requires c.Valid() && c.send.layout.Aligned() && Reach(c, o, s0) && s0.snd.main == S.Out && |b| == c.send.Total()
    ensures Reach(c, o, s) && s.snd.main == S.Out && s.snd.round == s0.snd.round + 1 && S.SetUpOver(s.snd)
    ensures s.rcv == s0.rcv && RoundsReceived(s.rcv) <= s0.snd.round
    ensures s0.snd.round == 0 ==> s.snd.gap == {}
    ensures |s.log| == s.snd.round && forall x: nat :: x in s.log[s0.snd.round] ==> x < |b| && s.log[s0.snd.round][x] == b[x]
  {
    ReceiverBehind(c, o, s0);
    s := SetSenderUp(c, o, s0);
    if s0.snd.round == 0 { NoGapYet(c, o, s); }
    assert Sized(c, s) by { ReachedInv(c, o, s); }
    var w := FillSendBuffer(c, o, s, b, |b|);
    assert w.sbuf == b;
    s := SendContents(c, o, w, b);
  }

  /** Anything can be sent.  From every state a run of a pair with an aligned sender can be in between two
      rounds of the sender, and for all contents `b`, some continuation brings the receiver's wait for the
      sender's next round to return with exactly `b` in the receive buffer. */
  lemma AnythingCanBeSent(c: Config, s0: System, es: seq<Event>, b: seq<Elem>) returns (fs: seq<Event>)
    requires Possible(c, s0, es) && c.send.layout.Aligned() && After(c, s0, es).snd.main == S.Out
    requires |b| == c.send.Total()
    ensures Possible(c, s0, es + fs) && CanReturn(c, After(c, s0, es + fs), After(c, s0, es).snd.round + 1)
    ensures After(c, s0, es + fs).rbuf == b
  {
    AlwaysBase(c, s0, es);
    var o, k := Origin(s0, es), After(c, s0, es).snd.round + 1;
    assert es + [] == es;
    var t := SentNext(c, o, After(c, s0, es), b);
    var s := RoundsCanEnd(c, o, t, k);
    fs :| Possible(c, s0, es + fs) && After(c, s0, es + fs) == s;
    AlwaysBase(c, s0, es + fs);
    forall x: nat | x < c.send.Total()
      ensures s.rbuf[x] == b[x]
    {
      ReceivedIsSent(c, s0, es + fs, k, x);
    }
  }

  lemma ReceivedIsSent(c: Config, s0: System, es: seq<Event>, k: nat, x: nat)
    requires c.Valid() && c.send.layout.Aligned() && Possible(c, s0, es) && x < c.send.Total()
    requires CanReturn(c, After(c, s0, es), k) && (k >= 2 || After(c, s0, es).snd.gap == {})
    ensures x < |After(c, s0, es).rbuf| && Recorded(After(c, s0, es), k, x, After(c, s0, es).rbuf[x])
  {
    var i := FindSlice(c.send, x);
    DeliveredOnCompletion(c, s0, es, R.EndWait, i, x);
    RecordIsHistory(c, s0, es, k, x, After(c, s0, es).rbuf[x]);
  }

  /** The receive buffer is the user's between two rounds. */
  lemma BufferIsFree(c: Config, s0: System, es: seq<Event>, b: seq<Elem>) returns (fs: seq<Event>)
    requires Possible(c, s0, es) && After(c, s0, es).rcv.main == R.Out && |b| == c.send.Total()
    ensures Possible(c, s0, es + fs) && After(c, s0, es + fs) == After(c, s0, es).(rbuf := b)
  {
    AlwaysBase(c, s0, es);
    assert es + [] == es;
    var s := FillReceiveBuffer(c, Origin(s0, es), After(c, s0, es), b, |b|);
    fs :| Possible(c, s0, es + fs) && After(c, s0, es + fs) == s;
  }
}
