/**
 Building runs of the whole system: the states some run leads to, runs of the sender alone lifted
 into the system, and the straight way of the receiver through its first round.
 */
module SystemRuns {
  import opened Partitioning
  import opened Mpi
  import opened Basics
  import opened EndToEnd
  import S = SendProtocol
  import P = SendProgress
  import G = SendGuarantees
  import R = ReceiveProtocol
  import Q = ReceiveRuns

  /** Where a run sets out: a start state and the events so far. */
  datatype Origin = Origin(start: System, past: seq<Event>)

  /** Some continuation of the run `o` leads to `s`. */
  ghost predicate Reach(c: Config, o: Origin, s: System) {
    exists es :: Possible(c, o.start, o.past + es) && After(c, o.start, o.past + es) == s
  }

  lemma Onward(c: Config, o: Origin, s: System, e: Event) returns (t: System)
    requires Reach(c, o, s) && Enabled(c, s, e)
    ensures t == Apply(c, s, e) && Reach(c, o, t) && Sized(c, t)
  {
    var es :| Possible(c, o.start, o.past + es) && After(c, o.start, o.past + es) == s;
    t := Apply(c, s, e);
    OneMore(c, o.start, o.past + es, e);
    assert o.past + es + [e] == o.past + (es + [e]);
  }

  lemma OneMore(c: Config, start: System, es: seq<Event>, e: Event)
    requires Possible(c, start, es) && Enabled(c, After(c, start, es), e)
    ensures Possible(c, start, es + [e]) && After(c, start, es + [e]) == Apply(c, After(c, start, es), e)
    ensures Sized(c, After(c, start, es + [e]))
  {
    assert (es + [e])[..|es + [e]| - 1] == es;
    AlwaysBase(c, start, es + [e]);
  }

  lemma ReachedInv(c: Config, o: Origin, s: System)
    requires Reach(c, o, s)
    ensures Inv(c, s)
  {
    var es :| Possible(c, o.start, o.past + es) && After(c, o.start, o.past + es) == s;
    AlwaysInv(c, o.start, o.past + es);
  }

  // ----- the run of each side

  /** The receiver's part of a run, and the sender's. */
  ghost function ReceiverEvents(es: seq<Event>): seq<R.Event> {
    if es == [] then []
    else
      var front := ReceiverEvents(es[..|es| - 1]);
      if es[|es| - 1].Recv? then front + [es[|es| - 1].r] else front
  }

  ghost function SenderEvents(es: seq<Event>): seq<S.Event> {
    if es == [] then []
    else
      var front := SenderEvents(es[..|es| - 1]);
      if es[|es| - 1].Send? then front + [es[|es| - 1].s] else front
  }

  /** What happens to the receiver in a run of the pair is a run of the receiver: everything proved about
      its runs alone holds within the pair. */
  lemma {:induction false} ReceiverRun(c: Config, start: System, es: seq<Event>)
    requires Possible(c, start, es)
    ensures R.Possible(c.Receiving(), ReceiverEvents(es))
    ensures R.After(c.Receiving(), ReceiverEvents(es)) == After(c, start, es).rcv
    decreases |es|
  {
    if es != [] {
      var front, e := es[..|es| - 1], es[|es| - 1];
      ReceiverRun(c, start, front);
      if e.Recv? { Q.OneMore(c.Receiving(), ReceiverEvents(front), e.r); }
    }
  }

  lemma {:induction false} SenderRun(c: Config, start: System, es: seq<Event>)
    requires Possible(c, start, es)
    ensures S.Possible(c.Sending(), SenderEvents(es))
    ensures S.After(c.Sending(), SenderEvents(es)) == After(c, start, es).snd
    decreases |es|
  {
    if es != [] {
      var front, e := es[..|es| - 1], es[|es| - 1];
      SenderRun(c, start, front);
      if e.Send? {
        var fs := SenderEvents(front);
        assert (fs + [e.s])[..|fs + [e.s]| - 1] == fs;
      }
    }
  }

  /** The system in which nothing has happened and both buffers hold zeros. */
  function Blank(c: Config): System
    requires c.Valid()
  {
    System(S.Init(c.Sending()), R.Init(c.Receiving()),
           Uniform<Elem>(c.send.Total(), 0), Uniform<Elem>(c.send.Total(), 0),
           Uniform(c.Parts(), []), Uniform<nat>(c.Parts(), 0), Uniform<nat>(c.Parts(), 0), [])
  }

  lemma BlankReached(c: Config)
    requires c.Valid()
    ensures Reach(c, FromBlank(c), Blank(c)) && Sized(c, Blank(c))
  {
    assert Start(c, Blank(c));
    assert Possible(c, Blank(c), [] + []) && After(c, Blank(c), [] + []) == Blank(c);
  }

  function FromBlank(c: Config): Origin
    requires c.Valid()
  {
    Origin(Blank(c), [])
  }

  lemma RunFromBlank(c: Config, s: System) returns (es: seq<Event>)
    requires c.Valid() && Reach(c, FromBlank(c), s)
    ensures Possible(c, Blank(c), es) && After(c, Blank(c), es) == s
  {
    var fs :| Possible(c, Blank(c), [] + fs) && After(c, Blank(c), [] + fs) == s;
    es := [] + fs;
  }

  // ----- runs of the sender inside the whole system

  /** A step of the sender's protocol is a step of the system; the receiver does not notice. */
  lemma LiftAnyStep(c: Config, o: Origin, s: System, a: S.Event) returns (t: System)
    requires Reach(c, o, s) && S.Enabled(c.Sending(), s.snd, a)
    ensures Enabled(c, s, Send(a)) && t == Apply(c, s, Send(a)) && Reach(c, o, t) && Sized(c, t)
    ensures t.snd == S.Apply(c.Sending(), s.snd, a) && t.rcv == s.rcv
  {
    assert Enabled(c, s, Send(a)) by {
      ReachedInv(c, o, s);
      SendUnblocked(c, s, a);
    }
    t := Onward(c, o, s, Send(a));
  }

  lemma {:induction false} LiftAnyRun(c: Config, o: Origin, s: System, fs: seq<S.Event>, u: S.Sender)
    returns (t: System)
    requires Reach(c, o, s) && P.Leads(c.Sending(), s.snd, fs, u)
    ensures Reach(c, o, t) && t.snd == u && t.rcv == s.rcv
    decreases |fs|
  {
    if fs == [] {
      t := s;
    } else {
      var r := LiftAnyStep(c, o, s, fs[0]);
      t := LiftAnyRun(c, o, r, fs[1..], u);
    }
  }

  /** Only the sender and its record have moved, and no further message is over. */
  ghost predicate OnlySender(s: System, t: System) {
    && t == s.(snd := t.snd, log := t.log) && NoneCompleted(s.snd, t.snd)
  }

  ghost predicate NoneCompleted(a: S.Sender, b: S.Sender) {
    forall i: nat :: i < |b.board.reqs| && b.board.reqs[i] == Complete ==>
      i < |a.board.reqs| && a.board.reqs[i] == Complete
  }

  lemma OnlyTransportCompletes(c: S.Config, s: S.Sender, a: S.Event)
    requires S.Enabled(c, s, a) && !a.Transport?
    ensures NoneCompleted(s, S.Apply(c, s, a))
  {}

  lemma {:induction false} LiftRun(c: Config, o: Origin, s: System, fs: seq<S.Event>, u: S.Sender) returns (t: System)
    requires Reach(c, o, s) && Sized(c, s)
    requires P.Leads(c.Sending(), s.snd, fs, u) && S.Untransported(fs)
    ensures Reach(c, o, t) && Sized(c, t) && t.snd == u && OnlySender(s, t)
    decreases |fs|
  {
    if fs == [] {
      t := s;
    } else {
      assert fs[0] in fs;
      var r := LiftAnyStep(c, o, s, fs[0]);
      OnlyTransportCompletes(c.Sending(), s.snd, fs[0]);
      t := LiftRun(c, o, r, fs[1..], u);
    }
  }

  lemma {:induction false} RunLeads(c: S.Config, es: seq<S.Event>)
    requires S.Possible(c, es)
    ensures P.Leads(c, S.Init(c), es, S.After(c, es))
    decreases |es|
  {
    if es != [] {
      var front, e := es[..|es| - 1], es[|es| - 1];
      RunLeads(c, front);
      var s := S.After(c, front);
      assert P.Leads(c, S.Apply(c, s, e), [e][1..], S.Apply(c, s, e));
      P.LeadsJoin(c, S.Init(c), front, s, [e], S.Apply(c, s, e));
      assert front + [e] == es;
    }
  }

  /** Once everything is marked and quiet, all messages of an aligned sender are started or over. */
  lemma AllStarted(c: S.Config, u: S.Sender)
    requires S.Inv(c, u) && c.layout.Aligned() && S.InRound(u) && S.SetUpOver(u)
    requires forall p: nat :: p < c.layout.users ==> S.Returned(u, p)
    ensures |u.board.reqs| == c.layout.parts
    ensures forall i: nat :: i < c.layout.parts ==> u.board.reqs[i] != Inactive
  {
    forall i: nat | i < c.layout.parts
      ensures u.board.reqs[i] != Inactive
    {
      AllReachedIffAligned(c.layout);
      G.StartsInv(c, u, i);
    }
  }

  // ----- the sender's first round, up to full queues

  predicate RecordedAsOne(s: System, x: nat) {
    s.log != [] && x in s.log[0] && s.log[0][x] == 1
  }

  /** All messages of the sender's first round are started or in their queues, element `x` is recorded
      with value 1, and the receiver has not moved. */
  ghost predicate Launched(c: Config, o: Origin, s: System, x: nat)
    requires c.Valid()
  {
    && Reach(c, o, s) && Sized(c, s) && s.rcv == R.Init(c.Receiving()) && S.InRound(s.snd)
    && |s.snd.board.reqs| == c.Parts()
    && (forall i: nat :: i < c.Parts() && s.chan[i] == [] ==> s.snd.board.reqs[i] == Started)
    && RecordedAsOne(s, x)
  }

  /** The records say 1 about `x` if `x` was 1 when its partition was marked. */
  lemma RecordOf(c: Config, s: System, x: nat)
    requires c.send.userSize > 0 && Sized(c, s) && LogInv(c, s) && S.InRound(s.snd) && s.snd.round == 1
    requires x < |s.sbuf| && s.sbuf[x] == 1 && MarkedIn(c, s.snd.users, x)
    ensures RecordedAsOne(s, x)
  {}

  /** Once everything is marked and quiet, all messages are under way and `x` is recorded as it was. */
  lemma AfterFinish(c: Config, s: System, x: nat)
    requires Base(c, s) && c.send.layout.Aligned() && S.InRound(s.snd) && S.SetUpOver(s.snd) && s.snd.round == 1
    requires forall p: nat :: p < c.send.layout.users ==> S.Returned(s.snd, p)
    requires x / c.send.userSize < c.send.layout.users && x < |s.sbuf| && s.sbuf[x] == 1
    ensures |s.snd.board.reqs| == c.Parts() && RecordedAsOne(s, x)
    ensures forall i: nat :: i < c.Parts() ==> s.snd.board.reqs[i] != Inactive
  {
    AllStarted(c.Sending(), s.snd);
    assert S.Returned(s.snd, x / c.send.userSize);
    assert MarkedIn(c, s.snd.users, x);
    RecordOf(c, s, x);
  }

  lemma WriteStep(c: Config, o: Origin, s: System, x: nat, v: Elem) returns (t: System)
    requires Reach(c, o, s) && Sized(c, s) && MayWrite(c, s, x)
    ensures Reach(c, o, t) && Sized(c, t) && t == s.(sbuf := s.sbuf[x := v])
  {
    t := Onward(c, o, s, Write(x, v));
  }

  ghost predicate Transferred(c: Config, s: System, t: System, i: nat) {
    && t == s.(snd := t.snd, chan := t.chan, put := t.put)
    && i < |s.snd.board.reqs| && i < |s.chan|
    && t.snd == s.snd.(board := s.snd.board.(reqs := s.snd.board.reqs[i := Complete]))
    && exists m :: |m| == c.send.size && (forall v :: v in m ==> v in s.sbuf) && t.chan == s.chan[i := s.chan[i] + [m]]
  }

  lemma PayloadFacts(c: Config, s: System, i: nat)
    requires c.send.SliceEnd(i) <= |s.sbuf|
    ensures |Payload(c, s, i)| == c.send.size && forall v :: v in Payload(c, s, i) ==> v in s.sbuf
  {}

  /** The transport takes message `i` out of the send buffer. */
  lemma TransferStep(c: Config, o: Origin, s: System, i: nat) returns (t: System)
    requires c.Valid() && Reach(c, o, s) && Sized(c, s) && i < c.Parts()
    requires i < |s.snd.board.reqs| && s.snd.board.reqs[i] == Started
    ensures Reach(c, o, t) && Sized(c, t) && Transferred(c, s, t, i)
  {
    assert c.send.SliceEnd(i) <= |s.sbuf| by { SliceBounds(c, i); }
    PayloadFacts(c, s, i);
    t := LiftAnyStep(c, o, s, S.Transport(i));
  }

  predicate QueuedUpTo(s: System, n: nat) {
    n <= |s.chan| && forall i: nat :: i < n ==> s.chan[i] != []
  }

  /** Queues have only become longer. */
  predicate HeadsKept(s: System, t: System) {
    && t.rbuf == s.rbuf && |t.chan| == |s.chan|
    && forall i: nat :: i < |s.chan| && s.chan[i] != [] ==> t.chan[i] != [] && t.chan[i][0] == s.chan[i][0]
  }

  lemma TransferOne(c: Config, o: Origin, s: System, i: nat, x: nat) returns (t: System)
    requires c.Valid() && Launched(c, o, s, x) && i < c.Parts() && QueuedUpTo(s, i)
    ensures Launched(c, o, t, x) && QueuedUpTo(t, i + 1) && HeadsKept(s, t)
  {
    t := s;
    if s.chan[i] == [] {
      t := TransferStep(c, o, s, i);
    }
  }

  lemma TransferUpTo(c: Config, o: Origin, s0: System, n: nat, x: nat) returns (s: System)
    requires c.Valid() && Launched(c, o, s0, x) && n <= c.Parts()
    ensures Launched(c, o, s, x) && QueuedUpTo(s, n) && HeadsKept(s0, s)
    decreases n
  {
    if n == 0 {
      s := s0;
    } else {
      var r := TransferUpTo(c, o, s0, n - 1, x);
      s := TransferOne(c, o, r, n - 1, x);
    }
  }

  // ----- the receiver's first round

  lemma RecvStep(c: Config, o: Origin, s: System, a: R.Event) returns (t: System)
    requires Reach(c, o, s) && Sized(c, s)
    requires R.Enabled(c.Receiving(), s.rcv, a) && !a.Deliver?
    ensures t == s.(rcv := R.Apply(c.Receiving(), s.rcv, a)) && Reach(c, o, t) && Sized(c, t)
  {
    t := Onward(c, o, s, Recv(a));
  }

  lemma SetReceiverUp(c: Config, o: Origin, s0: System) returns (s: System)
    requires c.Valid() && Reach(c, o, s0) && Sized(c, s0) && s0.rcv == R.Init(c.Receiving())
    ensures Reach(c, o, s) && Sized(c, s) && s == s0.(rcv := s.rcv)
    ensures R.SetUpOver(s.rcv) && s.rcv.threaded != Running && s.rcv.main == R.Out && s.rcv.round == 0
    ensures R.AllAtRest(s.rcv) && |s.rcv.reqs| == c.Parts() && |s.rcv.cache| == c.recv.layout.users
    ensures |s.rcv.polls| == c.pollers
  {
    s := s0;
    if c.recvThreaded {
      s := RecvStep(c, o, s, R.SetUp);
      s := RecvStep(c, o, s, R.Lock);
      s := RecvStep(c, o, s, R.CatchUp);
      s := RecvStep(c, o, s, R.Release);
    }
  }

  /** The receiver is in its first round: the first `n` messages except `w` have landed, the others
      wait in their queues, and nobody has asked for anything yet. */
  ghost predicate Landing(c: Config, o: Origin, s: System, n: nat, w: nat)
    requires c.Valid()
  {
    && Reach(c, o, s) && Sized(c, s) && n <= c.Parts() && Q.Unasked(c.Receiving(), s.rcv)
    && (forall i: nat :: i < c.Parts() ==> s.rcv.reqs[i] == if i < n && i != w then Complete else Started)
    && (forall i: nat :: n <= i < c.Parts() ==> s.chan[i] != [])
  }

  lemma OpenReceiver(c: Config, o: Origin, s0: System, x: nat, w: nat) returns (s: System)
    requires c.Valid() && Launched(c, o, s0, x) && QueuedUpTo(s0, c.Parts())
    ensures Landing(c, o, s, 0, w) && s == s0.(rcv := s.rcv)
  {
    s := SetReceiverUp(c, o, s0);
    s := RecvStep(c, o, s, R.Begin);
    s := RecvStep(c, o, s, R.Reset);
    s := RecvStep(c, o, s, R.StartReceives);
  }

  lemma HeadFits(c: Config, o: Origin, s: System, i: nat)
    requires c.Valid() && Reach(c, o, s) && Sized(c, s) && i < c.Parts() && s.chan[i] != []
    ensures |s.chan[i][0]| == c.send.size == c.recv.size && i * c.recv.size + c.recv.size <= |s.rbuf|
  {
    ReachedInv(c, o, s);
    assert QueueInv(c, s, i) && QueuedInv(c, s, i, 0);
    SliceBounds(c, i);
  }

  /** What is at `x`, in slice `m`, after a message with contents `msg` was put into slice `n`. */
  lemma PlacedAt(buf: seq<Elem>, k: nat, n: nat, msg: seq<Elem>, x: nat, m: nat)
    requires |msg| == k > 0 && n * k + k <= |buf| && x < |buf| && m * k <= x < m * k + k
    ensures |Placed(buf, n * k, msg)| == |buf|
    ensures Placed(buf, n * k, msg)[x] == if n == m then msg[x - m * k] else buf[x]
  {
    SlicesApart(n, m, k);
    PlacedOutside(buf, n * k, msg, x);
  }

  lemma PlacedOutside(buf: seq<Elem>, lo: nat, msg: seq<Elem>, x: nat)
    requires lo + |msg| <= |buf| && x < |buf|
    ensures |Placed(buf, lo, msg)| == |buf|
    ensures Placed(buf, lo, msg)[x] == if lo <= x < lo + |msg| then msg[x - lo] else buf[x]
  {}

  /** Message `n` lands. */
  lemma LandOne(c: Config, o: Origin, s: System, n: nat) returns (t: System)
    requires c.Valid() && Reach(c, o, s) && Sized(c, s) && n < c.Parts() && s.chan[n] != []
    requires n < |s.rcv.reqs| && s.rcv.reqs[n] == Started
    ensures n * c.recv.size + |s.chan[n][0]| <= |s.rbuf|
    ensures Reach(c, o, t) && Sized(c, t)
    ensures t == s.(rcv := t.rcv, chan := t.chan, rbuf := Placed(s.rbuf, n * c.recv.size, s.chan[n][0]), got := t.got)
    ensures t.rcv == s.rcv.(reqs := s.rcv.reqs[n := Complete]) && t.chan == s.chan[n := s.chan[n][1..]]
  {
    HeadFits(c, o, s, n);
    t := Onward(c, o, s, Recv(R.Deliver(n)));
  }

  lemma LandNext(c: Config, o: Origin, s: System, n: nat, w: nat) returns (t: System)
    requires c.Valid() && Landing(c, o, s, n, w) && n < c.Parts()
    ensures Landing(c, o, t, n + 1, w) && t.log == s.log
    ensures forall i: nat :: n < i < c.Parts() ==> t.chan[i] == s.chan[i]
    ensures if n == w then t == s else Lands(c, s, t, n)
  {
    if n == w { t := s; } else { t := LandOne(c, o, s, n); }
  }

  /** The receive buffer has taken in the first message of queue `n`. */
  predicate Lands(c: Config, s: System, t: System, n: nat) {
    && n < |s.chan| && s.chan[n] != [] && n * c.recv.size + |s.chan[n][0]| <= |s.rbuf|
    && t.rbuf == Placed(s.rbuf, n * c.recv.size, s.chan[n][0])
  }

  /** Every message up to `n` except `w` lands, in order. */
  lemma LandUpTo(c: Config, o: Origin, s0: System, n: nat, w: nat, x: nat, m: nat) returns (s: System)
    requires c.Valid() && Landing(c, o, s0, 0, w) && n <= c.Parts()
    requires m < c.Parts() && c.send.InSlice(m, x) && x < |s0.rbuf|
    ensures Landing(c, o, s, n, w) && LandedAt(c, s0, s, n, w, x, m)
    decreases n
  {
    if n == 0 {
      s := s0;
    } else {
      var r := LandUpTo(c, o, s0, n - 1, w, x, m);
      s := LandNext(c, o, r, n - 1, w);
      if n - 1 != w { LandsAt(c, o, r, s, n - 1, x, m); }
    }
  }

  /** Of the messages from `n` on nothing has been taken, and `x`, in slice `m`, has the value message
      `m` brought if it has landed. */
  ghost predicate LandedAt(c: Config, s0: System, s: System, n: nat, w: nat, x: nat, m: nat) {
    && s.log == s0.log && x < |s.rbuf| && x < |s0.rbuf| && |s.chan| == |s0.chan|
    && (forall i: nat :: n <= i < |s.chan| ==> s.chan[i] == s0.chan[i])
    && (if m < n && m != w then Heads(c, s0, m, x, s.rbuf[x]) else s.rbuf[x] == s0.rbuf[x])
  }

  lemma LandsAt(c: Config, o: Origin, s: System, t: System, n: nat, x: nat, m: nat)
    requires c.Valid() && Reach(c, o, s) && Sized(c, s) && n < c.Parts() && Lands(c, s, t, n)
    requires c.send.InSlice(m, x) && x < |s.rbuf|
    ensures |t.rbuf| == |s.rbuf| && (n == m ==> Heads(c, s, m, x, t.rbuf[x])) && (n != m ==> t.rbuf[x] == s.rbuf[x])
  {
    HeadFits(c, o, s, n);
    PlacedAt(s.rbuf, c.recv.size, n, s.chan[n][0], x, m);
  }

  /** The first message in queue `m` has value `v` at `x`. */
  predicate Heads(c: Config, s: System, m: nat, x: nat, v: Elem) {
    m < |s.chan| && s.chan[m] != [] && m * c.recv.size <= x < m * c.recv.size + |s.chan[m][0]|
    && s.chan[m][0][x - m * c.recv.size] == v
  }

  lemma HeadsStay(c: Config, s: System, t: System, m: nat, x: nat, v: Elem)
    requires HeadsKept(s, t) && m < |s.chan| && s.chan[m] != [] && Heads(c, t, m, x, v)
    ensures Heads(c, s, m, x, v)
  {}

  /** The sender's queues fill up and the receiver takes in every message except `w`. */
  lemma ReceiveAllBut(c: Config, o: Origin, s0: System, w: nat, x: nat, m: nat) returns (s: System)
    requires c.Valid() && Launched(c, o, s0, x) && m < c.Parts() && c.send.InSlice(m, x) && x < |s0.rbuf|
    ensures Landing(c, o, s, c.Parts(), w) && RecordedAsOne(s, x) && x < |s.rbuf|
    ensures m == w ==> s.rbuf[x] == s0.rbuf[x]
    ensures m != w && s0.chan[m] != [] ==> Heads(c, s0, m, x, s.rbuf[x])
  {
    var q := TransferUpTo(c, o, s0, c.Parts(), x);
    var r := OpenReceiver(c, o, q, x, w);
    s := LandUpTo(c, o, r, c.Parts(), w, x, m);
    if m != w && s0.chan[m] != [] { HeadsStay(c, s0, q, m, x, s.rbuf[x]); }
  }
}
