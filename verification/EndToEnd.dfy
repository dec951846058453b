/**
 Both sides of a matched pair, the buffers and the network between them.

 Message `i` of either side uses its own tag, and messages with one tag do not overtake each other
 (section 3.5 of MPI 4.0), so the network is one queue per message index.  The transport may read a
 started message out of the send buffer at any moment until it completes it, and the sender may
 be rounds ahead of the receiver.
 */
module EndToEnd {
  import opened Partitioning
  import opened Mpi
  import opened Basics
  import S = SendProtocol
  import G = SendGuarantees
  import R = ReceiveProtocol
  import N = Negotiation

  /** Elements are only moved, never looked at. */
  type Elem = int

  datatype Config = Config(
    send: Geometry, sendThreaded: bool, recv: Geometry, recvThreaded: bool, pollers: nat)
  {
    /** The two sides agree on the messages; the sender's partitions are counted inside the array. */
    predicate Valid() {
      && send.Valid() && recv.Valid() && send.layout.Safe()
      && send.layout.parts == recv.layout.parts && send.size == recv.size
    }

    function Sending(): S.Config {
      S.Config(send.layout, sendThreaded)
    }

    function Receiving(): R.Config {
      R.Config(recv.layout, recvThreaded, pollers)
    }

    function Parts(): nat {
      send.layout.parts
    }
  }

  /** `log[k]` records, for round `k + 1` of the sender, the elements marked ready with the values
      they had when they were; `put` and `got` count the messages sent and received per tag. */
  datatype System = System(
    snd: S.Sender, rcv: R.Receiver, sbuf: seq<Elem>, rbuf: seq<Elem>,
    chan: seq<seq<seq<Elem>>>, put: seq<nat>, got: seq<nat>, log: seq<map<nat, Elem>>)

  datatype Event =
    | Send(s: S.Event)
    | Recv(r: R.Event)
    | Write(at: nat, value: Elem)     // the sending user fills the send buffer
    | Scribble(at: nat, value: Elem)  // the receiving user reuses the receive buffer

  predicate Start(c: Config, s: System) {
    && c.Valid() && s.snd == S.Init(c.Sending()) && s.rcv == R.Init(c.Receiving())
    && |s.sbuf| == |s.rbuf| == c.send.Total()
    && |s.chan| == |s.put| == |s.got| == c.Parts() && s.log == []
    && forall i :: 0 <= i < c.Parts() ==> s.chan[i] == [] && s.put[i] == 0 && s.got[i] == 0
  }

  predicate Sized(c: Config, s: System) {
    && |s.sbuf| == |s.rbuf| == c.send.Total()
    && |s.chan| == |s.put| == |s.got| == c.Parts() && |s.log| == s.snd.round
  }

  /** A marked element belongs to the transport until the round is over. */
  predicate MayWrite(c: Config, s: System, x: nat) {
    && x < |s.sbuf| && c.send.userSize > 0
    && (s.snd.main == S.Out ||
        (s.snd.main == S.In && x / c.send.userSize < |s.snd.users| && s.snd.users[x / c.send.userSize] == S.Idle))
  }

  predicate Enabled(c: Config, s: System, e: Event) {
    match e
    case Send(a) =>
      && S.Enabled(c.Sending(), s.snd, a) && Sized(c, s)
      && (a.Mark? ==> c.send.userSize > 0 && s.log != [])
      && (a.Transport? ==> a.msg < c.Parts() && c.send.SliceEnd(a.msg) <= |s.sbuf|)
    case Recv(a) =>
      && R.Enabled(c.Receiving(), s.rcv, a) && Sized(c, s)
      && (a.Deliver? ==> a.msg < c.Parts() && s.chan[a.msg] != []
                         && a.msg * c.recv.size + |s.chan[a.msg][0]| <= |s.rbuf|)
    case Write(x, v) => MayWrite(c, s, x)
    case Scribble(x, v) => x < |s.rbuf| && s.rcv.main == R.Out
  }

  /** The elements of partition `p`, with their present values. */
  function SentBy(c: Config, s: System, p: nat): map<nat, Elem>
    requires c.send.userSize > 0
  {
    map x: nat | x < |s.sbuf| && x / c.send.userSize == p :: s.sbuf[x]
  }

  function Payload(c: Config, s: System, i: nat): seq<Elem>
    requires c.send.SliceEnd(i) <= |s.sbuf|
  {
    s.sbuf[i * c.send.size..c.send.SliceEnd(i)]
  }

  /** The buffer `b` with `m` written at offset `lo`. */
  function Placed(b: seq<Elem>, lo: nat, m: seq<Elem>): seq<Elem>
    requires lo + |m| <= |b|
  {
    b[..lo] + m + b[lo + |m|..]
  }

  function Apply(c: Config, s: System, e: Event): System
    requires Enabled(c, s, e)
  {
    match e
    case Send(a) =>
      var t := s.(snd := S.Apply(c.Sending(), s.snd, a));
      (match a
       case Begin => t.(log := s.log + [map[]])
       case Mark(p) => t.(log := s.log[|s.log| - 1 := s.log[|s.log| - 1] + SentBy(c, s, p)])
       case Transport(i) => t.(chan := s.chan[i := s.chan[i] + [Payload(c, s, i)]], put := s.put[i := s.put[i] + 1])
       case _ => t)
    case Recv(a) =>
      var t := s.(rcv := R.Apply(c.Receiving(), s.rcv, a));
      (match a
       case Deliver(i) => t.(rbuf := Placed(s.rbuf, i * c.recv.size, s.chan[i][0]), chan := s.chan[i := s.chan[i][1..]], got := s.got[i := s.got[i] + 1])
       case _ => t)
    case Write(x, v) => s.(sbuf := s.sbuf[x := v])
    case Scribble(x, v) => s.(rbuf := s.rbuf[x := v])
  }

  // ----- the invariant

  /** `m` carries the values of message `i` recorded in `l`. */
  ghost predicate Carries(c: Config, m: seq<Elem>, l: map<nat, Elem>, i: nat) {
    && |m| == c.send.size
    && forall x: nat :: c.send.InSlice(i, x) ==> x in l && l[x] == m[x - i * c.send.size]
  }

  predicate MarkedIn(c: Config, users: seq<S.User>, x: nat)
    requires c.send.userSize > 0
  {
    x / c.send.userSize < |users| && users[x / c.send.userSize] != S.Idle
  }

  /** `l` holds exactly the elements of the marked partitions, with the values in `buf`. */
  ghost predicate Records(c: Config, l: map<nat, Elem>, users: seq<S.User>, buf: seq<Elem>)
    requires c.send.userSize > 0
  {
    && (forall x: nat :: x in l <==> x < |buf| && MarkedIn(c, users, x))
    && (forall x: nat :: x in l ==> l[x] == buf[x])
  }

  /** The record of the current round is up to date. */
  ghost predicate LogInv(c: Config, s: System)
    requires c.send.userSize > 0 && Sized(c, s)
  {
    && (S.InRound(s.snd) && s.log != [] ==> Records(c, s.log[|s.log| - 1], s.snd.users, s.sbuf))
    && (s.snd.main.Opening? && s.log != [] ==> s.log[|s.log| - 1] == map[])
  }

  /** The rounds of the sender that are over, and those of the receiver. */
  function RoundsSent(s: S.Sender): int {
    if s.main == S.Out then s.round else s.round - 1
  }

  function RoundsReceived(s: R.Receiver): int {
    if s.main == R.Out then s.round else s.round - 1
  }

  predicate OverNow(s: System, i: nat) {
    S.InRound(s.snd) && i < |s.snd.board.reqs| && s.snd.board.reqs[i] == Complete
  }

  /** What message `i` carries in round `k` can be relied on: the sender is aligned, and the double
      count of the first round cannot have happened to the message, or cannot hurt it. */
  ghost predicate Trusted(c: Config, s: System, i: nat, k: nat) {
    c.send.layout.Aligned() && (k >= 2 || G.Harmless(c.Sending(), s.snd, i))
  }

  /** How often message `i` has been sent: once a round if some partition is counted towards it, and
      never otherwise. */
  ghost function SentCount(c: Config, s: System, i: nat): int {
    if c.send.layout.Positive() && c.send.layout.Reached(i)
    then RoundsSent(s.snd) + (if OverNow(s, i) then 1 else 0) else 0
  }

  ghost predicate QueueInv(c: Config, s: System, i: nat)
    requires Sized(c, s) && i < c.Parts()
  {
    && s.put[i] == SentCount(c, s, i)
    && s.got[i] <= s.put[i] <= |s.log| && |s.chan[i]| == s.put[i] - s.got[i]
    && forall j: nat :: j < |s.chan[i]| ==> QueuedInv(c, s, i, j)
  }

  ghost predicate QueuedInv(c: Config, s: System, i: nat, j: nat)
    requires i < |s.chan| && j < |s.chan[i]| && i < |s.got| && s.got[i] + j < |s.log|
  {
    && |s.chan[i][j]| == c.send.size
    && (Trusted(c, s, i, s.got[i] + j + 1) ==> Carries(c, s.chan[i][j], s.log[s.got[i] + j], i))
  }

  predicate Landed(r: R.Receiver, i: nat) {
    r.main != R.Out && R.Receiving(r) && i < |r.reqs| && r.reqs[i] != Started
  }

  /** How often message `i` has landed. */
  ghost function LandedCount(s: R.Receiver, i: nat): int {
    RoundsReceived(s) + (if Landed(s, i) then 1 else 0)
  }

  predicate LandedNow(s: System, i: nat) {
    Landed(s.rcv, i)
  }

  ghost predicate LandingInv(c: Config, s: System, i: nat)
    requires Sized(c, s) && i < c.Parts()
  {
    && s.got[i] == RoundsReceived(s.rcv) + (if LandedNow(s, i) then 1 else 0)
    && (LandedNow(s, i) && 1 <= s.rcv.round <= |s.log| && Trusted(c, s, i, s.rcv.round) ==>
          Carries(c, Slice(c, s, i), s.log[s.rcv.round - 1], i))
  }

  /** The slice of message `i` in the receive buffer. */
  function Slice(c: Config, s: System, i: nat): seq<Elem> {
    Cut(s.rbuf, i * c.send.size, c.send.size)
  }

  function Cut(b: seq<Elem>, at: nat, n: nat): seq<Elem> {
    if at + n <= |b| then b[at..at + n] else []
  }

  ghost predicate DataInv(c: Config, s: System)
    requires Sized(c, s)
  {
    && (forall i: nat :: i < c.Parts() ==> QueueInv(c, s, i))
    && (forall i: nat :: i < c.Parts() ==> LandingInv(c, s, i))
  }

  /** What concerns the two protocols and the record. */
  ghost predicate Base(c: Config, s: System) {
    && c.Valid() && S.Inv(c.Sending(), s.snd) && R.Inv(c.Receiving(), s.rcv)
    && Sized(c, s) && LogInv(c, s)
  }

  ghost predicate Inv(c: Config, s: System) {
    Base(c, s) && DataInv(c, s)
  }

  lemma StartInv(c: Config, s: System)
    requires c.Valid() && Start(c, s)
    ensures Inv(c, s)
  {
    S.InitInv(c.Sending());
    R.InitInv(c.Receiving());
  }

  // ----- messages a step leaves alone

  /** Messages keep carrying the recorded values while records are only added to. */
  lemma CarriesLonger(c: Config, m: seq<Elem>, l: map<nat, Elem>, l': map<nat, Elem>, i: nat)
    requires Carries(c, m, l, i)
    requires forall x: nat :: x in l ==> x in l' && l'[x] == l[x]
    ensures Carries(c, m, l', i)
  {}

  ghost predicate LogGrows(a: seq<map<nat, Elem>>, b: seq<map<nat, Elem>>) {
    && |a| <= |b|
    && forall k: nat, x: nat :: k < |a| && x in a[k] ==> x in b[k] && b[k][x] == a[k][x]
  }

  /** Nothing about message `i` has changed except that records may have grown, rounds may have been
      closed consistently and trust may have been lost. */
  ghost predicate Undisturbed(c: Config, s: System, s': System, i: nat) {
    && Sized(c, s) && Sized(c, s') && i < c.Parts() && LogGrows(s.log, s'.log)
    && s'.chan[i] == s.chan[i] && s'.put[i] == s.put[i] && s'.got[i] == s.got[i]
    && (Trusted(c, s', i, 1) ==> Trusted(c, s, i, 1))
    && SentCount(c, s', i) == SentCount(c, s, i)
    && LandedCount(s'.rcv, i) == LandedCount(s.rcv, i)
    && (LandedNow(s', i) ==> LandedNow(s, i) && s'.rcv.round == s.rcv.round && Slice(c, s', i) == Slice(c, s, i))
  }

  lemma UndisturbedKeeps(c: Config, s: System, s': System, i: nat)
    requires Undisturbed(c, s, s', i) && QueueInv(c, s, i) && LandingInv(c, s, i)
    ensures QueueInv(c, s', i) && LandingInv(c, s', i)
  {
    QueueKept(c, s, s', i);
    if LandedNow(s, i) && 1 <= s.rcv.round && Trusted(c, s, i, s.rcv.round) {
      CarriesLonger(c, Slice(c, s, i), s.log[s.rcv.round - 1], s'.log[s.rcv.round - 1], i);
    }
  }

  lemma QueueKept(c: Config, s: System, s': System, i: nat)
    requires Undisturbed(c, s, s', i) && QueueInv(c, s, i)
    ensures QueueInv(c, s', i)
  {
    forall j: nat | j < |s.chan[i]|
      ensures QueuedInv(c, s', i, j)
    {
      assert QueuedInv(c, s, i, j);
      if Trusted(c, s, i, s.got[i] + j + 1) {
        CarriesLonger(c, s.chan[i][j], s.log[s.got[i] + j], s'.log[s.got[i] + j], i);
      }
    }
  }

  // ----- sender steps

  /** What a sender step leaves alone when it neither opens nor closes a round, marks nothing and
      completes no message. */
  ghost predicate SameView(a: S.Sender, b: S.Sender) {
    && a.gap <= b.gap && a.round == b.round && (a.main == S.Out <==> b.main == S.Out)
    && (S.InRound(a) <==> S.InRound(b)) && (a.main.Opening? <==> b.main.Opening?)
    && |a.users| == |b.users| && (forall p :: 0 <= p < |a.users| ==> (a.users[p] == S.Idle <==> b.users[p] == S.Idle))
    && (S.InRound(a) ==> forall i: nat ::
          (i < |a.board.reqs| && a.board.reqs[i] == Complete) <==> (i < |b.board.reqs| && b.board.reqs[i] == Complete))
  }

  lemma SameMarks(c: Config, l: map<nat, Elem>, a: seq<S.User>, b: seq<S.User>, buf: seq<Elem>)
    requires c.send.userSize > 0 && Records(c, l, a, buf)
    requires |a| == |b| && forall p :: 0 <= p < |a| ==> (a[p] == S.Idle <==> b[p] == S.Idle)
    ensures Records(c, l, b, buf)
  {
    forall x: nat
      ensures MarkedIn(c, b, x) <==> MarkedIn(c, a, x)
    {
      var p: nat := x / c.send.userSize;
      if p < |a| { assert a[p] == S.Idle <==> b[p] == S.Idle; }
    }
  }

  lemma SameViewKeepsLog(c: Config, s: System, snd': S.Sender)
    requires c.send.userSize > 0 && Sized(c, s) && LogInv(c, s) && SameView(s.snd, snd')
    ensures Sized(c, s.(snd := snd')) && LogInv(c, s.(snd := snd'))
  {
    if S.InRound(s.snd) && s.log != [] {
      SameMarks(c, s.log[|s.log| - 1], s.snd.users, snd'.users, s.sbuf);
    }
  }

  lemma SameViewKeepsData(c: Config, s: System, snd': S.Sender)
    requires c.send.userSize > 0 && Sized(c, s) && DataInv(c, s) && SameView(s.snd, snd')
    ensures Sized(c, s.(snd := snd')) && DataInv(c, s.(snd := snd'))
  {
    var s' := s.(snd := snd');
    forall i: nat | i < c.Parts()
      ensures QueueInv(c, s', i) && LandingInv(c, s', i)
    {
      assert OverNow(s', i) == OverNow(s, i);
      UndisturbedKeeps(c, s, s', i);
    }
  }

  predicate Plain(a: S.Event) {
    !a.Begin? && !a.Reset? && !a.Mark? && !a.EndWait? && !a.Transport?
  }

  lemma PlainKeepsView(c: S.Config, s: S.Sender, a: S.Event)
    requires S.Inv(c, s) && S.Enabled(c, s, a) && Plain(a)
    ensures SameView(s, S.Apply(c, s, a))
  {
    if a.Firing? {
      S.BusyCall(c, s, a.call);
      S.SendCounting.FireKeeps(c.layout, s.board, a.call);
    }
  }

  lemma PlainKeeps(c: Config, s: System, a: S.Event)
    requires Inv(c, s) && Enabled(c, s, Send(a)) && Plain(a)
    ensures var s' := Apply(c, s, Send(a)); Sized(c, s') && DataInv(c, s')
  {
    var snd' := S.Apply(c.Sending(), s.snd, a);
    PlainKeepsView(c.Sending(), s.snd, a);
    SameViewKeepsData(c, s, snd');
    assert Apply(c, s, Send(a)) == s.(snd := snd');
  }

  /** Steps that only add to the records, change neither the network nor what counts as completed
      on either side, keep the data invariant. */
  lemma GrowingLogKeepsData(c: Config, s: System, snd': S.Sender, log': seq<map<nat, Elem>>)
    requires c.send.userSize > 0 && Sized(c, s) && DataInv(c, s)
    requires |log'| == snd'.round && LogGrows(s.log, log') && s.snd.gap <= snd'.gap
    requires RoundsSent(s.snd)
             == RoundsSent(snd')
    requires forall i: nat :: i < c.Parts() ==> OverNow(s.(snd := snd'), i) == OverNow(s, i)
    ensures DataInv(c, s.(snd := snd', log := log'))
  {
    var s' := s.(snd := snd', log := log');
    forall i: nat | i < c.Parts()
      ensures QueueInv(c, s', i) && LandingInv(c, s', i)
    {
      assert OverNow(s', i) == OverNow(s.(snd := snd'), i);
      UndisturbedKeeps(c, s, s', i);
    }
  }

  lemma BeginKeeps(c: Config, s: System)
    requires Inv(c, s) && Enabled(c, s, Send(S.Begin))
    ensures var s' := Apply(c, s, Send(S.Begin)); Sized(c, s') && DataInv(c, s')
  {
    var snd' := S.Apply(c.Sending(), s.snd, S.Begin);
    GrowingLogKeepsData(c, s, snd', s.log + [map[]]);
    assert Apply(c, s, Send(S.Begin)) == s.(snd := snd', log := s.log + [map[]]);
  }

  lemma ResetKeeps(c: Config, s: System)
    requires Inv(c, s) && Enabled(c, s, Send(S.Reset))
    ensures var s' := Apply(c, s, Send(S.Reset)); Sized(c, s') && DataInv(c, s')
  {
    var snd' := S.Apply(c.Sending(), s.snd, S.Reset);
    assert forall p :: 0 <= p < |snd'.users| ==> snd'.users[p] == S.Idle;
    GrowingLogKeepsData(c, s, snd', s.log);
    assert Apply(c, s, Send(S.Reset)) == s.(snd := snd', log := s.log);
  }

  lemma MarkKeeps(c: Config, s: System, p: nat)
    requires Inv(c, s) && Enabled(c, s, Send(S.Mark(p)))
    ensures var s' := Apply(c, s, Send(S.Mark(p))); Sized(c, s') && DataInv(c, s')
  {
    var snd' := S.Apply(c.Sending(), s.snd, S.Mark(p));
    var last := s.log[|s.log| - 1];
    var log' := s.log[|s.log| - 1 := last + SentBy(c, s, p)];
    MarkRecords(c, s, p, last);
    GrowingLogKeepsData(c, s, snd', log');
    assert Apply(c, s, Send(S.Mark(p))) == s.(snd := snd', log := log');
  }

  lemma MarkRecords(c: Config, s: System, p: nat, l: map<nat, Elem>)
    requires c.send.userSize > 0 && p < |s.snd.users| && s.snd.users[p] == S.Idle
    requires Records(c, l, s.snd.users, s.sbuf)
    ensures Records(c, l + SentBy(c, s, p), s.snd.users[p := S.Marked], s.sbuf)
    ensures forall x: nat :: x in l ==> x !in SentBy(c, s, p)
  {
    forall x: nat
      ensures MarkedIn(c, s.snd.users[p := S.Marked], x) <==> MarkedIn(c, s.snd.users, x) || x / c.send.userSize == p
    {}
  }

  lemma EndWaitKeeps(c: Config, s: System)
    requires Inv(c, s) && Enabled(c, s, Send(S.EndWait))
    ensures var s' := Apply(c, s, Send(S.EndWait)); Sized(c, s') && DataInv(c, s')
  {
    var s' := Apply(c, s, Send(S.EndWait));
    forall i: nat | i < c.Parts()
      ensures QueueInv(c, s', i) && LandingInv(c, s', i)
    {
      if c.send.layout.Reached(i) { AllSentAtEnd(c, s, i); }
      UndisturbedKeeps(c, s, s', i);
    }
  }

  /** The sender's wait returns only when every message that is started in a round has left. */
  lemma AllSentAtEnd(c: Config, s: System, i: nat)
    requires Inv(c, s) && Enabled(c, s, Send(S.EndWait)) && i < c.Parts() && c.send.layout.Reached(i)
    ensures OverNow(s, i)
  {
    forall p: nat | p < c.send.layout.users
      ensures S.Returned(s.snd, p)
    {
      assert S.PartitionInv(c.Sending(), s.snd, p);
    }
    G.StartsInv(c.Sending(), s.snd, i);
  }

  lemma TransportKeeps(c: Config, s: System, i: nat)
    requires Inv(c, s) && Enabled(c, s, Send(S.Transport(i)))
    ensures var s' := Apply(c, s, Send(S.Transport(i))); Sized(c, s') && DataInv(c, s')
  {
    assert QueueInv(c, s, i);
    assert S.InRound(s.snd) && s.log != [];
    StartedIsReached(c.Sending(), s.snd, i);
    if Trusted(c, s, i, s.snd.round) { PayloadCarries(c, s, i); }
    TransportMoves(c, s, i);
  }

  lemma StartedIsReached(c: S.Config, s: S.Sender, i: nat)
    requires S.Inv(c, s) && S.InRound(s) && i < |s.board.reqs| && s.board.reqs[i] != Inactive
    ensures i < c.layout.parts && c.layout.Reached(i)
  {
    assert S.SendCounting.Counted(c.layout, s.board, i);
    ThresholdPositive(c.layout);
    G.PastMeansReached(c.layout, s.board.calls, i);
  }

  lemma TransportMoves(c: Config, s: System, i: nat)
    requires c.send.userSize > 0 && Sized(c, s) && DataInv(c, s) && Enabled(c, s, Send(S.Transport(i)))
    requires S.InRound(s.snd) && s.log != [] && c.send.layout.Positive() && c.send.layout.Reached(i)
    requires Trusted(c, s, i, s.snd.round) ==> Carries(c, Payload(c, s, i), s.log[|s.log| - 1], i)
    ensures var s' := Apply(c, s, Send(S.Transport(i))); Sized(c, s') && DataInv(c, s')
  {
    var s' := Apply(c, s, Send(S.Transport(i)));
    forall j: nat | j < c.Parts() && j != i
      ensures QueueInv(c, s', j) && LandingInv(c, s', j)
    {
      UndisturbedKeeps(c, s, s', j);
    }
    QueueLonger(c, s, i);
    assert LandingInv(c, s, i) && Slice(c, s', i) == Slice(c, s, i);
  }

  lemma QueueLonger(c: Config, s: System, i: nat)
    requires Sized(c, s) && i < c.Parts() && QueueInv(c, s, i) && Enabled(c, s, Send(S.Transport(i)))
    requires S.InRound(s.snd) && s.log != [] && c.send.layout.Positive() && c.send.layout.Reached(i)
    requires Trusted(c, s, i, s.snd.round) ==> Carries(c, Payload(c, s, i), s.log[|s.log| - 1], i)
    ensures Sized(c, Apply(c, s, Send(S.Transport(i)))) && QueueInv(c, Apply(c, s, Send(S.Transport(i))), i)
  {
    var s' := Apply(c, s, Send(S.Transport(i)));
    assert |Payload(c, s, i)| == c.send.size;
    assert SentCount(c, s', i) == SentCount(c, s, i) + 1 == |s.log| by { SentOnce(c, s, i); }
    QueueExtended(c, s, s', i, Payload(c, s, i));
  }

  lemma SentOnce(c: Config, s: System, i: nat)
    requires Sized(c, s) && Enabled(c, s, Send(S.Transport(i))) && S.InRound(s.snd)
    requires c.send.layout.Positive() && c.send.layout.Reached(i)
    ensures SentCount(c, Apply(c, s, Send(S.Transport(i))), i) == SentCount(c, s, i) + 1 == |s.log|
  {}

  /** Queue `i` has grown by the message `m` of the current round. */
  lemma QueueExtended(c: Config, s: System, s': System, i: nat, m: seq<Elem>)
    requires Sized(c, s) && Sized(c, s') && i < c.Parts() && QueueInv(c, s, i)
    requires s'.chan[i] == s.chan[i] + [m] && s'.got == s.got && s'.log == s.log && s'.put[i] == s.put[i] + 1
    requires SentCount(c, s', i) == SentCount(c, s, i) + 1 == |s.log| && |m| == c.send.size
    requires forall k: nat :: Trusted(c, s', i, k) ==> Trusted(c, s, i, k)
    requires Trusted(c, s, i, |s.log|) ==> Carries(c, m, s.log[|s.log| - 1], i)
    ensures QueueInv(c, s', i)
  {
    forall j: nat | j < |s'.chan[i]|
      ensures QueuedInv(c, s', i, j)
    {
      if j < |s.chan[i]| { assert QueuedInv(c, s, i, j); }
    }
  }

  lemma ElementMarked(c: Config, s: System, i: nat, x: nat)
    requires c.Valid() && i < c.Parts() && c.send.InSlice(i, x)
    requires |s.snd.users| == c.send.layout.users && i < |s.snd.board.reqs| && s.snd.board.reqs[i] == Started
    requires G.OnTime(c.send, s.snd, i)
    ensures x < c.send.Total() && MarkedIn(c, s.snd.users, x)
  {
    MulMono(i + 1, c.Parts(), c.send.size);
    PartitionOfElement(c.send, x);
    assert c.send.Overlap(x / c.send.userSize, i);
  }

  /** The transport takes a started message out of the send buffer with the values recorded when its
      partitions were marked. */
  lemma PayloadCarries(c: Config, s: System, i: nat)
    requires Inv(c, s) && i < c.Parts() && i < |s.snd.board.reqs| && s.snd.board.reqs[i] == Started
    requires c.send.SliceEnd(i) <= |s.sbuf| && Trusted(c, s, i, s.snd.round)
    ensures S.InRound(s.snd) && s.log != []
    ensures Carries(c, Payload(c, s, i), s.log[|s.log| - 1], i)
  {
    G.NoEarlySendInv(c.Sending(), c.send, s.snd, i);
    forall x: nat | c.send.InSlice(i, x)
      ensures MarkedIn(c, s.snd.users, x)
    {
      ElementMarked(c, s, i, x);
    }
    PayloadRecorded(c, s.sbuf, s.snd.users, s.log[|s.log| - 1], i * c.send.size, c.send.SliceEnd(i));
  }

  lemma PayloadRecorded(c: Config, buf: seq<Elem>, users: seq<S.User>, l: map<nat, Elem>, lo: nat, hi: nat)
    requires c.send.userSize > 0 && lo <= hi <= |buf| && Records(c, l, users, buf)
    requires forall x: nat :: lo <= x < hi ==> MarkedIn(c, users, x)
    ensures forall x: nat :: lo <= x < hi ==> x in l && l[x] == buf[lo..hi][x - lo]
  {}

  // ----- receiver steps

  /** A receiver step that moves no message and leaves the completed rounds and the landed messages
      of the current one as they were. */
  lemma SameLandingKeeps(c: Config, s: System, rcv': R.Receiver)
    requires c.send.userSize > 0 && Sized(c, s) && DataInv(c, s)
    requires forall i: nat :: i < c.Parts() ==> LandedCount(rcv', i) == LandedCount(s.rcv, i)
    requires forall i: nat :: i < c.Parts() && Landed(rcv', i) ==> Landed(s.rcv, i) && rcv'.round == s.rcv.round
    ensures var s' := s.(rcv := rcv'); Sized(c, s') && DataInv(c, s')
  {
    var s' := s.(rcv := rcv');
    forall i: nat | i < c.Parts()
      ensures QueueInv(c, s', i) && LandingInv(c, s', i)
    {
      UndisturbedKeeps(c, s, s', i);
    }
  }

  lemma RecvKeeps(c: Config, s: System, a: R.Event)
    requires Inv(c, s) && Enabled(c, s, Recv(a)) && !a.Deliver?
    ensures var s' := Apply(c, s, Recv(a)); Sized(c, s') && DataInv(c, s')
  {
    var rcv' := R.Apply(c.Receiving(), s.rcv, a);
    LandingSteady(c.Receiving(), s.rcv, a);
    SameLandingKeeps(c, s, rcv');
    assert Apply(c, s, Recv(a)) == s.(rcv := rcv');
  }

  lemma LandingSteady(c: R.Config, s: R.Receiver, a: R.Event)
    requires R.Inv(c, s) && R.Enabled(c, s, a) && !a.Deliver?
    ensures forall i: nat :: i < c.layout.parts ==> LandedCount(R.Apply(c, s, a), i) == LandedCount(s, i)
    ensures var s' := R.Apply(c, s, a);
      forall i: nat :: i < c.layout.parts && Landed(s', i) ==> Landed(s, i) && s'.round == s.round
  {}

  lemma DeliverKeeps(c: Config, s: System, i: nat)
    requires Inv(c, s) && Enabled(c, s, Recv(R.Deliver(i)))
    ensures var s' := Apply(c, s, Recv(R.Deliver(i))); Sized(c, s') && DataInv(c, s')
  {
    assert R.Receiving(s.rcv) && s.rcv.main != R.Out && s.rcv.round >= 1;
    DeliverMoves(c, s, i);
  }

  lemma DeliverMoves(c: Config, s: System, i: nat)
    requires c.Valid() && Sized(c, s) && DataInv(c, s) && Enabled(c, s, Recv(R.Deliver(i)))
    requires R.Receiving(s.rcv) && s.rcv.main != R.Out && s.rcv.round >= 1
    ensures var s' := Apply(c, s, Recv(R.Deliver(i))); Sized(c, s') && DataInv(c, s')
  {
    assert QueueInv(c, s, i) && QueuedInv(c, s, i, 0);
    DeliverPlaces(c, s, i);
    DeliverLands(c, s, i);
    forall j: nat | j < c.Parts() && j != i
      ensures QueueInv(c, Apply(c, s, Recv(R.Deliver(i))), j) && LandingInv(c, Apply(c, s, Recv(R.Deliver(i))), j)
    {
      DeliverSpares(c, s, i, j);
    }
  }

  lemma DeliverLands(c: Config, s: System, i: nat)
    requires Sized(c, s) && DataInv(c, s) && Enabled(c, s, Recv(R.Deliver(i)))
    requires R.Receiving(s.rcv) && s.rcv.main != R.Out && s.rcv.round >= 1
    requires var s' := Apply(c, s, Recv(R.Deliver(i))); Sized(c, s') && Slice(c, s', i) == s.chan[i][0]
    ensures var s' := Apply(c, s, Recv(R.Deliver(i))); QueueInv(c, s', i) && LandingInv(c, s', i)
  {
    assert QueueInv(c, s, i) && LandingInv(c, s, i) && QueuedInv(c, s, i, 0);
    var s' := Apply(c, s, Recv(R.Deliver(i)));
    forall j: nat | j < |s'.chan[i]|
      ensures QueuedInv(c, s', i, j)
    {
      assert QueuedInv(c, s, i, j + 1);
    }
  }

  lemma DeliverSpares(c: Config, s: System, i: nat, j: nat)
    requires Sized(c, s) && DataInv(c, s) && Enabled(c, s, Recv(R.Deliver(i)))
    requires j < c.Parts() && j != i
    requires var s' := Apply(c, s, Recv(R.Deliver(i))); Sized(c, s') && Slice(c, s', j) == Slice(c, s, j)
    ensures var s' := Apply(c, s, Recv(R.Deliver(i))); QueueInv(c, s', j) && LandingInv(c, s', j)
  {
    assert QueueInv(c, s, j) && LandingInv(c, s, j);
    UndisturbedKeeps(c, s, Apply(c, s, Recv(R.Deliver(i))), j);
  }

  lemma CutOfPlaced(b: seq<Elem>, lo: nat, m: seq<Elem>, at: nat)
    requires lo + |m| <= |b| && at + |m| <= |b| && (at == lo || at + |m| <= lo || lo + |m| <= at)
    ensures |Placed(b, lo, m)| == |b|
    ensures Cut(Placed(b, lo, m), at, |m|) == if at == lo then m else Cut(b, at, |m|)
  {
    var p := Placed(b, lo, m);
    if at == lo {
      assert p[at..at + |m|] == m;
    } else {
      assert p[at..at + |m|] == b[at..at + |m|];
    }
  }

  /** A delivery fills the slice of its message and no other. */
  lemma DeliverPlaces(c: Config, s: System, i: nat)
    requires c.Valid() && Sized(c, s) && Enabled(c, s, Recv(R.Deliver(i))) && |s.chan[i][0]| == c.send.size
    ensures var s' := Apply(c, s, Recv(R.Deliver(i)));
      && Sized(c, s') && Slice(c, s', i) == s.chan[i][0]
      && forall j: nat :: j < c.Parts() && j != i ==> Slice(c, s', j) == Slice(c, s, j)
  {
    DeliverSlice(c, s, i, i);
    forall j: nat | j < c.Parts() && j != i
      ensures Slice(c, Apply(c, s, Recv(R.Deliver(i))), j) == Slice(c, s, j)
    {
      DeliverSlice(c, s, i, j);
    }
  }

  lemma DeliverSlice(c: Config, s: System, i: nat, j: nat)
    requires c.Valid() && Sized(c, s) && Enabled(c, s, Recv(R.Deliver(i))) && |s.chan[i][0]| == c.send.size
    requires j < c.Parts()
    ensures var s' := Apply(c, s, Recv(R.Deliver(i)));
      Sized(c, s') && Slice(c, s', j) == if j == i then s.chan[i][0] else Slice(c, s, j)
  {
    assert Apart(c, s, i * c.send.size, j * c.send.size, i == j) by {
      SliceBounds(c, i);
      SliceBounds(c, j);
      SlicesApart(i, j, c.send.size);
    }
    DeliverCut(c, s, i, j, i * c.recv.size, j * c.send.size);
  }

  lemma DeliverCut(c: Config, s: System, i: nat, j: nat, lo: nat, at: nat)
    requires Sized(c, s) && Enabled(c, s, Recv(R.Deliver(i))) && |s.chan[i][0]| == c.send.size && j < c.Parts()
    requires lo == i * c.recv.size && at == j * c.send.size && Apart(c, s, lo, at, i == j)
    ensures var s' := Apply(c, s, Recv(R.Deliver(i)));
      Sized(c, s') && Slice(c, s', j) == if j == i then s.chan[i][0] else Slice(c, s, j)
  {
    CutOfPlaced(s.rbuf, lo, s.chan[i][0], at);
  }

  /** Two slices at offsets `lo` and `at` lie in the buffer, and either coincide or are disjoint. */
  predicate Apart(c: Config, s: System, lo: nat, at: nat, same: bool) {
    && lo + c.send.size <= |s.rbuf| && at + c.send.size <= |s.rbuf| && (at == lo <==> same)
    && (at == lo || at + c.send.size <= lo || lo + c.send.size <= at)
  }

  lemma SlicesApart(i: nat, j: nat, k: nat)
    requires k > 0
    ensures j < i ==> j * k + k <= i * k
    ensures i < j ==> i * k + k <= j * k
    ensures i * k == j * k <==> i == j
  {
    if j < i { MulMono(j + 1, i, k); }
    if i < j { MulMono(i + 1, j, k); }
  }

  lemma SliceBounds(c: Config, i: nat)
    requires c.Valid() && i < c.Parts()
    ensures c.send.SliceEnd(i) == c.recv.SliceEnd(i) == i * c.send.size + c.send.size <= c.send.Total()
  {
    MulMono(i + 1, c.Parts(), c.send.size);
  }

  // ----- the users

  lemma WriteKeeps(c: Config, s: System, x: nat, v: Elem)
    requires Inv(c, s) && Enabled(c, s, Write(x, v))
    ensures var s' := Apply(c, s, Write(x, v)); Sized(c, s') && DataInv(c, s')
  {
    var s' := Apply(c, s, Write(x, v));
    forall i: nat | i < c.Parts()
      ensures QueueInv(c, s', i) && LandingInv(c, s', i)
    {
      UndisturbedKeeps(c, s, s', i);
    }
  }

  lemma ScribbleKeeps(c: Config, s: System, x: nat, v: Elem)
    requires Inv(c, s) && Enabled(c, s, Scribble(x, v))
    ensures var s' := Apply(c, s, Scribble(x, v)); Sized(c, s') && DataInv(c, s')
  {
    var s' := Apply(c, s, Scribble(x, v));
    forall i: nat | i < c.Parts()
      ensures QueueInv(c, s', i) && LandingInv(c, s', i)
    {
      UndisturbedKeeps(c, s, s', i);
    }
  }

  // ----- the record, in every run

  lemma SendKeepsLog(c: Config, s: System, a: S.Event)
    requires Base(c, s) && Enabled(c, s, Send(a))
    ensures var s' := Apply(c, s, Send(a)); Sized(c, s') && LogInv(c, s')
  {
    if Plain(a) {
      PlainKeepsView(c.Sending(), s.snd, a);
      SameViewKeepsLog(c, s, S.Apply(c.Sending(), s.snd, a));
    } else if a.Mark? {
      MarkKeepsLog(c, s, a.part);
    } else if a.Reset? {
      ResetKeepsLog(c, s);
    } else {
      OthersKeepLog(c, s, a);
    }
  }

  lemma MarkKeepsLog(c: Config, s: System, p: nat)
    requires c.Valid() && Sized(c, s) && LogInv(c, s) && Enabled(c, s, Send(S.Mark(p)))
    ensures var s' := Apply(c, s, Send(S.Mark(p))); Sized(c, s') && LogInv(c, s')
  {
    MarkRecords(c, s, p, s.log[|s.log| - 1]);
  }

  /** The first mark of the round finds an empty record. */
  lemma ResetKeepsLog(c: Config, s: System)
    requires Base(c, s) && Enabled(c, s, Send(S.Reset))
    ensures var s' := Apply(c, s, Send(S.Reset)); Sized(c, s') && LogInv(c, s')
  {
    ResetClears(c.Sending(), s.snd);
    EmptyRecord(c, S.Apply(c.Sending(), s.snd, S.Reset).users, s.sbuf);
  }

  lemma ResetClears(c: S.Config, s: S.Sender)
    requires S.Inv(c, s) && S.Enabled(c, s, S.Reset)
    ensures var t := S.Apply(c, s, S.Reset);
      S.InRound(t) && t.round == s.round && forall p :: 0 <= p < |t.users| ==> t.users[p] == S.Idle
  {}

  lemma EmptyRecord(c: Config, users: seq<S.User>, buf: seq<Elem>)
    requires c.send.userSize > 0 && forall p :: 0 <= p < |users| ==> users[p] == S.Idle
    ensures Records(c, map[], users, buf)
  {}

  lemma OthersKeepLog(c: Config, s: System, a: S.Event)
    requires c.Valid() && Sized(c, s) && LogInv(c, s) && Enabled(c, s, Send(a))
    requires a.Begin? || a.EndWait? || a.Transport?
    ensures var s' := Apply(c, s, Send(a)); Sized(c, s') && LogInv(c, s')
  {}

  lemma BaseKept(c: Config, s: System, e: Event)
    requires Base(c, s) && Enabled(c, s, e)
    ensures Base(c, Apply(c, s, e))
  {
    match e
    case Send(a) =>
      S.StepKeeps(c.Sending(), s.snd, a);
      SendKeepsLog(c, s, a);
    case Recv(a) =>
      R.StepKeeps(c.Receiving(), s.rcv, a);
      if a.Deliver? { assert |Placed(s.rbuf, a.msg * c.recv.size, s.chan[a.msg][0])| == |s.rbuf|; }
    case Write(x, v) =>
    case Scribble(x, v) =>
  }

  lemma StepKeeps(c: Config, s: System, e: Event)
    requires Inv(c, s) && Enabled(c, s, e)
    ensures Inv(c, Apply(c, s, e))
  {
    BaseKept(c, s, e);
    match e
    case Send(a) =>
      if Plain(a) {
        PlainKeeps(c, s, a);
      } else {
        match a
        case Begin => BeginKeeps(c, s);
        case Reset => ResetKeeps(c, s);
        case Mark(p) => MarkKeeps(c, s, p);
        case EndWait => EndWaitKeeps(c, s);
        case Transport(i) => TransportKeeps(c, s, i);
      }
    case Recv(a) =>
      if a.Deliver? { DeliverKeeps(c, s, a.msg); } else { RecvKeeps(c, s, a); }
    case Write(x, v) => WriteKeeps(c, s, x, v);
    case Scribble(x, v) => ScribbleKeeps(c, s, x, v);
  }

  // ----- runs

  ghost predicate Possible(c: Config, s0: System, es: seq<Event>)
    decreases |es|, 0
  {
    if es == [] then Start(c, s0)
    else Possible(c, s0, es[..|es| - 1]) && Enabled(c, After(c, s0, es[..|es| - 1]), es[|es| - 1])
  }

  ghost function After(c: Config, s0: System, es: seq<Event>): System
    requires Possible(c, s0, es)
    decreases |es|, 1
  {
    if es == [] then s0 else Apply(c, After(c, s0, es[..|es| - 1]), es[|es| - 1])
  }

  lemma {:induction false} AlwaysBase(c: Config, s0: System, es: seq<Event>)
    requires Possible(c, s0, es)
    ensures Base(c, After(c, s0, es))
    decreases |es|
  {
    if es == [] {
      StartInv(c, s0);
    } else {
      AlwaysBase(c, s0, es[..|es| - 1]);
      BaseKept(c, After(c, s0, es[..|es| - 1]), es[|es| - 1]);
    }
  }

  lemma {:induction false} AlwaysInv(c: Config, s0: System, es: seq<Event>)
    requires Possible(c, s0, es)
    ensures Inv(c, After(c, s0, es))
    decreases |es|
  {
    if es == [] {
      StartInv(c, s0);
    } else {
      var s, e := After(c, s0, es[..|es| - 1]), es[|es| - 1];
      AlwaysInv(c, s0, es[..|es| - 1]);
      StepKeeps(c, s, e);
    }
  }

  // ----- the record is the history of the marks

  /** At some point of the run, in round `k` of the sender, the partition that owns element `x` was
      marked ready while the element had value `v`. */
  ghost predicate MarkedReady(c: Config, s0: System, es: seq<Event>, k: nat, x: nat, v: Elem)
    requires c.Valid() && Possible(c, s0, es)
    decreases |es|
  {
    es != [] &&
    (MarkedReady(c, s0, es[..|es| - 1], k, x, v) || MarksNow(c, After(c, s0, es[..|es| - 1]), es[|es| - 1], k, x, v))
  }

  predicate MarksNow(c: Config, s: System, e: Event, k: nat, x: nat, v: Elem)
    requires c.Valid()
  {
    && e == Send(S.Mark(x / c.send.userSize))
    && s.snd.round == k && x < |s.sbuf| && s.sbuf[x] == v
  }

  ghost predicate Recorded(s: System, k: nat, x: nat, v: Elem) {
    1 <= k <= |s.log| && x in s.log[k - 1] && s.log[k - 1][x] == v
  }

  lemma RecordsGrow(c: Config, s: System, e: Event, k: nat, x: nat, v: Elem)
    requires Base(c, s) && Enabled(c, s, e)
    ensures Recorded(Apply(c, s, e), k, x, v) <==> Recorded(s, k, x, v) || MarksNow(c, s, e, k, x, v)
  {
    if e.Send? && e.s.Mark? {
      MarkAddsToRecord(c, s, e.s.part, k, x, v);
    } else {
      OthersKeepRecords(c, s, e, k, x, v);
    }
  }

  lemma MarkAddsToRecord(c: Config, s: System, p: nat, k: nat, x: nat, v: Elem)
    requires c.Valid() && Sized(c, s) && LogInv(c, s) && S.InRound(s.snd) && Enabled(c, s, Send(S.Mark(p)))
    ensures Recorded(Apply(c, s, Send(S.Mark(p))), k, x, v) <==>
      Recorded(s, k, x, v) || MarksNow(c, s, Send(S.Mark(p)), k, x, v)
  {
    MarkRecords(c, s, p, s.log[|s.log| - 1]);
  }

  lemma OthersKeepRecords(c: Config, s: System, e: Event, k: nat, x: nat, v: Elem)
    requires c.Valid() && Enabled(c, s, e) && !(e.Send? && e.s.Mark?)
    ensures Recorded(Apply(c, s, e), k, x, v) <==> Recorded(s, k, x, v)
    ensures !MarksNow(c, s, e, k, x, v)
  {}

  /** In every run, the record holds exactly what was marked, when and with which value. */
  lemma {:induction false} RecordIsHistory(c: Config, s0: System, es: seq<Event>, k: nat, x: nat, v: Elem)
    requires c.Valid() && Possible(c, s0, es)
    ensures MarkedReady(c, s0, es, k, x, v) <==> Recorded(After(c, s0, es), k, x, v)
    decreases |es|
  {
    if es != [] {
      var s, e := After(c, s0, es[..|es| - 1]), es[|es| - 1];
      AlwaysBase(c, s0, es[..|es| - 1]);
      RecordIsHistory(c, s0, es[..|es| - 1], k, x, v);
      RecordsGrow(c, s, e, k, x, v);
    }
  }

  // ----- delivery

  lemma LandedHoldsRecord(c: Config, s: System, i: nat, x: nat)
    requires c.Valid() && Sized(c, s) && i < c.Parts() && QueueInv(c, s, i) && LandingInv(c, s, i)
    requires LandedNow(s, i) && s.rcv.round >= 1 && Trusted(c, s, i, s.rcv.round)
    requires c.send.InSlice(i, x) && x < |s.rbuf|
    ensures Recorded(s, s.rcv.round, x, s.rbuf[x])
  {
    SliceBounds(c, i);
    assert Slice(c, s, i)[x - i * c.send.size] == s.rbuf[x];
  }

  lemma CompletionMeansLanded(c: R.Config, s: R.Receiver, a: R.Event, i: nat)
    requires R.Inv(c, s) && R.Enabled(c, s, a) && R.Completes(c, s, a) && i < c.layout.parts
    ensures Landed(s, i) && s.round >= 1
  {}

  lemma CompletionRecorded(c: Config, s: System, a: R.Event, i: nat, x: nat)
    requires Inv(c, s) && R.Enabled(c.Receiving(), s.rcv, a) && R.Completes(c.Receiving(), s.rcv, a)
    requires i < c.Parts() && c.send.InSlice(i, x) && x < |s.rbuf| && Trusted(c, s, i, s.rcv.round)
    ensures Recorded(s, s.rcv.round, x, s.rbuf[x])
  {
    CompletionMeansLanded(c.Receiving(), s.rcv, a, i);
    assert LandingInv(c, s, i) && QueueInv(c, s, i);
    LandedHoldsRecord(c, s, i, x);
  }

  /** Delivery.  In every run of an aligned sender, the network and any receiver, when the receiver's
      wait for its round `k` returns, or its test reports completion, every element of the receive
      buffer has the value with which the sender marked it ready in the sender's round `k`, whatever
      the two partitionings and however far ahead the sender is.  The one exception is the first
      round, for the elements of a message that takes several partitions, one of which was caught in
      the gap.  (With a sender that is not aligned the situation does not arise: `NeverEnds`.) */
  lemma DeliveredOnCompletion(c: Config, s0: System, es: seq<Event>, a: R.Event, i: nat, x: nat)
    requires c.Valid() && Possible(c, s0, es) && i < c.Parts() && c.send.InSlice(i, x)
    requires Trusted(c, After(c, s0, es), i, After(c, s0, es).rcv.round)
    requires Enabled(c, After(c, s0, es), Recv(a)) && R.Completes(c.Receiving(), After(c, s0, es).rcv, a)
    ensures x < |After(c, s0, es).rbuf|
    ensures MarkedReady(c, s0, es, After(c, s0, es).rcv.round, x, After(c, s0, es).rbuf[x])
  {
    var s := After(c, s0, es);
    AlwaysInv(c, s0, es);
    InBuffer(c, i, x);
    CompletionRecorded(c, s, a, i, x);
    RecordIsHistory(c, s0, es, s.rcv.round, x, s.rbuf[x]);
  }

  lemma AnswerMeansLanded(c: R.Config, s: R.Receiver, a: R.Event, r: nat, i: nat)
    requires R.Inv(c, s) && R.Enabled(c, s, a) && R.Answers1(s, a, r) && R.InRound(s)
    requires r < c.layout.users && c.layout.Maps(r, i)
    ensures Landed(s, i) && s.round >= 1
  {
    assert s.polls[a.poller] != R.Rest;
    assert R.PollInv(c, s, s.polls[a.poller]);
  }

  lemma ArrivalRecorded(c: Config, s: System, a: R.Event, r: nat, i: nat, x: nat)
    requires Inv(c, s) && R.Enabled(c.Receiving(), s.rcv, a)
    requires R.Answers1(s.rcv, a, r) && R.InRound(s.rcv) && r < c.recv.layout.users && c.recv.layout.Maps(r, i)
    requires i < c.Parts() && c.send.InSlice(i, x) && x < |s.rbuf| && Trusted(c, s, i, s.rcv.round)
    ensures Recorded(s, s.rcv.round, x, s.rbuf[x])
  {
    AnswerMeansLanded(c.Receiving(), s.rcv, a, r, i);
    assert LandingInv(c, s, i) && QueueInv(c, s, i);
    LandedHoldsRecord(c, s, i, x);
  }

  /** Causality.  When `MPIP_Parrived` yields 1 for partition `r` in round `k`, every element of `r`
      was marked ready by the sender in the sender's round `k`, in whichever of the sender's partitions
      it lies, and already has the value it was marked with; with the same exception as for delivery. */
  lemma ArrivalCausality(c: Config, s0: System, es: seq<Event>, a: R.Event, r: nat, i: nat, x: nat)
    requires c.Valid() && c.recv.layout.Aligned() && i < c.Parts() && c.send.InSlice(i, x)
    requires Possible(c, s0, es) && Trusted(c, After(c, s0, es), i, After(c, s0, es).rcv.round)
    requires Enabled(c, After(c, s0, es), Recv(a)) && R.Answers1(After(c, s0, es).rcv, a, r)
    requires R.InRound(After(c, s0, es).rcv)
    requires r < c.recv.layout.users && c.recv.InPartition(r, x)
    ensures x < |After(c, s0, es).rbuf|
    ensures MarkedReady(c, s0, es, After(c, s0, es).rcv.round, x, After(c, s0, es).rbuf[x])
  {
    var s := After(c, s0, es);
    AlwaysInv(c, s0, es);
    InBuffer(c, i, x);
    MessageIsMapped(c.recv, r, i, x);
    ArrivalRecorded(c, s, a, r, i, x);
    RecordIsHistory(c, s0, es, s.rcv.round, x, s.rbuf[x]);
  }

  lemma FindSlice(g: Geometry, x: nat) returns (i: nat)
    requires g.Valid() && x < g.Total()
    ensures i < g.layout.parts && g.InSlice(i, x)
  {
    SlicesPartitionBuffer(g, x);
    i := x / g.size;
  }

  lemma InBuffer(c: Config, i: nat, x: nat)
    requires c.Valid() && i < c.Parts() && c.send.InSlice(i, x)
    ensures x < c.send.Total() && c.recv.InSlice(i, x)
  {
    SliceBounds(c, i);
  }

  lemma MessageIsMapped(g: Geometry, r: nat, i: nat, x: nat)
    requires g.Valid() && g.layout.Aligned() && r < g.layout.users && i < g.layout.parts
    requires g.InPartition(r, x) && g.InSlice(i, x)
    ensures g.layout.Maps(r, i)
  {
    assert g.Overlap(r, i);
    AlignedMapsExactlyOverlaps(g, r, i);
  }

  predicate WouldWait(s: System, b: R.Event) {
    b.Deliver? && b.msg < |s.chan| && s.chan[b.msg] == []
  }

  lemma SendUnblocked(c: Config, s: System, a: S.Event)
    requires Inv(c, s) && S.Enabled(c.Sending(), s.snd, a)
    ensures Enabled(c, s, Send(a))
  {
    SlicesPartitionBuffer(c.send, 0);
  }

  lemma RecvUnblocked(c: Config, s: System, b: R.Event)
    requires Inv(c, s) && R.Enabled(c.Receiving(), s.rcv, b) && !WouldWait(s, b)
    ensures Enabled(c, s, Recv(b))
  {
    if b.Deliver? {
      assert QueueInv(c, s, b.msg) && QueuedInv(c, s, b.msg, 0);
      SliceBounds(c, b.msg);
    }
  }

  /** The size conditions in `Enabled` never stop anybody: a reachable state lets each side do what
      its own protocol lets it do, except that a receive needs a message in its queue. */
  lemma OnlyEmptyQueuesBlock(c: Config, s0: System, es: seq<Event>, a: S.Event, b: R.Event)
    requires Possible(c, s0, es)
    ensures S.Enabled(c.Sending(), After(c, s0, es).snd, a) ==> Enabled(c, After(c, s0, es), Send(a))
    ensures R.Enabled(c.Receiving(), After(c, s0, es).rcv, b) && !WouldWait(After(c, s0, es), b) ==>
      Enabled(c, After(c, s0, es), Recv(b))
  {
    var s := After(c, s0, es);
    AlwaysInv(c, s0, es);
    if S.Enabled(c.Sending(), s.snd, a) { SendUnblocked(c, s, a); }
    if R.Enabled(c.Receiving(), s.rcv, b) && !WouldWait(s, b) { RecvUnblocked(c, s, b); }
  }

  // ----- where the schedule cannot matter

  /** If the sender is aligned, and one partition starts a message or the sender's set-up does not run
      in the background, no schedule condition is needed. */
  lemma AlwaysTrusted(c: Config, s0: System, es: seq<Event>, i: nat, k: nat)
    requires c.Valid() && c.send.layout.Aligned() && Possible(c, s0, es)
    requires c.send.layout.Threshold() == 1 || !c.sendThreaded
    ensures Trusted(c, After(c, s0, es), i, k)
  {
    AlwaysBase(c, s0, es);
  }

  /** The pair of requests a negotiation leads to: a side sets up in the background exactly if the
      other side decides. */
  function Negotiated(mode: N.Mode, send: N.Cut, recv: N.Cut, pollers: nat): Config {
    Config(
      N.GeometryOf(send, N.PairOutcome(mode, SendSide, send, recv)), mode == N.DrivenBy(RecvSide),
      N.GeometryOf(recv, N.PairOutcome(mode, RecvSide, send, recv)), mode == N.DrivenBy(SendSide),
      pollers)
  }

  /** A negotiation over buffers of equal size, whose message count divides the elements and keeps
      the sender's partitions inside the array, which it does if the sender decides, yields a valid
      pair. */
  lemma NegotiatedIsValid(mode: N.Mode, send: N.Cut, recv: N.Cut, pollers: nat)
    requires send.parts > 0 && send.size > 0 && recv.parts > 0 && recv.size > 0 && send.Total() == recv.Total()
    requires mode.DrivenBy? || send.Total() % N.Chosen(mode) == 0
    requires mode == N.DrivenBy(SendSide) || Negotiated(mode, send, recv, pollers).send.layout.Safe()
    ensures var c := Negotiated(mode, send, recv, pollers);
      c.Valid() && c.send.Total() == send.Total()
    ensures var c := Negotiated(mode, send, recv, pollers);
      && c.send.layout.users == send.parts && c.send.userSize == send.size
      && c.recv.layout.users == recv.parts && c.recv.userSize == recv.size
      && (c.sendThreaded <==> mode == N.DrivenBy(RecvSide)) && (c.recvThreaded <==> mode == N.DrivenBy(SendSide))
      && (mode == N.DrivenBy(SendSide) ==> c.Parts() == send.parts && c.send.size == send.size)
      && (mode == N.DrivenBy(RecvSide) ==> c.Parts() == recv.parts && c.send.size == recv.size)
      && (mode.Hard? && mode.count > 0 ==> c.Parts() == mode.count && c.send.size == send.Total() / mode.count)
      && (mode == N.Default || (mode.Hard? && mode.count <= 0) ==> c.Parts() == 1 && c.send.size == send.Total())
    ensures var c := Negotiated(mode, send, recv, pollers);
      (mode == N.DrivenBy(RecvSide) ==> send.parts <= recv.parts) ==> c.send.layout.Threshold() == 1 || !c.sendThreaded
  {
    N.NegotiatedGeometries(mode, send, recv);
    N.ElementsConserved(mode, send, recv);
  }

  /** When the sender decides, every run over buffers of equal size delivers; when the count is fixed
      beforehand, every run does if that count divides the elements and keeps the sender's partitions
      inside the array; and when the receiver decides, every run does from the second round on if the
      same holds, and in the first round too if the sender does not group partitions. */
  lemma DeliveredAfterNegotiation(
    mode: N.Mode, send: N.Cut, recv: N.Cut, pollers: nat, s0: System, es: seq<Event>, a: R.Event, x: nat)
    requires send.parts > 0 && send.size > 0 && recv.parts > 0 && recv.size > 0 && send.Total() == recv.Total()
    requires mode.DrivenBy? || send.Total() % N.Chosen(mode) == 0
    requires var c := Negotiated(mode, send, recv, pollers);
      && (mode == N.DrivenBy(SendSide) || c.send.layout.Safe()) && Possible(c, s0, es)
      && Enabled(c, After(c, s0, es), Recv(a)) && R.Completes(c.Receiving(), After(c, s0, es).rcv, a)
      && (mode == N.DrivenBy(RecvSide) ==> send.parts <= recv.parts || After(c, s0, es).rcv.round >= 2)
    requires x < send.Total()
    ensures var c := Negotiated(mode, send, recv, pollers);
      && c.Valid() && x < |After(c, s0, es).rbuf|
      && MarkedReady(c, s0, es, After(c, s0, es).rcv.round, x, After(c, s0, es).rbuf[x])
  {
    var c := Negotiated(mode, send, recv, pollers);
    NegotiatedIsValid(mode, send, recv, pollers);
    DeliveredIfSound(c, s0, es, a, x);
  }

  /** If the sender is not aligned, some message is never sent, so that no round of the receiver ever
      ends: neither does its wait return nor does a test report completion. */
  lemma NeverEnds(c: Config, s0: System, es: seq<Event>, a: R.Event)
    requires c.Valid() && !c.send.layout.Aligned() && Possible(c, s0, es)
    ensures !(Enabled(c, After(c, s0, es), Recv(a)) && R.Completes(c.Receiving(), After(c, s0, es).rcv, a))
  {
    var s := After(c, s0, es);
    AlwaysInv(c, s0, es);
    AllReachedIffAligned(c.send.layout);
    var i: nat :| i < c.Parts() && !c.send.layout.Reached(i);
    assert QueueInv(c, s, i) && LandingInv(c, s, i);
    if Enabled(c, s, Recv(a)) && R.Completes(c.Receiving(), s.rcv, a) {
      CompletionMeansLanded(c.Receiving(), s.rcv, a, i);
    }
  }

  /** Delivery wherever the configuration or the round leaves no doubt. */
  lemma DeliveredIfSound(c: Config, s0: System, es: seq<Event>, a: R.Event, x: nat)
    requires c.Valid() && Possible(c, s0, es) && x < c.send.Total()
    requires c.send.layout.Threshold() == 1 || !c.sendThreaded || After(c, s0, es).rcv.round >= 2
    requires Enabled(c, After(c, s0, es), Recv(a)) && R.Completes(c.Receiving(), After(c, s0, es).rcv, a)
    ensures x < |After(c, s0, es).rbuf|
    ensures MarkedReady(c, s0, es, After(c, s0, es).rcv.round, x, After(c, s0, es).rbuf[x])
  {
    var i := FindSlice(c.send, x);
    if !c.send.layout.Aligned() {
      NeverEnds(c, s0, es, a);
      assert false;
    }
    if After(c, s0, es).rcv.round < 2 {
      AlwaysTrusted(c, s0, es, i, After(c, s0, es).rcv.round);
    }
    DeliveredOnCompletion(c, s0, es, a, i, x);
  }
}
