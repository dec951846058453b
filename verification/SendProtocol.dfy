/**
 The sending side of one partitioned request, step by step.

 One user thread drives `MPIP_Start` and `MPIP_Wait`; every partition has a thread of its own that
 may call `MPIP_Pready` once a round; when the partner decides the message count, a background
 thread sets the internal requests up and then, holding the request's lock, catches up on the
 partitions that were marked in the meantime.  Each event below is one atomic action of one of
 them, or of the transport, and any enabled event may come next.
 */
module SendProtocol {
  import opened Partitioning
  import opened Mpi
  import opened Basics
  import opened SendCounting

  /** `threaded`: this side does not decide the message count, so it runs a background thread. */
  datatype Config = Config(layout: Layout, threaded: bool)

  /** A partition's `MPIP_Pready` in the current round: not called; flag written and status not
      yet read; returned because set-up was running; inside `general_send` (or returned from it). */
  datatype User = Idle | Marked | Delayed | Sending

  /** The background thread.  It holds the lock in `Scan` (about to look at a flag, or to release
      the lock once `next` is past the last partition) and in `InCall`. */
  datatype Sync = Absent | Negotiating | Ready | Scan(next: nat) | InCall(part: nat) | Ended

  /** The thread that calls `MPIP_Start` and `MPIP_Wait`. */
  datatype Driver = Out | Opening(seen: Thread) | In | Waiting(joined: bool)

  /** `round` counts the activations; `gap` collects the partitions the catch-up scan found marked
      while their `MPIP_Pready` was between writing the flag and reading the thread status. */
  datatype Sender = Sender(
    active: bool, threaded: Thread, flags: seq<bool>, users: seq<User>,
    sync: Sync, main: Driver, round: nat, gap: set<nat>, board: Board)

  datatype Event =
    | SetUp | Lock | Visit | Release
    | Adding(call: nat) | Firing(call: nat) | Returning(call: nat)
    | Begin | Reset | Mark(part: nat) | ReadStatus(part: nat)
    | BeginWait | Join | EndWait
    | Transport(msg: nat)

  // ----- initial state and steps

  function EmptyBoard(parts: nat, calls: seq<Call>): Board {
    Board(Uniform<nat>(parts, 0), Uniform(parts, Inactive), Uniform<nat>(parts, 0), calls)
  }

  function Init(c: Config): Sender {
    var n := c.layout.users;
    Sender(false, if c.threaded then Running else None, Uniform(n, false), Uniform(n, Idle),
           if c.threaded then Negotiating else Absent, Out, 0, {},
           EmptyBoard(if c.threaded then 0 else c.layout.parts, Uniform(2 * n, Uncalled)))
  }

  predicate LockFree(s: Sender) {
    !s.sync.Scan? && !s.sync.InCall?
  }

  predicate Returned(s: Sender, p: nat) {
    p < |s.users| && p < |s.board.calls| &&
    (s.users[p] == Delayed || (s.users[p] == Sending && s.board.calls[p] == Done))
  }

  predicate Enabled(c: Config, s: Sender, e: Event) {
    c.layout.Positive() &&
    match e
    case SetUp => s.sync == Negotiating
    case Lock => s.sync == Ready
    case Visit => s.sync.Scan? && s.sync.next < c.layout.users && s.sync.next < |s.flags|
                  && s.sync.next < |s.users| && c.layout.users + s.sync.next < |s.board.calls|
    case Release => s.sync.Scan? && s.sync.next >= c.layout.users
    case Adding(k) => CanAdd(c.layout, s.board, k) && s.board.calls[k].next < |s.board.counts|
    case Firing(k) => CanFire(s.board, k) && s.board.calls[k].msg < |s.board.reqs|
                      && s.board.calls[k].msg < |s.board.starts|
    case Returning(k) => CanReturn(c.layout, s.board, k)
    case Begin => s.main == Out && LockFree(s)
    case Reset => s.main.Opening?
    case Mark(p) => s.main == In && p < |s.users| && p < |s.flags| && s.users[p] == Idle
    case ReadStatus(p) => p < |s.users| && p < |s.board.calls| && s.users[p] == Marked && LockFree(s)
    case BeginWait => s.main == In && LockFree(s) && forall p: nat :: p < c.layout.users ==> Returned(s, p)
    case Join => s.main == Waiting(false) && s.sync == Ended
    case EndWait => s.main == Waiting(true) && Settled(s.board.reqs, 0, |s.board.reqs|)
    case Transport(i) => i < |s.board.reqs| && s.board.reqs[i] == Started
  }

  function Apply(c: Config, s: Sender, e: Event): Sender
    requires Enabled(c, s, e)
  {
    var n := c.layout.users;
    match e
    // internal_setup: the request array and the counters come into being
    case SetUp => s.(sync := Ready, board := EmptyBoard(c.layout.parts, s.board.calls))
    // threaded_sync_driver: take the lock, catch up only if the request is active
    case Lock => s.(sync := Scan(if s.active then 0 else n))
    // send_ready: look at one flag
    case Visit =>
      var q := s.sync.next;
      if s.flags[q] then
        s.(sync := InCall(q), board := Enter(c.layout, s.board, n + q),
           gap := if s.users[q] == Marked then s.gap + {q} else s.gap)
      else
        s.(sync := Scan(q + 1))
    case Release => s.(sync := Ended, threaded := Finished)
    // general_send
    case Adding(k) => s.(board := Add(c.layout, s.board, k))
    case Firing(k) => s.(board := Fire(s.board, k))
    case Returning(k) =>
      s.(board := Return(s.board, k),
         sync := if s.sync.InCall? && k == n + s.sync.part then Scan(s.sync.part + 1) else s.sync)
    // MPIP_Start: the locked section, then the resets
    case Begin => s.(active := true, main := Opening(s.threaded), round := s.round + 1)
    case Reset =>
      if s.main.seen == Running then s.(main := In)
      else s.(main := In, flags := Uniform(n, false), users := Uniform(n, Idle),
              board := s.board.(counts := Uniform<nat>(|s.board.counts|, 0), starts := Uniform<nat>(|s.board.starts|, 0),
                                calls := Uniform(2 * n, Uncalled)))
    // MPIP_Pready: the flag, then the locked read of the thread status
    case Mark(p) => s.(flags := s.flags[p := true], users := s.users[p := Marked])
    case ReadStatus(p) =>
      if s.threaded == Running then s.(users := s.users[p := Delayed])
      else s.(users := s.users[p := Sending], board := Enter(c.layout, s.board, p))
    // MPIP_Wait
    case BeginWait => s.(main := Waiting(s.threaded != Running))
    case Join => s.(main := Waiting(true))
    case EndWait => s.(main := Out, active := false,
                       board := s.board.(reqs := Uniform(|s.board.reqs|, Inactive)))
    case Transport(i) => s.(board := Transfer(s.board, i))
  }

  /** The runs: sequences of events, each enabled in the state the earlier ones lead to. */
  ghost predicate Possible(c: Config, es: seq<Event>)
    decreases |es|, 0
  {
    es == [] ||
    (Possible(c, es[..|es| - 1]) && Enabled(c, After(c, es[..|es| - 1]), es[|es| - 1]))
  }

  ghost function After(c: Config, es: seq<Event>): Sender
    requires Possible(c, es)
    decreases |es|, 1
  {
    if es == [] then Init(c) else Apply(c, After(c, es[..|es| - 1]), es[|es| - 1])
  }

  /** The transport moves nothing in the run. */
  ghost predicate Untransported(es: seq<Event>) {
    forall e :: e in es ==> !e.Transport?
  }

  // ----- the invariant

  predicate Built(s: Sender) {
    s.sync != Negotiating
  }

  ghost predicate Shape(c: Config, s: Sender) {
    && |s.flags| == |s.users| == c.layout.users && |s.board.calls| == 2 * c.layout.users
    && (Built(s) ==> Shaped(c.layout, s.board))
    && (!Built(s) ==> |s.board.counts| == |s.board.reqs| == |s.board.starts| == 0)
  }

  ghost predicate Control(c: Config, s: Sender) {
    && (s.sync == Absent <==> !c.threaded) && (!c.threaded ==> s.gap == {})
    && (s.threaded == None <==> s.sync == Absent) && (s.threaded == Finished <==> s.sync == Ended)
    && (s.active <==> s.main != Out)
    && (s.sync.Scan? ==> s.sync.next <= c.layout.users)
    && (s.sync.InCall? ==> s.sync.part < c.layout.users)
    && (s.main.Opening? && s.main.seen != Running ==> SetUpOver(s))
    && (s.main.Opening? && s.main.seen == Running ==> s.round == 1)
    && (s.main == Waiting(true) ==> SetUpOver(s)) && (s.main == Waiting(false) ==> c.threaded)
    && (s.main != Out ==> s.round >= 1)
    && (s.round >= 2 ==> SetUpOver(s))
    && (s.round >= 1 && s.main == Out ==> SetUpOver(s))
  }

  /** Set-up is over, if it ever was in the background. */
  predicate SetUpOver(s: Sender) {
    s.sync == Absent || s.sync == Ended
  }

  /** Nothing was marked or sent yet. */
  ghost predicate Fresh(s: Sender) {
    && s.gap == {}
    && (forall p :: 0 <= p < |s.flags| ==> !s.flags[p])
    && (forall p :: 0 <= p < |s.users| ==> s.users[p] == Idle)
    && (forall k :: 0 <= k < |s.board.calls| ==> s.board.calls[k] == Uncalled)
    && (forall i :: 0 <= i < |s.board.counts| ==> s.board.counts[i] == 0)
    && (forall i :: 0 <= i < |s.board.starts| ==> s.board.starts[i] == 0)
    && !s.sync.InCall?
  }

  /** Between two rounds no call is under way and no message is active. */
  ghost predicate Quiet(s: Sender) {
    && (forall i :: 0 <= i < |s.board.reqs| ==> s.board.reqs[i] == Inactive)
    && (forall k :: 0 <= k < |s.board.calls| ==> s.board.calls[k] == Uncalled || s.board.calls[k] == Done)
    && (forall p :: 0 <= p < |s.users| ==> s.users[p] != Marked)
    && (s.round == (if s.main.Opening? then 1 else 0) ==> Fresh(s))
  }

  /** The catch-up call for partition `q` has not been made, is under way, or is over, according to
      how far the scan has come; a partition left to the scan is caught by it. */
  ghost predicate ScanSlot(c: Config, s: Sender, q: nat)
    requires Shape(c, s) && q < c.layout.users
  {
    var call := s.board.calls[c.layout.users + q];
    match s.sync
    case Absent => call == Uncalled && s.users[q] != Delayed
    case Negotiating => call == Uncalled
    case Ready => call == Uncalled
    case Scan(r) => (q >= r ==> call == Uncalled) && (q < r ==> Caught(s, q, call))
    case InCall(r) => (q > r ==> call == Uncalled) && (q == r ==> call.At? || call.Hit?)
                      && (q < r ==> Caught(s, q, call))
    case Ended => Caught(s, q, call)
  }

  ghost predicate Caught(s: Sender, q: nat, call: Call)
    requires q < |s.users|
  {
    && (call == Uncalled || call == Done)
    && (s.users[q] == Delayed ==> call == Done)
  }

  ghost predicate PartitionInv(c: Config, s: Sender, q: nat)
    requires Shape(c, s) && q < c.layout.users
  {
    var own := s.board.calls[q];
    var scan := s.board.calls[c.layout.users + q];
    && (s.flags[q] <==> s.users[q] != Idle)
    && (s.users[q] != Sending ==> own == Uncalled)
    && (s.users[q] == Sending ==> own != Uncalled && SetUpOver(s))
    && ScanSlot(c, s, q)
    && (scan != Uncalled ==> s.users[q] != Idle)
    && (scan != Uncalled && s.users[q] != Delayed ==> q in s.gap)
    && (s.round == 1 && q in s.gap ==> scan != Uncalled && s.users[q] != Delayed)
    && (s.round >= 2 ==> scan == Uncalled && s.users[q] != Delayed)
    && (s.main.Waiting? ==> Returned(s, q))
  }

  ghost predicate RoundInv(c: Config, s: Sender)
    requires Shape(c, s)
  {
    && (Built(s) ==> BoardInv(c.layout, s.board))
    && (forall q: nat :: q < c.layout.users ==> PartitionInv(c, s, q))
  }

  predicate InRound(s: Sender) {
    s.main == In || s.main.Waiting?
  }

  ghost predicate Inv(c: Config, s: Sender) {
    && c.layout.Safe() && Shape(c, s) && Control(c, s)
    && (forall q :: q in s.gap ==> 0 <= q < c.layout.users)
    && (if InRound(s) then RoundInv(c, s) else Quiet(s))
  }

  // ----- every step keeps it

  lemma InitInv(c: Config)
    requires c.layout.Safe()
    ensures Inv(c, Init(c))
  {}

  lemma FreshRound(c: Config, s: Sender)
    requires c.layout.Safe() && Shape(c, s) && Fresh(s)
    requires forall i :: 0 <= i < |s.board.reqs| ==> s.board.reqs[i] == Inactive
    requires !s.main.Waiting? && s.round <= 1
    ensures RoundInv(c, s)
  {
    if Built(s) { FreshBoard(c.layout, s.board); }
  }

  lemma SetUpKeeps(c: Config, s: Sender)
    requires Inv(c, s) && Enabled(c, s, SetUp)
    ensures Inv(c, Apply(c, s, SetUp))
  {
    var s' := Apply(c, s, SetUp);
    if InRound(s) {
      forall q: nat | q < c.layout.users
        ensures PartitionInv(c, s', q)
      {
        assert PartitionInv(c, s, q);
      }
      forall k: nat | k < |s.board.calls|
        ensures s.board.calls[k] == Uncalled
      {
        assert PartitionInv(c, s, PartOf(c.layout, k));
      }
      FreshBoard(c.layout, s'.board);
    }
  }

  lemma LockKeeps(c: Config, s: Sender)
    requires Inv(c, s) && Enabled(c, s, Lock)
    ensures Inv(c, Apply(c, s, Lock))
  {
    var s' := Apply(c, s, Lock);
    if InRound(s) {
      forall q: nat | q < c.layout.users
        ensures PartitionInv(c, s', q)
      {
        assert PartitionInv(c, s, q);
      }
    }
  }

  lemma VisitKeeps(c: Config, s: Sender)
    requires Inv(c, s) && Enabled(c, s, Visit)
    ensures Inv(c, Apply(c, s, Visit))
  {
    var q := s.sync.next;
    if InRound(s) {
      assert PartitionInv(c, s, q);
      if s.flags[q] {
        EnterKeeps(c.layout, s.board, c.layout.users + q);
      }
      forall r: nat | r < c.layout.users
        ensures PartitionInv(c, Apply(c, s, Visit), r)
      {
        VisitKeepsPartition(c, s, r);
      }
    }
  }

  lemma VisitKeepsPartition(c: Config, s: Sender, r: nat)
    requires c.layout.Positive() && Shape(c, s) && Control(c, s) && s.main != Out && Enabled(c, s, Visit)
    requires r < c.layout.users && PartitionInv(c, s, r)
    ensures Shape(c, Apply(c, s, Visit)) && PartitionInv(c, Apply(c, s, Visit), r)
  {}

  lemma ReleaseKeeps(c: Config, s: Sender)
    requires Inv(c, s) && Enabled(c, s, Release)
    ensures Inv(c, Apply(c, s, Release))
  {
    var s' := Apply(c, s, Release);
    if InRound(s) {
      forall q: nat | q < c.layout.users
        ensures PartitionInv(c, s', q)
      {
        assert PartitionInv(c, s, q);
      }
    }
  }

  /** A step inside one `general_send` that neither begins nor ends it. */
  lemma CallMoves(c: Config, s: Sender, k: nat, b: Board)
    requires Inv(c, s) && InRound(s) && Built(s) && k < |s.board.calls|
    requires s.board.calls[k].At? || s.board.calls[k].Hit?
    requires BoardInv(c.layout, b) && b.calls == s.board.calls[k := b.calls[k]]
    requires b.calls[k].At? || b.calls[k].Hit?
    ensures Inv(c, s.(board := b))
  {
    var s' := s.(board := b);
    forall q: nat | q < c.layout.users
      ensures PartitionInv(c, s', q)
    {
      assert PartitionInv(c, s, q);
    }
  }

  lemma BusyCall(c: Config, s: Sender, k: nat)
    requires Inv(c, s) && k < |s.board.calls| && (s.board.calls[k].At? || s.board.calls[k].Hit?)
    ensures InRound(s) && Built(s) && BoardInv(c.layout, s.board)
    ensures k < c.layout.users ==> s.users[k] == Sending && SetUpOver(s)
    ensures k >= c.layout.users ==> s.sync == InCall(k - c.layout.users)
  {
    assert PartitionInv(c, s, PartOf(c.layout, k));
  }

  lemma AddingKeeps(c: Config, s: Sender, k: nat)
    requires Inv(c, s) && Enabled(c, s, Adding(k))
    ensures Inv(c, Apply(c, s, Adding(k)))
  {
    BusyCall(c, s, k);
    AddKeeps(c.layout, s.board, k);
    CallMoves(c, s, k, Add(c.layout, s.board, k));
  }

  lemma FiringKeeps(c: Config, s: Sender, k: nat)
    requires Inv(c, s) && Enabled(c, s, Firing(k))
    ensures Inv(c, Apply(c, s, Firing(k)))
  {
    BusyCall(c, s, k);
    FireKeeps(c.layout, s.board, k);
    CallMoves(c, s, k, Fire(s.board, k));
  }

  lemma ReturningKeeps(c: Config, s: Sender, k: nat)
    requires Inv(c, s) && Enabled(c, s, Returning(k))
    ensures Inv(c, Apply(c, s, Returning(k)))
  {
    BusyCall(c, s, k);
    ReturnKeeps(c.layout, s.board, k);
    var s' := Apply(c, s, Returning(k));
    forall q: nat | q < c.layout.users
      ensures PartitionInv(c, s', q)
    {
      assert PartitionInv(c, s, q);
    }
  }

  lemma BeginKeeps(c: Config, s: Sender)
    requires Inv(c, s) && Enabled(c, s, Begin)
    ensures Inv(c, Apply(c, s, Begin))
  {}

  lemma ResetKeeps(c: Config, s: Sender)
    requires Inv(c, s) && Enabled(c, s, Reset)
    ensures Inv(c, Apply(c, s, Reset))
  {
    var s' := Apply(c, s, Reset);
    if s.round == 1 {
      FreshRound(c, s');
    } else {
      FreshBoard(c.layout, s'.board);
      forall q: nat | q < c.layout.users
        ensures PartitionInv(c, s', q)
      {}
    }
  }

  lemma MarkKeeps(c: Config, s: Sender, p: nat)
    requires Inv(c, s) && Enabled(c, s, Mark(p))
    ensures Inv(c, Apply(c, s, Mark(p)))
  {
    var s' := Apply(c, s, Mark(p));
    forall q: nat | q < c.layout.users
      ensures PartitionInv(c, s', q)
    {
      assert PartitionInv(c, s, q);
    }
  }

  lemma ReadStatusKeeps(c: Config, s: Sender, p: nat)
    requires Inv(c, s) && Enabled(c, s, ReadStatus(p))
    ensures Inv(c, Apply(c, s, ReadStatus(p)))
  {
    var s' := Apply(c, s, ReadStatus(p));
    assert InRound(s);
    assert PartitionInv(c, s, p);
    if s.threaded != Running { EnterKeeps(c.layout, s.board, p); }
    forall q: nat | q < c.layout.users
      ensures PartitionInv(c, s', q)
    {
      assert PartitionInv(c, s, q);
    }
  }

  lemma BeginWaitKeeps(c: Config, s: Sender)
    requires Inv(c, s) && Enabled(c, s, BeginWait)
    ensures Inv(c, Apply(c, s, BeginWait))
  {
    var s' := Apply(c, s, BeginWait);
    forall q: nat | q < c.layout.users
      ensures PartitionInv(c, s', q)
    {
      assert PartitionInv(c, s, q) && Returned(s, q);
    }
  }

  lemma JoinKeeps(c: Config, s: Sender)
    requires Inv(c, s) && Enabled(c, s, Join)
    ensures Inv(c, Apply(c, s, Join))
  {
    var s' := Apply(c, s, Join);
    forall q: nat | q < c.layout.users
      ensures PartitionInv(c, s', q)
    {
      assert PartitionInv(c, s, q);
    }
  }

  lemma EndWaitKeeps(c: Config, s: Sender)
    requires Inv(c, s) && Enabled(c, s, EndWait)
    ensures Inv(c, Apply(c, s, EndWait))
  {
    forall p: nat | p < |s.users|
      ensures s.users[p] != Marked
    {
      assert PartitionInv(c, s, p);
    }
    forall k: nat | k < |s.board.calls|
      ensures s.board.calls[k] == Uncalled || s.board.calls[k] == Done
    {
      assert PartitionInv(c, s, PartOf(c.layout, k));
    }
  }

  lemma TransportKeeps(c: Config, s: Sender, i: nat)
    requires Inv(c, s) && Enabled(c, s, Transport(i))
    ensures Inv(c, Apply(c, s, Transport(i)))
  {
    var s' := Apply(c, s, Transport(i));
    assert InRound(s) && Built(s);
    TransferKeeps(c.layout, s.board, i);
    forall q: nat | q < c.layout.users
      ensures PartitionInv(c, s', q)
    {
      assert PartitionInv(c, s, q);
    }
  }

  lemma StepKeeps(c: Config, s: Sender, e: Event)
    requires Inv(c, s) && Enabled(c, s, e)
    ensures Inv(c, Apply(c, s, e))
  {
    match e
    case SetUp => SetUpKeeps(c, s);
    case Lock => LockKeeps(c, s);
    case Visit => VisitKeeps(c, s);
    case Release => ReleaseKeeps(c, s);
    case Adding(k) => AddingKeeps(c, s, k);
    case Firing(k) => FiringKeeps(c, s, k);
    case Returning(k) => ReturningKeeps(c, s, k);
    case Begin => BeginKeeps(c, s);
    case Reset => ResetKeeps(c, s);
    case Mark(p) => MarkKeeps(c, s, p);
    case ReadStatus(p) => ReadStatusKeeps(c, s, p);
    case BeginWait => BeginWaitKeeps(c, s);
    case Join => JoinKeeps(c, s);
    case EndWait => EndWaitKeeps(c, s);
    case Transport(i) => TransportKeeps(c, s, i);
  }

  lemma {:induction false} AlwaysInv(c: Config, es: seq<Event>)
    requires c.layout.Safe() && Possible(c, es)
    ensures Inv(c, After(c, es))
    decreases |es|
  {
    if es == [] {
      InitInv(c);
    } else {
      AlwaysInv(c, es[..|es| - 1]);
      StepKeeps(c, After(c, es[..|es| - 1]), es[|es| - 1]);
    }
  }
}
