/**
 The receiving side of one partitioned request, step by step.

 One user thread drives `MPIP_Start`, `MPIP_Test` and `MPIP_Wait`; any fixed number of polling
 threads call `MPIP_Parrived`; a background thread may be setting the request up.  Either that
 thread or the user thread has to start the receives, depending on which of them comes first.
 */
module ReceiveProtocol {
  import opened Partitioning
  import opened Mpi
  import opened Basics

  datatype Config = Config(layout: Layout, threaded: bool, pollers: nat)

  /** A polling thread: outside `MPIP_Parrived`; status read, cache not yet; cache read and found
      false; ranges tested, result not yet stored. */
  datatype Poll = Rest | Asked(part: nat) | Missed(part: nat) | Tested(part: nat, flag: bool)

  /** The background thread holds the lock in `Locked` (about to look at the state) and in `Caught`
      (about to release). */
  datatype Sync = Absent | Negotiating | Ready | Locked | Caught | Ended

  /** The user thread inside `MPIP_Start` is `Opening` after its locked section and `Cleared` after
      the reset. */
  datatype Driver = Out | Opening(seen: Thread) | Cleared | In | Waiting(joined: bool)

  /** `byUser` and `bySync` count the `MPI_Startall` calls of the round by the thread that made them. */
  datatype Receiver = Receiver(
    active: bool, threaded: Thread, cache: seq<bool>, reqs: seq<Phase>,
    sync: Sync, main: Driver, round: nat, byUser: nat, bySync: nat, polls: seq<Poll>)

  datatype Event =
    | SetUp | Lock | CatchUp | Release
    | Begin | Reset | StartReceives
    | Ask(poller: nat, part: nat) | ReadCache(poller: nat) | TestRange(poller: nat) | Store(poller: nat)
    | Test | BeginWait | Join | EndWait
    | Deliver(msg: nat)

  function Init(c: Config): Receiver {
    Receiver(false, if c.threaded then Running else None, Uniform(c.layout.users, false),
             Uniform(if c.threaded then 0 else c.layout.parts, Inactive),
             if c.threaded then Negotiating else Absent, Out, 0, 0, 0, Uniform(c.pollers, Rest))
  }

  predicate LockFree(s: Receiver) {
    s.sync != Locked && s.sync != Caught
  }

  predicate AllAtRest(s: Receiver) {
    forall k :: 0 <= k < |s.polls| ==> s.polls[k] == Rest
  }

  predicate Arrived(c: Config, s: Receiver, r: nat)
    requires c.layout.Positive()
  {
    RangeSettled(c.layout, s.reqs, r)
  }

  predicate Enabled(c: Config, s: Receiver, e: Event) {
    c.layout.Positive() &&
    match e
    case SetUp => s.sync == Negotiating
    case Lock => s.sync == Ready
    case CatchUp => s.sync == Locked
    case Release => s.sync == Caught
    case Begin => s.main == Out && LockFree(s) && AllAtRest(s)
    case Reset => s.main.Opening?
    case StartReceives => s.main == Cleared
    case Ask(k, r) => k < |s.polls| && s.polls[k] == Rest && r < c.layout.users && LockFree(s)
                      && (s.threaded == Running || c.layout.InRange(r))
                      && (s.main == Out || s.main == In || s.main.Waiting?)
    case ReadCache(k) => k < |s.polls| && s.polls[k].Asked? && s.polls[k].part < |s.cache|
    case TestRange(k) => k < |s.polls| && s.polls[k].Missed?
                         && c.layout.First(s.polls[k].part) <= c.layout.Last(s.polls[k].part) <= |s.reqs|
    case Store(k) => k < |s.polls| && s.polls[k].Tested? && s.polls[k].part < |s.cache|
    case Test => s.main == In && LockFree(s)
    case BeginWait => s.main == In && LockFree(s)
    case Join => s.main == Waiting(false) && s.sync == Ended
    case EndWait => s.main == Waiting(true) && Settled(s.reqs, 0, |s.reqs|)
    case Deliver(i) => i < |s.reqs| && s.reqs[i] == Started
  }

  function Apply(c: Config, s: Receiver, e: Event): Receiver
    requires Enabled(c, s, e)
  {
    match e
    // internal_setup and threaded_sync_driver
    case SetUp => s.(sync := Ready, reqs := Uniform(c.layout.parts, Inactive))
    case Lock => s.(sync := Locked)
    case CatchUp =>
      if s.active then s.(sync := Caught, reqs := Uniform(|s.reqs|, Started), bySync := s.bySync + 1)
      else s.(sync := Caught)
    case Release => s.(sync := Ended, threaded := Finished)
    // MPIP_Start
    case Begin => s.(active := true, main := Opening(s.threaded), round := s.round + 1, byUser := 0, bySync := 0)
    case Reset => if s.main.seen == Running then s.(main := In)
                  else s.(main := Cleared, cache := Uniform(|s.cache|, false))
    case StartReceives => s.(main := In, reqs := Uniform(|s.reqs|, Started), byUser := s.byUser + 1)
    // MPIP_Parrived and map_recv_buffer
    case Ask(k, r) => if s.threaded == Running then s else s.(polls := s.polls[k := Asked(r)])
    case ReadCache(k) =>
      s.(polls := s.polls[k := if s.cache[s.polls[k].part] then Rest else Missed(s.polls[k].part)])
    case TestRange(k) =>
      var r := s.polls[k].part;
      s.(polls := s.polls[k := Tested(r, Arrived(c, s, r))],
         reqs := AfterTestall(s.reqs, c.layout.First(r), c.layout.Last(r)))
    case Store(k) => s.(polls := s.polls[k := Rest], cache := s.cache[s.polls[k].part := s.polls[k].flag])
    // MPIP_Test and MPIP_Wait
    case Test =>
      if s.threaded != Running && Settled(s.reqs, 0, |s.reqs|)
      then s.(main := Out, active := false, reqs := AfterTestall(s.reqs, 0, |s.reqs|))
      else s
    case BeginWait => s.(main := Waiting(s.threaded != Running))
    case Join => s.(main := Waiting(true))
    case EndWait => s.(main := Out, active := false, reqs := AfterTestall(s.reqs, 0, |s.reqs|))
    case Deliver(i) => s.(reqs := s.reqs[i := Complete])
  }

  /** `MPIP_Parrived` for partition `r` yields 1 with this step. */
  predicate Answers1(s: Receiver, e: Event, r: nat) {
    || (e.ReadCache? && e.poller < |s.polls| && s.polls[e.poller] == Asked(r) && r < |s.cache| && s.cache[r])
    || (e.Store? && e.poller < |s.polls| && s.polls[e.poller] == Tested(r, true))
  }

  /** `MPIP_Parrived` for partition `r` yields 0 with this step. */
  predicate Answers0(s: Receiver, e: Event, r: nat) {
    || (e.Ask? && e.part == r && s.threaded == Running)
    || (e.Store? && e.poller < |s.polls| && s.polls[e.poller] == Tested(r, false))
  }

  /** The step is the return of a wait, or of a test that reports completion. */
  predicate Completes(c: Config, s: Receiver, e: Event) {
    e == EndWait || (e == Test && s.threaded != Running && Settled(s.reqs, 0, |s.reqs|))
  }

  ghost predicate Possible(c: Config, es: seq<Event>)
    decreases |es|, 0
  {
    es == [] ||
    (Possible(c, es[..|es| - 1]) && Enabled(c, After(c, es[..|es| - 1]), es[|es| - 1]))
  }

  ghost function After(c: Config, es: seq<Event>): Receiver
    requires Possible(c, es)
    decreases |es|, 1
  {
    if es == [] then Init(c) else Apply(c, After(c, es[..|es| - 1]), es[|es| - 1])
  }

  // ----- the invariant

  predicate SetUpOver(s: Receiver) {
    s.sync == Absent || s.sync == Ended
  }

  predicate InRound(s: Receiver) {
    s.main == In || s.main.Waiting?
  }

  /** The receives of the current round have been started. */
  predicate Receiving(s: Receiver) {
    s.byUser + s.bySync >= 1
  }

  ghost predicate Control(c: Config, s: Receiver) {
    && (s.sync == Absent <==> !c.threaded)
    && (s.threaded == None <==> s.sync == Absent) && (s.threaded == Finished <==> s.sync == Ended)
    && (s.active <==> s.main != Out)
    && (s.main == Waiting(true) ==> SetUpOver(s)) && (s.main == Waiting(false) ==> c.threaded)
    && (s.main.Opening? && s.main.seen != Running ==> SetUpOver(s))
    && (s.main == Cleared ==> SetUpOver(s)) && (s.main == Opening(Running) ==> c.threaded)
    && (s.main != Out ==> s.round >= 1) && (s.round >= 1 && s.main == Out ==> SetUpOver(s))
  }

  /** Who has started the receives of this round, by where both threads are. */
  ghost predicate Handshake(s: Receiver) {
    && (s.main.Opening? && s.main.seen != Running ==> s.byUser + s.bySync == 0)
    && (s.main == Cleared ==> s.byUser + s.bySync == 0)
    && (s.main.Opening? && s.main.seen == Running ==>
          s.byUser == 0 && s.bySync == if s.sync == Caught || s.sync == Ended then 1 else 0)
    && (InRound(s) ==>
          s.byUser + s.bySync == if s.sync == Absent || s.sync == Caught || s.sync == Ended then 1 else 0)
    && (s.round == 0 ==> s.byUser + s.bySync == 0)
    && (!Receiving(s) || s.main == Out ==> forall i :: 0 <= i < |s.reqs| ==> s.reqs[i] == Inactive)
  }

  ghost predicate PollInv(c: Config, s: Receiver, poll: Poll)
    requires c.layout.Positive()
  {
    match poll
    case Rest => true
    case Asked(r) => r < c.layout.users && c.layout.InRange(r)
    case Missed(r) => r < c.layout.users && c.layout.InRange(r)
    case Tested(r, flag) => r < c.layout.users && (flag ==> Arrived(c, s, r))
  }

  ghost predicate CacheInv(c: Config, s: Receiver)
    requires c.layout.Positive()
  {
    && (forall r: nat :: r < |s.cache| && s.cache[r] ==> Arrived(c, s, r))
    && (forall k :: 0 <= k < |s.polls| ==> PollInv(c, s, s.polls[k]))
    && (s.threaded == Running || s.main == Opening(Running) || s.main == Cleared ==>
          forall r :: 0 <= r < |s.cache| ==> !s.cache[r])
    && (s.threaded == Running || s.main.Opening? || s.main == Cleared ==> AllAtRest(s))
  }

  ghost predicate Inv(c: Config, s: Receiver) {
    && c.layout.Positive() && |s.cache| == c.layout.users
    && |s.reqs| == (if s.sync == Negotiating then 0 else c.layout.parts)
    && Control(c, s) && Handshake(s) && CacheInv(c, s)
  }

  lemma InitInv(c: Config)
    requires c.layout.Positive()
    ensures Inv(c, Init(c))
  {}

  /** A step that lets no finished message start again loses no arrival. */
  lemma ArrivalsKept(c: Config, s: Receiver, s': Receiver, r: nat)
    requires c.layout.Positive() && |s.reqs| == |s'.reqs|
    requires forall i :: 0 <= i < |s.reqs| && s.reqs[i] != Started ==> s'.reqs[i] != Started
    ensures Arrived(c, s, r) ==> Arrived(c, s', r)
  {}

  lemma CacheKept(c: Config, s: Receiver, s': Receiver)
    requires Inv(c, s) && |s.reqs| == |s'.reqs| && s'.cache == s.cache && s'.polls == s.polls
    requires forall i :: 0 <= i < |s.reqs| && s.reqs[i] != Started ==> s'.reqs[i] != Started
    requires s'.threaded == Running ==> s.threaded == Running
    requires s'.main == Opening(Running) ==> s.main == Opening(Running) || s.threaded == Running
    requires s'.main == Cleared ==> s.main == Cleared
    requires s'.main.Opening? ==> s.main.Opening? || AllAtRest(s)
    ensures CacheInv(c, s')
  {
    forall r: nat | r < |s.cache| && s.cache[r]
      ensures Arrived(c, s', r)
    {
      ArrivalsKept(c, s, s', r);
    }
    forall k | 0 <= k < |s.polls|
      ensures PollInv(c, s', s.polls[k])
    {
      assert PollInv(c, s, s.polls[k]);
      if s.polls[k].Tested? { ArrivalsKept(c, s, s', s.polls[k].part); }
    }
  }

  lemma ThreadStepKeeps(c: Config, s: Receiver, e: Event)
    requires Inv(c, s) && Enabled(c, s, e) && (e.SetUp? || e.Lock? || e.CatchUp? || e.Release?)
    ensures Inv(c, Apply(c, s, e))
  {
    if e.Lock? || e.Release? { CacheKept(c, s, Apply(c, s, e)); }
  }

  lemma DriverStepKeeps(c: Config, s: Receiver, e: Event)
    requires Inv(c, s) && Enabled(c, s, e)
    requires e.Begin? || e.Reset? || e.StartReceives? || e.Test? || e.BeginWait? || e.Join? || e.EndWait?
    ensures Inv(c, Apply(c, s, e))
  {
    var s' := Apply(c, s, e);
    if !e.Reset? && !e.StartReceives? { CacheKept(c, s, s'); }
  }

  lemma DeliverKeeps(c: Config, s: Receiver, i: nat)
    requires Inv(c, s) && Enabled(c, s, Deliver(i))
    ensures Inv(c, Apply(c, s, Deliver(i)))
  {
    CacheKept(c, s, Apply(c, s, Deliver(i)));
  }

  lemma PollStepKeeps(c: Config, s: Receiver, e: Event)
    requires Inv(c, s) && Enabled(c, s, e) && (e.Ask? || e.ReadCache? || e.TestRange? || e.Store?)
    ensures Inv(c, Apply(c, s, e))
  {
    var s' := Apply(c, s, e);
    var k := e.poller;
    assert PollInv(c, s, s.polls[k]);
    forall r: nat
      ensures Arrived(c, s, r) ==> Arrived(c, s', r)
    {
      ArrivalsKept(c, s, s', r);
    }
    forall l | 0 <= l < |s.polls|
      ensures PollInv(c, s', s'.polls[l])
    {
      assert PollInv(c, s, s.polls[l]);
    }
  }

  lemma StepKeeps(c: Config, s: Receiver, e: Event)
    requires Inv(c, s) && Enabled(c, s, e)
    ensures Inv(c, Apply(c, s, e))
  {
    if e.SetUp? || e.Lock? || e.CatchUp? || e.Release? {
      ThreadStepKeeps(c, s, e);
    } else if e.Ask? || e.ReadCache? || e.TestRange? || e.Store? {
      PollStepKeeps(c, s, e);
    } else if e.Deliver? {
      DeliverKeeps(c, s, e.msg);
    } else {
      DriverStepKeeps(c, s, e);
    }
  }

  lemma {:induction false} AlwaysInv(c: Config, es: seq<Event>)
    requires c.layout.Positive() && Possible(c, es)
    ensures Inv(c, After(c, es))
    decreases |es|
  {
    if es == [] {
      InitInv(c);
    } else {
      AlwaysInv(c, es[..|es| - 1]);
      StepKeeps(c, After(c, es[..|es| - 1]), es[|es| - 1]);
    }
  }

  // ----- what every run guarantees

  /** Whatever the order of the first `MPIP_Start` and the end of set-up: never more than one of the
      two threads starts the receives of a round, exactly one has done so once both are through,
      and the one that does it finds all the internal requests, none of them active. */
  lemma OneThreadStartsReceives(c: Config, es: seq<Event>)
    requires c.layout.Positive() && Possible(c, es)
    ensures var s := After(c, es);
      && (s.main != Out ==> s.byUser + s.bySync <= 1)
      && (InRound(s) && SetUpOver(s) ==> s.byUser + s.bySync == 1)
      && (s.main == Cleared || (s.sync == Locked && s.active) ==>
            s.byUser + s.bySync == 0 && s.reqs == Uniform(c.layout.parts, Inactive))
  {
    AlwaysInv(c, es);
  }

  /** The return of a wait, or of a test that reports completion, closes the round: the request and all
      its messages are inactive, and it can be started again as soon as no thread is polling it. */
  lemma CompletionCloses(c: Config, es: seq<Event>, e: Event)
    requires c.layout.Positive() && Possible(c, es) && Enabled(c, After(c, es), e) && Completes(c, After(c, es), e)
    ensures var t := Apply(c, After(c, es), e);
      && !t.active && t.main == Out && t.round == After(c, es).round && SetUpOver(t)
      && |t.reqs| == c.layout.parts && (forall i :: 0 <= i < |t.reqs| ==> t.reqs[i] == Inactive)
      && (AllAtRest(t) ==> Enabled(c, t, Begin) && Apply(c, t, Begin).active)
  {
    AlwaysInv(c, es);
  }

  /** A test is possible at any time the user thread is neither starting nor waiting and the lock is free.
      It changes nothing unless the request is set up and none of its messages is under way, and then it
      completes. */
  lemma TestCompletesIff(c: Config, es: seq<Event>)
    requires c.layout.Positive() && Possible(c, es) && After(c, es).main == In && LockFree(After(c, es))
    ensures Enabled(c, After(c, es), Test)
    ensures var s := After(c, es); var t := Apply(c, s, Test);
      && (Completes(c, s, Test) <==> SetUpOver(s) && forall i :: 0 <= i < |s.reqs| ==> s.reqs[i] != Started)
      && (t.active <==> !Completes(c, s, Test)) && (!Completes(c, s, Test) ==> t == s)
  {
    AlwaysInv(c, es);
  }

  /** In every active round whose receives were started, a cached arrival is one that a fresh test
      of the covering messages would report. */
  lemma CacheAgreesWithLiveCheck(c: Config, es: seq<Event>, r: nat)
    requires c.layout.Positive() && Possible(c, es) && r < c.layout.users
    requires InRound(After(c, es)) && Receiving(After(c, es))
    ensures r < |After(c, es).cache| && (After(c, es).cache[r] ==> Arrived(c, After(c, es), r))
  {
    AlwaysInv(c, es);
  }

  /** A poll never touches anything outside the flags and the messages: whatever a thread inside
      `MPIP_Parrived` is about to do, the arrays are there and the range lies inside them. */
  lemma PollsStayInside(c: Config, es: seq<Event>, k: nat)
    requires c.layout.Positive() && Possible(c, es) && k < |After(c, es).polls|
    ensures match After(c, es).polls[k]
      case Rest => true
      case Asked(_) => Enabled(c, After(c, es), ReadCache(k))
      case Missed(_) => Enabled(c, After(c, es), TestRange(k))
      case Tested(_, _) => Enabled(c, After(c, es), Store(k))
  {
    AlwaysInv(c, es);
    PollCanGoOn(c, After(c, es), k);
  }

  lemma PollCanGoOn(c: Config, s: Receiver, k: nat)
    requires Inv(c, s) && k < |s.polls|
    ensures match s.polls[k]
      case Rest => true
      case Asked(_) => Enabled(c, s, ReadCache(k))
      case Missed(_) => Enabled(c, s, TestRange(k))
      case Tested(_, _) => Enabled(c, s, Store(k))
  {
    assert PollInv(c, s, s.polls[k]);
  }

  /** `MPIP_Parrived` yields 1 only for a partition whose messages are all over. */
  lemma AnswerMeansArrived(c: Config, es: seq<Event>, e: Event, r: nat)
    requires c.layout.Positive() && Possible(c, es) && Enabled(c, After(c, es), e)
    requires Answers1(After(c, es), e, r)
    ensures Arrived(c, After(c, es), r)
  {
    AlwaysInv(c, es);
    assert PollInv(c, After(c, es), After(c, es).polls[e.poller]);
  }

  /** Partition `r` has arrived, and nobody is about to start the receives again. */
  ghost predicate Standing(c: Config, s: Receiver, r: nat)
    requires c.layout.Positive()
  {
    SetUpOver(s) && (InRound(s) || s.main == Out) && Arrived(c, s, r)
  }

  /** The last step of a continued run. */
  lemma {:induction false} LastStep(c: Config, es: seq<Event>, fs: seq<Event>)
    requires fs != [] && Possible(c, es + fs)
    ensures Possible(c, es + fs[..|fs| - 1]) && Enabled(c, After(c, es + fs[..|fs| - 1]), fs[|fs| - 1])
    ensures After(c, es + fs) == Apply(c, After(c, es + fs[..|fs| - 1]), fs[|fs| - 1])
  {
    var run := es + fs;
    assert run[..|run| - 1] == es + fs[..|fs| - 1] && run[|run| - 1] == fs[|fs| - 1];
  }

  /** Once arrived, a partition stays arrived until the next `MPIP_Start`. */
  lemma {:induction false} ArrivalIsStable(c: Config, es: seq<Event>, fs: seq<Event>, r: nat)
    requires c.layout.Positive() && Possible(c, es) && Possible(c, es + fs) && Begin !in fs
    requires Standing(c, After(c, es), r)
    ensures Standing(c, After(c, es + fs), r)
    decreases |fs|
  {
    if fs == [] {
      assert es + fs == es;
    } else {
      var front, e := fs[..|fs| - 1], fs[|fs| - 1];
      LastStep(c, es, fs);
      ArrivalIsStable(c, es, front, r);
      AlwaysInv(c, es + front);
      StaysArrived(c, After(c, es + front), e, r);
    }
  }

  lemma StaysArrived(c: Config, s: Receiver, e: Event, r: nat)
    requires Inv(c, s) && Enabled(c, s, e) && !e.Begin? && Standing(c, s, r)
    ensures Standing(c, Apply(c, s, e), r)
  {
    ArrivalsKept(c, s, Apply(c, s, e), r);
  }

  // ----- the whole request and its partitions

  /** A request that tests complete has every partition arrived. */
  lemma WholeImpliesParts(c: Config, es: seq<Event>, r: nat)
    requires c.layout.Positive() && Possible(c, es) && SetUpOver(After(c, es))
    requires r < c.layout.users && c.layout.InRange(r)
    requires Settled(After(c, es).reqs, 0, |After(c, es).reqs|)
    ensures Arrived(c, After(c, es), r)
  {
    AlwaysInv(c, es);
  }

  /** If every partition has arrived then the whole request is complete. */
  ghost predicate PartsDecide(l: Layout)
    requires l.Positive()
  {
    forall reqs: seq<Phase> ::
      |reqs| == l.parts && AllPartsArrived(l, reqs) ==> Settled(reqs, 0, |reqs|)
  }

  ghost predicate AllPartsArrived(l: Layout, reqs: seq<Phase>)
    requires l.Positive()
  {
    forall r: nat :: r < l.users ==> RangeSettled(l, reqs, r)
  }

  /** The arrival of all partitions decides the completion of the whole exactly if one of the two
      counts divides the other. */
  lemma PartsDecideIffAligned(l: Layout)
    requires l.Safe()
    ensures PartsDecide(l) <==> l.Aligned()
  {
    AllReachedIffAligned(l);
    if l.Aligned() {
      forall reqs: seq<Phase> | |reqs| == l.parts && AllPartsArrived(l, reqs)
        ensures Settled(reqs, 0, |reqs|)
      {
        forall i: nat | i < l.parts
          ensures reqs[i] != Started
        {
          assert l.Reached(i);
          var r: nat :| r < l.users && l.Maps(r, i);
          assert RangeSettled(l, reqs, r);
        }
      }
    } else {
      var i: nat :| i < l.parts && !l.Reached(i);
      var reqs := Uniform(l.parts, Inactive)[i := Started];
      forall r: nat | r < l.users
        ensures RangeSettled(l, reqs, r)
      {
        RangeInBounds(l, r);
        assert !l.Maps(r, i);
      }
      assert reqs[i] == Started;
      assert AllPartsArrived(l, reqs) && !Settled(reqs, 0, |reqs|);
    }
  }

  /** In an aligned layout `MPIP_Test` reports completion exactly when every partition has arrived. */
  lemma WholeIffParts(c: Config, es: seq<Event>)
    requires c.layout.Aligned() && Possible(c, es) && SetUpOver(After(c, es))
    ensures Settled(After(c, es).reqs, 0, |After(c, es).reqs|) <==> AllPartsArrived(c.layout, After(c, es).reqs)
  {
    AlignedIsSafe(c.layout);
    AlwaysInv(c, es);
    PartsDecideIffAligned(c.layout);
    if Settled(After(c, es).reqs, 0, |After(c, es).reqs|) {
      forall r: nat | r < c.layout.users
        ensures RangeSettled(c.layout, After(c, es).reqs, r)
      {
        RangeInBounds(c.layout, r);
        WholeImpliesParts(c, es, r);
      }
    }
  }
}
