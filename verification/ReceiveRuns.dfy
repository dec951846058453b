/**
 Runs of the receiving side, built step by step: the states some run leads to, the way into the first
 round with either thread starting the receives, and the messages coming in.
 */
module ReceiveRuns {
  import opened Partitioning
  import opened Mpi
  import opened Basics
  import opened ReceiveProtocol

  ghost predicate Reachable(c: Config, s: Receiver) {
    exists es :: Possible(c, es) && After(c, es) == s
  }

  lemma OneMore(c: Config, es: seq<Event>, e: Event)
    requires Possible(c, es) && Enabled(c, After(c, es), e)
    ensures Possible(c, es + [e]) && After(c, es + [e]) == Apply(c, After(c, es), e)
  {
    assert (es + [e])[..|es + [e]| - 1] == es;
  }

  /** Two more events, of which the run before the last one is known too. */
  lemma TwoMore(c: Config, es: seq<Event>, a: Event, b: Event)
    requires Possible(c, es) && Enabled(c, After(c, es), a) && Enabled(c, Apply(c, After(c, es), a), b)
    ensures Possible(c, es + [a, b]) && (es + [a, b])[..|es + [a, b]| - 1] == es + [a]
    ensures Possible(c, es + [a]) && After(c, es + [a]) == Apply(c, After(c, es), a)
    ensures After(c, es + [a, b]) == Apply(c, Apply(c, After(c, es), a), b)
  {
    OneMore(c, es, a);
    OneMore(c, es + [a], b);
    assert es + [a, b] == es + [a] + [b];
  }

  lemma ReachInit(c: Config)
    ensures Reachable(c, Init(c))
  {
    assert Possible(c, []) && After(c, []) == Init(c);
  }

  lemma ReachStep(c: Config, s: Receiver, e: Event) returns (s': Receiver)
    requires Reachable(c, s) && Enabled(c, s, e)
    ensures s' == Apply(c, s, e) && Reachable(c, s')
  {
    var es :| Possible(c, es) && After(c, es) == s;
    s' := Apply(c, s, e);
    OneMore(c, es, e);
  }

  /** The first round is on, set-up is over, and nobody has asked for a partition. */
  ghost predicate Unasked(c: Config, s: Receiver) {
    && s.main == In && s.active && s.round == 1 && SetUpOver(s) && s.threaded != Running
    && |s.reqs| == c.layout.parts && |s.cache| == c.layout.users && |s.polls| == c.pollers
    && AllAtRest(s) && forall p :: 0 <= p < |s.cache| ==> !s.cache[p]
  }

  /** Of the first `n` messages only `w` has not been received, and no other one has. */
  ghost predicate AllBut(c: Config, s: Receiver, n: nat, w: nat) {
    && n <= c.layout.parts == |s.reqs|
    && forall i: nat :: i < c.layout.parts ==> s.reqs[i] == if i < n && i != w then Complete else Started
  }

  lemma SetUpFirst(c: Config) returns (s: Receiver)
    requires c.layout.Positive()
    ensures Reachable(c, s) && s.main == Out && s.round == 0 && SetUpOver(s) && s.threaded != Running
    ensures |s.reqs| == c.layout.parts && s == Init(c).(reqs := s.reqs, sync := s.sync, threaded := s.threaded)
  {
    ReachInit(c);
    s := Init(c);
    if c.threaded {
      s := ReachStep(c, s, SetUp);
      s := ReachStep(c, s, Lock);
      s := ReachStep(c, s, CatchUp);
      s := ReachStep(c, s, Release);
    }
  }

  /** Set-up is over before the first start: the user thread starts the receives. */
  lemma UserStarts(c: Config, w: nat) returns (s: Receiver)
    requires c.layout.Positive()
    ensures Reachable(c, s) && Unasked(c, s) && AllBut(c, s, 0, w) && s.byUser == 1 && s.bySync == 0
  {
    s := SetUpFirst(c);
    s := ReachStep(c, s, Begin);
    s := ReachStep(c, s, Reset);
    s := ReachStep(c, s, StartReceives);
  }

  /** The user thread is through `MPIP_Start`, has polled in vain and is inside `MPIP_Wait` before set-up
      has begun: the background thread starts the receives, and the wait goes on. */
  lemma ThreadStarts(c: Config, w: nat) returns (r: Receiver, s: Receiver)
    requires c.layout.Positive() && c.threaded
    ensures Reachable(c, r) && r.main == Waiting(false) && r.sync == Negotiating && r.byUser + r.bySync == 0
    ensures Reachable(c, s) && s.main == Waiting(true) && SetUpOver(s)
    ensures AllBut(c, s, 0, w) && s.round == 1 && s.byUser == 0 && s.bySync == 1
  {
    ReachInit(c);
    r := Init(c);
    r := ReachStep(c, r, Begin);
    r := ReachStep(c, r, Reset);
    r := ReachStep(c, r, BeginWait);
    s := ReachStep(c, r, SetUp);
    s := ReachStep(c, s, Lock);
    s := ReachStep(c, s, CatchUp);
    s := ReachStep(c, s, Release);
    s := ReachStep(c, s, Join);
  }

  /** Every message up to `n` except `w` is received; nothing else moves. */
  lemma DeliverAllBut(c: Config, s0: Receiver, n: nat, w: nat) returns (s: Receiver)
    requires c.layout.Positive() && Reachable(c, s0) && AllBut(c, s0, 0, w) && n <= c.layout.parts
    ensures Reachable(c, s) && AllBut(c, s, n, w) && s == s0.(reqs := s.reqs)
    decreases n
  {
    if n == 0 {
      s := s0;
    } else {
      s := DeliverAllBut(c, s0, n - 1, w);
      if n - 1 != w { s := ReachStep(c, s, Deliver(n - 1)); }
    }
  }

  /** Whichever of the two threads comes first: with background set-up there are runs in which the user
      thread starts the receives of the first round, and runs in which the background thread does. */
  lemma EitherThreadCanStart(c: Config)
    requires c.layout.Positive() && c.threaded
    ensures exists es :: Possible(c, es) && After(c, es).round == 1 && After(c, es).byUser == 1
    ensures exists es :: Possible(c, es) && After(c, es).round == 1 && After(c, es).bySync == 1
  {
    var u := UserStarts(c, 0);
    var r, t := ThreadStarts(c, 0);
  }
}
