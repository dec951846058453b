/**
 `MPIP_Parrived` as its callers see it: what one call does if nothing runs beside it, what its answers
 mean for later calls, and what two calls at once can do to each other.
 */
module Polling {
  import opened Partitioning
  import opened Mpi
  import opened Basics
  import opened ReceiveProtocol
  import opened ReceiveRuns

  // ----- one call alone

  /** The steps of poller `k`. */
  predicate OfPoller(e: Event, k: nat) {
    (e.Ask? || e.ReadCache? || e.TestRange? || e.Store?) && e.poller == k
  }

  /** The last event of the run is the one with which a call for `r` yields `flag`. */
  ghost predicate EndsWithAnswer(c: Config, es: seq<Event>, r: nat, flag: bool)
    requires Possible(c, es)
  {
    es != [] &&
    if flag then Answers1(After(c, es[..|es| - 1]), es[|es| - 1], r)
    else Answers0(After(c, es[..|es| - 1]), es[|es| - 1], r)
  }

  /** `t` is `s` after a call for partition `r` with the answer `flag`: a flag that was up answers and
      changes nothing; otherwise the answer becomes the flag, and if it is 1 the messages of the range are
      deactivated. */
  ghost predicate AfterAnswer(c: Config, s: Receiver, t: Receiver, r: nat, flag: bool)
    requires c.layout.Positive()
  {
    && t == s.(cache := t.cache, reqs := t.reqs) && r < |s.cache| && |t.reqs| == |s.reqs|
    && t.cache == s.cache[r := flag]
    && forall i: nat :: i < |s.reqs| ==>
         t.reqs[i] == if flag && !s.cache[r] && c.layout.Maps(r, i) then Inactive else s.reqs[i]
  }

  /** None of the messages in the range of `r` is under way. */
  ghost predicate RangeOver(c: Config, s: Receiver, r: nat)
    requires c.layout.Positive()
  {
    forall i: nat :: i < |s.reqs| && c.layout.Maps(r, i) ==> s.reqs[i] != Started
  }

  /** Poller `k` may call for partition `r`, and set-up is over. */
  ghost predicate MayAsk(c: Config, s: Receiver, k: nat, r: nat) {
    && c.layout.Positive() && s.threaded != Running && LockFree(s) && (InRound(s) || s.main == Out)
    && k < |s.polls| && s.polls[k] == Rest
    && r < c.layout.users == |s.cache| && |s.reqs| == c.layout.parts && c.layout.InRange(r)
  }

  lemma CachedCall(c: Config, s: Receiver, k: nat, r: nat) returns (s1: Receiver, s2: Receiver)
    requires MayAsk(c, s, k, r) && s.cache[r]
    ensures Enabled(c, s, Ask(k, r)) && s1 == Apply(c, s, Ask(k, r))
    ensures Enabled(c, s1, ReadCache(k)) && s2 == Apply(c, s1, ReadCache(k)) && Answers1(s1, ReadCache(k), r)
    ensures AfterAnswer(c, s, s2, r, true)
  {
    s1 := Apply(c, s, Ask(k, r));
    s2 := Apply(c, s1, ReadCache(k));
    assert s2.polls == s.polls;
  }

  lemma MissedCall(c: Config, s: Receiver, k: nat, r: nat) returns (s1: Receiver, s2: Receiver)
    requires MayAsk(c, s, k, r) && !s.cache[r]
    ensures Enabled(c, s, Ask(k, r)) && s1 == Apply(c, s, Ask(k, r))
    ensures Enabled(c, s1, ReadCache(k)) && s2 == Apply(c, s1, ReadCache(k))
    ensures s2 == s.(polls := s.polls[k := Missed(r)])
  {
    s1 := Apply(c, s, Ask(k, r));
    s2 := Apply(c, s1, ReadCache(k));
  }

  lemma TestedCall(c: Config, s: Receiver, k: nat, r: nat) returns (s3: Receiver, s4: Receiver)
    requires MayAsk(c, s, k, r) && !s.cache[r]
    ensures var s2 := s.(polls := s.polls[k := Missed(r)]);
      Enabled(c, s2, TestRange(k)) && s3 == Apply(c, s2, TestRange(k))
    ensures Enabled(c, s3, Store(k)) && s4 == Apply(c, s3, Store(k))
    ensures if RangeOver(c, s, r) then Answers1(s3, Store(k), r) else Answers0(s3, Store(k), r)
    ensures AfterAnswer(c, s, s4, r, RangeOver(c, s, r))
  {
    assert Arrived(c, s, r) <==> RangeOver(c, s, r);
    var s2 := s.(polls := s.polls[k := Missed(r)]);
    s3 := Apply(c, s2, TestRange(k));
    assert s3.polls[k] == Tested(r, RangeOver(c, s, r));
    s4 := Apply(c, s3, Store(k));
    assert s4.polls == s.polls;
  }

  /** A call of `MPIP_Parrived` with set-up over, in whatever state a run has led to between two calls of
      `MPIP_Start`, with nothing running beside it: it yields 1 exactly if the flag of the partition is up
      or none of the messages in its range is under way, raises the flag accordingly, and touches nothing
      but the messages of the range. */
  lemma ParrivedAlone(c: Config, es: seq<Event>, k: nat, r: nat) returns (fs: seq<Event>, flag: bool)
    requires c.layout.Positive() && Possible(c, es) && SetUpOver(After(c, es))
    requires InRound(After(c, es)) || After(c, es).main == Out
    requires k < |After(c, es).polls| && After(c, es).polls[k] == Rest && r < c.layout.users && c.layout.InRange(r)
    ensures (forall e :: e in fs ==> OfPoller(e, k)) && Possible(c, es + fs) && EndsWithAnswer(c, es + fs, r, flag)
    ensures AfterAnswer(c, After(c, es), After(c, es + fs), r, flag)
    ensures flag <==> After(c, es).cache[r] || RangeOver(c, After(c, es), r)
  {
    assert MayAsk(c, After(c, es), k, r) by { AlwaysInv(c, es); }
    if After(c, es).cache[r] {
      fs := CachedRun(c, es, k, r);
      flag := true;
    } else {
      fs := TestedRun(c, es, k, r);
      flag := RangeOver(c, After(c, es), r);
    }
  }

  lemma CachedRun(c: Config, es: seq<Event>, k: nat, r: nat) returns (fs: seq<Event>)
    requires Possible(c, es) && MayAsk(c, After(c, es), k, r) && After(c, es).cache[r]
    ensures (forall e :: e in fs ==> OfPoller(e, k)) && Possible(c, es + fs) && EndsWithAnswer(c, es + fs, r, true)
    ensures AfterAnswer(c, After(c, es), After(c, es + fs), r, true)
  {
    var s1, s2 := CachedCall(c, After(c, es), k, r);
    TwoMore(c, es, Ask(k, r), ReadCache(k));
    fs := [Ask(k, r), ReadCache(k)];
  }

  lemma TestedRun(c: Config, es: seq<Event>, k: nat, r: nat) returns (fs: seq<Event>)
    requires Possible(c, es) && MayAsk(c, After(c, es), k, r) && !After(c, es).cache[r]
    ensures (forall e :: e in fs ==> OfPoller(e, k)) && Possible(c, es + fs)
    ensures EndsWithAnswer(c, es + fs, r, RangeOver(c, After(c, es), r))
    ensures AfterAnswer(c, After(c, es), After(c, es + fs), r, RangeOver(c, After(c, es), r))
  {
    var s1, s2 := MissedCall(c, After(c, es), k, r);
    var s3, s4 := TestedCall(c, After(c, es), k, r);
    TwoMore(c, es, Ask(k, r), ReadCache(k));
    var run := es + [Ask(k, r), ReadCache(k)];
    TwoMore(c, run, TestRange(k), Store(k));
    fs := [Ask(k, r), ReadCache(k), TestRange(k), Store(k)];
    assert es + fs == run + [TestRange(k), Store(k)];
  }

  /** While set-up is running a call yields 0 and changes nothing. */
  lemma ParrivedTooEarly(c: Config, es: seq<Event>, k: nat, r: nat)
    requires c.layout.Positive() && Possible(c, es) && After(c, es).threaded == Running && LockFree(After(c, es))
    requires InRound(After(c, es)) || After(c, es).main == Out
    requires k < |After(c, es).polls| && r < c.layout.users
    ensures Possible(c, es + [Ask(k, r)]) && EndsWithAnswer(c, es + [Ask(k, r)], r, false)
    ensures After(c, es + [Ask(k, r)]) == After(c, es)
  {
    AlwaysInv(c, es);
    OneMore(c, es, Ask(k, r));
  }

  // ----- an answer and the later ones

  lemma AnswerStands(c: Config, es: seq<Event>, r: nat)
    requires c.layout.Positive() && Possible(c, es) && EndsWithAnswer(c, es, r, true)
    ensures Standing(c, After(c, es), r)
  {
    var front, e := es[..|es| - 1], es[|es| - 1];
    AlwaysInv(c, front);
    AnswerMeansArrived(c, front, e, r);
    assert After(c, front).polls[e.poller] != Rest;
    StaysArrived(c, After(c, front), e, r);
  }

  /** Partition `r` has arrived for good, and poller `k` is not about to say otherwise. */
  ghost predicate Truthful(c: Config, s: Receiver, r: nat, k: nat)
    requires c.layout.Positive()
  {
    Standing(c, s, r) && k < |s.polls| && s.polls[k] != Tested(r, false)
  }

  lemma StaysTruthful(c: Config, s: Receiver, e: Event, r: nat, k: nat)
    requires Inv(c, s) && Enabled(c, s, e) && !e.Begin? && Truthful(c, s, r, k)
    ensures Truthful(c, Apply(c, s, e), r, k)
  {
    StaysArrived(c, s, e, r);
  }

  /** A call of poller `k` that has not tested the range of `r` in vain will not do so once the partition
      has arrived. */
  lemma {:induction false} NeverTestsInVain(c: Config, es: seq<Event>, fs: seq<Event>, r: nat, k: nat)
    requires c.layout.Positive() && Possible(c, es) && Possible(c, es + fs) && Begin !in fs
    requires Truthful(c, After(c, es), r, k)
    ensures Truthful(c, After(c, es + fs), r, k)
    decreases |fs|
  {
    if fs == [] {
      assert es + fs == es;
    } else {
      var front, e := fs[..|fs| - 1], fs[|fs| - 1];
      LastStep(c, es, fs);
      NeverTestsInVain(c, es, front, r, k);
      AlwaysInv(c, es + front);
      StaysTruthful(c, After(c, es + front), e, r, k);
    }
  }

  /** Once a call for partition `r` has yielded 1, every call for `r` that has not tested its range yet
      yields 1 too, whatever runs beside it, until the next start. */
  lemma AnswersStay(c: Config, es: seq<Event>, fs: seq<Event>, e: Event, r: nat)
    requires c.layout.Positive() && Possible(c, es) && EndsWithAnswer(c, es, r, true)
    requires Possible(c, es + fs) && Begin !in fs && Enabled(c, After(c, es + fs), e)
    requires e.Ask? || e.Store?
    requires e.poller < |After(c, es).polls| && After(c, es).polls[e.poller] != Tested(r, false)
    ensures !Answers0(After(c, es + fs), e, r)
  {
    AnswerStands(c, es, r);
    NeverTestsInVain(c, es, fs, r, e.poller);
    AlwaysInv(c, es + fs);
  }

  // ----- two calls at once

  /** A call that tested its range before the messages arrived may store its answer after another call
      has found the partition arrived: it yields 0 after the other has yielded 1, and takes the flag down
      again. */
  lemma StaleAnswer(c: Config) returns (es: seq<Event>)
    requires c.layout.Positive() && c.pollers >= 2
    ensures Possible(c, es) && EndsWithAnswer(c, es, 0, true)
    ensures Enabled(c, After(c, es), Store(0)) && Answers0(After(c, es), Store(0), 0)
    ensures |After(c, es).cache| > 0 && After(c, es).cache[0]
    ensures |Apply(c, After(c, es), Store(0)).cache| > 0 && !Apply(c, After(c, es), Store(0)).cache[0]
  {
    FirstInRange(c.layout);
    var s := UserStarts(c, c.layout.parts);
    s := ReachStep(c, s, Ask(0, 0));
    s := ReachStep(c, s, ReadCache(0));
    assert s.reqs[0] == Started && !Arrived(c, s, 0);
    s := ReachStep(c, s, TestRange(0));
    s := DeliverAllBut(c, s, c.layout.parts, c.layout.parts);
    s := ReachStep(c, s, Ask(1, 0));
    s := ReachStep(c, s, ReadCache(1));
    s := ReachStep(c, s, TestRange(1));
    var run :| Possible(c, run) && After(c, run) == s;
    OneMore(c, run, Store(1));
    es := run + [Store(1)];
    assert es[..|es| - 1] == run;
  }

  lemma FirstInRange(c: Layout)
    requires c.Positive()
    ensures c.InRange(0) && c.First(0) == 0
  {
    if c.users <= c.parts {
      RangesTile(c, 0);
    } else {
      DivPositive(c.users, c.parts);
      DivUnique(0, c.users / c.parts, 0);
    }
  }
}
