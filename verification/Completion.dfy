/**
 Testing and waiting on several partitioned requests at once.

 Each call below walks an array of requests with `MPIP_Test`, which deactivates a request the moment
 it reports it; so whatever a walk reports, it reports once.
 */
module Completion {
  import opened Basics
  import opened Mpi
  import opened Requests
  import opened Negotiation
  import opened Partitioning

  /** Distinct request objects with arrays of their own, as an array of request structures gives. */
  ghost predicate Separate(rs: seq<Request>)
    reads rs
  {
    && (forall i, j :: 0 <= i < j < |rs| ==> rs[i] != rs[j] && rs[i].request != rs[j].request)
    && (forall i :: 0 <= i < |rs| ==> rs[i].Accounted() && (rs[i].threaded != Running ==> rs[i].Built()))
  }

  ghost function Messages(rs: seq<Request>): set<object>
    reads rs
  {
    set i | 0 <= i < |rs| :: rs[i].request
  }

  /** The positions of `true`, in ascending order. */
  function Positions(hits: seq<bool>): seq<nat> {
    if hits == [] then []
    else
      var front := Positions(hits[..|hits| - 1]);
      if hits[|hits| - 1] then front + [|hits| - 1] else front
  }

  /** The positions are strictly increasing, and are exactly those that hold `true`. */
  lemma {:induction false} PositionsExact(hits: seq<bool>)
    ensures forall j, k :: 0 <= j < k < |Positions(hits)| ==> Positions(hits)[j] < Positions(hits)[k]
    ensures forall i: nat :: i in Positions(hits) <==> i < |hits| && hits[i]
  {
    if hits != [] {
      var n := |hits| - 1;
      PositionsExact(hits[..n]);
      assert forall k :: 0 <= k < |Positions(hits[..n])| ==> Positions(hits[..n])[k] in Positions(hits[..n]);
    }
  }

  lemma PositionsGrow(hits: seq<bool>, i: nat)
    requires i < |hits|
    ensures Positions(hits[..i + 1]) == if hits[i] then Positions(hits[..i]) + [i] else Positions(hits[..i])
  {
    assert hits[..i + 1][..i] == hits[..i];
  }

  ghost function Views(rs: seq<Request>): (v: seq<View>)
    reads rs, Messages(rs)
    ensures |v| == |rs| && forall i :: 0 <= i < |rs| ==> v[i] == rs[i].Seen()
  {
    seq(|rs|, i requires 0 <= i < |rs| reads rs, Messages(rs) => rs[i].Seen())
  }

  /** The first `n` requests were tested once each. */
  ghost function TestedUpTo(v: seq<View>, n: nat): (w: seq<View>)
    requires n <= |v|
    ensures |w| == |v|
    ensures forall i :: 0 <= i < |v| ==> w[i] == if i < n then v[i].AfterTest() else v[i]
  {
    seq(|v|, i requires 0 <= i < |v| => if i < n then v[i].AfterTest() else v[i])
  }

  lemma TestedNext(v: seq<View>, i: nat)
    requires i < |v|
    ensures TestedUpTo(v, i)[i] == v[i] && TestedUpTo(v, i)[i := v[i].AfterTest()] == TestedUpTo(v, i + 1)
  {}

  /** One `MPIP_Test` inside a walk. */
  method TestOne(rs: seq<Request>, i: nat) returns (flag: bool)
    requires Separate(rs) && i < |rs|
    modifies {rs[i]}`active, {rs[i]}`reports, rs[i].request
    ensures Separate(rs)
    ensures flag == old(rs[i].Seen()).Completed()
    ensures flag <==> Reports(old(Views(rs)), TestSingle(i), i)
    ensures Views(rs) == old(Views(rs))[i := old(rs[i].Seen()).AfterTest()]
    ensures Views(rs) == Perform(old(Views(rs)), TestSingle(i))
  {
    flag := rs[i].Test();
    assert forall j :: 0 <= j < |rs| && j != i ==> rs[j].Seen() == old(rs[j].Seen());
  }

  /** `MPIP_Testall`: every request is tested, also after a failure; the flag says whether all of them
      were active, set up and complete.  A request that was is closed, the others do not change. */
  method Testall(rs: seq<Request>) returns (flag: bool)
    requires Separate(rs)
    modifies rs`active, rs`reports, Messages(rs)
    ensures Separate(rs)
    ensures flag <==> forall i :: 0 <= i < |rs| ==> old(Views(rs))[i].Completed()
    ensures flag <==> forall i :: 0 <= i < |rs| ==> old(rs[i].Over())
    ensures Views(rs) == TestedUpTo(old(Views(rs)), |rs|)
    ensures Views(rs) == Perform(old(Views(rs)), TestEach)
  {
    ghost var v := Views(rs);
    flag := true;
    for i := 0 to |rs|
      invariant Separate(rs)
      invariant Views(rs) == TestedUpTo(v, i)
      invariant flag <==> forall j :: 0 <= j < i ==> v[j].Completed()
    {
      TestedNext(v, i);
      assert rs[i].Seen() == Views(rs)[i];
      var myflag := TestOne(rs, i);
      flag := flag && myflag;
    }
  }

  function Completions(v: seq<View>): (hits: seq<bool>)
    ensures |hits| == |v| && forall i :: 0 <= i < |v| ==> hits[i] == v[i].Completed()
  {
    seq(|v|, i requires 0 <= i < |v| => v[i].Completed())
  }

  /** Tests request `i` of a walk that began with `v` and notes its index if the test succeeds. */
  method CollectOne(rs: seq<Request>, i: nat, indices: array<nat>, found: nat, ghost v: seq<View>)
    returns (outcount: nat)
    requires Separate(rs) && i < |rs| == |v| && found <= i < indices.Length
    requires Views(rs) == TestedUpTo(v, i) && indices[..found] == Positions(Completions(v)[..i])
    modifies {rs[i]}`active, {rs[i]}`reports, rs[i].request, indices
    ensures Separate(rs) && Views(rs) == TestedUpTo(v, i + 1)
    ensures outcount <= i + 1 && indices[..outcount] == Positions(Completions(v)[..i + 1])
  {
    TestedNext(v, i);
    PositionsGrow(Completions(v), i);
    assert rs[i].Seen() == Views(rs)[i];
    var flag := TestOne(rs, i);
    ghost var w := Views(rs);
    outcount := Note(flag, i, indices, found);
    assert Views(rs) == w;
  }

  method Note(flag: bool, i: nat, indices: array<nat>, found: nat) returns (outcount: nat)
    requires found < indices.Length
    modifies indices
    ensures outcount == (if flag then found + 1 else found)
    ensures indices[..outcount] == old(indices[..found]) + if flag then [i] else []
  {
    outcount := found;
    if flag {
      indices[outcount] := i;
      outcount := outcount + 1;
    }
  }

  /** Tests every request in turn and notes the indices of the tests that succeed. */
  method CollectAll(rs: seq<Request>, indices: array<nat>) returns (outcount: nat)
    requires Separate(rs) && |rs| <= indices.Length
    modifies rs`active, rs`reports, Messages(rs), indices
    ensures Separate(rs)
    ensures outcount <= |rs| && indices[..outcount] == Positions(Completions(old(Views(rs))))
    ensures Views(rs) == TestedUpTo(old(Views(rs)), |rs|)
  {
    ghost var v := Views(rs);
    outcount := 0;
    for i := 0 to |rs|
      invariant Separate(rs)
      invariant Views(rs) == TestedUpTo(v, i)
      invariant outcount <= i && indices[..outcount] == Positions(Completions(v)[..i])
    {
      assert rs[i].request in old(Messages(rs));
      outcount := CollectOne(rs, i, indices, outcount, v);
    }
    assert Completions(v)[..|rs|] == Completions(v);
  }

  /** `MPIP_Testsome`: the indices reported are strictly increasing and are exactly those of the
      requests that were active, set up and had no message under way. */
  method Testsome(rs: seq<Request>, indices: array<nat>) returns (outcount: nat)
    requires Separate(rs) && |rs| <= indices.Length
    modifies rs`active, rs`reports, Messages(rs), indices
    ensures Separate(rs)
    ensures outcount <= |rs| && indices[..outcount] == Positions(Completions(old(Views(rs))))
    ensures forall i: nat :: i in indices[..outcount] <==> i < |rs| && old(rs[i].Over())
    ensures forall j, k :: 0 <= j < k < outcount ==> indices[j] < indices[k]
    ensures Views(rs) == TestedUpTo(old(Views(rs)), |rs|)
    ensures Views(rs) == Perform(old(Views(rs)), TestEach)
  {
    ghost var v := Views(rs);
    outcount := CollectAll(rs, indices);
    CompletedPositions(v);
    assert forall j :: 0 <= j < outcount ==> indices[j] == indices[..outcount][j];
  }

  lemma CompletedPositions(v: seq<View>)
    ensures forall i: nat :: i in Positions(Completions(v)) <==> i < |v| && v[i].Completed()
    ensures forall j, k :: 0 <= j < k < |Positions(Completions(v))| ==>
      Positions(Completions(v))[j] < Positions(Completions(v))[k]
  {
    PositionsExact(Completions(v));
  }

  // ----- waiting

  /** Only the transport has been at work: some started messages are now complete. */
  ghost predicate Progressed(v: seq<View>, w: seq<View>) {
    |v| == |w| && forall i :: 0 <= i < |v| ==> ProgressedOne(v[i], w[i])
  }

  ghost predicate ProgressedOne(v: View, w: View) {
    && w == v.(reqs := w.reqs) && |w.reqs| == |v.reqs|
    && forall m :: 0 <= m < |v.reqs| ==>
         w.reqs[m] == v.reqs[m] || (v.reqs[m].phase == Started && w.reqs[m] == v.reqs[m].(phase := Complete))
  }

  /** The transport finishes any started messages of one request. */
  method TransportOne(rs: seq<Request>, i: nat)
    requires Separate(rs) && i < |rs|
    modifies rs[i].request
    ensures Separate(rs)
    ensures ProgressedOne(old(rs[i].Seen()), rs[i].Seen())
    ensures Views(rs) == old(Views(rs))[i := rs[i].Seen()]
  {
    var a := rs[i].request;
    for m := 0 to a.Length
      invariant forall l :: 0 <= l < a.Length ==>
        a[l] == old(a[l]) || (old(a[l]).phase == Started && a[l] == old(a[l]).(phase := Complete))
      invariant forall l :: m <= l < a.Length ==> a[l] == old(a[l])
    {
      if * {
        if a[m].phase == Started {
          a[m] := a[m].(phase := Complete);
        }
      }
    }
    assert forall j :: 0 <= j < |rs| && j != i ==> rs[j].Seen() == old(rs[j].Seen());
  }

  /** What the transport may do between two passes. */
  method Transport(rs: seq<Request>)
    requires Separate(rs)
    modifies Messages(rs)
    ensures Separate(rs) && Progressed(old(Views(rs)), Views(rs))
  {
    ghost var v := Views(rs);
    for i := 0 to |rs|
      invariant Separate(rs) && Progressed(v, Views(rs))
      invariant forall j :: i <= j < |rs| ==> Views(rs)[j] == v[j]
    {
      ghost var w := Views(rs);
      TransportOne(rs, i);
      assert Views(rs)[i] == rs[i].Seen();
    }
  }

  /** `MPIP_Waitsome`, whose passes are those of `MPIP_Testsome`, given up after `patience` passes.
      When it returns with something to report, all earlier passes reported nothing, and the indices
      are strictly increasing and exactly those of the requests whose test succeeded in the last pass,
      which saw them as `seen`.  It does report something if it makes a pass at all and some request was
      complete to begin with. */
  method Waitsome(rs: seq<Request>, indices: array<nat>, patience: nat) returns (outcount: nat, ghost seen: seq<View>)
    requires Separate(rs) && |rs| <= indices.Length
    modifies rs`active, rs`reports, Messages(rs), indices
    ensures Separate(rs) && outcount <= |rs|
    ensures Progressed(old(Views(rs)), seen)
    ensures outcount == 0 ==> Views(rs) == seen
    ensures outcount > 0 ==>
      indices[..outcount] == Positions(Completions(seen)) && Views(rs) == TestedUpTo(seen, |rs|)
    ensures patience > 0 && (exists i :: 0 <= i < |rs| && old(rs[i].Over())) ==> outcount > 0
  {
    outcount := 0;
    seen := Views(rs);
    ghost var v := seen;
    var passes := 0;
    while outcount < 1 && passes < patience
      invariant Separate(rs) && outcount <= |rs| && passes <= patience
      invariant Progressed(v, seen)
      invariant outcount == 0 ==> Views(rs) == seen
      invariant outcount > 0 ==>
        indices[..outcount] == Positions(Completions(seen)) && Views(rs) == TestedUpTo(seen, |rs|)
      invariant outcount == 0 && passes > 0 ==> forall i :: 0 <= i < |rs| ==> !v[i].Completed()
    {
      ghost var w := seen;
      outcount, seen := OnePass(rs, indices);
      ProgressedTwice(v, w, seen);
      StillCompleted(v, seen);
      passes := passes + 1;
    }
  }

  /** What the transport does before a pass, which then finds the requests as `seen`, and the pass. */
  method OnePass(rs: seq<Request>, indices: array<nat>) returns (outcount: nat, ghost seen: seq<View>)
    requires Separate(rs) && |rs| <= indices.Length
    modifies rs`active, rs`reports, Messages(rs), indices
    ensures Separate(rs) && outcount <= |rs|
    ensures Progressed(old(Views(rs)), seen)
    ensures outcount == 0 ==> Views(rs) == seen && forall i :: 0 <= i < |rs| ==> !seen[i].Completed()
    ensures outcount > 0 ==>
      indices[..outcount] == Positions(Completions(seen)) && Views(rs) == TestedUpTo(seen, |rs|)
  {
    Transport(rs);
    seen := Views(rs);
    outcount := Testsome(rs, indices);
    if outcount == 0 {
      NothingCompleted(seen);
    }
  }

  lemma ProgressedTwice(u: seq<View>, v: seq<View>, w: seq<View>)
    requires Progressed(u, v) && Progressed(v, w)
    ensures Progressed(u, w)
  {
    forall i | 0 <= i < |u|
      ensures ProgressedOne(u[i], w[i])
    {
      assert ProgressedOne(u[i], v[i]) && ProgressedOne(v[i], w[i]);
    }
  }

  /** The transport takes nothing away from a request that is complete. */
  lemma StillCompleted(v: seq<View>, w: seq<View>)
    requires Progressed(v, w)
    ensures forall i :: 0 <= i < |v| && v[i].Completed() ==> w[i].Completed()
  {
    forall i | 0 <= i < |v| && v[i].Completed()
      ensures w[i].Completed()
    {
      assert ProgressedOne(v[i], w[i]);
    }
  }

  lemma NothingCompleted(v: seq<View>)
    requires Positions(Completions(v)) == []
    ensures TestedUpTo(v, |v|) == v && forall i :: 0 <= i < |v| ==> !v[i].Completed()
  {
    PositionsExact(Completions(v));
    forall i | 0 <= i < |v|
      ensures !v[i].Completed()
    {
      assert Completions(v)[i] == v[i].Completed();
    }
  }

  // ----- once per activation

  /** The calls a program may make on its requests, one after the other, with the transport and the
      end of a set-up between them.  `MPIP_Waitsome` is a sequence of `Move` and `TestEach`.  A start, a
      wait and a set-up leave messages `reqs` behind, whatever they are. */
  datatype Call =
    | StartOne(at: nat, reqs: seq<Internal>)
    | TestSingle(at: nat)
    | TestEach
    | WaitOne(at: nat, reqs: seq<Internal>)
    | SetUpOne(at: nat, reqs: seq<Internal>)
    | Move(to: seq<View>)

  predicate Legal(v: seq<View>, c: Call) {
    c.TestEach? || c.Move? || c.at < |v|
  }

  ghost function Perform(v: seq<View>, c: Call): (w: seq<View>)
    requires Legal(v, c)
    ensures |w| == |v|
  {
    match c
    case StartOne(i, reqs) => v[i := View(true, v[i].threaded, 0, reqs)]
    case TestSingle(i) => v[i := v[i].AfterTest()]
    case TestEach => TestedUpTo(v, |v|)
    case WaitOne(i, reqs) => v[i := View(false, JoinedThread(v[i].threaded), v[i].reports, reqs)]
    case SetUpOne(i, reqs) => v[i := v[i].(threaded := Finished, reqs := reqs)]
    case Move(w) => if Progressed(v, w) then w else v
  }

  function JoinedThread(t: Thread): Thread {
    if t == Running then Finished else t
  }

  /** `MPIP_Start` on one of the requests is the call `StartOne`. */
  method StartAt(rs: seq<Request>, i: nat)
    requires Separate(rs) && i < |rs|
    requires rs[i].threaded != Running ==> rs[i].localStatus.Length == rs[i].localParts
    requires rs[i].threaded != Running && rs[i].side == RecvSide ==>
      forall m :: 0 <= m < rs[i].parts ==> rs[i].request[m].phase == Inactive
    modifies {rs[i]}`active, {rs[i]}`reports, rs[i].localStatus, rs[i].internalStatus, rs[i].request
    ensures Separate(rs)
    ensures Views(rs) == Perform(old(Views(rs)), StartOne(i, rs[i].request[..]))
  {
    rs[i].Start();
    assert forall j :: 0 <= j < |rs| && j != i ==> rs[j].Seen() == old(rs[j].Seen());
  }

  /** `MPIP_Wait` on one of the requests is the call `WaitOne`. */
  method WaitAt(rs: seq<Request>, i: nat, incoming: Cut)
    requires Separate(rs) && i < |rs| && rs[i].localStatus.Length == rs[i].localParts
    requires rs[i].threaded == Running && rs[i].side == SendSide && rs[i].active ==>
      Layout(rs[i].localParts, incoming.parts).Safe()
    modifies rs[i], rs[i].request
    ensures Separate(rs)
    ensures Views(rs) == Perform(old(Views(rs)), WaitOne(i, rs[i].request[..]))
  {
    rs[i].Wait(incoming);
    assert forall j :: 0 <= j < |rs| && j != i ==> rs[j].Seen() == old(rs[j].Seen());
  }

  /** The end of a set-up thread is the call `SetUpOne`. */
  method SetUpAt(rs: seq<Request>, i: nat, incoming: Cut)
    requires Separate(rs) && i < |rs| && rs[i].localStatus.Length == rs[i].localParts && rs[i].threaded == Running
    requires rs[i].side == SendSide && rs[i].active ==> Layout(rs[i].localParts, incoming.parts).Safe()
    modifies rs[i]
    ensures Separate(rs)
    ensures Views(rs) == Perform(old(Views(rs)), SetUpOne(i, rs[i].request[..]))
  {
    rs[i].ThreadedSyncDriver(incoming);
    assert forall j :: 0 <= j < |rs| && j != i ==> rs[j].Seen() == old(rs[j].Seen());
  }

  /** The call makes an `MPIP_Test` of request `i` succeed. */
  predicate Reports(v: seq<View>, c: Call, i: nat)
    requires i < |v|
  {
    (c == TestSingle(i) || c == TestEach) && v[i].Completed()
  }

  ghost function Successes(v: seq<View>, calls: seq<Call>, i: nat): nat
    requires i < |v|
    decreases |calls|
  {
    if calls == [] then 0
    else if !Legal(v, calls[0]) then 0
    else (if Reports(v, calls[0], i) then 1 else 0) + Successes(Perform(v, calls[0]), calls[1..], i)
  }

  ghost predicate Restarts(calls: seq<Call>, i: nat) {
    exists c :: c in calls && c.StartOne? && c.at == i
  }

  /** A request whose set-up is over and whose messages are over once it is started reports, once, if it
      is tested next. */
  lemma {:induction false} ReportsOnce(v: seq<View>, i: nat, reqs: seq<Internal>)
    requires i < |v| && v[i].threaded != Running && forall m :: 0 <= m < |reqs| ==> reqs[m].phase != Started
    ensures Successes(v, [StartOne(i, reqs), TestSingle(i), TestSingle(i), TestEach], i) == 1
  {
    var w := Perform(v, StartOne(i, reqs));
    var c := Perform(w, TestSingle(i));
    assert [StartOne(i, reqs), TestSingle(i), TestSingle(i), TestEach][1..] == [TestSingle(i), TestSingle(i), TestEach];
    assert [TestSingle(i), TestSingle(i), TestEach][1..] == [TestSingle(i), TestEach];
    assert !Restarts([TestSingle(i), TestEach], i);
    OncePerActivation(c, [TestSingle(i), TestEach], i);
    assert Reports(w, TestSingle(i), i) && !c[i].active;
  }

  /** Over any sequence of calls that does not start request `i`, its tests succeed at most once, and
      not at all if it was inactive to begin with: completion is reported once per activation. */
  lemma {:induction false} OncePerActivation(v: seq<View>, calls: seq<Call>, i: nat)
    requires i < |v| && !Restarts(calls, i)
    ensures Successes(v, calls, i) <= if v[i].active then 1 else 0
    decreases |calls|
  {
    if calls != [] && Legal(v, calls[0]) {
      var w := Perform(v, calls[0]);
      assert calls[0] in calls;
      assert calls[0].Move? && Progressed(v, calls[0].to) ==> ProgressedOne(v[i], w[i]);
      forall c | c in calls[1..]
        ensures c in calls
      {}
      OncePerActivation(w, calls[1..], i);
    }
  }
}
