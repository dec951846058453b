/**
 The sending side never gets stuck: from wherever a run has come to in a round, the round can be
 brought to the return of `MPIP_Wait`.  The continuations are built explicitly; everything up to the
 last transfers works without the transport.
 */
module SendProgress {
  import opened Partitioning
  import opened Mpi
  import opened Basics
  import opened SendCounting
  import opened SendProtocol
  import G = SendGuarantees

  /** The events `es`, each enabled in turn, lead from `s` to `t`. */
  ghost predicate Leads(c: Config, s: Sender, es: seq<Event>, t: Sender)
    decreases |es|
  {
    if es == [] then s == t
    else Enabled(c, s, es[0]) && Leads(c, Apply(c, s, es[0]), es[1..], t)
  }

  lemma {:induction false} LeadsJoin(c: Config, s: Sender, es: seq<Event>, t: Sender, fs: seq<Event>, u: Sender)
    requires Leads(c, s, es, t) && Leads(c, t, fs, u)
    ensures Leads(c, s, es + fs, u)
    decreases |es|
  {
    if es == [] {
      assert es + fs == fs;
    } else {
      LeadsJoin(c, Apply(c, s, es[0]), es[1..], t, fs, u);
      assert (es + fs)[1..] == es[1..] + fs;
    }
  }

  /** `t` can be reached from `s` without the transport, and the invariant holds there. */
  ghost predicate CanReach(c: Config, s: Sender, t: Sender) {
    Inv(c, t) && exists es :: Untransported(es) && Leads(c, s, es, t)
  }

  lemma Stay(c: Config, s: Sender)
    requires Inv(c, s)
    ensures CanReach(c, s, s)
  {
    assert Untransported([]) && Leads(c, s, [], s);
  }

  lemma Onward(c: Config, s: Sender, t: Sender, e: Event) returns (u: Sender)
    requires CanReach(c, s, t) && Enabled(c, t, e) && !e.Transport?
    ensures u == Apply(c, t, e) && CanReach(c, s, u)
  {
    var es :| Untransported(es) && Leads(c, s, es, t);
    u := Apply(c, t, e);
    StepKeeps(c, t, e);
    assert Leads(c, u, [e][1..], u);
    LeadsJoin(c, s, es, t, [e], u);
    assert Untransported(es + [e]);
  }

  // ----- one call

  /** Everything except the call `k`, and the scan if it is waiting for that call, is as before; no
      message that was started is inactive again. */
  ghost predicate OnlyCall(c: Config, s: Sender, t: Sender, k: nat) {
    && t == s.(board := t.board, sync := t.sync)
    && |t.board.calls| == |s.board.calls| && |t.board.reqs| == |s.board.reqs|
    && (forall j :: 0 <= j < |s.board.calls| && j != k ==> t.board.calls[j] == s.board.calls[j])
    && (forall i :: 0 <= i < |s.board.reqs| && s.board.reqs[i] != Inactive ==> t.board.reqs[i] != Inactive)
  }

  lemma FinishCall(c: Config, s: Sender, s0: Sender, k: nat) returns (t: Sender)
    requires CanReach(c, s, s0) && k < |s0.board.calls| && (s0.board.calls[k].At? || s0.board.calls[k].Hit?)
    ensures CanReach(c, s, t) && OnlyCall(c, s0, t, k) && t.board.calls[k] == Done
    ensures t.sync == if k >= c.layout.users then Scan(k - c.layout.users + 1) else s0.sync
    decreases CallLeft(c, s0, k)
  {
    BusyCall(c, s0, k);
    if s0.board.calls[k].Hit? || CanAdd(c.layout, s0.board, k) {
      var u := MoveCall(c, s, s0, k);
      t := FinishCall(c, s, u, k);
    } else {
      t := Onward(c, s, s0, Returning(k));
    }
  }

  lemma MoveCall(c: Config, s: Sender, s0: Sender, k: nat) returns (t: Sender)
    requires CanReach(c, s, s0) && k < |s0.board.calls|
    requires s0.board.calls[k].Hit? || (c.layout.Positive() && CanAdd(c.layout, s0.board, k))
    ensures CanReach(c, s, t) && OnlyCall(c, s0, t, k) && t.sync == s0.sync
    ensures (t.board.calls[k].At? || t.board.calls[k].Hit?) && 0 <= CallLeft(c, t, k) < CallLeft(c, s0, k)
  {
    BusyCall(c, s0, k);
    assert Placed(c.layout, k, s0.board.calls[k]);
    if s0.board.calls[k].Hit? {
      FireKeeps(c.layout, s0.board, k);
      t := Onward(c, s, s0, Firing(k));
    } else {
      AddKeeps(c.layout, s0.board, k);
      t := Onward(c, s, s0, Adding(k));
    }
  }

  ghost function CallLeft(c: Config, s: Sender, k: nat): int
    requires k < |s.board.calls| && (s.board.calls[k].At? || s.board.calls[k].Hit?)
  {
    if !c.layout.Positive() then 0
    else match s.board.calls[k]
      case At(j) => 2 * (c.layout.Last(PartOf(c.layout, k)) - j)
      case Hit(j) => 2 * (c.layout.Last(PartOf(c.layout, k)) - j) - 1
      case _ => 0
  }

  // ----- set-up

  /** Nothing but the background thread's own progress separates the two states. */
  ghost predicate OnlySetUp(c: Config, s: Sender, t: Sender) {
    && t.main == s.main && t.users == s.users && t.flags == s.flags && t.round == s.round
    && |t.board.calls| == |s.board.calls|
    && forall p :: 0 <= p < c.layout.users && p < |s.board.calls| ==> t.board.calls[p] == s.board.calls[p]
  }

  lemma FinishScan(c: Config, s: Sender, s0: Sender) returns (t: Sender)
    requires CanReach(c, s, s0) && (s0.sync.Scan? || s0.sync.InCall?)
    ensures CanReach(c, s, t) && t.sync == Ended && OnlySetUp(c, s0, t)
    decreases c.layout.users - (if s0.sync.Scan? then s0.sync.next else s0.sync.part), s0.sync.Scan?
  {
    if s0.sync.InCall? {
      ScanCallBusy(c, s0);
      t := FinishCall(c, s, s0, c.layout.users + s0.sync.part);
      t := FinishScan(c, s, t);
    } else if s0.sync.next < c.layout.users {
      t := Onward(c, s, s0, Visit);
      t := FinishScan(c, s, t);
    } else {
      t := Onward(c, s, s0, Release);
    }
  }

  lemma ScanCallBusy(c: Config, s: Sender)
    requires Inv(c, s) && s.sync.InCall?
    ensures c.layout.users + s.sync.part < |s.board.calls|
    ensures s.board.calls[c.layout.users + s.sync.part].At? || s.board.calls[c.layout.users + s.sync.part].Hit?
  {
    if InRound(s) { assert PartitionInv(c, s, s.sync.part); }
  }

  lemma FinishSetUp(c: Config, s: Sender, s0: Sender) returns (t: Sender)
    requires CanReach(c, s, s0)
    ensures CanReach(c, s, t) && SetUpOver(t) && OnlySetUp(c, s0, t)
  {
    t := s0;
    if t.sync == Negotiating { t := Onward(c, s, t, SetUp); }
    if t.sync == Ready { t := Onward(c, s, t, Lock); }
    if t.sync.Scan? || t.sync.InCall? { t := FinishScan(c, s, t); }
  }

  // ----- the partitions

  /** Only partition `p` has moved. */
  ghost predicate OnlyPartition(c: Config, s: Sender, t: Sender, p: nat) {
    && t.main == s.main && t.sync == s.sync && t.threaded == s.threaded && t.round == s.round
    && |t.users| == |s.users| && |t.board.calls| == |s.board.calls|
    && (forall q :: 0 <= q < |s.users| && q != p ==> t.users[q] == s.users[q])
    && (forall j :: 0 <= j < |s.board.calls| && j != p ==> t.board.calls[j] == s.board.calls[j])
  }

  lemma FinishPartition(c: Config, s: Sender, s0: Sender, p: nat) returns (t: Sender)
    requires CanReach(c, s, s0) && s0.main == In && SetUpOver(s0) && p < c.layout.users
    ensures CanReach(c, s, t) && OnlyPartition(c, s0, t, p) && Returned(t, p)
  {
    t := s0;
    assert PartitionInv(c, s0, p);
    if t.users[p] == Idle { t := Onward(c, s, t, Mark(p)); }
    if t.users[p] == Marked { t := Onward(c, s, t, ReadStatus(p)); }
    if t.users[p] == Sending && t.board.calls[p] != Done {
      t := FinishCall(c, s, t, p);
    }
  }

  lemma FinishPartitions(c: Config, s: Sender, s0: Sender, n: nat) returns (t: Sender)
    requires CanReach(c, s, s0) && s0.main == In && SetUpOver(s0) && n <= c.layout.users
    ensures CanReach(c, s, t) && t.main == In && SetUpOver(t) && t.round == s0.round
    ensures forall p: nat :: p < n ==> Returned(t, p)
    decreases n
  {
    if n == 0 {
      t := s0;
    } else {
      var u := FinishPartitions(c, s, s0, n - 1);
      t := FinishPartition(c, s, u, n - 1);
      forall p: nat | p < n
        ensures Returned(t, p)
      {
        if p < n - 1 { assert Returned(u, p); }
      }
    }
  }

  // ----- the transport, and the end of the round

  ghost predicate CanReachWithTransport(c: Config, s: Sender, t: Sender) {
    Inv(c, t) && exists es :: Leads(c, s, es, t)
  }

  lemma OnwardWithTransport(c: Config, s: Sender, t: Sender, e: Event) returns (u: Sender)
    requires CanReachWithTransport(c, s, t) && Enabled(c, t, e)
    ensures u == Apply(c, t, e) && CanReachWithTransport(c, s, u)
  {
    var es :| Leads(c, s, es, t);
    u := Apply(c, t, e);
    StepKeeps(c, t, e);
    assert Leads(c, u, [e][1..], u);
    LeadsJoin(c, s, es, t, [e], u);
  }

  lemma TransferAll(c: Config, s: Sender, s0: Sender, n: nat) returns (t: Sender)
    requires CanReachWithTransport(c, s, s0) && n <= |s0.board.reqs|
    ensures CanReachWithTransport(c, s, t) && t == s0.(board := t.board) && |t.board.reqs| == |s0.board.reqs|
    ensures Settled(t.board.reqs, 0, n)
    decreases n
  {
    if n == 0 {
      t := s0;
    } else {
      t := TransferAll(c, s, s0, n - 1);
      if t.board.reqs[n - 1] == Started {
        t := OnwardWithTransport(c, s, t, Transport(n - 1));
      }
    }
  }

  lemma CanWait(c: Config, s: Sender) returns (u: Sender)
    requires Inv(c, s) && s.main != Out
    ensures CanReach(c, s, u) && u.main == Waiting(true) && u.round == s.round
  {
    Stay(c, s);
    u := s;
    if u.main.Opening? { u := Onward(c, s, u, Reset); }
    u := FinishSetUp(c, s, u);
    if u.main == In {
      u := WaitFromIn(c, s, u);
    } else if u.main == Waiting(false) {
      u := Onward(c, s, u, Join);
    }
  }

  lemma WaitFromIn(c: Config, s: Sender, s0: Sender) returns (u: Sender)
    requires CanReach(c, s, s0) && s0.main == In && SetUpOver(s0)
    ensures CanReach(c, s, u) && u.main == Waiting(true) && u.round == s0.round
  {
    u := FinishPartitions(c, s, s0, c.layout.users);
    u := Onward(c, s, u, BeginWait);
  }

  lemma CanEnd(c: Config, s: Sender) returns (fs: seq<Event>, t: Sender)
    requires Inv(c, s) && s.main != Out
    ensures Leads(c, s, fs, t) && t.main == Out && t.round == s.round
  {
    var u := CanWait(c, s);
    t := TransferAll(c, s, u, |u.board.reqs|);
    t := OnwardWithTransport(c, s, t, EndWait);
    fs :| Leads(c, s, fs, t);
  }

  /** The calls still pending, set-up and the transport can always be brought to where the wait of the
      round returns: no interleaving leads into a dead end. */
  lemma RoundCanEnd(c: Config, es: seq<Event>) returns (fs: seq<Event>, t: Sender)
    requires c.layout.Safe() && Possible(c, es) && After(c, es).main != Out
    ensures Leads(c, After(c, es), fs, t) && t.main == Out && t.round == After(c, es).round
  {
    AlwaysInv(c, es);
    fs, t := CanEnd(c, After(c, es));
  }
}
