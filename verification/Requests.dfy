/**
 The partitioned request object and the calls that work on it, each as one uninterrupted piece of
 code.  The contracts say what a call does to the counters, the flags and the internal requests in
 terms of the tally of the partition ids it was given; the interleaved runs of `SendProtocol` are
 measured against the same tally.
 */
module Requests {
  import opened Partitioning
  import opened Mpi
  import opened Basics
  import opened Tally
  import opened Negotiation

  /** A persistent point-to-point request as `internal_setup` initialises it. */
  datatype Internal = Internal(offset: int, count: nat, tag: int, phase: Phase)

  /** What `sync_side` puts on the wire. */
  datatype Wire = Nothing | Sent(cut: Cut)

  function Phases(reqs: seq<Internal>): (r: seq<Phase>)
    ensures |r| == |reqs| && forall i :: 0 <= i < |reqs| ==> r[i] == reqs[i].phase
  {
    seq(|reqs|, i requires 0 <= i < |reqs| => reqs[i].phase)
  }

  /** The same requests in other phases. */
  function InPhases(reqs: seq<Internal>, ps: seq<Phase>): (r: seq<Internal>)
    requires |ps| == |reqs|
    ensures |r| == |reqs| && forall i :: 0 <= i < |reqs| ==> r[i] == reqs[i].(phase := ps[i])
  {
    seq(|reqs|, i requires 0 <= i < |reqs| => reqs[i].(phase := ps[i]))
  }

  function FreshRequest(i: nat, size: nat, tag: int, extent: nat): Internal {
    Internal(i * size * extent, size, tag + i, Inactive)
  }

  function FreshRequests(parts: nat, size: nat, tag: int, extent: nat): (r: seq<Internal>)
    ensures |r| == parts && forall i :: 0 <= i < parts ==> r[i] == FreshRequest(i, size, tag, extent)
    ensures forall i :: 0 <= i < parts ==> r[i] == Internal(i * size * extent, size, tag + i, Inactive)
  {
    seq(parts, i requires 0 <= i < parts => FreshRequest(i, size, tag, extent))
  }

  /** The bytes of the send or receive buffer a message carries, with elements of `extent` bytes. */
  predicate Covers(m: Internal, extent: nat, byte: int) {
    m.offset <= byte < m.offset + m.count * extent
  }

  /** The messages follow each other without gap or overlap, from the start of the buffer to byte
      `end`. */
  predicate InIndexOrder(reqs: seq<Internal>, end: int, extent: nat) {
    && (reqs != [] ==> reqs[0].offset == 0 && reqs[|reqs| - 1].offset + reqs[|reqs| - 1].count * extent == end)
    && (reqs == [] ==> end == 0)
    && forall i :: 0 <= i < |reqs| - 1 ==> reqs[i + 1].offset == reqs[i].offset + reqs[i].count * extent
  }

  lemma FreshInOrder(parts: nat, size: nat, tag: int, extent: nat)
    ensures InIndexOrder(FreshRequests(parts, size, tag, extent), parts * size * extent, extent)
  {
    forall i: nat
      ensures (i + 1) * size * extent == i * size * extent + size * extent
    {
      assert (i + 1) * size == i * size + size;
    }
    if parts > 0 { assert parts * size * extent == (parts - 1) * size * extent + size * extent; }
  }

  /** Messages in index order share no byte, and every byte up to the end belongs to one of them. */
  lemma {:induction false} OrderTiles(reqs: seq<Internal>, end: int, extent: nat, byte: nat)
    requires InIndexOrder(reqs, end, extent)
    ensures forall i, j :: 0 <= i < j < |reqs| && Covers(reqs[i], extent, byte) ==> !Covers(reqs[j], extent, byte)
    ensures byte < end <==> exists i :: 0 <= i < |reqs| && Covers(reqs[i], extent, byte)
    decreases |reqs|
  {
    if reqs != [] {
      var n := |reqs| - 1;
      OrderTiles(reqs[..n], reqs[n].offset, extent, byte);
      assert forall i :: 0 <= i < n ==> reqs[..n][i] == reqs[i];
    }
  }

  /** What `internal_setup` lays over the buffer: no byte of it belongs to two messages, each to one,
      and no tag is used twice. */
  lemma SetUpTiles(parts: nat, size: nat, tag: int, extent: nat, byte: nat)
    ensures var reqs := FreshRequests(parts, size, tag, extent);
      && (forall i, j :: 0 <= i < j < parts && Covers(reqs[i], extent, byte) ==> !Covers(reqs[j], extent, byte))
      && (byte < parts * size * extent <==> exists i :: 0 <= i < parts && Covers(reqs[i], extent, byte))
      && (forall i, j :: 0 <= i < j < parts ==> reqs[i].tag != reqs[j].tag)
  {
    FreshInOrder(parts, size, tag, extent);
    OrderTiles(FreshRequests(parts, size, tag, extent), parts * size * extent, extent, byte);
  }

  /** Message `i` carries the bytes of exactly the elements from `i * size` up to `(i + 1) * size`. */
  lemma SetUpSlices(parts: nat, size: nat, tag: int, extent: nat, i: nat, byte: nat)
    requires extent > 0 && i < parts
    ensures Covers(FreshRequests(parts, size, tag, extent)[i], extent, byte) <==>
      i * size <= byte / extent < i * size + size
  {
    ByteInSlice(i * size, size, extent, byte);
  }

  lemma ByteInSlice(lo: nat, size: nat, extent: nat, byte: nat)
    requires extent > 0
    ensures lo * extent <= byte < lo * extent + size * extent <==> lo <= byte / extent < lo + size
  {
    var e: nat, rest: nat := byte / extent, byte % extent;
    assert byte == e * extent + rest && rest < extent;
    ElementFrom(lo, e, extent, rest);
    ElementFrom(lo + size, e, extent, rest);
    assert (lo + size) * extent == lo * extent + size * extent;
  }

  lemma ElementFrom(lo: nat, e: nat, extent: nat, rest: nat)
    requires rest < extent
    ensures lo * extent <= e * extent + rest <==> lo <= e
  {
    if lo <= e { MulMono(lo, e, extent); } else { MulMono(e + 1, lo, extent); }
  }

  /** `MPI_Start` may be called on every message whose counter has still to reach the threshold. */
  predicate Startable(c: Layout, counts: seq<nat>, reqs: seq<Internal>)
    requires c.Positive() && |counts| == |reqs|
  {
    forall i :: 0 <= i < |counts| && counts[i] < c.Threshold() ==> reqs[i].phase == Inactive
  }

  /** `counts` and `reqs` are `counts0` and `reqs0` after sending the partitions `ids`: each counter
      has grown by the tally, and the messages whose counter reached the threshold were started. */
  ghost predicate Tallied(c: Layout, counts0: seq<nat>, reqs0: seq<Internal>, ids: seq<nat>,
                          counts: seq<nat>, reqs: seq<Internal>)
    requires c.Positive()
  {
    && |counts0| == |reqs0| == |counts| == |reqs|
    && forall i :: 0 <= i < |counts| ==>
         && counts[i] == counts0[i] + Hits(c, ids, i)
         && reqs[i] == if counts0[i] < c.Threshold() <= counts[i] then reqs0[i].(phase := Started) else reqs0[i]
  }

  lemma TalliedNothing(c: Layout, counts: seq<nat>, reqs: seq<Internal>)
    requires c.Positive() && |counts| == |reqs|
    ensures Tallied(c, counts, reqs, [], counts, reqs)
  {}

  lemma TalliedMore(c: Layout, counts0: seq<nat>, reqs0: seq<Internal>, ids: seq<nat>,
                    counts1: seq<nat>, reqs1: seq<Internal>, more: seq<nat>, counts: seq<nat>, reqs: seq<Internal>)
    requires c.Positive()
    requires Tallied(c, counts0, reqs0, ids, counts1, reqs1) && Tallied(c, counts1, reqs1, more, counts, reqs)
    ensures Tallied(c, counts0, reqs0, ids + more, counts, reqs)
  {
    forall i | 0 <= i < |counts|
      ensures Hits(c, ids + more, i) == Hits(c, ids, i) + Hits(c, more, i)
    {
      HitsOfConcat(c, ids, more, i);
    }
  }

  lemma TalliedStartable(c: Layout, counts0: seq<nat>, reqs0: seq<Internal>, ids: seq<nat>,
                         counts: seq<nat>, reqs: seq<Internal>)
    requires c.Positive() && Tallied(c, counts0, reqs0, ids, counts, reqs) && Startable(c, counts0, reqs0)
    ensures Startable(c, counts, reqs)
  {}

  /** The ids of the raised flags, in ascending order. */
  function Flagged(flags: seq<bool>): (ids: seq<nat>)
    ensures forall p: nat :: p in ids <==> p < |flags| && flags[p]
    ensures forall j :: 0 <= j < |ids| ==> ids[j] < |flags|
    ensures Distinct(ids) && forall j, k :: 0 <= j < k < |ids| ==> ids[j] < ids[k]
  {
    if flags == [] then []
    else
      var n := |flags| - 1;
      var front := Flagged(flags[..n]);
      assert forall p: nat :: p < n ==> flags[..n][p] == flags[p];
      if flags[n] then front + [n] else front
  }

  /** The flags after marking `ids`. */
  function Raised(flags: seq<bool>, ids: seq<nat>): (r: seq<bool>)
    ensures |r| == |flags| && forall p: nat :: p < |flags| ==> (r[p] <==> flags[p] || p in ids)
  {
    seq(|flags|, p requires 0 <= p < |flags| => flags[p] || p in ids)
  }

  /** The ids from `low` to `high`, both included. */
  function Ascending(low: int, high: int): (ids: seq<nat>)
    requires low <= high ==> 0 <= low
    ensures |ids| == (if low <= high then high + 1 - low else 0) && Distinct(ids)
    ensures forall j :: 0 <= j < |ids| ==> ids[j] == low + j
  {
    if low <= high then seq(high + 1 - low, j requires j >= 0 => low + j) else []
  }

  /** A request as the completion calls see it. */
  datatype View = View(active: bool, threaded: Thread, reports: nat, reqs: seq<Internal>) {

    /** The request is active, set up, and all its messages are over or were never started. */
    predicate Completed(): (over: bool)
      ensures over <==> active && threaded != Running && forall i :: 0 <= i < |reqs| ==> reqs[i].phase != Started
    {
      active && threaded != Running && Settled(Phases(reqs), 0, |reqs|)
    }

    /** A successful test closes the round and is accounted for; a failed one changes nothing. */
    function AfterTest(): (v: View)
      ensures !Completed() ==> v == this
      ensures Completed() ==> !v.active && v.threaded == threaded && v.reports == reports + 1 && |v.reqs| == |reqs|
      ensures Completed() ==> forall i :: 0 <= i < |reqs| ==> v.reqs[i] == reqs[i].(phase := Inactive)
    {
      if Completed()
      then View(false, threaded, reports + 1, InPhases(reqs, Uniform(|reqs|, Inactive)))
      else this
    }
  }

  class Request {
    const side: Side
    const tag: int
    const extent: nat
    var active: bool
    var threaded: Thread
    var localParts: nat
    var localSize: nat
    var parts: nat
    var size: nat
    var localStatus: array<bool>
    var internalStatus: array<nat>
    var request: array<Internal>

    /** How many tests have reported completion since the last start. */
    ghost var reports: nat

    function Mapping(): Layout
      reads this
    {
      Layout(localParts, parts)
    }

    /** The internal arrays fit the negotiated count. */
    predicate Built()
      reads this
    {
      internalStatus.Length == parts && request.Length == parts
    }

    /** The arrays are there and no partition is mapped outside them. */
    predicate Ready()
      reads this
    {
      Mapping().Safe() && localStatus.Length == localParts && Built()
    }

    /** Completion is reported at most once per activation. */
    ghost predicate Accounted()
      reads this
    {
      reports <= 1 && (active ==> reports == 0)
    }

    /** `prep`.  The flags are not initialised. */
    constructor Prep(side: Side, partitions: nat, count: nat, tag: int, extent: nat)
      ensures !active && threaded == None && this.side == side && this.tag == tag && this.extent == extent
      ensures localParts == partitions && localSize == count && parts == 1
      ensures localStatus.Length == partitions && internalStatus.Length == 0 && request.Length == 0
      ensures fresh(localStatus) && fresh(internalStatus) && fresh(request)
      ensures Accounted()
    {
      this.side, this.tag, this.extent := side, tag, extent;
      active, threaded := false, None;
      localParts, localSize, parts, size := partitions, count, 1, 0;
      localStatus := new bool[partitions];
      internalStatus := new nat[0];
      request := new Internal[0];
      reports := 0;
    }

    /** `sync_hard` conserves the number of elements exactly when the option divides it. */
    method SyncHard(option: nat)
      requires option > 0
      modifies this`parts, this`size
      ensures parts == option && size == (localParts * localSize) / option
      ensures parts * size == localParts * localSize <==> (localParts * localSize) % option == 0
    {
      parts := option;
      size := (localParts * localSize) / option;
    }

    /** `sync_side`: the driver sends its own cut, the other side takes over what it receives. */
    method SyncSide(driver: Side, incoming: Cut) returns (outgoing: Wire)
      modifies this`parts, this`size
      ensures side == driver ==> outgoing == Sent(Cut(localParts, localSize)) && parts == localParts && size == localSize
      ensures side != driver ==> outgoing == Nothing && parts == incoming.parts && size == incoming.size
    {
      var data := incoming;
      outgoing := Nothing;
      if side == driver {
        data := Cut(localParts, localSize);
        outgoing := Sent(data);
      }
      parts, size := data.parts, data.size;
    }

    /** `internal_setup`: message `i` gets its slice of the buffer and its own tag, and starts out
        inactive with a counter of zero. */
    method InternalSetup()
      modifies this`request, this`internalStatus
      ensures fresh(request) && fresh(internalStatus) && Built()
      ensures request[..] == FreshRequests(parts, size, tag, extent)
      ensures forall i :: 0 <= i < parts ==>
        && request[i].offset == i * size * extent && request[i].count == size
        && request[i].tag == tag + i && request[i].phase == Inactive
      ensures InIndexOrder(request[..], parts * size * extent, extent)
      ensures internalStatus[..] == Uniform<nat>(parts, 0)
    {
      request := new Internal[parts](_ => Internal(0, 0, 0, Inactive));
      internalStatus := new nat[parts];
      for i := 0 to parts
        invariant fresh(request) && fresh(internalStatus) && Built()
        invariant forall j :: 0 <= j < i ==> request[j] == FreshRequest(j, size, tag, extent)
        invariant forall j :: 0 <= j < i ==> internalStatus[j] == 0
      {
        request[i] := FreshRequest(i, size, tag, extent);
        internalStatus[i] := 0;
      }
      FreshInOrder(parts, size, tag, extent);
    }

    /** `sync_driver`: the side that does not decide only marks set-up as running; every other way
        ends with the negotiated messages set up. */
    method SyncDriver(mode: Mode, incoming: Cut) returns (outgoing: Wire)
      requires threaded == None
      modifies this
      ensures mode.DrivenBy? && side != mode.driver ==>
        threaded == Running && outgoing == Nothing && parts == old(parts) && request == old(request)
      ensures !(mode.DrivenBy? && side != mode.driver) ==>
        && Cut(parts, size) == Outcome(mode, side, Cut(localParts, localSize), incoming)
        && threaded == None && Built() && fresh(request) && fresh(internalStatus)
        && request[..] == FreshRequests(parts, size, tag, extent) && internalStatus[..] == Uniform<nat>(parts, 0)
      ensures mode == Default ==> parts == 1 && size == localParts * localSize
      ensures mode.Hard? && mode.count <= 0 ==> parts == 1 && size == localParts * localSize
      ensures mode.Hard? && mode.count > 0 ==> parts == mode.count && size == (localParts * localSize) / mode.count
      ensures mode == DrivenBy(side) ==> parts == localParts && size == localSize
      ensures outgoing == if mode.DrivenBy? && side == mode.driver then Sent(Cut(localParts, localSize)) else Nothing
      ensures localParts == old(localParts) && localSize == old(localSize) && localStatus == old(localStatus)
      ensures active == old(active) && reports == old(reports)
    {
      outgoing := Nothing;
      match mode {
        case DrivenBy(driver) =>
          if side != driver {
            threaded := Running;
            return;
          }
          outgoing := SyncSide(driver, incoming);
        case Hard(count) =>
          SyncHard(if count <= 0 then 1 else count);
        case Default =>
          SyncHard(1);
      }
      InternalSetup();
    }

    /** `reset_status` */
    method ResetStatus()
      requires Built() && localStatus.Length == localParts
      modifies internalStatus, localStatus
      ensures internalStatus[..] == Uniform<nat>(parts, 0) && localStatus[..] == Uniform(localParts, false)
    {
      for i := 0 to parts
        invariant forall j :: 0 <= j < i ==> internalStatus[j] == 0
      {
        internalStatus[i] := 0;
      }
      for i := 0 to localParts
        invariant forall j :: 0 <= j < parts ==> internalStatus[j] == 0
        invariant forall j :: 0 <= j < i ==> !localStatus[j]
      {
        localStatus[i] := false;
      }
    }

    /** `MPI_Startall` on all the internal requests, which must be inactive. */
    method StartAll()
      requires Built() && forall i :: 0 <= i < parts ==> request[i].phase == Inactive
      modifies request
      ensures request[..] == InPhases(old(request[..]), Uniform(parts, Started))
    {
      for i := 0 to parts
        invariant forall j :: 0 <= j < parts ==>
          request[j] == if j < i then old(request[j]).(phase := Started) else old(request[j])
      {
        request[i] := request[i].(phase := Started);
      }
    }

    /** `MPIP_Start` */
    method Start()
      requires threaded != Running ==> Built() && localStatus.Length == localParts
      requires threaded != Running && side == RecvSide ==> forall i :: 0 <= i < parts ==> request[i].phase == Inactive
      modifies this`active, this`reports, localStatus, internalStatus, request
      ensures active && reports == 0 && Accounted()
      ensures threaded == Running ==>
        localStatus[..] == old(localStatus[..]) && internalStatus[..] == old(internalStatus[..])
      ensures threaded != Running ==>
        localStatus[..] == Uniform(localParts, false) && internalStatus[..] == Uniform<nat>(parts, 0)
      ensures request[..] ==
        if threaded != Running && side == RecvSide
        then InPhases(old(request[..]), Uniform(parts, Started)) else old(request[..])
    {
      var status := threaded;
      active := true;
      reports := 0;
      if status != Running {
        for i := 0 to parts
          invariant unchanged(request) && unchanged(localStatus) && active && reports == 0
        {
          internalStatus[i] := 0;
        }
        ResetStatus();
        if side == RecvSide {
          StartAll();
        }
      }
    }

    /** `map_local_to_network_partitions`, with the assertion it ends on. */
    method MapLocalToNetworkPartitions(id: nat) returns (start: nat, end: nat)
      requires Mapping().Positive() && localParts <= parts && id < localParts
      ensures start == Mapping().First(id) && end == Mapping().Last(id)
      ensures start < end <= parts
    {
      start := (parts / localParts) * id;
      end := (parts / localParts) * (id + 1);
      RangeInBounds(Mapping(), id);
      assert end > start && end <= parts;
    }

    /** `general_send`, run without interruption: every counter in the range of the partition goes up
        by one, and the messages that thereby reach the threshold are started, each while inactive. */
    method GeneralSend(id: nat)
      requires Ready() && id < localParts && Startable(Mapping(), internalStatus[..], request[..])
      modifies internalStatus, request
      ensures Tallied(Mapping(), old(internalStatus[..]), old(request[..]), [id], internalStatus[..], request[..])
      ensures Startable(Mapping(), internalStatus[..], request[..])
    {
      var startPart, endPart, threshold := 0, 0, 0;
      if localParts <= parts {
        startPart, endPart := MapLocalToNetworkPartitions(id);
        threshold := 1;
      } else {
        DivPositive(localParts, parts);
        threshold := localParts / parts;
        startPart := id / threshold;
        endPart := startPart + 1;
      }
      RangeInBounds(Mapping(), id);
      var i := startPart;
      while i < endPart
        invariant startPart <= i <= endPart
        invariant forall j :: 0 <= j < parts ==>
          internalStatus[j] == old(internalStatus[j]) + (if startPart <= j < i then 1 else 0)
        invariant forall j :: 0 <= j < parts ==>
          request[j] == if startPart <= j < i && old(internalStatus[j]) + 1 == threshold
                        then old(request[j]).(phase := Started) else old(request[j])
      {
        var prior := internalStatus[i];
        internalStatus[i] := prior + 1;
        if prior + 1 == threshold {
          assert old(internalStatus[..])[i] < threshold;
          assert request[i].phase == Inactive;
          request[i] := request[i].(phase := Started);
        }
        i := i + 1;
      }
      OneHit(Mapping(), id);
      TalliedStartable(Mapping(), old(internalStatus[..]), old(request[..]), [id], internalStatus[..], request[..]);
    }

    /** `send_ready`: the partitions whose flag is up are sent, in ascending order. */
    method SendReady()
      requires Ready() && Startable(Mapping(), internalStatus[..], request[..])
      modifies internalStatus, request
      ensures Tallied(Mapping(), old(internalStatus[..]), old(request[..]), Flagged(localStatus[..]),
                      internalStatus[..], request[..])
      ensures Startable(Mapping(), internalStatus[..], request[..])
    {
      TalliedNothing(Mapping(), internalStatus[..], request[..]);
      for i := 0 to localParts
        invariant Startable(Mapping(), internalStatus[..], request[..])
        invariant Tallied(Mapping(), old(internalStatus[..]), old(request[..]), Flagged(localStatus[..i]),
                          internalStatus[..], request[..])
      {
        ghost var counts, reqs := internalStatus[..], request[..];
        assert localStatus[..i + 1][..i] == localStatus[..i];
        if localStatus[i] {
          GeneralSend(i);
          TalliedMore(Mapping(), old(internalStatus[..]), old(request[..]), Flagged(localStatus[..i]),
                      counts, reqs, [i], internalStatus[..], request[..]);
        }
      }
      assert localStatus[..localParts] == localStatus[..];
    }

    /** `MPIP_Pready` */
    method Pready(partition: nat)
      requires side == SendSide && active && localStatus.Length == localParts && partition < localParts
      requires threaded != Running ==> Ready() && Startable(Mapping(), internalStatus[..], request[..])
      modifies localStatus, internalStatus, request
      ensures localStatus[..] == old(localStatus[..])[partition := true]
      ensures threaded == Running ==>
        internalStatus[..] == old(internalStatus[..]) && request[..] == old(request[..])
      ensures threaded != Running ==>
        && Tallied(Mapping(), old(internalStatus[..]), old(request[..]), [partition], internalStatus[..], request[..])
        && Startable(Mapping(), internalStatus[..], request[..])
    {
      localStatus[partition] := true;
      var status := threaded;
      if status != Running {
        GeneralSend(partition);
      }
    }

    /** `MPIP_Pready_list`: whatever the list, the flags of its partitions go up and the counters grow
        by its tally, or nothing is sent while set-up is running. */
    method PreadyList(ids: seq<nat>)
      requires side == SendSide && active && localStatus.Length == localParts
      requires forall j :: 0 <= j < |ids| ==> ids[j] < localParts
      requires threaded != Running ==> Ready() && Startable(Mapping(), internalStatus[..], request[..])
      modifies localStatus, internalStatus, request
      ensures localStatus[..] == Raised(old(localStatus[..]), ids)
      ensures threaded == Running ==>
        internalStatus[..] == old(internalStatus[..]) && request[..] == old(request[..])
      ensures threaded != Running ==>
        && Tallied(Mapping(), old(internalStatus[..]), old(request[..]), ids, internalStatus[..], request[..])
        && Startable(Mapping(), internalStatus[..], request[..])
    {
      if threaded != Running { TalliedNothing(Mapping(), internalStatus[..], request[..]); }
      for i := 0 to |ids|
        invariant localStatus[..] == Raised(old(localStatus[..]), ids[..i])
        invariant threaded == Running ==>
          internalStatus[..] == old(internalStatus[..]) && request[..] == old(request[..])
        invariant threaded != Running ==>
          && Tallied(Mapping(), old(internalStatus[..]), old(request[..]), ids[..i], internalStatus[..], request[..])
          && Startable(Mapping(), internalStatus[..], request[..])
      {
        ghost var counts, reqs := internalStatus[..], request[..];
        Pready(ids[i]);
        assert ids[..i + 1] == ids[..i] + [ids[i]];
        if threaded != Running {
          TalliedMore(Mapping(), old(internalStatus[..]), old(request[..]), ids[..i],
                      counts, reqs, [ids[i]], internalStatus[..], request[..]);
        }
      }
      assert ids[..|ids|] == ids;
    }

    /** `MPIP_Pready_range`: both ends are included; an empty range does nothing. */
    method PreadyRange(low: int, high: int)
      requires side == SendSide && active && localStatus.Length == localParts
      requires low <= high ==> 0 <= low && high < localParts
      requires threaded != Running ==> Ready() && Startable(Mapping(), internalStatus[..], request[..])
      modifies localStatus, internalStatus, request
      ensures localStatus[..] == Raised(old(localStatus[..]), Ascending(low, high))
      ensures threaded == Running ==>
        internalStatus[..] == old(internalStatus[..]) && request[..] == old(request[..])
      ensures threaded != Running ==>
        && Tallied(Mapping(), old(internalStatus[..]), old(request[..]), Ascending(low, high),
                   internalStatus[..], request[..])
        && Startable(Mapping(), internalStatus[..], request[..])
    {
      if threaded != Running { TalliedNothing(Mapping(), internalStatus[..], request[..]); }
      var i := low;
      while i <= high
        invariant low <= i <= if low <= high then high + 1 else low
        invariant localStatus[..] == Raised(old(localStatus[..]), Ascending(low, high)[..i - low])
        invariant threaded == Running ==>
          internalStatus[..] == old(internalStatus[..]) && request[..] == old(request[..])
        invariant threaded != Running ==>
          && Tallied(Mapping(), old(internalStatus[..]), old(request[..]), Ascending(low, high)[..i - low],
                     internalStatus[..], request[..])
          && Startable(Mapping(), internalStatus[..], request[..])
      {
        ghost var ids, counts, reqs := Ascending(low, high), internalStatus[..], request[..];
        Pready(i);
        assert ids[..i + 1 - low] == ids[..i - low] + [i];
        if threaded != Running {
          TalliedMore(Mapping(), old(internalStatus[..]), old(request[..]), ids[..i - low],
                      counts, reqs, [i], internalStatus[..], request[..]);
        }
        i := i + 1;
      }
      assert Ascending(low, high)[..i - low] == Ascending(low, high);
    }

    /** `MPI_Testall` on the internal requests from `lo` up to `hi`. */
    method MpiTestall(lo: nat, hi: nat) returns (flag: bool)
      requires lo <= hi <= request.Length
      modifies request
      ensures flag == Settled(Phases(old(request[..])), lo, hi)
      ensures request[..] == InPhases(old(request[..]), AfterTestall(Phases(old(request[..])), lo, hi))
      ensures flag <==> forall i :: lo <= i < hi ==> old(request[i].phase) != Started
      ensures flag ==> forall i :: 0 <= i < request.Length ==>
        request[i] == if lo <= i < hi then old(request[i]).(phase := Inactive) else old(request[i])
      ensures !flag ==> request[..] == old(request[..])
    {
      flag := true;
      for i := lo to hi
        invariant flag <==> forall j :: lo <= j < i ==> request[j].phase != Started
      {
        if request[i].phase == Started {
          flag := false;
        }
      }
      if flag {
        for i := lo to hi
          invariant forall j :: 0 <= j < request.Length ==>
            request[j] == if lo <= j < i then old(request[j]).(phase := Inactive) else old(request[j])
        {
          request[i] := request[i].(phase := Inactive);
        }
      }
    }

    /** `map_recv_buffer`: a flag that is up answers at once; otherwise the messages of the range are
        tested, and the outcome is the answer and the new flag. */
    method MapRecvBuffer(id: nat) returns (flag: bool)
      requires localStatus.Length == localParts && Built() && Mapping().Positive()
      requires id < localParts && Mapping().InRange(id)
      modifies localStatus, request
      ensures old(localStatus[id]) ==>
        flag && request[..] == old(request[..]) && localStatus[..] == old(localStatus[..])
      ensures !old(localStatus[id]) ==>
        && flag == Settled(Phases(old(request[..])), Mapping().First(id), Mapping().Last(id))
        && request[..] == InPhases(old(request[..]),
             AfterTestall(Phases(old(request[..])), Mapping().First(id), Mapping().Last(id)))
        && localStatus[..] == old(localStatus[..])[id := flag]
      ensures flag <==>
        (old(localStatus[id]) ||
         forall i :: Mapping().First(id) <= i < Mapping().Last(id) ==> old(request[i].phase) != Started)
      ensures !flag || old(localStatus[id]) ==> request[..] == old(request[..])
      ensures flag && !old(localStatus[id]) ==> forall i :: 0 <= i < parts ==>
        request[i] == if Mapping().Maps(id, i) then old(request[i]).(phase := Inactive) else old(request[i])
    {
      if localStatus[id] == true {
        return true;
      }
      var start, end := 0, 0;
      if localParts <= parts {
        start, end := MapLocalToNetworkPartitions(id);
      } else {
        DivPositive(localParts, parts);
        var threshold := localParts / parts;
        start := id / threshold;
        end := start + 1;
      }
      flag := MpiTestall(start, end);
      localStatus[id] := flag;
    }

    /** `MPIP_Parrived` */
    method Parrived(partition: nat) returns (flag: bool)
      requires side == RecvSide && partition < localParts
      requires threaded != Running ==>
        localStatus.Length == localParts && Built() && Mapping().Positive() && Mapping().InRange(partition)
      modifies localStatus, request
      ensures threaded == Running ==> !flag && unchanged(localStatus) && unchanged(request)
      ensures threaded != Running ==>
        flag == (old(localStatus[partition]) ||
                 RangeSettled(Mapping(), Phases(old(request[..])), partition))
      ensures threaded != Running ==> localStatus[..] == old(localStatus[..])[partition := flag]
      ensures threaded != Running && old(localStatus[partition]) ==> request[..] == old(request[..])
      ensures threaded != Running && !old(localStatus[partition]) ==>
        request[..] == InPhases(old(request[..]),
          AfterTestall(Phases(old(request[..])), Mapping().First(partition), Mapping().Last(partition)))
      ensures threaded != Running && old(localStatus[partition]) ==> flag
      ensures threaded != Running && !old(localStatus[partition]) ==>
        (flag <==> forall i :: 0 <= i < parts && Mapping().Maps(partition, i) ==> old(request[i].phase) != Started)
      ensures threaded != Running && (!flag || old(localStatus[partition])) ==> request[..] == old(request[..])
      ensures threaded != Running && flag && !old(localStatus[partition]) ==> forall i :: 0 <= i < parts ==>
        request[i] == if Mapping().Maps(partition, i) then old(request[i]).(phase := Inactive) else old(request[i])
    {
      var status := threaded;
      if status == Running {
        return false;
      }
      flag := MapRecvBuffer(partition);
    }

    /** What tests and waits look at. */
    ghost function Seen(): View
      reads this, request
    {
      View(active, threaded, reports, request[..])
    }

    /** The request is active, set up, and none of its messages is under way. */
    ghost predicate Over(): (b: bool)
      reads this, request
      ensures b <==> active && threaded != Running && forall i :: 0 <= i < request.Length ==> request[i].phase != Started
    {
      Seen().Completed()
    }

    /** `MPIP_Test`: reports completion exactly when the request is active, set up, and none of its
        messages is still under way, and then closes the round; otherwise nothing changes. */
    method Test() returns (flag: bool)
      requires Accounted() && (threaded != Running ==> Built())
      modifies this`active, this`reports, request
      ensures flag <==>
        (old(active) && threaded != Running &&
         forall i :: 0 <= i < request.Length ==> old(request[i].phase) != Started)
      ensures flag ==> !active && reports == old(reports) + 1
      ensures flag ==> forall i :: 0 <= i < request.Length ==> request[i] == old(request[i]).(phase := Inactive)
      ensures !flag ==> active == old(active) && reports == old(reports) && request[..] == old(request[..])
      ensures flag == old(Seen()).Completed()
      ensures Seen() == old(Seen()).AfterTest()
      ensures Accounted()
    {
      flag := false;
      if !active {
        return;
      }
      var status := threaded;
      if status == Running {
        return;
      }
      flag := MpiTestall(0, parts);
      if flag {
        active := false;
        reports := reports + 1;
      }
    }

    /** `threaded_sync_driver`: takes over the partner's cut, sets the messages up, and catches up:
        an active receiver starts all its receives, an active sender sends what was marked so far. */
    method ThreadedSyncDriver(incoming: Cut)
      requires threaded == Running && localStatus.Length == localParts
      requires side == SendSide && active ==> Layout(localParts, incoming.parts).Safe()
      modifies this`parts, this`size, this`request, this`internalStatus, this`threaded
      ensures threaded == Finished && Cut(parts, size) == incoming && Built()
      ensures fresh(request) && fresh(internalStatus)
      ensures side == RecvSide || !active ==> internalStatus[..] == Uniform<nat>(parts, 0)
      ensures side == RecvSide || !active ==>
        request[..] == InPhases(FreshRequests(parts, size, tag, extent),
                                Uniform(parts, if active then Started else Inactive))
      ensures side == SendSide && active ==>
        && Mapping().Positive()
        && Tallied(Mapping(), Uniform<nat>(parts, 0), FreshRequests(parts, size, tag, extent), Flagged(localStatus[..]),
                   internalStatus[..], request[..])
        && Startable(Mapping(), internalStatus[..], request[..])
    {
      var outgoing := SyncSide(side.Other(), incoming);
      InternalSetup();
      if side == RecvSide && active {
        StartAll();
      } else if side == SendSide && active {
        SendReady();
      }
      threaded := Finished;
    }

    /** `MPI_Waitall` has returned: the transport has finished every message. */
    method WaitAll()
      requires Built()
      modifies request
      ensures request[..] == InPhases(old(request[..]), Uniform(parts, Inactive))
    {
      for i := 0 to parts
        invariant forall j :: 0 <= j < parts ==>
          request[j] == if j < i then old(request[j]).(phase := Inactive) else old(request[j])
      {
        request[i] := request[i].(phase := Inactive);
      }
    }

    /** `MPIP_Wait`: lets set-up finish if it is still running, blocks until every message is over,
        and closes the round without counting as a reported test. */
    method Wait(incoming: Cut)
      requires localStatus.Length == localParts && (threaded != Running ==> Built())
      requires threaded == Running && side == SendSide && active ==> Layout(localParts, incoming.parts).Safe()
      modifies this, request
      ensures !active && threaded == (if old(threaded) == Running then Finished else old(threaded)) && Built()
      ensures old(threaded) == Running ==>
        && Cut(parts, size) == incoming && fresh(request) && fresh(internalStatus)
        && request[..] == FreshRequests(parts, size, tag, extent)
      ensures old(threaded) == Running && !(old(active) && side == SendSide) ==>
        internalStatus[..] == Uniform<nat>(parts, 0)
      ensures old(threaded) == Running && old(active) && side == SendSide ==>
        && Mapping().Positive()
        && forall i :: 0 <= i < parts ==> internalStatus[i] == Hits(Mapping(), Flagged(localStatus[..]), i)
      ensures old(threaded) != Running ==>
        && request == old(request) && parts == old(parts) && size == old(size)
        && request[..] == InPhases(old(request[..]), Uniform(parts, Inactive))
        && internalStatus == old(internalStatus) && internalStatus[..] == old(internalStatus[..])
      ensures reports == old(reports) && localStatus == old(localStatus) && localStatus[..] == old(localStatus[..])
      ensures localParts == old(localParts) && localSize == old(localSize)
      ensures forall i :: 0 <= i < parts ==> request[i].phase == Inactive
    {
      var status := threaded;
      if status == Running {
        ThreadedSyncDriver(incoming);
      }
      WaitAll();
      active := false;
    }
  }

  /** Marking partitions while set-up runs and catching up afterwards comes to the same as marking
      them, in any order, on a request that was set up before. */
  lemma CatchUpIsLateMarking(c: Layout, ids: seq<nat>, i: nat)
    requires c.Positive() && Distinct(ids) && forall j :: 0 <= j < |ids| ==> ids[j] < c.users
    ensures Hits(c, Flagged(Raised(Uniform(c.users, false), ids)), i) == Hits(c, ids, i)
  {
    var flagged := Flagged(Raised(Uniform(c.users, false), ids));
    HitsOfDistinct(c, flagged, i);
    HitsOfDistinct(c, ids, i);
    assert forall p: nat :: p in ids ==> p < c.users;
    assert Counting(c, flagged, i) == Counting(c, ids, i);
  }

  /** Two lists with the same entries leave the same counters and started messages behind. */
  lemma OrderDoesNotMatter(c: Layout, counts0: seq<nat>, reqs0: seq<Internal>, a: seq<nat>, b: seq<nat>,
                           countsA: seq<nat>, reqsA: seq<Internal>, countsB: seq<nat>, reqsB: seq<Internal>,
                           flags: seq<bool>)
    requires c.Positive() && multiset(a) == multiset(b)
    requires Tallied(c, counts0, reqs0, a, countsA, reqsA) && Tallied(c, counts0, reqs0, b, countsB, reqsB)
    ensures countsA == countsB && reqsA == reqsB && Raised(flags, a) == Raised(flags, b)
  {
    forall i | 0 <= i < |countsA|
      ensures Hits(c, a, i) == Hits(c, b, i)
    {
      HitsOfPermutation(c, a, b, i);
    }
    forall p: nat
      ensures p in a <==> p in b
    {
      assert p in a <==> p in multiset(a);
      assert p in b <==> p in multiset(b);
    }
  }
}
