/**
 Two request objects negotiating with each other: what one side puts on the wire is what the set-up
 thread of the other side takes off it.
 */
module Pairing {
  import opened Partitioning
  import opened Mpi
  import opened Basics
  import opened Negotiation
  import opened Requests

  /** The two sides name the same driver, or each fixes the count by itself; any other combination
      leaves one side waiting for a message that is never sent. */
  predicate Compatible(a: Mode, b: Mode) {
    if a.DrivenBy? then a == b else !b.DrivenBy?
  }

  /** Both sides are set up with the same messages: as many, as long, at the same offsets of the two
      buffers, under the same tags. */
  ghost predicate Matched(a: Request, b: Request)
    reads a, a.request, b, b.request
  {
    && a.Built() && b.Built() && a.parts == b.parts && a.size == b.size
    && forall i :: 0 <= i < a.parts ==> a.request[i] == b.request[i]
  }

  /** `sync_driver` on both sides of a pair, and the set-up thread of the side that does not decide.
      With a driver the two sides always match.  Without one they match if and only if the counts they
      fix are the same and cut their buffers into messages of the same size; for buffers of equal size,
      if and only if the counts are the same. */
  method NegotiatePair(snd: Request, rcv: Request, sendMode: Mode, recvMode: Mode)
    requires snd != rcv && snd.side == SendSide && rcv.side == RecvSide && Compatible(sendMode, recvMode)
    requires snd.threaded == None && rcv.threaded == None && !snd.active && !rcv.active
    requires snd.tag == rcv.tag && snd.extent == rcv.extent
    requires snd.localStatus.Length == snd.localParts && rcv.localStatus.Length == rcv.localParts
    modifies snd, rcv
    ensures snd.localParts == old(snd.localParts) && snd.localSize == old(snd.localSize)
    ensures rcv.localParts == old(rcv.localParts) && rcv.localSize == old(rcv.localSize)
    ensures snd.threaded == (if sendMode == DrivenBy(RecvSide) then Finished else None)
    ensures rcv.threaded == (if recvMode == DrivenBy(SendSide) then Finished else None)
    ensures snd.Built() && rcv.Built()
    ensures Cut(snd.parts, snd.size) ==
      PairOutcome(sendMode, SendSide, Cut(snd.localParts, snd.localSize), Cut(rcv.localParts, rcv.localSize))
    ensures Cut(rcv.parts, rcv.size) ==
      PairOutcome(recvMode, RecvSide, Cut(snd.localParts, snd.localSize), Cut(rcv.localParts, rcv.localSize))
    ensures sendMode.DrivenBy? ==> Matched(snd, rcv)
    ensures !sendMode.DrivenBy? ==> (Matched(snd, rcv) <==> HardCutsAgree(sendMode, recvMode,
      Cut(snd.localParts, snd.localSize), Cut(rcv.localParts, rcv.localSize)))
    ensures !sendMode.DrivenBy? && snd.localParts * snd.localSize == rcv.localParts * rcv.localSize ==>
      (Matched(snd, rcv) <==> Chosen(sendMode) == Chosen(recvMode))
    ensures sendMode.Hard? && recvMode.Hard? && sendMode.count > 0 && recvMode.count > 0 ==>
      (Matched(snd, rcv) <==>
        && sendMode.count == recvMode.count
        && (snd.localParts * snd.localSize) / sendMode.count == (rcv.localParts * rcv.localSize) / sendMode.count)
    ensures sendMode.Hard? && sendMode.count > 0 && recvMode == Default ==>
      (Matched(snd, rcv) <==> sendMode.count == 1 && snd.localParts * snd.localSize == rcv.localParts * rcv.localSize)
    ensures sendMode == Default && recvMode.Hard? && recvMode.count > 0 ==>
      (Matched(snd, rcv) <==> recvMode.count == 1 && snd.localParts * snd.localSize == rcv.localParts * rcv.localSize)
  {
    var nothing := Cut(0, 0);
    var sent := snd.SyncDriver(sendMode, nothing);
    var back := rcv.SyncDriver(recvMode, nothing);
    if snd.threaded == Running {
      snd.ThreadedSyncDriver(back.cut);
    }
    if rcv.threaded == Running {
      rcv.ThreadedSyncDriver(sent.cut);
    }
  }

  /** The counts are the same and so are the sizes that follow from them. */
  predicate HardCutsAgree(a: Mode, b: Mode, send: Cut, recv: Cut) {
    Chosen(a) == Chosen(b) && send.Total() / Chosen(a) == recv.Total() / Chosen(b)
  }
}
