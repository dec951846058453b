/**
 How the two sides come to the number and size of the messages between them.
 */
module Negotiation {
  import opened Partitioning
  import opened Basics

  /** The decoded `MPI_Info` argument; anything else means a single message. */
  datatype Mode = Default | Hard(count: int) | DrivenBy(driver: Side)

  /** A partition count and size: what a user gave, what is sent between the sides, or the outcome. */
  datatype Cut = Cut(parts: nat, size: nat) {
    function Total(): nat {
      parts * size
    }
  }

  /** A count that is not positive is taken as 1. */
  function Chosen(mode: Mode): (n: nat)
    ensures n > 0
    ensures forall count: int :: mode == Hard(count) && count > 0 ==> n == count
    ensures (mode.Hard? ==> mode.count <= 0) ==> n == 1
  {
    if mode.Hard? && mode.count > 0 then mode.count else 1
  }

  /** What `side` ends up with, given its own cut and what the driving side sends: see `SyncDriver` for
      what that comes to in each mode. */
  function Outcome(mode: Mode, side: Side, own: Cut, incoming: Cut): Cut {
    match mode
    case DrivenBy(d) => if side == d then own else incoming
    case _ => Cut(Chosen(mode), own.Total() / Chosen(mode))
  }

  /** Each side's outcome when the pair negotiates: the driver's cut is what the other side receives. */
  function PairOutcome(mode: Mode, side: Side, send: Cut, recv: Cut): Cut {
    Outcome(mode, side, if side == SendSide then send else recv,
            if mode.DrivenBy? && mode.driver == SendSide then send else recv)
  }

  /** Both sides agree on the messages whenever their buffers have the same number of elements;
      with a driving side they agree in any case. */
  lemma SidesAgree(mode: Mode, send: Cut, recv: Cut)
    requires send.Total() == recv.Total() || mode.DrivenBy?
    ensures PairOutcome(mode, SendSide, send, recv) == PairOutcome(mode, RecvSide, send, recv)
  {}

  /** On buffers of equal size the negotiated messages cover each side's buffer exactly if the
      message count divides its number of elements, which a driving side makes sure of. */
  lemma ElementsConserved(mode: Mode, send: Cut, recv: Cut)
    requires send.Total() == recv.Total()
    ensures PairOutcome(mode, SendSide, send, recv).Total() == send.Total()
            <==> mode.DrivenBy? || send.Total() % Chosen(mode) == 0
    ensures PairOutcome(mode, RecvSide, send, recv).Total() == recv.Total()
            <==> mode.DrivenBy? || recv.Total() % Chosen(mode) == 0
  {
    if !mode.DrivenBy? {
      var n, t := Chosen(mode), send.Total();
      if n * (t / n) == t { DividesOfQuotient(t, n, t / n); }
      if t % n == 0 { ExactQuotient(t, n); }
    }
  }

  function GeometryOf(own: Cut, outcome: Cut): Geometry {
    Geometry(Layout(own.parts, outcome.parts), own.size, outcome.size)
  }

  /** A completed negotiation leaves both sides with the same messages over buffers of the same
      size, each cut into partitions and messages without rest. */
  lemma NegotiatedGeometries(mode: Mode, send: Cut, recv: Cut)
    requires send.parts > 0 && send.size > 0 && recv.parts > 0 && recv.size > 0
    requires send.Total() == recv.Total() && (mode.DrivenBy? || send.Total() % Chosen(mode) == 0)
    ensures var s := GeometryOf(send, PairOutcome(mode, SendSide, send, recv));
            var r := GeometryOf(recv, PairOutcome(mode, RecvSide, send, recv));
            s.Valid() && r.Valid() && s.layout.parts == r.layout.parts && s.size == r.size
    ensures mode.DrivenBy? && mode.driver == SendSide ==>
              GeometryOf(send, PairOutcome(mode, SendSide, send, recv)).layout.Aligned()
    ensures mode.DrivenBy? && mode.driver == RecvSide ==>
              GeometryOf(recv, PairOutcome(mode, RecvSide, send, recv)).layout.Aligned()
  {
    SidesAgree(mode, send, recv);
    ElementsConserved(mode, send, recv);
    var out := PairOutcome(mode, SendSide, send, recv);
    assert send.Total() > 0 by { MulMono(1, send.parts, send.size); }
    assert out.parts > 0;
    DividesOfQuotient(send.parts, send.parts, 1);
    DividesOfQuotient(recv.parts, recv.parts, 1);
  }
}
