/**
 The same slices on both levels: the bytes `internal_setup` gives to a message are those of the elements
 that the step system moves with it.
 */
module BufferLayout {
  import opened Partitioning
  import opened EndToEnd
  import opened Requests
  import S = SendProtocol
  import R = ReceiveProtocol

  /** Message `i` as either side's set-up makes it, for elements of `extent` bytes. */
  function Message(c: Config, i: nat, tag: int, extent: nat): Internal
    requires i < c.Parts()
  {
    FreshRequests(c.Parts(), c.send.size, tag, extent)[i]
  }

  /** Element `x` is one of those whose bytes the set-up gives to message `i`. */
  lemma ElementOfMessage(c: Config, i: nat, tag: int, extent: nat, x: nat)
    requires c.Valid() && i < c.Parts() && extent > 0
    ensures Covers(Message(c, i, tag, extent), extent, x * extent) <==> c.send.InSlice(i, x)
  {
    SetUpSlices(c.Parts(), c.send.size, tag, extent, i, x * extent);
    DivUnique(x * extent, extent, x);
  }

  /** The transport takes exactly the elements of the message out of the send buffer, in order. */
  lemma TransportTakesMessage(c: Config, s: System, i: nat, tag: int, extent: nat, x: nat)
    requires c.Valid() && i < c.Parts() && extent > 0 && Enabled(c, s, Send(S.Transport(i)))
    ensures var m, t := Message(c, i, tag, extent), Apply(c, s, Send(S.Transport(i)));
      && i < |s.chan| && |t.chan| == |s.chan| && |t.chan[i]| == |s.chan[i]| + 1
      && |t.chan[i][|s.chan[i]|]| == m.count
      && m.offset == i * c.send.size * extent
      && (Covers(m, extent, x * extent) ==>
            && x < |s.sbuf| && 0 <= x - i * c.send.size < m.count
            && t.chan[i][|s.chan[i]|][x - i * c.send.size] == s.sbuf[x])
  {
    ElementOfMessage(c, i, tag, extent, x);
  }

  /** A delivery puts the first message of the queue over exactly these elements of the receive buffer. */
  lemma DeliveryFillsMessage(c: Config, s: System, i: nat, tag: int, extent: nat, x: nat)
    requires c.Valid() && extent > 0 && Enabled(c, s, Recv(R.Deliver(i))) && |s.chan[i][0]| == c.send.size
    requires x < |s.rbuf|
    ensures i < c.Parts()
    ensures var m, t := Message(c, i, tag, extent), Apply(c, s, Recv(R.Deliver(i)));
      && |t.rbuf| == |s.rbuf|
      && (Covers(m, extent, x * extent) ==>
            0 <= x - i * c.send.size < |s.chan[i][0]| && t.rbuf[x] == s.chan[i][0][x - i * c.send.size])
      && (!Covers(m, extent, x * extent) ==> t.rbuf[x] == s.rbuf[x])
  {
    ElementOfMessage(c, i, tag, extent, x);
  }
}
