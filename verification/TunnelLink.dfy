/** From the tunnel's packets through Targetted messages and CAN frames to the peer's router
    (components/airlink_can/airlink_can.c). */
module TunnelLink {
  import opened Bits
  import opened CanardFrame
  import opened CanardTransport
  import T = Tunnel
  import Targetted

  const PROTOCOL_MAVLINK := 0
  const PROTOCOL_MAVLINK2 := 1
  const PROTOCOL_UNDEFINED := 255

  /** One end of the tunnel. */
  datatype End = End(localNode: u8, remoteNode: u8, serialId: int, virtualBaud: u32)

  /** What airlink_can_start demands. */
  predicate Configured(e: End) {
    && 1 <= e.localNode <= 127 && 1 <= e.remoteNode <= 127 && e.localNode != e.remoteNode && 0 <= e.serialId <= 15
  }

  predicate Peers(a: End, b: End) {
    a.remoteNode == b.localNode && b.remoteNode == a.localNode && a.serialId == b.serialId
  }

  /** The payload broadcast_targetted hands to the transport. */
  function PieceSent(e: End, piece: seq<u8>): seq<u8> {
    Targetted.EncodedPayload(Targetted.Message(PROTOCOL_MAVLINK2, e.remoteNode, e.serialId, 0, e.virtualBaud, piece))
  }

  /** airlink_dronecan_targetted_matches. */
  predicate Matches(e: End, source: nat, m: Targetted.Message) {
    && (m.protocol == PROTOCOL_UNDEFINED || m.protocol == PROTOCOL_MAVLINK || m.protocol == PROTOCOL_MAVLINK2)
    && source == e.remoteNode && m.targetNode == e.localNode && m.serialId == e.serialId
  }

  /** The bytes receive_targetted passes to the router for the payloads received from one node. */
  function Ingested(e: End, source: nat, payloads: seq<seq<u8>>): seq<u8> {
    if payloads == [] then []
    else
      var m := Targetted.DecodedPayload(payloads[0]);
      (if m.Some? && Matches(e, source, m.value) then m.value.buffer else []) + Ingested(e, source, payloads[1..])
  }

  lemma PieceReceived(a: End, b: End, piece: seq<u8>)
    requires Configured(a) && Configured(b) && Peers(a, b) && |piece| <= T.CHUNK_MAX
    ensures
      var m := Targetted.DecodedPayload(PieceSent(a, piece));
      m.Some? && Matches(b, a.localNode, m.value) && m.value.buffer == piece
  {
    hide Targetted.DecodedPayload, Targetted.EncodedPayload;
    var m := Targetted.Message(PROTOCOL_MAVLINK2, a.remoteNode, a.serialId, 0, a.virtualBaud, piece);
    Targetted.RoundTrip(m);
    var low := m.(baudrate := 0);
    Targetted.RoundTrip(low);
    assert Targetted.InRange(low);
    assert Targetted.Truncated(m).serialId == Targetted.Truncated(low).serialId;
  }

  /** Each transfer carries one piece; keepalives, which carry none, may come anywhere in between. */
  predicate Transfers(e: End, pieces: seq<seq<u8>>, xs: seq<Sent>)
    decreases xs
  {
    if xs == [] then pieces == []
    else
      || (xs[0].payload == PieceSent(e, []) && Transfers(e, pieces, xs[1..]))
      || (pieces != [] && xs[0].payload == PieceSent(e, pieces[0]) && Transfers(e, pieces[1..], xs[1..]))
  }

  /** Every such transfer is short enough to be counted by a reception session. */
  lemma {:induction false} TransfersFit(e: End, pieces: seq<seq<u8>>, xs: seq<Sent>)
    requires Transfers(e, pieces, xs) && forall i :: 0 <= i < |pieces| ==> |pieces[i]| <= T.CHUNK_MAX
    ensures AllFit(xs)
    decreases xs
  {
    hide PieceSent;
    if xs != [] {
      PieceSize(e, []);
      if xs[0].payload == PieceSent(e, []) && Transfers(e, pieces, xs[1..]) {
        TransfersFit(e, pieces, xs[1..]);
      } else {
        PieceSize(e, pieces[0]);
        TransfersFit(e, pieces[1..], xs[1..]);
      }
      FitsFrom(xs);
    }
  }

  lemma PieceSize(e: End, piece: seq<u8>)
    ensures |PieceSent(e, piece)| == 6 + |piece|
  {
    hide Targetted.HeaderBits, Targetted.Pack;
  }

  /** All pieces, one after the other, from the front. */
  function Joined(pieces: seq<seq<u8>>): seq<u8> {
    if pieces == [] then [] else pieces[0] + Joined(pieces[1..])
  }

  lemma {:induction false} FlatJoined(pieces: seq<seq<u8>>, more: seq<seq<u8>>)
    ensures T.Flat(pieces + more) == T.Flat(pieces) + Joined(more)
    decreases |more|
  {
    if more == [] {
      assert pieces + more == pieces;
      assert T.Flat(pieces) + [] == T.Flat(pieces);
    } else {
      assert pieces + more == (pieces + [more[0]]) + more[1..];
      FlatJoined(pieces + [more[0]], more[1..]);
      T.FlatMore(pieces, more[0]);
      assert T.Flat(pieces) + more[0] + Joined(more[1..]) == T.Flat(pieces) + (more[0] + Joined(more[1..]));
    }
  }

  lemma {:induction false} PiecesIngested(a: End, b: End, pieces: seq<seq<u8>>, xs: seq<Sent>)
    requires Configured(a) && Configured(b) && Peers(a, b) && Transfers(a, pieces, xs)
    requires forall i :: 0 <= i < |pieces| ==> |pieces[i]| <= T.CHUNK_MAX
    ensures Ingested(b, a.localNode, Payloads(xs)) == Joined(pieces)
    decreases xs
  {
    hide Targetted.DecodedPayload, PieceSent, Matches;
    if xs != [] {
      assert Payloads(xs)[1..] == Payloads(xs[1..]);
      if xs[0].payload == PieceSent(a, []) && Transfers(a, pieces, xs[1..]) {
        PieceReceived(a, b, []);
        PiecesIngested(a, b, pieces, xs[1..]);
        assert [] + Joined(pieces) == Joined(pieces);
      } else {
        PieceReceived(a, b, pieces[0]);
        PiecesIngested(a, b, pieces[1..], xs[1..]);
      }
    }
  }

  /** End to end: as long as every piece is broadcast and the frames arrive in time, the peer's router receives
      exactly the bytes of the packets taken, in order. Priorities may differ from piece to piece, and keepalives may
      be sent in between. */
  lemma {:induction false} PacketsReachRouter(a: End, b: End, events: seq<T.Event>, xs: seq<Sent>, r: Reception, signature: u64, tid: Tid)
    requires Configured(a) && Configured(b) && Peers(a, b)
    requires T.AllSent(events) && !T.Run(T.Init(), events).active
    requires Transfers(a, T.Run(T.Init(), events).pieces, xs)
    requires Awaits(r.session, tid) && AllArrive(xs, signature, tid)
    requires forall i :: 0 <= i < |xs| ==> r.free >= Demand(xs[i].payload)
    ensures
      var delivered := FeedAll(r, xs, signature, tid).delivered;
      && r.delivered <= delivered
      && Ingested(b, a.localNode, delivered[|r.delivered|..]) == T.Bytes(T.Run(T.Init(), events).taken)
  {
    hide Transfers, AllFit, T.Run, T.Init, T.Flat, FeedAll, AllArrive, Awaits, Demand, PieceSent, Ingested, Matches;
    var pieces := T.Run(T.Init(), events).pieces;
    T.PacketsWhole(events);
    PiecesIngested(a, b, pieces, xs);
    TransfersFit(a, pieces, xs);
    FlatJoined([], pieces);
    FlatNothing();
    assert [] + pieces == pieces && [] + Joined(pieces) == Joined(pieces);
    StreamReceived(r, xs, signature, tid);
    var delivered := FeedAll(r, xs, signature, tid).delivered;
    assert delivered[|r.delivered|..] == Payloads(xs);
  }

  lemma FlatNothing()
    ensures T.Flat([]) == []
  {
  }
}
