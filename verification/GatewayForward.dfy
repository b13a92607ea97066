/**
 A message's way to another host: the request to the local gateway (itc.c), the frame the gateway makes
 of it, and what the other gateway rebuilds from the frame (itc_gw.c).
 */
module GatewayForward {
  import opened Bytes
  import opened ShmLayout
  import opened Messages
  import opened LinkedList
  import opened GatewayFrames
  import opened GatewaySocket

  /** ITC_GATEWAY_ETH_PACKET_SIZE */
  const MTU: nat := 1500
  const NO_MBOX_ID: u32 := 0xFFFF_FFFF
  const FWD_DATA_TO_ITCGWS: u32 := 0x9000_0507
  /** char to_namespace[255] and the byte that aligns payload_length behind it. */
  const NAMESPACE_FIELD: nat := 256

  // ---- The request to the gateway ----------------------------------------------------------

  /** A C string, without its NUL, that fits to_namespace. */
  predicate IsNamespace(ns: seq<byte>)
  {
    0 !in ns && |ns| < 255
  }

  /** What strcpy and memset put into the field. */
  function NamespaceField(ns: seq<byte>): (s: seq<byte>)
    requires IsNamespace(ns)
    ensures |s| == NAMESPACE_FIELD
  {
    ns + [0] + seq(NAMESPACE_FIELD - |ns| - 1, _ => 0)
  }

  /**
   handle_forward_itc_msg_to_itcgw: the message for the gateway, a struct itc_fwd_data_to_itcgws, which
   carries the bytes of the message without its ENDPOINT; none if these exceed the MTU.
   */
  function Request(m: Message, me: u32, to: u32, ns: seq<byte>): Option<Message>
    requires Allocatable(m) && IsNamespace(ns)
  {
    if Size(m) + ITC_HEADER > MTU then None
    else
      var payload := Flat(m.(sender := me, receiver := to));
      Some(Message(0, NO_MBOX_ID, NO_MBOX_ID, FWD_DATA_TO_ITCGWS, NamespaceField(ns) + LE32(|payload|) + payload))
  }

  /** What the gateway makes of a request: the peer it looks up and the frame it sends there. */
  datatype Routed = Routed(ns: seq<byte>, frame: Frame)

  /** handle_fwd_data_out; no defined result if the request is shorter than it announces. */
  function FwdDataOut(req: Message, pid: u32): Option<Routed>
  {
    if |req.body| < NAMESPACE_FIELD + 4 || 0 !in req.body then None
    else
      var n := FromLE32(req.body[NAMESPACE_FIELD..NAMESPACE_FIELD + 4]);
      var payload := req.body[NAMESPACE_FIELD + 4..];
      if n > |payload| then None
      else Some(Routed(req.body[..IndexOf(req.body, 0)], DataFwd(pid, payload[..n])))
  }

  lemma RequestFields(field: seq<byte>, len: seq<byte>, payload: seq<byte>)
    requires |field| == NAMESPACE_FIELD && |len| == 4
    ensures var body := field + len + payload;
            body[NAMESPACE_FIELD..NAMESPACE_FIELD + 4] == len && body[NAMESPACE_FIELD + 4..] == payload
  {
  }

  /** The request byte by byte, behind its msgno: the namespace, zeros up to byte 256, the length, the message. */
  lemma RequestBytes(m: Message, me: u32, to: u32, ns: seq<byte>)
    requires Allocatable(m) && IsNamespace(ns) && Size(m) + ITC_HEADER <= MTU
    ensures var req, payload := Request(m, me, to, ns).value, Flat(m.(sender := me, receiver := to));
            && req.flags == 0 && req.receiver == 0xFFFF_FFFF == req.sender && req.msgno == 0x9000_0507
            && |req.body| == 260 + |payload|
            && req.body[..|ns|] == ns && (forall i :: |ns| <= i < 256 ==> req.body[i] == 0)
            && HostWordAt(req.body, 256, |payload|) && req.body[260..] == payload
  {
    var payload := Flat(m.(sender := me, receiver := to));
    RequestFields(NamespaceField(ns), LE32(|payload|), payload);
    var body := Request(m, me, to, ns).value.body;
    assert forall i :: 0 <= i < 4 ==> body[256 + i] == body[256..260][i];
  }

  lemma NamespaceRead(ns: seq<byte>, rest: seq<byte>)
    requires IsNamespace(ns)
    ensures var s := NamespaceField(ns) + rest; 0 in s && s[..IndexOf(s, 0)] == ns
  {
    var zeros := seq(NAMESPACE_FIELD - |ns| - 1, _ => 0);
    var s := NamespaceField(ns) + rest;
    assert s == ns + [0] + (zeros + rest);
    assert s[|ns|] == 0;
    FirstZero(ns, zeros + rest);
  }

  /** The gateway reads from a request, whatever its header fields, the namespace and the bytes put in, and nothing behind them. */
  lemma RequestTail(m: Message, me: u32, to: u32, ns: seq<byte>, req: Message, junk: seq<byte>, pid: u32)
    requires Allocatable(m) && IsNamespace(ns) && Size(m) + ITC_HEADER <= MTU
    requires req.body == Request(m, me, to, ns).value.body + junk
    ensures FwdDataOut(req, pid) == Some(Routed(ns, DataFwd(pid, Flat(m.(sender := me, receiver := to)))))
  {
    var payload := Flat(m.(sender := me, receiver := to));
    var len := LE32(|payload|);
    assert req.body == NamespaceField(ns) + len + (payload + junk) == NamespaceField(ns) + (len + (payload + junk));
    RequestFields(NamespaceField(ns), len, payload + junk);
    Words(|payload|);
    NamespaceRead(ns, len + (payload + junk));
    assert (payload + junk)[..|payload|] == payload;
  }

  lemma RequestRoundTrip(m: Message, me: u32, to: u32, ns: seq<byte>, req: Message, pid: u32)
    requires Allocatable(m) && IsNamespace(ns) && Size(m) + ITC_HEADER <= MTU
    requires req.body == Request(m, me, to, ns).value.body
    ensures FwdDataOut(req, pid) == Some(Routed(ns, DataFwd(pid, Flat(m.(sender := me, receiver := to)))))
  {
    assert req.body + [] == req.body;
    RequestTail(m, me, to, ns, req, [], pid);
  }

  // ---- At the other host -------------------------------------------------------------------

  /**
   handle_receive_data_fwd: a fresh message of the size and msgno found in the payload, overwritten by
   the payload.  Delivered if ENDPOINT still follows the user part; no defined result if the payload
   is too short, the allocation is refused or the copy runs past it.
   */
  function RebuildForwarded(payload: seq<byte>): Received
  {
    if |payload| < 20 || SizeField(payload) < 4 then OutOfBounds
    else
      var blank := Alloc(SizeField(payload), FromLE32(payload[16..20]));
      if !Allocatable(blank) || |payload| > |Wire(blank)| then OutOfBounds
      else
        var memory := Store(Wire(blank), 0, payload);
        var n := SizeField(payload) + ITC_HEADER;
        if memory[n] != ENDPOINT then BadEndpoint else Delivered(Unflatten(memory[..n]))
  }

  /** What is forwarded comes back as the same message, with an ENDPOINT that was not carried. */
  lemma RebuildFlat(m: Message)
    requires Allocatable(m)
    ensures RebuildForwarded(Flat(m)) == Delivered(m)
  {
    FlatRoundTrip(m);
    var payload := Flat(m);
    var blank := Alloc(SizeField(payload), FromLE32(payload[16..20]));
    var memory := Store(Wire(blank), 0, payload);
    var n := Size(m) + ITC_HEADER;
    assert memory[..n] == payload;
    assert memory[n] == Wire(blank)[n] == ENDPOINT;
  }

  /**
   Any payload that fits the message it announces is delivered, its missing bytes zero, unless it brings
   another byte in the place of ENDPOINT.
   */
  lemma ForwardDeliversIff(payload: seq<byte>)
    requires |payload| >= 20 && 4 <= SizeField(payload) <= 0xA0_0000 - 17 && |payload| <= SizeField(payload) + 17
    ensures var n, r := SizeField(payload) + 16, RebuildForwarded(payload);
            && (r.Delivered? <==> |payload| <= n || payload[n] == 0xAA)
            && (!r.Delivered? ==> r == BadEndpoint)
            && (r.Delivered? ==>
                  && |r.message.body| == n - 20
                  && forall i :: 20 <= i < n ==> r.message.body[i - 20] == if i < |payload| then payload[i] else 0)
  {
    var blank := Alloc(SizeField(payload), FromLE32(payload[16..20]));
    AllocBytes(SizeField(payload), FromLE32(payload[16..20]));
    StoredOver(Wire(blank), payload);
  }

  lemma StoredOver(memory: seq<byte>, s: seq<byte>)
    requires |s| <= |memory|
    ensures var r := Store(memory, 0, s);
            |r| == |memory| && forall i :: 0 <= i < |memory| ==> r[i] == if i < |s| then s[i] else memory[i]
  {
  }

  /** The gateway's reaction to an event: what it hands to itc_send. */
  function Delivery(event: Event): seq<Received>
  {
    if event.Got? && event.frame.DataFwd? then [RebuildForwarded(event.frame.payload)] else []
  }

  function Deliveries(events: seq<Event>): seq<Received>
  {
    if events == [] then [] else Delivery(events[0]) + Deliveries(events[1..])
  }

  // ---- End to end --------------------------------------------------------------------------

  /** A message, the mailbox it comes from, and the mailbox and host it is sent to. */
  datatype Parcel = Parcel(message: Message, from: u32, to: u32, ns: seq<byte>)

  predicate Sendable(p: Parcel)
  {
    Allocatable(p.message) && IsNamespace(p.ns)
  }

  predicate Fits(p: Parcel)
  {
    Sendable(p) && Size(p.message) + ITC_HEADER <= MTU
  }

  predicate AllFit(parcels: seq<Parcel>)
  {
    forall i :: 0 <= i < |parcels| ==> Fits(parcels[i])
  }

  function RequestOf(p: Parcel): Option<Message>
    requires Sendable(p)
  {
    Request(p.message, p.from, p.to, p.ns)
  }

  /** The frame a parcel becomes in the gateway. */
  function FrameOf(p: Parcel, pid: u32): (f: Frame)
    requires Fits(p)
    ensures WellFormed(f)
  {
    RequestRoundTrip(p.message, p.from, p.to, p.ns, RequestOf(p).value, pid);
    FwdDataOut(RequestOf(p).value, pid).value.frame
  }

  function FramesOf(parcels: seq<Parcel>, pid: u32): (frames: seq<Frame>)
    requires AllFit(parcels)
    ensures |frames| == |parcels| && AllWellFormed(frames)
    ensures forall i :: 0 <= i < |parcels| ==> frames[i] == FrameOf(parcels[i], pid)
  {
    seq(|parcels|, i requires 0 <= i < |parcels| => FrameOf(parcels[i], pid))
  }

  function Arrived(p: Parcel): Received
  {
    Delivered(p.message.(sender := p.from, receiver := p.to))
  }

  function AllArrived(parcels: seq<Parcel>): (r: seq<Received>)
    ensures |r| == |parcels| && forall i :: 0 <= i < |parcels| ==> r[i] == Arrived(parcels[i])
  {
    if parcels == [] then [] else [Arrived(parcels[0])] + AllArrived(parcels[1..])
  }

  /**
   A message is refused exactly when it does not fit the MTU.  Otherwise the gateway looks up the
   namespace it was sent to, and the frame it sends there is rebuilt into the message as it was sent.
   */
  lemma ForwardedArrives(p: Parcel, pid: u32)
    requires Sendable(p)
    ensures RequestOf(p) == None <==> Size(p.message) > 1484
    ensures Fits(p) ==>
              var out := FwdDataOut(RequestOf(p).value, pid);
              && out.Some? && out.value.ns == p.ns && out.value.frame == FrameOf(p, pid)
              && out.value.frame.DataFwd? && RebuildForwarded(out.value.frame.payload) == Arrived(p)
  {
    if Fits(p) {
      RequestRoundTrip(p.message, p.from, p.to, p.ns, RequestOf(p).value, pid);
      RebuildFlat(p.message.(sender := p.from, receiver := p.to));
    }
  }

  lemma DeliveryOfParcel(p: Parcel, pid: u32)
    requires Fits(p)
    ensures Delivery(Got(FrameOf(p, pid))) == [Arrived(p)]
  {
    ForwardedArrives(p, pid);
  }

  lemma FramesStep(parcels: seq<Parcel>, pid: u32)
    requires AllFit(parcels) && parcels != []
    ensures AllFit(parcels[1..]) && AllGot(FramesOf(parcels, pid)) == [Got(FrameOf(parcels[0], pid))] + AllGot(FramesOf(parcels[1..], pid))
  {
    assert FramesOf(parcels, pid)[1..] == FramesOf(parcels[1..], pid);
  }

  lemma DeliveriesStep(first: Event, rest: seq<Event>)
    ensures Deliveries([first] + rest) == Delivery(first) + Deliveries(rest)
  {
    assert ([first] + rest)[1..] == rest;
  }

  lemma {:induction false} DeliveriesOfParcels(parcels: seq<Parcel>, pid: u32)
    requires AllFit(parcels)
    ensures Deliveries(AllGot(FramesOf(parcels, pid))) == AllArrived(parcels)
    decreases |parcels|
  {
    if parcels != [] {
      FramesStep(parcels, pid);
      DeliveriesStep(Got(FrameOf(parcels[0], pid)), AllGot(FramesOf(parcels[1..], pid)));
      DeliveryOfParcel(parcels[0], pid);
      DeliveriesOfParcels(parcels[1..], pid);
    }
  }

  /**
   End to end: whatever messages a gateway forwards over a connection and however TCP fragments its
   bytes, the server at the other end hands the same messages to itc_send, in the same order, with
   receiver, sender, msgno and user bytes unchanged and ENDPOINT intact.
   */
  method EndToEnd(parcels: seq<Parcel>, pid: u32, chunks: seq<seq<byte>>) returns (received: seq<Received>)
    requires AllFit(parcels) && Flatten(chunks) == EncodeAll(FramesOf(parcels, pid))
    requires forall i :: 0 <= i < |chunks| ==> chunks[i] != []
    ensures received == AllArrived(parcels)
  {
    var events := ServeFragments(FramesOf(parcels, pid), chunks);
    DeliveriesOfParcels(parcels, pid);
    received := Deliveries(events);
  }
}
