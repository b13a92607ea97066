/**
 The gateway's TCP protocol (itc_gw.c): frames with a 20-byte header in network byte order, what the
 server makes of a byte stream.
 */
module GatewayFrames {
  import opened Bytes
  import opened LinkedList

  // ---- Frames ------------------------------------------------------------------------------

  const HEADER: nat := 20
  const PROTOCOL_REVISION: u32 := 15
  const DATA_FWD: u32 := 0x103
  const LOCATE_MBOX_REQUEST: u32 := 0x104
  const STATUS_OK: u32 := 0
  /** recv_data counts in a C int. */
  const MAX_INT: nat := 0x7FFF_FFFF

  /** struct itcgw_header */
  datatype Header = Header(sender: u32, receiver: u32, protRev: u32, msgno: u32, payloadLen: u32)

  /** A frame by its sender's pid and what it carries; a mailbox name is a C string without its NUL. */
  datatype Frame = DataFwd(pid: u32, payload: seq<byte>) | LocateRequest(pid: u32, name: seq<byte>)

  predicate WellFormed(f: Frame)
  {
    match f
    case DataFwd(_, payload) => 8 + |payload| <= MAX_INT
    case LocateRequest(_, name) => 4 + |name| + 1 <= MAX_INT && 0 !in name
  }

  function Body(f: Frame): (s: seq<byte>)
    requires WellFormed(f)
    ensures 0 < |s| <= MAX_INT
  {
    match f
    case DataFwd(_, payload) => BE32(STATUS_OK) + BE32(|payload|) + payload
    case LocateRequest(_, name) => BE32(STATUS_OK) + name + [0]
  }

  function HeaderOf(f: Frame): Header
    requires WellFormed(f)
  {
    match f
    case DataFwd(pid, _) => Header(pid, 222, PROTOCOL_REVISION, DATA_FWD, |Body(f)|)
    case LocateRequest(pid, _) => Header(pid, 111, PROTOCOL_REVISION, LOCATE_MBOX_REQUEST, |Body(f)|)
  }

  function EncodeHeader(h: Header): (s: seq<byte>)
    ensures |s| == HEADER
  {
    BE32(h.sender) + BE32(h.receiver) + BE32(h.protRev) + BE32(h.msgno) + BE32(h.payloadLen)
  }

  function DecodeHeader(s: seq<byte>): Header
    requires |s| == HEADER
  {
    Header(FromBE32(s[0..4]), FromBE32(s[4..8]), FromBE32(s[8..12]), FromBE32(s[12..16]), FromBE32(s[16..20]))
  }

  /** The fields of a header lie one after the other. */
  lemma HeaderSlices(a: seq<byte>, b: seq<byte>, c: seq<byte>, d: seq<byte>, e: seq<byte>)
    requires |a| == |b| == |c| == |d| == |e| == 4
    ensures var s := a + b + c + d + e;
            s[0..4] == a && s[4..8] == b && s[8..12] == c && s[12..16] == d && s[16..20] == e
  {
  }

  lemma HeaderRoundTrip(h: Header)
    ensures DecodeHeader(EncodeHeader(h)) == h
  {
    HeaderSlices(BE32(h.sender), BE32(h.receiver), BE32(h.protRev), BE32(h.msgno), BE32(h.payloadLen));
    Words(h.sender); Words(h.receiver); Words(h.protRev); Words(h.msgno); Words(h.payloadLen);
  }

  function Encode(f: Frame): (s: seq<byte>)
    requires WellFormed(f)
    ensures |s| == HEADER + |Body(f)|
  {
    EncodeHeader(HeaderOf(f)) + Body(f)
  }

  /** Byte `i` of a 32-bit word, the most significant first. */
  function ByteOf(w: u32, i: nat): byte
    requires i < 4
  {
    match i case 0 => w / 0x100_0000 case 1 => w / 0x1_0000 % 0x100 case 2 => w / 0x100 % 0x100 case _ => w % 0x100
  }

  /** The four bytes at `at` are the word, the most significant first. */
  predicate WordAt(s: seq<byte>, at: nat, w: u32)
    requires at + 4 <= |s|
  {
    s[at] == ByteOf(w, 0) && s[at + 1] == ByteOf(w, 1) && s[at + 2] == ByteOf(w, 2) && s[at + 3] == ByteOf(w, 3)
  }

  /**
   The frames on the wire, byte by byte: sender pid, receiver 222 or 111, protocol revision 15, type
   0x103 or 0x104, length of the body; the body starts with error code 0, followed by length and payload,
   or by the name and its NUL.
   */
  lemma FrameBytes(f: Frame)
    requires WellFormed(f)
    ensures var s := Encode(f);
            && |s| >= 24 && WordAt(s, 0, f.pid) && s[8..12] == [0, 0, 0, 15] && s[20..24] == [0, 0, 0, 0]
            && WordAt(s, 16, |s| - 20)
            && match f
               case DataFwd(_, payload) =>
                 |s| == 28 + |payload| && s[4..8] == [0, 0, 0, 222] && s[12..16] == [0, 0, 1, 3]
                 && WordAt(s, 24, |payload|) && s[28..] == payload
               case LocateRequest(_, name) =>
                 |s| == 25 + |name| && s[4..8] == [0, 0, 0, 111] && s[12..16] == [0, 0, 1, 4] && s[24..] == name + [0]
  {
    var h := HeaderOf(f);
    HeaderBytes(EncodeHeader(h), Body(f));
    HeaderWords(h);
    SmallWords();
    assert Body(f)[..4] == BE32(0);
    match f
    case DataFwd(_, payload) =>
      assert Body(f)[4..8] == BE32(|payload|) && Body(f)[8..] == payload;
    case LocateRequest(_, name) =>
      assert Body(f)[4..] == name + [0];
  }

  lemma SmallWords()
    ensures BE32(0) == [0, 0, 0, 0] && BE32(15) == [0, 0, 0, 15] && BE32(111) == [0, 0, 0, 111]
    ensures BE32(222) == [0, 0, 0, 222] && BE32(0x103) == [0, 0, 1, 3] && BE32(0x104) == [0, 0, 1, 4]
  {
  }

  lemma HeaderWords(h: Header)
    ensures var s := EncodeHeader(h);
            && WordAt(s, 0, h.sender) && s[4..8] == BE32(h.receiver) && s[8..12] == BE32(h.protRev)
            && s[12..16] == BE32(h.msgno) && WordAt(s, 16, h.payloadLen)
  {
    HeaderSlices(BE32(h.sender), BE32(h.receiver), BE32(h.protRev), BE32(h.msgno), BE32(h.payloadLen));
  }

  lemma HeaderBytes(header: seq<byte>, body: seq<byte>)
    requires |header| == 20 && |body| >= 4
    ensures var s := header + body;
            && (forall i :: 0 <= i < 20 ==> s[i] == header[i])
            && s[4..8] == header[4..8] && s[8..12] == header[8..12] && s[12..16] == header[12..16]
            && s[20..24] == body[..4] && s[24..] == body[4..]
            && (|body| >= 8 ==> s[24..28] == body[4..8] && s[28..] == body[8..])
  {
  }

  // ---- The server's view -------------------------------------------------------------------

  /**
   What one packet makes the server do: act on a frame, complain about an unknown msgno (of which only
   the header is consumed) or about missing payload, or read beyond its buffer, where the model stops.
   */
  datatype Event = Got(frame: Frame) | Unknown(msgno: u32) | Failed | Undefined

  function DecodeBody(h: Header, body: seq<byte>): Event
  {
    if h.msgno == DATA_FWD then
      if |body| < 8 || FromBE32(body[4..8]) > |body| - 8 then Undefined
      else Got(DataFwd(h.sender, body[8..8 + FromBE32(body[4..8])]))
    else
      if |body| < 4 || 0 !in body[4..] then Undefined
      else Got(LocateRequest(h.sender, body[4..][..IndexOf(body[4..], 0)]))
  }

  datatype Served = Served(events: seq<Event>, rest: seq<byte>, open: bool)

  /** What follows a header: handle_receive_data_fwd and handle_receive_locate_mbox. */
  function ServePayload(h: Header, rest: seq<byte>): (r: Served)
    ensures r.open ==> |r.rest| <= |rest|
    ensures !r.open ==> Undefined in r.events
  {
    if h.msgno != DATA_FWD && h.msgno != LOCATE_MBOX_REQUEST then Served([Unknown(h.msgno)], rest, true)
    else if h.payloadLen > MAX_INT then Served([Undefined], rest, false)
    else if h.payloadLen == 0 then Served([Failed], rest, true)
    else if |rest| < h.payloadLen then Served([Failed], [], true)
    else
      var event := DecodeBody(h, rest[..h.payloadLen]);
      Served([event], rest[h.payloadLen..], event != Undefined)
  }

  /** handle_receive_tcp_packet_at_server on a stream that ends when the peer closes. */
  function ServeOne(stream: seq<byte>): (r: Served)
    ensures r.open ==> |r.rest| < |stream|
    ensures !r.open ==> r.rest == [] || Undefined in r.events
  {
    if |stream| < HEADER then Served([], [], false)
    else ServePayload(DecodeHeader(stream[..HEADER]), stream[HEADER..])
  }

  /** All that the server does with a stream. */
  function Serve(stream: seq<byte>): seq<Event>
    decreases |stream|
  {
    var r := ServeOne(stream);
    if r.open then r.events + Serve(r.rest) else r.events
  }

  lemma {:induction false} FirstZero(name: seq<byte>, rest: seq<byte>)
    requires 0 !in name
    ensures IndexOf(name + [0] + rest, 0) == |name|
  {
    if name != [] {
      assert (name + [0] + rest)[1..] == name[1..] + [0] + rest;
      FirstZero(name[1..], rest);
    }
  }

  lemma DataRoundTrip(pid: u32, payload: seq<byte>)
    requires WellFormed(DataFwd(pid, payload))
    ensures DecodeBody(HeaderOf(DataFwd(pid, payload)), Body(DataFwd(pid, payload))) == Got(DataFwd(pid, payload))
  {
    var body := Body(DataFwd(pid, payload));
    assert body[4..8] == BE32(|payload|) && body[8..] == payload;
    Words(|payload|);
  }

  lemma NameRoundTrip(pid: u32, name: seq<byte>)
    requires WellFormed(LocateRequest(pid, name))
    ensures DecodeBody(HeaderOf(LocateRequest(pid, name)), Body(LocateRequest(pid, name))) == Got(LocateRequest(pid, name))
  {
    var text := name + [0];
    assert Body(LocateRequest(pid, name))[4..] == text;
    assert text[|name|] == 0 && text == name + [0] + [];
    FirstZero(name, []);
    assert text[..|name|] == name;
  }

  lemma BodyRoundTrip(f: Frame)
    requires WellFormed(f)
    ensures DecodeBody(HeaderOf(f), Body(f)) == Got(f)
  {
    match f
    case DataFwd(pid, payload) => DataRoundTrip(pid, payload);
    case LocateRequest(pid, name) => NameRoundTrip(pid, name);
  }

  /** Whatever follows a frame inside the announced body is ignored. */
  lemma TrailingIgnored(f: Frame, h: Header, junk: seq<byte>)
    requires WellFormed(f) && h.msgno == HeaderOf(f).msgno && h.sender == f.pid
    ensures DecodeBody(h, Body(f) + junk) == Got(f)
  {
    var body := Body(f) + junk;
    match f
    case DataFwd(_, payload) =>
      assert body[4..8] == BE32(|payload|) && body[8..8 + |payload|] == payload;
      Words(|payload|);
    case LocateRequest(_, name) =>
      var text := name + [0] + junk;
      assert body[4..] == text && text[|name|] == 0;
      FirstZero(name, junk);
      assert text[..|name|] == name;
  }

  /** A body is read beyond its end exactly if it is too short for its fields, or without a NUL. */
  lemma UndefinedIff(h: Header, body: seq<byte>)
    ensures h.msgno == 0x103 ==> (DecodeBody(h, body) == Undefined <==> |body| < 8 || 8 + FromBE32(body[4..8]) > |body|)
    ensures h.msgno == 0x104 ==> (DecodeBody(h, body) == Undefined <==> |body| < 4 || forall i :: 4 <= i < |body| ==> body[i] != 0)
  {
    if |body| >= 4 {
      assert forall i :: 4 <= i < |body| ==> body[i] == body[4..][i - 4];
    }
  }

  lemma ServeBody(f: Frame, tail: seq<byte>)
    requires WellFormed(f)
    ensures ServePayload(HeaderOf(f), Body(f) + tail) == Served([Got(f)], tail, true)
  {
    BodyRoundTrip(f);
    assert (Body(f) + tail)[..|Body(f)|] == Body(f);
    assert (Body(f) + tail)[|Body(f)|..] == tail;
  }

  lemma BehindHeader(header: seq<byte>, body: seq<byte>, tail: seq<byte>)
    requires |header| == HEADER
    ensures (header + body + tail)[..HEADER] == header && (header + body + tail)[HEADER..] == body + tail
  {
  }

  /** One frame at the head of any stream is recovered, and exactly its bytes are consumed. */
  lemma ServeFrame(f: Frame, tail: seq<byte>)
    requires WellFormed(f)
    ensures ServeOne(Encode(f) + tail) == Served([Got(f)], tail, true)
  {
    HeaderRoundTrip(HeaderOf(f));
    BehindHeader(EncodeHeader(HeaderOf(f)), Body(f), tail);
    ServeBody(f, tail);
  }

  /**
   What else can come first in a stream: less than a header closes the connection; of an unknown type
   only the header is consumed; an empty or incomplete body is reported, the latter ending the stream.
   */
  lemma ServeOthers(h: Header, rest: seq<byte>)
    ensures h.msgno != 0x103 && h.msgno != 0x104 ==> ServeOne(EncodeHeader(h) + rest) == Served([Unknown(h.msgno)], rest, true)
    ensures (h.msgno == 0x103 || h.msgno == 0x104) && h.payloadLen == 0 ==>
              ServeOne(EncodeHeader(h) + rest) == Served([Failed], rest, true)
    ensures (h.msgno == 0x103 || h.msgno == 0x104) && |rest| < h.payloadLen <= 0x7FFF_FFFF ==>
              ServeOne(EncodeHeader(h) + rest) == Served([Failed], [], true)
    ensures (h.msgno == 0x103 || h.msgno == 0x104) && h.payloadLen > 0x7FFF_FFFF ==>
              ServeOne(EncodeHeader(h) + rest) == Served([Undefined], rest, false)
    ensures |rest| < 20 ==> ServeOne(rest) == Served([], [], false)
  {
    HeaderRoundTrip(h);
    assert (EncodeHeader(h) + rest)[..HEADER] == EncodeHeader(h);
    assert (EncodeHeader(h) + rest)[HEADER..] == rest;
  }

  predicate AllWellFormed(frames: seq<Frame>)
  {
    forall i :: 0 <= i < |frames| ==> WellFormed(frames[i])
  }

  function EncodeAll(frames: seq<Frame>): seq<byte>
    requires AllWellFormed(frames)
  {
    if frames == [] then [] else Encode(frames[0]) + EncodeAll(frames[1..])
  }

  function AllGot(frames: seq<Frame>): (events: seq<Event>)
    ensures |events| == |frames| && forall i :: 0 <= i < |frames| ==> events[i] == Got(frames[i])
  {
    if frames == [] then [] else [Got(frames[0])] + AllGot(frames[1..])
  }

  lemma ServeFirst(f: Frame, tail: seq<byte>)
    requires WellFormed(f)
    ensures Serve(Encode(f) + tail) == [Got(f)] + Serve(tail)
  {
    ServeFrame(f, tail);
  }

  lemma EncodeAllStep(frames: seq<Frame>, tail: seq<byte>)
    requires AllWellFormed(frames) && frames != []
    ensures EncodeAll(frames) + tail == Encode(frames[0]) + (EncodeAll(frames[1..]) + tail)
  {
  }

  lemma Regroup(first: Event, more: seq<Event>, rest: seq<Event>)
    ensures [first] + (more + rest) == [first] + more + rest
  {
  }

  /** Any sequence of frames is recovered in order from its concatenated bytes, whatever follows them. */
  lemma {:induction false} ServeFrames(frames: seq<Frame>, tail: seq<byte>)
    requires AllWellFormed(frames)
    ensures Serve(EncodeAll(frames) + tail) == AllGot(frames) + Serve(tail)
    decreases |frames|
  {
    if frames == [] {
      assert [] + tail == tail;
    } else {
      var rest := EncodeAll(frames[1..]) + tail;
      EncodeAllStep(frames, tail);
      ServeFirst(frames[0], rest);
      ServeFrames(frames[1..], tail);
      Regroup(Got(frames[0]), AllGot(frames[1..]), Serve(tail));
    }
  }

  lemma ServeAll(frames: seq<Frame>)
    requires AllWellFormed(frames)
    ensures Serve(EncodeAll(frames)) == AllGot(frames)
  {
    ServeFrames(frames, []);
    assert EncodeAll(frames) + [] == EncodeAll(frames);
    assert AllGot(frames) + Serve([]) == AllGot(frames);
  }

  lemma AllGotInjective(a: seq<Frame>, b: seq<Frame>)
    requires AllGot(a) == AllGot(b)
    ensures a == b
  {
    assert |a| == |AllGot(a)| == |b|;
    forall i | 0 <= i < |a| ensures a[i] == b[i] {
      assert AllGot(a)[i] == AllGot(b)[i];
    }
  }

  /** No two different sequences of frames have the same bytes. */
  lemma FramesUnambiguous(a: seq<Frame>, b: seq<Frame>)
    requires AllWellFormed(a) && AllWellFormed(b) && EncodeAll(a) == EncodeAll(b)
    ensures a == b
  {
    ServeAll(a);
    ServeAll(b);
    AllGotInjective(a, b);
  }
}
