/**
 The gateway's loops and buffers: frames built in place, recv_data on a socket that hands out bytes in
 any fragmentation, and the server loop.
 */
module GatewaySocket {
  import opened Bytes
  import opened GatewayFrames

  function Flatten(chunks: seq<seq<byte>>): seq<byte>
  {
    if chunks == [] then [] else chunks[0] + Flatten(chunks[1..])
  }

  /** A connection whose peer sends some chunks and then closes. */
  class Socket {
    var pending: seq<seq<byte>>

    ghost predicate Valid()
      reads this
    {
      forall i :: 0 <= i < |pending| ==> pending[i] != []
    }

    ghost function Stream(): seq<byte>
      reads this
    {
      Flatten(pending)
    }

    constructor (chunks: seq<seq<byte>>)
      requires forall i :: 0 <= i < |chunks| ==> chunks[i] != []
      ensures Valid() && pending == chunks
    {
      pending := chunks;
    }

    /** recv: at most `n` bytes of the next chunk; none when the peer has closed or none are wanted. */
    method Recv(n: nat) returns (data: seq<byte>)
      requires Valid()
      modifies this
      ensures Valid() && |data| <= n && old(Stream()) == data + Stream()
      ensures data == [] <==> n == 0 || old(Stream()) == []
    {
      if n == 0 || pending == [] {
        return [];
      }
      var chunk := pending[0];
      if |chunk| <= n {
        data, pending := chunk, pending[1..];
      } else {
        data, pending := chunk[..n], [chunk[n..]] + pending[1..];
        assert chunk == chunk[..n] + chunk[n..];
        assert pending[1..] == old(pending)[1..];
      }
    }
  }

  /** recv_data: the whole buffer or nothing; a stream that ends early is used up. */
  method RecvData(socket: Socket, buffer: array<byte>) returns (size: nat)
    requires socket.Valid()
    modifies socket, buffer
    ensures socket.Valid()
    ensures var n, stream := buffer.Length, old(socket.Stream());
            if |stream| < n then size == 0 && socket.Stream() == []
            else size == n && buffer[..] == stream[..n] && socket.Stream() == stream[n..]
  {
    var readCount, toRead := 0, buffer.Length;
    while true
      invariant socket.Valid() && 0 <= readCount && 0 <= toRead && readCount + toRead == buffer.Length
      invariant toRead == 0 ==> readCount == 0
      invariant old(socket.Stream()) == buffer[..readCount] + socket.Stream()
      decreases toRead
    {
      var data := socket.Recv(toRead);
      if data == [] {
        return 0;
      }
      Copy(buffer, readCount, data);
      readCount, toRead := readCount + |data|, toRead - |data|;
      if toRead == 0 {
        break;
      }
    }
    return readCount;
  }

  /** Filling a buffer field by field: what is written so far grows by the next field. */
  method Append(buffer: array<byte>, at: nat, s: seq<byte>) returns (next: nat)
    requires at + |s| <= buffer.Length
    modifies buffer
    ensures next == at + |s| && buffer[..next] == old(buffer[..at]) + s
  {
    Copy(buffer, at, s);
    next := at + |s|;
  }

  method FillHeader(frame: array<byte>, pid: u32, receiver: u32, msgno: u32, payloadLen: u32)
    requires frame.Length >= HEADER
    modifies frame
    ensures frame[..HEADER] == EncodeHeader(Header(pid, receiver, PROTOCOL_REVISION, msgno, payloadLen))
  {
    var at := Append(frame, 0, BE32(pid));
    at := Append(frame, at, BE32(receiver));
    at := Append(frame, at, BE32(PROTOCOL_REVISION));
    at := Append(frame, at, BE32(msgno));
    at := Append(frame, at, BE32(payloadLen));
  }

  /** handle_fwd_data_out: the frame filled in field by field. */
  method BuildDataFwd(pid: u32, payload: seq<byte>) returns (frame: array<byte>)
    requires WellFormed(DataFwd(pid, payload))
    ensures fresh(frame) && frame[..] == Encode(DataFwd(pid, payload))
  {
    frame := new byte[HEADER + 8 + |payload|];
    FillHeader(frame, pid, 222, DATA_FWD, 8 + |payload|);
    ghost var header := frame[..HEADER];
    var at := Append(frame, HEADER, BE32(STATUS_OK));
    at := Append(frame, at, BE32(|payload|));
    at := Append(frame, at, payload);
    assert frame[..] == frame[..at] == header + (BE32(STATUS_OK) + BE32(|payload|) + payload);
  }

  /** handle_locate_mbox_request: the frame with the name and its NUL. */
  method BuildLocateRequest(pid: u32, name: seq<byte>) returns (frame: array<byte>)
    requires WellFormed(LocateRequest(pid, name))
    ensures fresh(frame) && frame[..] == Encode(LocateRequest(pid, name))
  {
    frame := new byte[HEADER + 4 + |name| + 1];
    FillHeader(frame, pid, 111, LOCATE_MBOX_REQUEST, 4 + |name| + 1);
    ghost var header := frame[..HEADER];
    var at := Append(frame, HEADER, BE32(STATUS_OK));
    at := Append(frame, at, name + [0]);
    assert frame[..] == frame[..at] == header + (BE32(STATUS_OK) + name + [0]);
  }

  /** handle_receive_tcp_packet_at_server with its two handlers up to the decoded frame. */
  method HandlePacket(socket: Socket) returns (events: seq<Event>, open: bool)
    requires socket.Valid()
    modifies socket
    ensures socket.Valid()
    ensures Served(events, socket.Stream(), open) == ServeOne(old(socket.Stream()))
  {
    var header := new byte[HEADER];
    var size := RecvData(socket, header);
    if size == 0 {
      return [], false;
    }
    var h := DecodeHeader(header[..]);
    if h.msgno != DATA_FWD && h.msgno != LOCATE_MBOX_REQUEST {
      return [Unknown(h.msgno)], true;
    }
    if h.payloadLen > MAX_INT {
      return [Undefined], false;
    }
    var body := new byte[h.payloadLen];
    size := RecvData(socket, body);
    if size == 0 {
      return [Failed], true;
    }
    events := [DecodeBody(h, body[..])];
    open := events[0] != Undefined;
  }

  lemma ServeStep(stream: seq<byte>, before: seq<Event>)
    ensures var r := ServeOne(stream);
            before + Serve(stream) == (before + r.events) + if r.open then Serve(r.rest) else []
  {
  }

  /** The server's repeated reads of one connection until it is closed; all of the stream is consumed. */
  method ServerLoop(socket: Socket) returns (events: seq<Event>)
    requires socket.Valid()
    modifies socket
    ensures events == Serve(old(socket.Stream()))
    ensures Undefined !in events ==> socket.Stream() == []
  {
    events := [];
    var open := true;
    while open
      invariant socket.Valid()
      invariant events + (if open then Serve(socket.Stream()) else []) == Serve(old(socket.Stream()))
      invariant !open && Undefined !in events ==> socket.Stream() == []
      decreases open, |socket.Stream()|
    {
      ServeStep(socket.Stream(), events);
      var more;
      more, open := HandlePacket(socket);
      events := events + more;
    }
  }

  /**
   For every sequence of frames and every fragmentation of their bytes, the server recovers exactly
   these frames and nothing else.
   */
  method ServeFragments(frames: seq<Frame>, chunks: seq<seq<byte>>) returns (events: seq<Event>)
    requires AllWellFormed(frames) && Flatten(chunks) == EncodeAll(frames)
    requires forall i :: 0 <= i < |chunks| ==> chunks[i] != []
    ensures events == AllGot(frames)
  {
    var socket := new Socket(chunks);
    events := ServerLoop(socket);
    ServeAll(frames);
  }
}
