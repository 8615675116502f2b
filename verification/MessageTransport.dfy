/**
 common/MessageTransport over a byte stream: `incoming` is every byte the peer will ever deliver
 before it closes its end. How recv splits it, and when other threads run close(), are left to
 the environment (`Recv`, `OtherThreads`), so each contract holds for every such schedule.
 */
module MessageTransportModel {
  import opened Codec
  import opened Messages
  import opened BinarySerializerModel
  import opened BinaryDeserializerModel

  // How a blocking call ends. `Stuck`: poll waits on a closed socket whose cancellation was
  // already consumed, so it never returns.
  datatype End = Done | PeerClosed | Cancelled | SocketError | Stuck

  // close() shuts the socket down and then gives its descriptor up (-1).
  datatype Socket = Open | ShutDown | Gone

  /** What close() and poll share: the socket, the unread bytes in the cancellation pipe, and
      whether some poll has already taken one (history). */
  datatype Link = Link(socket: Socket, signals: nat, consumed: bool)

  const PIPE_READ: nat := 64

  function Rank(s: Socket): nat {
    match s
    case Open => 0
    case ShutDown => 1
    case Gone => 2
  }

  /** close() writes its byte before it touches the socket. */
  predicate GoodLink(l: Link) {
    l.socket.Open? || l.signals > 0 || l.consumed
  }

  function Notified(l: Link): Link {
    l.(signals := l.signals + 1)
  }

  /** What any number of steps of close() calls in other threads can make of `l`. */
  predicate Reaches(l: Link, l': Link) {
    && GoodLink(l')
    && l'.consumed == l.consumed && l'.signals >= l.signals && Rank(l'.socket) >= Rank(l.socket)
  }

  /** poll as it finds the pipe and the socket: a pending cancellation wins over data. */
  function PollEnd(l: Link): End {
    if l.signals > 0 then Cancelled
    else if l.socket.Gone? then Stuck
    else Done
  }

  function AfterPoll(l: Link): Link {
    if l.signals > 0 then
      l.(signals := if l.signals > PIPE_READ then l.signals - PIPE_READ else 0, consumed := true)
    else l
  }

  ghost predicate CanStick(l: Link) {
    exists l' :: Reaches(l, l') && PollEnd(l').Stuck?
  }

  /** The exact condition under which some timing of close() calls leaves the next poll waiting for
      ever: an earlier poll has taken the cancellation and no byte of another close() is left. */
  lemma StuckExactly(l: Link)
    requires GoodLink(l)
    ensures CanStick(l) <==> l.consumed && l.signals == 0
  {
    if l.consumed && l.signals == 0 {
      assert Reaches(l, l.(socket := Gone));
    }
  }

  /** The failing input: close() on a fresh transport, a poll, which is cancelled, another poll. Only
      one more close() can end it. */
  lemma SecondPollSticks(l: Link)
    ensures var closed := Notified(Link(Open, 0, false)).(socket := Gone);
            && PollEnd(closed).Cancelled? && PollEnd(AfterPoll(closed)).Stuck?
            && (Reaches(AfterPoll(closed), l) ==> PollEnd(l).Stuck? || l.signals > 0)
  {
  }

  /** A notification given between two polls is seen by the next, whatever else happens, and a first
      poll never sticks. */
  lemma NotificationIsSeen(l: Link, l': Link)
    requires GoodLink(l)
    ensures Reaches(Notified(l), l') ==> PollEnd(l').Cancelled?
    ensures !l.consumed && Reaches(l, l') ==> !PollEnd(l').Stuck?
  {
  }

  class MessageTransport {
    var incoming: seq<byte>
    var outgoing: seq<byte>
    var socket: Socket
    var signals: nat
    var consumed: bool           // history

    function State(): Link
      reads this
    {
      Link(socket, signals, consumed)
    }

    /** Some close() has begun. */
    predicate Closing()
      reads this
    {
      signals > 0 || consumed
    }

    predicate Valid()
      reads this
    {
      GoodLink(State())
    }

    constructor (stream: seq<byte>)
      ensures Valid() && incoming == stream && outgoing == [] && State() == Link(Open, 0, false)
    {
      incoming, outgoing, socket, signals, consumed := stream, [], Open, 0, false;
    }

    /** close(): first the cancellation byte, then the socket. */
    method Close()
      requires Valid()
      modifies this
      ensures Valid() && State() == Notified(old(State())).(socket := Gone)
      ensures incoming == old(incoming) && outgoing == old(outgoing)
    {
      signals := signals + 1;
      socket := ShutDown;
      socket := Gone;
    }

    method OtherThreads()
      requires Valid()
      modifies this`socket, this`signals
      ensures Valid() && Reaches(old(State()), State())
    {
      var n: nat :| n >= 0;
      signals := signals + n;
      if Closing() {
        var later: Socket :| Rank(later) >= Rank(socket);
        socket := later;
      }
    }

    /** TcpSocket::poll; `at` is the moment it returns, or waits for ever. */
    method Poll() returns (end: End, ghost at: Link)
      requires Valid()
      modifies this`socket, this`signals, this`consumed
      ensures Valid() && Reaches(old(State()), at)
      ensures end == PollEnd(at) && Reaches(AfterPoll(at), State())
      ensures !end.Done? ==> State() == AfterPoll(at)
      ensures old(signals) > 0 ==> end.Cancelled?
      ensures !old(consumed) ==> !end.Stuck?
      ensures !end.Done? ==> Closing()
      ensures old(Closing()) ==> Closing()
      ensures consumed == (old(consumed) || end.Cancelled?)
    {
      OtherThreads();
      at := State();
      if signals > 0 {
        signals := if signals > PIPE_READ then signals - PIPE_READ else 0;
        consumed := true;
        return Cancelled, at;
      }
      if socket.Gone? {
        return Stuck, at;
      }
      OtherThreads();
      return Done, at;
    }

    /** TcpSocket::recv into `buffer` from position `at`: between 1 and `size` bytes, 0 at the end
        of the stream or once the socket is shut down, an error when its descriptor is gone or the
        connection broke. */
    method Recv(buffer: array<byte>, at: nat, size: nat) returns (end: End, n: nat)
      requires Valid() && 0 < size && at + size <= buffer.Length
      modifies this`incoming, buffer
      ensures Valid()
      ensures end.Done? || end.SocketError?
      ensures socket.Gone? ==> end.SocketError?
      ensures end.SocketError? ==> incoming == old(incoming) && buffer[..] == old(buffer[..])
      ensures end.Done? ==> n <= size && n <= |old(incoming)| && incoming == old(incoming)[n..]
      ensures end.Done? && socket.Open? ==> (n == 0 <==> old(incoming) == [])
      ensures end.Done? ==> buffer[..] == old(buffer[..at]) + old(incoming)[..n] + old(buffer[at + n..])
    {
      var broken: bool := *;
      if socket.Gone? || broken {
        return SocketError, 0;
      }
      n := 0;
      if incoming != [] {
        n :| (if socket.Open? then 1 else 0) <= n <= size && n <= |incoming|;
      }
      forall k | 0 <= k < n {
        buffer[at + k] := incoming[k];
      }
      incoming := incoming[n..];
      return Done, n;
    }

    /** _read_exactly: the running total never overshoots, and nothing but a full buffer is Done. */
    method ReadExactly(buffer: array<byte>) returns (end: End)
      requires Valid()
      modifies this, buffer
      ensures Valid() && outgoing == old(outgoing) && (old(Closing()) ==> Closing())
      ensures end.Done? <==> |incoming| + buffer.Length == |old(incoming)|
      ensures end.Done? ==> old(incoming) == buffer[..] + incoming
      ensures !end.Done? ==> exists k :: 0 <= k <= |old(incoming)| && k < buffer.Length && incoming == old(incoming)[k..]
      ensures end.PeerClosed? && !Closing() ==> incoming == [] && |old(incoming)| < buffer.Length
      ensures !Closing() ==> end.Done? || end.PeerClosed? || end.SocketError?
      ensures !old(consumed) ==> !end.Stuck?
      ensures !end.Cancelled? ==> consumed == old(consumed)
      ensures old(signals) > 0 && buffer.Length > 0 ==> end.Cancelled? && incoming == old(incoming)
      ensures buffer.Length == 0 ==> end.Done? && signals == old(signals)
    {
      ghost var stream := incoming;
      var total := 0;
      while total < buffer.Length
        invariant 0 <= total <= buffer.Length && total <= |stream|
        invariant Valid() && outgoing == old(outgoing) && (old(Closing()) ==> Closing())
        invariant consumed == old(consumed)
        invariant stream[..total] == buffer[..total] && incoming == stream[total..]
        invariant old(signals) > 0 && total == 0 ==> signals > 0
        invariant old(signals) > 0 ==> total == 0
        invariant total == 0 && buffer.Length == 0 ==> signals == old(signals)
      {
        var polled, _ := Poll();
        if !polled.Done? {
          return polled;
        }
        var got, n := Recv(buffer, total, buffer.Length - total);
        if !got.Done? {
          return got;
        }
        if n == 0 {
          return PeerClosed;
        }
        assert stream[..total + n] == stream[..total] + stream[total..][..n];
        total := total + n;
      }
      return Done;
    }

    /** read(): a 9-byte header, then exactly the announced payload. */
    method Read() returns (end: End, m: Message)
      requires Valid()
      modifies this
      ensures Valid() && outgoing == old(outgoing) && (old(Closing()) ==> Closing())
      ensures end.Done? ==> old(incoming) == Frame(m) + incoming
      ensures end.PeerClosed? && !Closing() ==> NextFrame(old(incoming)).None? && incoming == []
      ensures !Closing() ==> end.Done? || end.PeerClosed? || end.SocketError?
      ensures !old(consumed) ==> !end.Stuck?
      ensures !end.Cancelled? ==> consumed == old(consumed)
      ensures old(signals) > 0 ==> end.Cancelled? && incoming == old(incoming)
    {
      ghost var stream := incoming;
      m := Message(0, 0, []);
      var header := new byte[HEADER];
      end := ReadExactly(header);
      if !end.Done? {
        if |stream| < HEADER {
          ShortIsIncomplete(stream);
        }
        return;
      }
      var id, typ, size := DecodeHeader(header[..]);
      BehindHeader(stream, id, typ, size, incoming);
      var body := new byte[size];
      end := ReadExactly(body);
      if end.Done? {
        m := DecodeBody(id, typ, size, body[..]);
        Assoc(Header(id, typ, size), m.data, incoming);
      }
    }

    /** write(): one frame, handed to the socket in one piece while the write lock is held. */
    method Write(m: Message)
      requires Valid()
      modifies this
      ensures Valid() && incoming == old(incoming) && State() == old(State())
      ensures outgoing == old(outgoing) + Frame(m)
    {
      var serializer := new BinarySerializer();
      serializer.SerializeUint32(m.id);
      serializer.SerializeUint8(m.typ);
      serializer.SerializeBytes(m.data);
      FrameIsHeaderAndBody(m);
      EncodeThree(U32(m.id), U8(m.typ), Blob(m.data));
      var bytes := serializer.Data();
      assert [] + EncodeField(U32(m.id)) == EncodeField(U32(m.id));
      outgoing := outgoing + bytes;
    }
  }

  method DecodeHeader(header: seq<byte>) returns (id: uint32, typ: byte, size: uint32)
    requires |header| == HEADER
    ensures Header(id, typ, size) == header
  {
    var d := new BinaryDeserializer(header);
    HeaderDecodes(header);
    var a := d.DeserializeUint32();
    var b := d.DeserializeUint8();
    var c := d.DeserializeUint32();
    DecodeThree(KU32, KU8, KU32, header, 0);
    return a.value, b.value, c.value;
  }

  method DecodeBody(id: uint32, typ: byte, size: uint32, body: seq<byte>) returns (m: Message)
    requires |body| == size
    ensures m == Message(id, typ, body) && Frame(m) == Header(id, typ, size) + body
  {
    var d := new BinaryDeserializer(body);
    var data := d.TakeBytes(size);
    assert body[0..size] == body;
    m := Message(id, typ, data.value);
    FrameIsHeaderAndBody(m);
  }

  /** Once the header is off the stream, a complete frame was there exactly when the payload is. */
  lemma BehindHeader(stream: seq<byte>, id: uint32, typ: byte, size: uint32, rest: seq<byte>)
    requires stream == Header(id, typ, size) + rest
    ensures |rest| < size ==> NextFrame(stream).None?
  {
    HeaderShape(id, typ, size);
    assert stream[..HEADER] == Header(id, typ, size);
    CompleteExactly(stream, id, typ, size);
  }

  /** The reader loop of Worker::_read_messages: read and hand on until read() throws. */
  method ReadMessages(t: MessageTransport) returns (delivered: seq<Message>, end: End)
    requires t.Valid()
    modifies t
    ensures t.Valid() && !end.Done?
    ensures delivered <= Parse(old(t.incoming)).messages
    ensures !t.Closing() ==> end.SocketError? || (end.PeerClosed? && delivered == Parse(old(t.incoming)).messages)
    ensures !old(t.consumed) ==> !end.Stuck?
    ensures old(t.signals) > 0 ==> end.Cancelled? && delivered == []
  {
    ghost var stream := t.incoming;
    delivered, end := [], Done;
    while end.Done?
      invariant t.Valid()
      invariant end.Done? ==> stream == FrameAll(delivered) + t.incoming
      invariant delivered <= Parse(stream).messages
      invariant !end.Done? && !t.Closing() ==> end.SocketError? || (end.PeerClosed? && delivered == Parse(stream).messages)
      invariant end.Done? ==> t.consumed == old(t.consumed)
      invariant !old(t.consumed) ==> !end.Stuck?
      invariant old(t.signals) > 0 ==> delivered == [] && (end.Cancelled? || (end.Done? && t.signals > 0))
      decreases end.Done?, |t.incoming|
    {
      ghost var before := t.incoming;
      var m: Message;
      end, m := t.Read();
      ParseFrames(delivered, before);
      if end.Done? {
        FrameIsHeaderAndBody(m);
        FrameAllSnoc(delivered, m);
        Assoc(FrameAll(delivered), Frame(m), t.incoming);
        delivered := delivered + [m];
        ParseFrames(delivered, t.incoming);
      }
    }
  }
}
