/** Message framing of src/signaling/tcp_channel.cpp:295-369 over the header of
    src/signaling/wire_format.h:42-70: messages are sent with a length in front and put together
    again from whatever chunks the socket delivers. */
module TcpFraming {
  import opened Words

  const PROTOCOL_MAGIC: u32 := 0x4F4D_4E44
  const PROTOCOL_VERSION: u16 := 1
  const HEADER_SIZE: nat := 12

  datatype ControlHeader = ControlHeader(magic: u32, version: u16, kind: u16, length: u32)
  {
    predicate Valid() { magic == PROTOCOL_MAGIC && version == PROTOCOL_VERSION }
  }

  function Serialize(h: ControlHeader): (s: seq<u8>)
    ensures |s| == HEADER_SIZE
  {
    Be32(h.magic) + Be16(h.version) + Be16(h.kind) + Be32(h.length)
  }

  function Deserialize(s: seq<u8>): ControlHeader
    requires |s| >= HEADER_SIZE
  {
    ControlHeader(FromBe32(s[0], s[1], s[2], s[3]), FromBe16(s[4], s[5]), FromBe16(s[6], s[7]),
                  FromBe32(s[8], s[9], s[10], s[11]))
  }

  lemma HeaderRoundTrip(h: ControlHeader, rest: seq<u8>)
    ensures Deserialize(Serialize(h) + rest) == h
  {
    var s := Serialize(h) + rest;
    assert s[0..4] == Be32(h.magic) && s[4..6] == Be16(h.version) && s[6..8] == Be16(h.kind);
    assert s[8..12] == Be32(h.length);
    WordAt(s, 0, h.magic);
    HalfWordAt(s, 4, h.version);
    HalfWordAt(s, 6, h.kind);
    WordAt(s, 8, h.length);
  }

  datatype Message = Message(kind: u16, payload: seq<u8>)

  /** Messages whose length fits the field. */
  ghost predicate Sendable(m: Message) { |m.payload| < 0x1_0000_0000 }

  /** What send() puts on the wire: the length is cut to 32 bits, and only that much is sent. */
  function Framed(m: Message): seq<u8>
  {
    var length := ToU32(|m.payload|);
    Serialize(ControlHeader(PROTOCOL_MAGIC, PROTOCOL_VERSION, m.kind, length)) + m.payload[..length]
  }

  function Stream(ms: seq<Message>): seq<u8>
  {
    if ms == [] then [] else Framed(ms[0]) + Stream(ms[1..])
  }

  // ---- Receiving ----

  /** What one call of the socket's recv reports. */
  datatype Incoming = Data(bytes: seq<u8>) | NothingYet | Closed | Failed

  datatype Received = OK(m: Message) | WOULD_BLOCK | DISCONNECTED | SOCK_ERROR

  /** The bytes received and not yet returned, and the size of the buffer they are in. */
  datatype Channel = Channel(data: seq<u8>, size: nat)
  {
    ghost predicate Valid() { |data| <= size && size >= HEADER_SIZE }
  }

  /** The socket delivers at least one byte and no more than there is room for. */
  ghost predicate Possible(c: Channel, i: Incoming)
  {
    i.Data? ==> 0 < |i.bytes| <= c.size - |c.data|
  }

  /** Takes the first message out of the buffer, if it is all there. */
  function Extract(c: Channel): (Received, Channel)
  {
    if |c.data| < HEADER_SIZE then (WOULD_BLOCK, c)
    else
      var h := Deserialize(c.data);
      var total := HEADER_SIZE + h.length;
      if !h.Valid() then (SOCK_ERROR, c)
      else if |c.data| < total then (WOULD_BLOCK, c.(size := Max(c.size, total)))
      else (OK(Message(h.kind, c.data[HEADER_SIZE..total])), c.(data := c.data[total..]))
  }

  /** recv(): one read from the socket if there is room, then one message if there is one. */
  function Receive(c: Channel, i: Incoming): (Received, Channel)
  {
    if |c.data| < c.size then
      match i
      case Closed => (DISCONNECTED, c)
      case Failed => (SOCK_ERROR, c)
      case NothingYet => Extract(c)
      case Data(bytes) => Extract(c.(data := c.data + bytes))
    else Extract(c)
  }

  /** Twelve bytes, most significant first. */
  lemma HeaderOnTheWire()
    ensures Serialize(ControlHeader(0x0102_0304, 0x0506, 0x0708, 0x090A_0B0C))
         == [1, 2, 3, 4, 5, 6, 7, 8, 9, 10, 11, 12]
  {
  }

  lemma ValidStart(d: seq<u8>)
    requires |d| >= 12
    ensures Deserialize(d).Valid() <==> d[..6] == [0x4F, 0x4D, 0x4E, 0x44, 0, 1]
  {
    assert d[..6] == [d[0], d[1], d[2], d[3], d[4], d[5]];
  }

  /** Any message starts with the letters OMND and version 1, and holds its kind, its length and itself. */
  lemma MessageOnTheWire(m: Message, s: seq<u8>)
    requires Sendable(m) && s == Framed(m)
    ensures s[..6] == [0x4F, 0x4D, 0x4E, 0x44, 0, 1] && s[12..] == m.payload
    ensures FromBe16(s[6], s[7]) == m.kind && FromBe32(s[8], s[9], s[10], s[11]) == |m.payload|
  {
    var h := ControlHeader(PROTOCOL_MAGIC, PROTOCOL_VERSION, m.kind, |m.payload|);
    FramedIs(m, h);
    HeaderRoundTrip(h, m.payload);
    FieldsAre(s, h);
    ValidStart(s);
  }

  lemma FieldsAre(s: seq<u8>, h: ControlHeader)
    requires |s| >= 12 && Deserialize(s) == h
    ensures FromBe16(s[6], s[7]) == h.kind && FromBe32(s[8], s[9], s[10], s[11]) == h.length
  {
  }

  lemma FramedIs(m: Message, h: ControlHeader)
    requires Sendable(m) && h == ControlHeader(PROTOCOL_MAGIC, PROTOCOL_VERSION, m.kind, |m.payload|)
    ensures Framed(m) == Serialize(h) + m.payload && Framed(m)[12..] == m.payload
  {
    assert m.payload[..|m.payload|] == m.payload;
  }

  /** Twelve bytes that start with anything else are an error, and nothing is taken out. */
  lemma ForeignHeader(c: Channel)
    requires |c.data| >= 12
    ensures Extract(c) == (SOCK_ERROR, c) <==> c.data[..6] != [0x4F, 0x4D, 0x4E, 0x44, 0, 1]
  {
    ValidStart(c.data);
  }

  /** A failing socket is reported as such, and a closed one as closed, as long as there is room to read. */
  lemma SocketTroubles(c: Channel)
    requires |c.data| < c.size
    ensures Receive(c, Failed) == (SOCK_ERROR, c) && Receive(c, Closed) == (DISCONNECTED, c)
  {
  }

  lemma ReceiveKeepsValid(c: Channel, i: Incoming)
    requires c.Valid() && (|c.data| < c.size ==> Possible(c, i))
    ensures Receive(c, i).1.Valid()
  {
  }

  // ---- A connection ----

  /** The channel, the messages returned so far and how much of the stream has been read. */
  datatype Session = Session(chan: Channel, returned: seq<Message>, read: nat)

  ghost predicate AllSendable(ms: seq<Message>) { forall i :: 0 <= i < |ms| ==> Sendable(ms[i]) }

  /** TCP: a read delivers the next bytes of the stream, as many as it likes. */
  ghost predicate NextBytes(s: Session, i: Incoming, stream: seq<u8>)
  {
    i.Data? ==> s.read + |i.bytes| <= |stream| && i.bytes == stream[s.read..s.read + |i.bytes|]
  }

  function Next(s: Session, i: Incoming): Session
  {
    var (result, chan) := Receive(s.chan, i);
    Session(chan, s.returned + (if result.OK? then [result.m] else []),
            s.read + (if i.Data? && |s.chan.data| < s.chan.size then |i.bytes| else 0))
  }

  /** Returned, buffered and unread bytes make up the stream; the returned messages are the
      first ones sent. */
  ghost predicate InStep(s: Session, sent: seq<Message>)
  {
    && s.chan.Valid() && s.returned <= sent
    && s.read <= |Stream(sent)| && Stream(s.returned) + s.chan.data == Stream(sent)[..s.read]
  }

  lemma {:induction false} StreamSplit(a: seq<Message>, b: seq<Message>)
    ensures Stream(a + b) == Stream(a) + Stream(b)
  {
    if a == [] {
      assert a + b == b;
    } else {
      StreamSplit(a[1..], b);
      assert (a + b)[1..] == a[1..] + b;
      Regroup(Framed(a[0]), Stream(a[1..]), Stream(b));
    }
  }

  /** The bytes not yet returned are those of the messages not yet returned. */
  lemma Remaining(s: Session, sent: seq<Message>)
    requires InStep(s, sent)
    ensures s.chan.data <= Stream(sent[|s.returned|..])
  {
    var rest := sent[|s.returned|..];
    assert sent == s.returned + rest;
    StreamSplit(s.returned, rest);
    var a := |Stream(s.returned)|;
    assert s.chan.data == Stream(sent)[..s.read][a..];
    assert Stream(rest) == Stream(sent)[a..];
  }

  lemma FramedStart(m: Message, rest: seq<u8>)
    requires Sendable(m)
    ensures |Framed(m)| == HEADER_SIZE + |m.payload|
    ensures Deserialize(Framed(m) + rest) == ControlHeader(PROTOCOL_MAGIC, PROTOCOL_VERSION, m.kind, |m.payload|)
    ensures (Framed(m) + rest)[HEADER_SIZE..HEADER_SIZE + |m.payload|] == m.payload
    ensures (Framed(m) + rest)[HEADER_SIZE + |m.payload|..] == rest
  {
    var h := ControlHeader(PROTOCOL_MAGIC, PROTOCOL_VERSION, m.kind, |m.payload|);
    assert ToU32(|m.payload|) == |m.payload| && m.payload[..|m.payload|] == m.payload;
    HeaderRoundTrip(h, m.payload + rest);
    assert Framed(m) + rest == Serialize(h) + (m.payload + rest);
  }

  lemma SameHeader(a: seq<u8>, b: seq<u8>)
    requires a <= b && |a| >= HEADER_SIZE
    ensures Deserialize(a) == Deserialize(b)
  {
  }

  lemma WholeMessage(data: seq<u8>, m: Message, rest: seq<u8>)
    requires data <= Framed(m) + rest && |data| >= |Framed(m)| == HEADER_SIZE + |m.payload|
    requires (Framed(m) + rest)[HEADER_SIZE..HEADER_SIZE + |m.payload|] == m.payload
    ensures data[HEADER_SIZE..|Framed(m)|] == m.payload
    ensures data == Framed(m) + data[|Framed(m)|..]
  {
    assert data[HEADER_SIZE..|Framed(m)|] == (Framed(m) + rest)[HEADER_SIZE..|Framed(m)|];
    assert data[..|Framed(m)|] == Framed(m);
  }

  /** From a prefix of the stream of ms, Extract takes the first message when it is all there. */
  lemma ExtractTakesFirst(c: Channel, ms: seq<Message>)
    requires c.Valid() && AllSendable(ms) && c.data <= Stream(ms)
    ensures var (result, c1) := Extract(c);
      if ms != [] && |c.data| >= |Framed(ms[0])|
      then result == OK(ms[0]) && c.data == Framed(ms[0]) + c1.data
      else result == WOULD_BLOCK && c1.data == c.data
  {
    if ms != [] {
      var m, rest := ms[0], Stream(ms[1..]);
      FramedStart(m, rest);
      if |c.data| >= HEADER_SIZE {
        SameHeader(c.data, Framed(m) + rest);
        if |c.data| >= |Framed(m)| {
          WholeMessage(c.data, m, rest);
        }
      }
    }
  }

  /** The session once the socket has delivered and before a message is taken out. */
  function AfterRead(s: Session, i: Incoming): Session
  {
    if i.Data? && |s.chan.data| < s.chan.size
    then Session(s.chan.(data := s.chan.data + i.bytes), s.returned, s.read + |i.bytes|)
    else s
  }

  lemma ReadInStep(s: Session, i: Incoming, sent: seq<Message>)
    requires InStep(s, sent) && NextBytes(s, i, Stream(sent)) && (|s.chan.data| < s.chan.size ==> Possible(s.chan, i))
    ensures InStep(AfterRead(s, i), sent)
  {
    if i.Data? && |s.chan.data| < s.chan.size {
      Regroup(Stream(s.returned), s.chan.data, i.bytes);
      assert Stream(sent)[..s.read] + i.bytes == Stream(sent)[..s.read + |i.bytes|];
    }
  }

  lemma TakenInStep(s: Session, sent: seq<Message>, c1: Channel)
    requires InStep(s, sent) && |s.returned| < |sent| && c1.Valid()
    requires s.chan.data == Framed(sent[|s.returned|]) + c1.data
    ensures InStep(Session(c1, s.returned + [sent[|s.returned|]], s.read), sent)
  {
    var m := sent[|s.returned|];
    StreamSplit(s.returned, [m]);
    assert [m][1..] == [];
    assert Stream([m]) == Framed(m) + [];
    assert Framed(m) + [] == Framed(m);
    Regroup(Stream(s.returned), Framed(m), c1.data);
  }

  predicate GivesUp(s: Session, i: Incoming) { |s.chan.data| < s.chan.size && (i.Closed? || i.Failed?) }

  lemma CallUnfold(s: Session, i: Incoming)
    ensures GivesUp(s, i) ==> Next(s, i) == s && Receive(s.chan, i).0 == if i.Closed? then DISCONNECTED else SOCK_ERROR
    ensures !GivesUp(s, i) ==> Receive(s.chan, i) == Extract(AfterRead(s, i).chan)
    ensures !GivesUp(s, i) ==>
      var (result, c1) := Extract(AfterRead(s, i).chan);
      Next(s, i) == Session(c1, s.returned + (if result.OK? then [result.m] else []), AfterRead(s, i).read)
  {
    assert s.returned + [] == s.returned;
  }

  lemma ExtractInStep(r: Session, sent: seq<Message>)
    requires AllSendable(sent) && InStep(r, sent) && Extract(r.chan).1.Valid()
    ensures var (result, c1) := Extract(r.chan);
      && !result.SOCK_ERROR? && (result.OK? ==> |r.returned| < |sent| && result.m == sent[|r.returned|])
      && InStep(Session(c1, r.returned + (if result.OK? then [result.m] else []), r.read), sent)
  {
    Remaining(r, sent);
    ExtractTakesFirst(r.chan, sent[|r.returned|..]);
    var (result, c1) := Extract(r.chan);
    if result.OK? {
      TakenInStep(r, sent, c1);
    } else {
      assert r.returned + [] == r.returned;
    }
  }

  /** One call of recv, whatever the socket does: the session stays in step, only the next
      message can be returned, and nothing but the socket itself can cause an error. */
  lemma CallInStep(s: Session, i: Incoming, sent: seq<Message>)
    requires AllSendable(sent) && InStep(s, sent)
    requires NextBytes(s, i, Stream(sent)) && (|s.chan.data| < s.chan.size ==> Possible(s.chan, i))
    ensures InStep(Next(s, i), sent)
    ensures Receive(s.chan, i).0.OK? ==> |s.returned| < |sent| && Receive(s.chan, i).0.m == sent[|s.returned|]
    ensures Receive(s.chan, i).0.SOCK_ERROR? ==> i.Failed?
  {
    ReadInStep(s, i, sent);
    ReceiveKeepsValid(s.chan, i);
    CallUnfold(s, i);
    if !GivesUp(s, i) {
      ExtractInStep(AfterRead(s, i), sent);
    }
  }

  ghost predicate IsRun(start: Session, calls: seq<Incoming>, sessions: seq<Session>, stream: seq<u8>)
  {
    && |sessions| == |calls| + 1 && sessions[0] == start
    && forall k :: 0 <= k < |calls| ==> Follows(sessions[k], calls[k], sessions[k + 1], stream)
  }

  ghost predicate Follows(s: Session, i: Incoming, s': Session, stream: seq<u8>)
  {
    NextBytes(s, i, stream) && (|s.chan.data| < s.chan.size ==> Possible(s.chan, i)) && s' == Next(s, i)
  }

  function Opened(): Session { Session(Channel([], 0x1_0000), [], 0) }

  /** Main result: however the stream is cut into reads, at every point of a run the returned
      messages are the first ones sent, and no byte is lost or invented. */
  lemma {:induction false} RunInStep(sent: seq<Message>, calls: seq<Incoming>, sessions: seq<Session>, k: nat)
    requires AllSendable(sent) && IsRun(Opened(), calls, sessions, Stream(sent)) && k <= |calls|
    ensures InStep(sessions[k], sent)
  {
    if k > 0 {
      RunInStep(sent, calls, sessions, k - 1);
      assert Follows(sessions[k - 1], calls[k - 1], sessions[k], Stream(sent));
      CallInStep(sessions[k - 1], calls[k - 1], sent);
    }
  }

  /** Whoever cuts the stream differently returns the same messages in the same order. */
  lemma ChunkingDoesNotMatter(sent: seq<Message>, calls1: seq<Incoming>, run1: seq<Session>, k1: nat,
                              calls2: seq<Incoming>, run2: seq<Session>, k2: nat)
    requires AllSendable(sent) && k1 <= |calls1| && k2 <= |calls2|
    requires IsRun(Opened(), calls1, run1, Stream(sent)) && IsRun(Opened(), calls2, run2, Stream(sent))
    requires |run1[k1].returned| <= |run2[k2].returned|
    ensures run1[k1].returned <= run2[k2].returned
  {
    RunInStep(sent, calls1, run1, k1);
    RunInStep(sent, calls2, run2, k2);
  }

  lemma BufferedWhole(s: Session, sent: seq<Message>)
    requires InStep(s, sent) && s.read == |Stream(sent)| && |s.returned| < |sent|
    ensures |s.chan.data| >= |Framed(sent[|s.returned|])|
  {
    var rest := sent[|s.returned|..];
    assert sent == s.returned + rest;
    StreamSplit(s.returned, rest);
    assert Stream(sent)[..s.read] == Stream(sent);
    assert rest[0] == sent[|s.returned|];
  }

  /** Once everything has been read, every further call returns the next message until all are out. */
  lemma DrainStep(s: Session, sent: seq<Message>)
    requires AllSendable(sent) && InStep(s, sent) && s.read == |Stream(sent)| && |s.returned| < |sent|
    ensures Receive(s.chan, NothingYet).0 == OK(sent[|s.returned|])
    ensures Next(s, NothingYet).returned == sent[..|s.returned| + 1] && Next(s, NothingYet).read == s.read
  {
    BufferedWhole(s, sent);
    Remaining(s, sent);
    ExtractTakesFirst(s.chan, sent[|s.returned|..]);
  }

  function Calls(s: Session, n: nat): Session
    decreases n
  {
    if n == 0 then s else Calls(Next(s, NothingYet), n - 1)
  }

  lemma {:induction false} AllDelivered(s: Session, sent: seq<Message>)
    requires AllSendable(sent) && InStep(s, sent) && s.read == |Stream(sent)|
    ensures Calls(s, |sent| - |s.returned|).returned == sent
    decreases |sent| - |s.returned|
  {
    if |s.returned| < |sent| {
      DrainStep(s, sent);
      CallInStep(s, NothingYet, sent);
      AllDelivered(Next(s, NothingYet), sent);
    }
  }

  /** recv asks the socket first: when the peer has closed, whole messages that are already
      buffered are not returned, unless the buffer happens to be full. */
  lemma CloseHidesMessages(c: Channel)
    requires c.Valid() && Extract(c).0.OK?
    ensures Receive(c, Closed) == (DISCONNECTED, c) <==> |c.data| < c.size
  {
  }

  /** It happens: two messages arrive in one read, the first is returned, the peer closes, and the
      second, whole in the buffer, is never returned. */
  lemma CloseLosesMessage(a: Message, b: Message) returns (s1: Session)
    requires Sendable(a) && Sendable(b) && |Stream([a, b])| <= 0x1_0000
    ensures NextBytes(Opened(), Data(Stream([a, b])), Stream([a, b]))
    ensures Possible(Opened().chan, Data(Stream([a, b]))) && s1 == Next(Opened(), Data(Stream([a, b])))
    ensures s1.returned == [a] && Extract(s1.chan).0 == OK(b)
    ensures Receive(s1.chan, Closed) == (DISCONNECTED, s1.chan) && Next(s1, Closed) == s1
  {
    var sent := [a, b];
    var stream := Stream(sent);
    FramedStart(a, Stream([b]));
    assert sent[1..] == [b] && stream[0..|stream|] == stream;
    s1 := Next(Opened(), Data(stream));
    CallInStep(Opened(), Data(stream), sent);
    CallUnfold(Opened(), Data(stream));
    assert [] + stream == stream;
    ExtractTakesFirst(Channel(stream, 0x1_0000), sent);
    assert [] + [a] == [a];
    DrainStep(s1, sent);
    assert s1.chan.data == Stream([b]);
    CloseHidesMessages(s1.chan);
  }

  // ---- Progress ----

  /** The call gets bytes if there are any left and there is room for them. */
  ghost predicate Diligent(s: Session, i: Incoming, stream: seq<u8>)
  {
    if s.read < |stream| then i.Data? else i.NothingYet?
  }

  /** What is still to be done: bytes to read and messages to return. */
  ghost function ToDo(s: Session, sent: seq<Message>): int
  {
    (|Stream(sent)| - s.read) + (|sent| - |s.returned|)
  }

  /** Every such call reads a byte or returns a message, and leaves room behind. */
  lemma CallProgress(s: Session, i: Incoming, sent: seq<Message>)
    requires AllSendable(sent) && InStep(s, sent) && Diligent(s, i, Stream(sent)) && |s.chan.data| < s.chan.size
    requires NextBytes(s, i, Stream(sent)) && Possible(s.chan, i) && ToDo(s, sent) > 0
    ensures InStep(Next(s, i), sent) && ToDo(Next(s, i), sent) < ToDo(s, sent)
    ensures |Next(s, i).chan.data| < Next(s, i).chan.size
  {
    CallInStep(s, i, sent);
    CallUnfold(s, i);
    ExtractLeavesRoom(AfterRead(s, i).chan);
    if s.read == |Stream(sent)| {
      DrainStep(s, sent);
    }
  }

  lemma ExtractLeavesRoom(c: Channel)
    requires c.Valid() && !Extract(c).0.SOCK_ERROR?
    ensures |Extract(c).1.data| < Extract(c).1.size
  {
  }

  ghost predicate DiligentRun(calls: seq<Incoming>, sessions: seq<Session>, sent: seq<Message>)
    requires |sessions| == |calls| + 1
  {
    forall k :: 0 <= k < |calls| ==> ToDo(sessions[k], sent) > 0 ==> Diligent(sessions[k], calls[k], Stream(sent))
  }

  lemma {:induction false} ToDoShrinks(sent: seq<Message>, calls: seq<Incoming>, sessions: seq<Session>, k: nat)
    requires AllSendable(sent) && IsRun(Opened(), calls, sessions, Stream(sent)) && k <= |calls|
    requires DiligentRun(calls, sessions, sent) && forall j :: 0 <= j < k ==> ToDo(sessions[j], sent) > 0
    ensures InStep(sessions[k], sent) && |sessions[k].chan.data| < sessions[k].chan.size
    ensures ToDo(sessions[k], sent) <= |Stream(sent)| + |sent| - k
  {
    if k > 0 {
      ToDoShrinks(sent, calls, sessions, k - 1);
      assert Follows(sessions[k - 1], calls[k - 1], sessions[k], Stream(sent));
      CallProgress(sessions[k - 1], calls[k - 1], sent);
    }
  }

  /** Every message arrives, however long and however the stream is cut: a run in which recv gets
      at least one byte whenever there are bytes left has returned everything, in order, after no
      more calls than there are bytes and messages. */
  lemma EverythingArrives(sent: seq<Message>, calls: seq<Incoming>, sessions: seq<Session>)
    requires AllSendable(sent) && IsRun(Opened(), calls, sessions, Stream(sent)) && DiligentRun(calls, sessions, sent)
    requires |calls| >= |Stream(sent)| + |sent|
    ensures exists k :: 0 <= k <= |calls| && sessions[k].returned == sent
  {
    var k := FirstIdle(sent, sessions, |calls|);
    ToDoShrinks(sent, calls, sessions, k);
    assert sessions[k].returned == sent;
  }

  /** The first session with nothing to do, or the last one. */
  lemma FirstIdle(sent: seq<Message>, sessions: seq<Session>, n: nat) returns (k: nat)
    requires n < |sessions|
    ensures k <= n && (ToDo(sessions[k], sent) <= 0 || k == n)
    ensures forall j :: 0 <= j < k ==> ToDo(sessions[j], sent) > 0
  {
    k := 0;
    while k < n && ToDo(sessions[k], sent) > 0
      invariant k <= n && forall j :: 0 <= j < k ==> ToDo(sessions[j], sent) > 0
    {
      k := k + 1;
    }
  }

  class TcpChannel {
    var recvBuf: array<u8>
    var recvPos: nat

    ghost predicate Valid()
      reads this
    {
      recvPos <= recvBuf.Length && recvBuf.Length >= HEADER_SIZE
    }

    ghost function Value(): Channel
      reads this, recvBuf
      requires Valid()
    {
      Channel(recvBuf[..recvPos], recvBuf.Length)
    }

    constructor ()
      ensures Valid() && fresh(recvBuf) && Value() == Channel([], 0x1_0000)
    {
      recvBuf, recvPos := new u8[0x1_0000](_ => 0), 0;
    }

    /** The header and the payload, handed to the socket in full. */
    method Send(m: Message) returns (sent: seq<u8>)
      ensures sent == Framed(m)
    {
      var length := ToU32(|m.payload|);
      sent := Serialize(ControlHeader(PROTOCOL_MAGIC, PROTOCOL_VERSION, m.kind, length));
      if length > 0 {
        sent := sent + m.payload[..length];
      }
    }

    /** recvRaw: the socket writes behind what is there. */
    method Append(bytes: seq<u8>)
      requires Valid() && |bytes| <= recvBuf.Length - recvPos
      modifies this`recvPos, recvBuf
      ensures Valid() && Value() == old(Value()).(data := old(Value()).data + bytes)
    {
      ghost var before := recvBuf[..recvPos];
      for i := 0 to |bytes|
        invariant Valid() && recvPos == old(recvPos)
        invariant recvBuf[..recvPos + i] == before + bytes[..i]
      {
        recvBuf[recvPos + i] := bytes[i];
      }
      recvPos := recvPos + |bytes|;
    }

    method Grow(total: nat)
      requires Valid() && total > recvBuf.Length
      modifies this`recvBuf
      ensures Valid() && fresh(recvBuf) && Value() == old(Value()).(size := total)
    {
      var was := recvBuf[..];
      recvBuf := new u8[total](i => if 0 <= i < |was| then was[i] else 0);
    }

    /** Moves the bytes behind the message to the front. */
    method Shift(total: nat)
      requires Valid() && total <= recvPos
      modifies this`recvPos, recvBuf
      ensures Valid() && Value() == old(Value()).(data := old(Value()).data[total..])
    {
      var remaining := recvPos - total;
      ghost var before := recvBuf[..recvPos];
      for i := 0 to remaining
        invariant recvPos == old(recvPos)
        invariant forall k :: 0 <= k < i ==> recvBuf[k] == before[total + k]
        invariant forall k :: i <= k < recvPos ==> recvBuf[k] == before[k]
      {
        recvBuf[i] := recvBuf[total + i];
      }
      recvPos := remaining;
      assert recvBuf[..recvPos] == before[total..];
    }

    method TakeMessage() returns (result: Received)
      requires Valid()
      modifies this, recvBuf
      ensures Valid() && (recvBuf == old(recvBuf) || fresh(recvBuf))
      ensures (result, Value()) == Extract(old(Value()))
    {
      if recvPos < HEADER_SIZE {
        return WOULD_BLOCK;
      }
      var hdr := Deserialize(recvBuf[..recvPos]);
      if !hdr.Valid() {
        return SOCK_ERROR;
      }
      var totalSize := HEADER_SIZE + hdr.length;
      if recvPos < totalSize {
        if recvBuf.Length < totalSize {
          Grow(totalSize);
        }
        return WOULD_BLOCK;
      }
      assert recvBuf[HEADER_SIZE..totalSize] == recvBuf[..recvPos][HEADER_SIZE..totalSize];
      result := OK(Message(hdr.kind, recvBuf[HEADER_SIZE..totalSize]));
      Shift(totalSize);
    }

    method Recv(incoming: Incoming) returns (result: Received)
      requires Valid() && (recvPos < recvBuf.Length ==> Possible(Value(), incoming))
      modifies this, recvBuf
      ensures Valid() && (recvBuf == old(recvBuf) || fresh(recvBuf))
      ensures (result, Value()) == Receive(old(Value()), incoming)
    {
      if recvPos < recvBuf.Length {
        if incoming.Closed? {
          return DISCONNECTED;
        }
        if incoming.Failed? {
          return SOCK_ERROR;
        }
        if incoming.Data? {
          Append(incoming.bytes);
        }
      }
      result := TakeMessage();
    }
  }
}
