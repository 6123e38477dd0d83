/**
 The post offices of any number of machines joined by an in-order network that
 may lose packets.  Messages travel as bytes: a mail header and the data, inside
 a packet header and a frame padded to a fixed size.

 The semaphores are taken at their word here: V adds one, and P returns only by
 taking one.  A mailbox is a queue, as a `SynchList` is.
 */
module PostOffices {
  import opened Words

  const MaxWireSize: int := 64
  const HeaderSize: int := 12
  const MaxPacketSize: int := MaxWireSize - HeaderSize
  const MaxMailSize: int := MaxPacketSize - HeaderSize

  type Bytes = seq<byte>

  // ---- formats ----

  /** `PacketHeader` names machines and `MailHeader` mailboxes; they have the same layout. */
  datatype Header = Header(to: int32, from: int32, length: uint32)

  datatype Mail = Mail(pkt: Header, hdr: Header, data: Bytes)

  /** A packet as the network device buffers it: the header split off, the padding gone. */
  datatype Packet = Packet(pkt: Header, payload: Bytes)

  function EncodeHeader(h: Header): (bs: Bytes)
    ensures |bs| == HeaderSize
  {
    EncodeWords([ToWord(h.to), ToWord(h.from), h.length])
  }

  function DecodeHeader(bs: Bytes): Header
    requires |bs| >= HeaderSize
  {
    var ws := DecodeWords(bs, 3);
    Header(FromWord(ws[0]), FromWord(ws[1]), ws[2])
  }

  /** The header in front of other bytes is read back as it was written. */
  lemma HeaderRoundTrip(h: Header, rest: Bytes)
    ensures DecodeHeader(EncodeHeader(h) + rest) == h
  {
    var ws := [ToWord(h.to), ToWord(h.from), h.length];
    DecodeEncode(ws);
    assert DecodeWords(EncodeHeader(h) + rest, 3) == DecodeWords(EncodeWords(ws), 3);
  }

  /** What `PostOffice::Send` hands to the network: the mail header in front of the data. */
  function Payload(hdr: Header, data: Bytes): Bytes {
    EncodeHeader(hdr) + data
  }

  /** What `Network::Send` puts on the wire; the padding is whatever the buffer held. */
  function Frame(p: Packet, pad: Bytes): Bytes {
    EncodeHeader(p.pkt) + p.payload + pad
  }

  /** `CheckPktAvail` divides a frame into header and data. */
  function Unframe(w: Bytes): Packet
    requires |w| == MaxWireSize && DecodeHeader(w).length <= MaxPacketSize
  {
    Packet(DecodeHeader(w), w[HeaderSize..HeaderSize + DecodeHeader(w).length])
  }

  /** A packet that holds one whole message for one of the boxes of machine `a`. */
  predicate GoodPacket(p: Packet, a: int, numBoxes: int) {
    && p.pkt.to == a && HeaderSize <= |p.payload| == p.pkt.length <= MaxPacketSize
    && var hdr := DecodeHeader(p.payload); hdr.length == p.pkt.length - HeaderSize && 0 <= hdr.to < numBoxes
  }

  /** `PostalDelivery` and `MailBox::Put` rebuild the message. */
  function Unpack(p: Packet): Mail
    requires HeaderSize <= |p.payload|
  {
    var hdr := DecodeHeader(p.payload);
    Mail(p.pkt, hdr, p.payload[HeaderSize..][..if hdr.length <= |p.payload| - HeaderSize then hdr.length else 0])
  }

  predicate GoodFrame(w: Bytes, a: int, numBoxes: int) {
    && |w| == MaxWireSize && DecodeHeader(w).length <= MaxPacketSize
    && GoodPacket(Unframe(w), a, numBoxes)
  }

  function MailIn(w: Bytes): Mail
    requires |w| == MaxWireSize && HeaderSize <= DecodeHeader(w).length <= MaxPacketSize
  {
    Unpack(Unframe(w))
  }

  /** A message survives the two headers and the padding byte for byte. */
  lemma MailRoundTrip(from: int32, to: int32, hdr: Header, data: Bytes, pad: Bytes, numBoxes: int)
    requires |data| == hdr.length <= MaxMailSize && 0 <= hdr.to < numBoxes && |pad| == MaxMailSize - |data|
    ensures var pkt := Header(to, from, hdr.length + HeaderSize);
            var w := Frame(Packet(pkt, Payload(hdr, data)), pad);
            GoodFrame(w, to, numBoxes) && MailIn(w) == Mail(pkt, hdr, data)
  {
    var pkt := Header(to, from, hdr.length + HeaderSize);
    UnframeFrame(Packet(pkt, Payload(hdr, data)), pad);
    UnpackPayload(pkt, hdr, data);
    hide Frame, Unframe, Payload, Unpack, DecodeHeader;
  }

  lemma UnframeFrame(p: Packet, pad: Bytes)
    requires |p.payload| == p.pkt.length <= MaxPacketSize && |pad| == MaxPacketSize - |p.payload|
    ensures var w := Frame(p, pad);
            && |w| == MaxWireSize && DecodeHeader(w).length <= MaxPacketSize && Unframe(w) == p
            && DecodeHeader(w) == p.pkt
  {
    var w := Frame(p, pad);
    assert w == EncodeHeader(p.pkt) + (p.payload + pad);
    HeaderRoundTrip(p.pkt, p.payload + pad);
    hide DecodeHeader, EncodeHeader;
    assert w[HeaderSize..HeaderSize + p.pkt.length] == p.payload;
  }

  lemma UnpackPayload(pkt: Header, hdr: Header, data: Bytes)
    requires |data| == hdr.length <= MaxMailSize
    ensures var payload := Payload(hdr, data);
            && |payload| == HeaderSize + |data| && DecodeHeader(payload) == hdr
            && Unpack(Packet(pkt, payload)) == Mail(pkt, hdr, data)
  {
    HeaderRoundTrip(hdr, data);
    hide DecodeHeader, EncodeHeader;
    assert Payload(hdr, data)[HeaderSize..][..hdr.length] == data;
  }

  // ---- machines ----

  /** The postal worker waits for a token, has one, or has a message in its buffer. */
  datatype Worker = AtP | HasToken | Holding(p: Packet)

  /** The lock for sending is free, or its holder has yet to send, is in P, or has come out of it. */
  datatype Sender = NoSender | HasLock | InP | OutOfP

  datatype Machine = Machine(
    wire: seq<Bytes>,             // frames in the machine's socket
    inbox: Packet,                // `inHdr` and `inbox`; empty when the header's length is zero
    available: nat,               // messageAvailable
    worker: Worker,
    boxes: map<int, seq<Mail>>,
    got: map<int, seq<Mail>>,     // what Receive has returned from each box so far
    sender: Sender,               // who holds sendLock, and where it is
    pending: nat,                 // send interrupts scheduled
    messageSent: nat)
  {
    function Box(b: int): seq<Mail> { if b in boxes then boxes[b] else [] }
    function Got(b: int): seq<Mail> { if b in got then got[b] else [] }
    predicate Full() { inbox.pkt.length != 0 }
  }

  const Booted: Machine :=
    Machine([], Packet(Header(0, 0, 0), []), 0, AtP, map[], map[], NoSender, 0, 0)

  datatype Net = Net(machines: map<int, Machine>, numBoxes: int) {
    function At(a: int): Machine { if a in machines then machines[a] else Booted }
  }

  datatype Event =
    | SendLocks(a: int32)           // a sender acquires the lock
    | Send(a: int32, to: int32, hdr: Header, data: Bytes, pad: Bytes, lost: bool)  // Network::Send, then P
    | SendDone(a: int32)            // the send interrupt
    | SendWakes(a: int32)           // the sender's P returns
    | SendReturns(a: int32)         // the lock is released
    | Poll(a: int32)                // CheckPktAvail
    | TakeToken(a: int32)           // the worker's P returns
    | Fetch(a: int32)               // Network::Receive
    | Deliver(a: int32)             // MailBox::Put
    | Receive(a: int32, b: int)

  predicate Enabled(s: Net, e: Event) {
    match e
    case SendLocks(a) => s.At(a).sender == NoSender
    case Send(a, _, hdr, data, pad, _) =>
      && s.At(a).sender == HasLock && |data| == hdr.length <= MaxMailSize && 0 <= hdr.to < s.numBoxes
      && |pad| == MaxMailSize - |data|
    case SendDone(a) => s.At(a).pending > 0
    case SendWakes(a) => s.At(a).sender == InP && s.At(a).messageSent > 0
    case SendReturns(a) => s.At(a).sender == OutOfP
    case Poll(a) => true
    case TakeToken(a) => s.At(a).worker == AtP && s.At(a).available > 0
    case Fetch(a) => s.At(a).worker == HasToken
    case Deliver(a) => s.At(a).worker.Holding?
    case Receive(a, b) => s.At(a).Box(b) != []
  }

  function Put(s: Net, a: int, m: Machine): Net {
    s.(machines := s.machines[a := m])
  }

  function OutMail(e: Event): Mail
    requires e.Send? && e.hdr.length <= MaxMailSize
  {
    Mail(Header(e.to, e.a, e.hdr.length + HeaderSize), e.hdr, e.data)
  }

  function OutFrame(e: Event): Bytes
    requires e.Send? && e.hdr.length <= MaxMailSize
  {
    Frame(Packet(OutMail(e).pkt, Payload(e.hdr, e.data)), e.pad)
  }

  /** The socket of the destination, unless the packet is lost. */
  function OnWire(s: Net, e: Event): Net
    requires e.Send? && e.hdr.length <= MaxMailSize
  {
    if e.lost then s else Put(s, e.to, s.At(e.to).(wire := s.At(e.to).wire + [OutFrame(e)]))
  }

  function Apply(s: Net, e: Event): Net
    requires Enabled(s, e)
  {
    match e
    case SendLocks(a) => Put(s, a, s.At(a).(sender := HasLock))
    case Send(a, _, _, _, _, _) =>
      var s' := OnWire(s, e);
      Put(s', a, s'.At(a).(sender := InP, pending := s'.At(a).pending + 1))
    case SendDone(a) => Put(s, a, s.At(a).(pending := s.At(a).pending - 1, messageSent := s.At(a).messageSent + 1))
    case SendWakes(a) => Put(s, a, s.At(a).(messageSent := s.At(a).messageSent - 1, sender := OutOfP))
    case SendReturns(a) => Put(s, a, s.At(a).(sender := NoSender))
    case Poll(a) => Put(s, a, Polled(s.At(a)))
    case TakeToken(a) => Put(s, a, s.At(a).(worker := HasToken, available := s.At(a).available - 1))
    case Fetch(a) => Put(s, a, Fetched(s.At(a)))
    case Deliver(a) => Put(s, a, Delivered(s.At(a)))
    case Receive(a, b) => Put(s, a, Received(s.At(a), b))
  }

  function Polled(m: Machine): Machine {
    if m.Full() || m.wire == [] then m
    else if |m.wire[0]| == MaxWireSize && DecodeHeader(m.wire[0]).length <= MaxPacketSize then
      m.(wire := m.wire[1..], inbox := Unframe(m.wire[0]), available := m.available + 1)
    else m   // the device's assertion on the frame fails
  }

  function Fetched(m: Machine): Machine {
    m.(worker := Holding(m.inbox), inbox := m.inbox.(pkt := m.inbox.pkt.(length := 0)))
  }

  function Delivered(m: Machine): Machine
    requires m.worker.Holding?
  {
    if HeaderSize <= |m.worker.p.payload| then
      var mail := Unpack(m.worker.p);
      m.(worker := AtP, boxes := m.boxes[mail.hdr.to as int := m.Box(mail.hdr.to) + [mail]])
    else m   // the worker's assertion on the message fails
  }

  function Received(m: Machine, b: int): Machine
    requires m.Box(b) != []
  {
    m.(boxes := m.boxes[b := m.Box(b)[1..]], got := m.got[b := m.Got(b) + [m.Box(b)[0]]])
  }

  // ---- the invariant ----

  /**
   Only whole messages for this machine are on their way; a message-available
   token, pending or held, exists exactly when the inbox holds a packet; and a
   send interrupt or its token is outstanding exactly while a sender waits for it.
   */
  ghost predicate MachineOk(s: Net, a: int) {
    var m := s.At(a);
    && (forall i :: 0 <= i < |m.wire| ==> GoodFrame(m.wire[i], a, s.numBoxes))
    && (m.Full() ==> GoodPacket(m.inbox, a, s.numBoxes))
    && (m.worker.Holding? ==> GoodPacket(m.worker.p, a, s.numBoxes))
    && m.available + (if m.worker == HasToken then 1 else 0) == (if m.Full() then 1 else 0)
    && m.pending + m.messageSent == (if m.sender == InP then 1 else 0)
  }

  function One(m: Mail, b: int): seq<Mail> {
    if m.hdr.to == b then [m] else []
  }

  /** The messages for box `b` in a sequence of frames. */
  function ForBox(ws: seq<Bytes>, b: int): seq<Mail> {
    if ws == [] then []
    else if |ws[0]| == MaxWireSize && HeaderSize <= DecodeHeader(ws[0]).length <= MaxPacketSize then
      One(MailIn(ws[0]), b) + ForBox(ws[1..], b)
    else ForBox(ws[1..], b)
  }

  function Buffered(p: Packet, b: int): seq<Mail> {
    if HeaderSize <= |p.payload| then One(Unpack(p), b) else []
  }

  /** The messages for box `b` in the worker's hands and in the device's inbox. */
  function Carried(m: Machine, b: int): seq<Mail> {
    (if m.worker.Holding? then Buffered(m.worker.p, b) else []) + (if m.Full() then Buffered(m.inbox, b) else [])
  }

  /** Everything that has reached box `b` or is still on its way to it, oldest first. */
  function Pipeline(m: Machine, b: int): seq<Mail> {
    (m.Got(b) + m.Box(b)) + (Carried(m, b) + ForBox(m.wire, b))
  }

  lemma Assoc(x: seq<Mail>, y: seq<Mail>, z: seq<Mail>)
    ensures (x + y) + z == x + (y + z)
  {
  }

  /** `x` can be had from `y` by leaving messages out. */
  ghost predicate Sub(x: seq<Mail>, y: seq<Mail>) {
    || x == []
    || (y != [] && (Sub(x, y[..|y| - 1]) || (x[|x| - 1] == y[|y| - 1] && Sub(x[..|x| - 1], y[..|y| - 1]))))
  }

  ghost predicate NetInv(s: Net) {
    forall a :: MachineOk(s, a)
  }

  /** What an event hands to the network for box `b` of machine `a`, as mail from the machine that sends it. */
  function Posted(e: Event, a: int, b: int): seq<Mail> {
    if e.Send? && e.to == a && e.hdr.to == b && e.hdr.length <= MaxMailSize
    then [Mail(Header(e.to, e.a, e.hdr.length + 12), e.hdr, e.data)]
    else []
  }

  /** What of it the network does not lose. */
  function Arriving(e: Event, a: int, b: int): seq<Mail> {
    if e.Send? && e.lost then [] else Posted(e, a, b)
  }

  /** The invariant holds, and everything for each box is still there, with what has just been sent to it last. */
  ghost predicate Moves(s: Net, e: Event, s': Net) {
    NetInv(s') && forall a, b :: Pipeline(s'.At(a), b) == Pipeline(s.At(a), b) + Arriving(e, a, b)
  }

  lemma SubSnoc(x: seq<Mail>, y: seq<Mail>, m: Mail)
    requires Sub(x, y)
    ensures Sub(x, y + [m]) && Sub(x + [m], y + [m])
  {
    assert (y + [m])[..|y|] == y && (x + [m])[..|x|] == x;
  }

  lemma {:induction false} SubPrefix(x: seq<Mail>, z: seq<Mail>, y: seq<Mail>)
    requires Sub(x + z, y)
    ensures Sub(x, y)
    decreases |y| + |z|
  {
    if x != [] && z != [] {
      var w := x + z;
      if Sub(w, y[..|y| - 1]) {
        SubPrefix(x, z, y[..|y| - 1]);
      } else {
        assert w[..|w| - 1] == x + z[..|z| - 1];
        SubPrefix(x, z[..|z| - 1], y[..|y| - 1]);
      }
    } else {
      assert z == [] ==> x + z == x;
    }
  }

  lemma {:induction false} ForBoxSnoc(ws: seq<Bytes>, w: Bytes, b: int)
    requires |w| == MaxWireSize && HeaderSize <= DecodeHeader(w).length <= MaxPacketSize
    ensures ForBox(ws + [w], b) == ForBox(ws, b) + One(MailIn(w), b)
  {
    hide MailIn, DecodeHeader, One;
    var all := ws + [w];
    if ws == [] {
      assert all[0] == w && all[1..] == [] && ForBox([], b) == [];
    } else {
      ForBoxSnoc(ws[1..], w, b);
      assert all[0] == ws[0] && all[1..] == ws[1..] + [w];
    }
  }

  // ---- every step keeps it ----

  lemma PolledPipeline(m: Machine, a: int, b: int, n: int)
    requires !m.Full() && m.wire != [] && GoodFrame(m.wire[0], a, n)
    ensures Pipeline(Polled(m), b) == Pipeline(m, b)
  {
    var w, m' := m.wire[0], Polled(m);
    var one, rest := Buffered(Unframe(w), b), ForBox(m.wire[1..], b);
    assert ForBox(m.wire, b) == one + rest;
    assert m'.Full() && m'.wire == m.wire[1..] && m'.inbox == Unframe(w);
    hide ForBox, Buffered, DecodeHeader, Polled;
    assert Carried(m', b) == Carried(m, b) + one;
    Assoc(Carried(m, b), one, rest);
  }

  lemma PolledOk(s: Net, a: int32)
    requires MachineOk(s, a)
    ensures MachineOk(Put(s, a, Polled(s.At(a))), a)
    ensures forall b :: Pipeline(Polled(s.At(a)), b) == Pipeline(s.At(a), b)
  {
    var m := s.At(a);
    if !m.Full() && m.wire != [] {
      var w := m.wire[0];
      assert GoodFrame(w, a, s.numBoxes);
      forall b ensures Pipeline(Polled(m), b) == Pipeline(m, b) {
        PolledPipeline(m, a, b, s.numBoxes);
      }
      hide Pipeline, ForBox, DecodeHeader;
    }
  }

  lemma FetchedOk(s: Net, a: int32)
    requires MachineOk(s, a) && s.At(a).worker == HasToken
    ensures MachineOk(Put(s, a, Fetched(s.At(a))), a) && s.At(a).Full()
    ensures forall b :: Pipeline(Fetched(s.At(a)), b) == Pipeline(s.At(a), b)
  {
    var m := s.At(a);
    hide GoodFrame, ForBox, DecodeHeader, Unpack;
    forall b ensures Pipeline(Fetched(m), b) == Pipeline(m, b) {
      assert Carried(Fetched(m), b) == Carried(m, b);
    }
    hide Pipeline;
  }

  lemma DeliveredOk(s: Net, a: int32)
    requires MachineOk(s, a) && s.At(a).worker.Holding?
    ensures MachineOk(Put(s, a, Delivered(s.At(a))), a)
    ensures forall b :: Pipeline(Delivered(s.At(a)), b) == Pipeline(s.At(a), b)
  {
    var m, m' := s.At(a), Delivered(s.At(a));
    forall b ensures Pipeline(m', b) == Pipeline(m, b) {
      DeliveredPipeline(m, b);
    }
    hide DecodeHeader, Pipeline, GoodFrame;
  }

  lemma DeliveredPipeline(m: Machine, b: int)
    requires m.worker.Holding? && HeaderSize <= |m.worker.p.payload|
    ensures Pipeline(Delivered(m), b) == Pipeline(m, b)
  {
    var m', one := Delivered(m), Buffered(m.worker.p, b);
    assert m'.Got(b) + m'.Box(b) == (m.Got(b) + m.Box(b)) + one;
    assert Carried(m, b) == one + Carried(m', b);
    assert m'.wire == m.wire;
    hide Delivered, Carried, ForBox;
    Assoc(m.Got(b) + m.Box(b), one, Carried(m', b) + ForBox(m.wire, b));
    Assoc(one, Carried(m', b), ForBox(m.wire, b));
  }

  lemma ReceivedOk(s: Net, a: int32, c: int)
    requires MachineOk(s, a) && s.At(a).Box(c) != []
    ensures MachineOk(Put(s, a, Received(s.At(a), c)), a)
    ensures forall b :: Pipeline(Received(s.At(a), c), b) == Pipeline(s.At(a), b)
  {
    var m, m' := s.At(a), Received(s.At(a), c);
    forall b ensures Pipeline(m', b) == Pipeline(m, b) {
      ReceivedPipeline(m, c, b);
    }
    hide Pipeline, GoodFrame, GoodPacket;
  }

  lemma ReceivedPipeline(m: Machine, c: int, b: int)
    requires m.Box(c) != []
    ensures Pipeline(Received(m, c), b) == Pipeline(m, b)
  {
    var m' := Received(m, c);
    if b == c {
      Assoc(m.Got(c), [m.Box(c)[0]], m.Box(c)[1..]);
      assert [m.Box(c)[0]] + m.Box(c)[1..] == m.Box(c);
      assert m'.Got(c) + m'.Box(c) == m.Got(c) + m.Box(c);
    } else {
      assert m'.Got(b) == m.Got(b) && m'.Box(b) == m.Box(b);
    }
    assert Carried(m', b) == Carried(m, b) && m'.wire == m.wire;
    hide Carried, ForBox, Received;
  }

  /** A step of one machine that only moves messages along. */
  lemma LocalStep(s: Net, e: Event, a: int32, m: Machine)
    requires NetInv(s) && MachineOk(Put(s, a, m), a) && !e.Send?
    requires forall b :: Pipeline(m, b) == Pipeline(s.At(a), b)
    ensures Moves(s, e, Put(s, a, m))
  {
    var s' := Put(s, a, m);
    hide GoodFrame, GoodPacket, Pipeline;
    forall c ensures MachineOk(s', c) {
      assert MachineOk(s, c);
      assert c != a ==> s'.At(c) == s.At(c);
    }
    hide MachineOk, NetInv;
    forall c, b ensures Pipeline(s'.At(c), b) == Pipeline(s.At(c), b) + Arriving(e, c, b) {
      assert Arriving(e, c, b) == [];
    }
  }

  lemma SentMachine(s: Net, e: Event, c: int)
    requires MachineOk(s, c) && e.Send? && Enabled(s, e)
    ensures MachineOk(OnWire(s, e), c)
  {
    SentFrame(s, e);
    hide GoodFrame, GoodPacket, OutFrame, OutMail, DecodeHeader;
    var s' := OnWire(s, e);
    assert s'.numBoxes == s.numBoxes;
    if c == e.to && !e.lost {
      assert s'.At(c) == s.At(c).(wire := s.At(c).wire + [OutFrame(e)]);
      hide OnWire, Enabled;
      LongerWire(s, s', c, OutFrame(e));
    } else {
      assert s'.At(c) == s.At(c);
      hide OnWire, Enabled;
    }
  }

  lemma LongerWire(s: Net, s': Net, c: int, w: Bytes)
    requires MachineOk(s, c) && s'.numBoxes == s.numBoxes && s'.At(c) == s.At(c).(wire := s.At(c).wire + [w])
    requires GoodFrame(w, c, s.numBoxes)
    ensures MachineOk(s', c)
  {
    hide GoodFrame, GoodPacket;
  }

  lemma SentFrame(s: Net, e: Event)
    requires e.Send? && Enabled(s, e)
    ensures GoodFrame(OutFrame(e), e.to, s.numBoxes) && MailIn(OutFrame(e)) == OutMail(e)
  {
    MailRoundTrip(e.a, e.to, e.hdr, e.data, e.pad, s.numBoxes);
  }

  lemma SnocPipeline(m: Machine, w: Bytes, b: int)
    requires |w| == MaxWireSize && HeaderSize <= DecodeHeader(w).length <= MaxPacketSize
    ensures Pipeline(m.(wire := m.wire + [w]), b) == Pipeline(m, b) + One(MailIn(w), b)
  {
    var arrived, carried, wire, one := m.Got(b) + m.Box(b), Carried(m, b), ForBox(m.wire, b), One(MailIn(w), b);
    ForBoxSnoc(m.wire, w, b);
    hide ForBox, DecodeHeader;
    assert Carried(m.(wire := m.wire + [w]), b) == carried;
    hide Carried;
    Assoc(carried, wire, one);
    Assoc(arrived, carried + wire, one);
  }

  lemma SentPipeline(s: Net, e: Event, m: Machine, b: int)
    requires e.Send? && Enabled(s, e)
    ensures Pipeline(m.(wire := m.wire + [OutFrame(e)]), b) == Pipeline(m, b) + One(OutMail(e), b)
    ensures One(OutMail(e), b) == [] ==> Pipeline(m, b) + One(OutMail(e), b) == Pipeline(m, b)
  {
    SentFrame(s, e);
    SnocPipeline(m, OutFrame(e), b);
  }

  lemma SentBox(s: Net, e: Event, c: int, b: int)
    requires e.Send? && Enabled(s, e)
    ensures Pipeline(OnWire(s, e).At(c), b) == Pipeline(s.At(c), b) + Arriving(e, c, b)
  {
    var m, w, mail := s.At(c), OutFrame(e), OutMail(e);
    MailTo(e, c, b);
    hide GoodFrame, Unpack, DecodeHeader, OutFrame, OutMail, Pipeline, One;
    SentPipeline(s, e, m, b);
    assert OnWire(s, e).At(c) == if c == e.to && !e.lost then m.(wire := m.wire + [w]) else m;
    hide OnWire, Enabled, Posted;
    assert !(c == e.to && !e.lost) ==> Arriving(e, c, b) == [];
  }

  lemma MailTo(e: Event, c: int, b: int)
    requires e.Send? && e.hdr.length <= MaxMailSize
    ensures Posted(e, c, b) == if c == e.to then One(OutMail(e), b) else []
  {
  }

  lemma SentOk(s: Net, e: Event)
    requires NetInv(s) && e.Send? && Enabled(s, e)
    ensures Moves(s, e, OnWire(s, e))
  {
    forall c ensures MachineOk(OnWire(s, e), c) {
      assert MachineOk(s, c);
      SentMachine(s, e, c);
    }
    hide MachineOk;
    forall c, b ensures Pipeline(OnWire(s, e).At(c), b) == Pipeline(s.At(c), b) + Arriving(e, c, b) {
      SentBox(s, e, c, b);
    }
  }

  /** Steps that touch only the semaphores and the lock. */
  lemma TokenStep(s: Net, e: Event, a: int32, m: Machine)
    requires NetInv(s) && MachineOk(Put(s, a, m), a) && !e.Send?
    requires m.wire == s.At(a).wire && m.inbox == s.At(a).inbox && m.boxes == s.At(a).boxes && m.got == s.At(a).got
    requires (!m.worker.Holding? && !s.At(a).worker.Holding?) || m.worker == s.At(a).worker
    ensures Moves(s, e, Put(s, a, m))
  {
    LocalStep(s, e, a, m);
  }

  lemma SendOk(s: Net, e: Event)
    requires NetInv(s) && e.Send? && Enabled(s, e)
    ensures Moves(s, e, Apply(s, e))
  {
    SentOk(s, e);
    var s', a := OnWire(s, e), e.a;
    assert s'.At(a).sender == HasLock;
    assert Apply(s, e) == Put(s', a, s'.At(a).(sender := InP, pending := s'.At(a).pending + 1));
    hide OnWire, Enabled, Apply, Moves;
    SenderWaits(s, e, s', a);
  }

  /** The sender, its message handed over, goes to wait for the interrupt. */
  lemma SenderWaits(s: Net, e: Event, s': Net, a: int32)
    requires Moves(s, e, s') && s'.At(a).sender == HasLock
    ensures Moves(s, e, Put(s', a, s'.At(a).(sender := InP, pending := s'.At(a).pending + 1)))
  {
    var s'' := Put(s', a, s'.At(a).(sender := InP, pending := s'.At(a).pending + 1));
    assert NetInv(s') && MachineOk(s', a);
    hide NetInv, GoodFrame, GoodPacket, Pipeline, Arriving, Moves;
    LockedOk(s', a);
    TokenStep(s', Poll(a), a, s''.At(a));
    NothingArrives(s, e, s', s'', Poll(a));
  }

  /** A send followed by a step that posts nothing. */
  lemma NothingArrives(s: Net, e: Event, s': Net, s'': Net, f: Event)
    requires Moves(s, e, s') && Moves(s', f, s'') && !f.Send?
    ensures Moves(s, e, s'')
  {
    hide NetInv, Pipeline, Posted;
    forall a, b ensures Pipeline(s''.At(a), b) == Pipeline(s.At(a), b) + Arriving(e, a, b) {
      assert Pipeline(s'.At(a), b) == Pipeline(s.At(a), b) + Arriving(e, a, b);
      assert Pipeline(s''.At(a), b) == Pipeline(s'.At(a), b) + Arriving(f, a, b);
      assert Arriving(f, a, b) == [] by { NotPosted(f, a, b); }
    }
  }

  lemma NotPosted(e: Event, a: int, b: int)
    requires !e.Send?
    ensures Arriving(e, a, b) == Posted(e, a, b) == []
  {
  }

  lemma LockedOk(s: Net, a: int32)
    requires MachineOk(s, a) && s.At(a).sender == HasLock
    ensures MachineOk(Put(s, a, s.At(a).(sender := InP, pending := s.At(a).pending + 1)), a)
  {
  }

  /** Every step keeps the invariant and loses, adds, changes and reorders nothing that the network carries. */
  lemma StepNetInv(s: Net, e: Event)
    requires NetInv(s) && Enabled(s, e)
    ensures Moves(s, e, Apply(s, e))
  {
    assert MachineOk(s, e.a);
    hide NetInv, MachineOk, Pipeline, Moves;
    match e
    case Send(a, to, _, _, _, _) => SendOk(s, e);
    case Poll(a) =>
      PolledOk(s, a);
      LocalStep(s, e, a, Polled(s.At(a)));
    case Fetch(a) =>
      FetchedOk(s, a);
      LocalStep(s, e, a, Fetched(s.At(a)));
    case Deliver(a) =>
      DeliveredOk(s, a);
      LocalStep(s, e, a, Delivered(s.At(a)));
    case Receive(a, b) =>
      ReceivedOk(s, a, b);
      LocalStep(s, e, a, Received(s.At(a), b));
    case _ => TokensOk(s, e);
  }

  /** The steps that only wait, wake or lock. */
  lemma TokensOk(s: Net, e: Event)
    requires NetInv(s) && Enabled(s, e)
    requires e.SendLocks? || e.SendDone? || e.SendWakes? || e.SendReturns? || e.TakeToken?
    ensures Moves(s, e, Apply(s, e))
  {
    assert MachineOk(s, e.a);
    hide NetInv, GoodFrame, GoodPacket, Moves;
    match e
    case SendLocks(a) => TokenStep(s, e, a, s.At(a).(sender := HasLock));
    case SendDone(a) =>
      TokenStep(s, e, a, s.At(a).(pending := s.At(a).pending - 1, messageSent := s.At(a).messageSent + 1));
    case SendWakes(a) => TokenStep(s, e, a, s.At(a).(messageSent := s.At(a).messageSent - 1, sender := OutOfP));
    case SendReturns(a) => TokenStep(s, e, a, s.At(a).(sender := NoSender));
    case TakeToken(a) => TokenStep(s, e, a, s.At(a).(worker := HasToken, available := s.At(a).available - 1));
  }

  // ---- runs ----

  predicate Init(s: Net) { s.machines == map[] }

  ghost predicate Legal(s: Net, es: seq<Event>)
    decreases |es|
  {
    es == [] || (Enabled(s, es[0]) && Legal(Apply(s, es[0]), es[1..]))
  }

  ghost function Exec(s: Net, es: seq<Event>): Net
    requires Legal(s, es)
    decreases |es|
  {
    if es == [] then s else Exec(Apply(s, es[0]), es[1..])
  }

  /** Every message sent to box `b` of machine `a`, lost or not, in order: from the events alone. */
  function Mailed(es: seq<Event>, a: int, b: int): seq<Mail> {
    if es == [] then [] else Mailed(es[..|es| - 1], a, b) + Posted(es[|es| - 1], a, b)
  }

  /** Those of them that the network did not lose. */
  function Survivors(es: seq<Event>, a: int, b: int): seq<Mail> {
    if es == [] then [] else Survivors(es[..|es| - 1], a, b) + Arriving(es[|es| - 1], a, b)
  }

  ghost predicate History(s: Net, es: seq<Event>) {
    forall a, b :: Pipeline(s.At(a), b) == Survivors(es, a, b)
  }

  lemma StepHistory(s: Net, es: seq<Event>, e: Event, s': Net)
    requires History(s, es) && Moves(s, e, s')
    ensures History(s', es + [e])
  {
    assert (es + [e])[..|es + [e]| - 1] == es;
    hide Pipeline, NetInv, Arriving;
  }

  lemma {:induction false} RunNetInv(s: Net, before: seq<Event>, es: seq<Event>)
    requires NetInv(s) && Legal(s, es) && History(s, before)
    ensures NetInv(Exec(s, es)) && History(Exec(s, es), before + es)
    decreases |es|
  {
    if es == [] {
      assert before + es == before;
    } else {
      StepNetInv(s, es[0]);
      StepHistory(s, before, es[0], Apply(s, es[0]));
      hide NetInv, History, Apply, Enabled;
      assert (before + [es[0]]) + es[1..] == before + es;
      RunNetInv(Apply(s, es[0]), before + [es[0]], es[1..]);
    }
  }

  lemma InitInv(s: Net)
    requires Init(s)
    ensures NetInv(s) && History(s, [])
  {
  }

  /**
   The network's are the only losses: in every run, what a box's readers got,
   what is in the box and what is on its way to it, in the worker's hands, in
   the device or on the wire, are exactly the messages sent to it that the
   network did not lose, byte for byte and in the order they were sent.
   */
  lemma NothingElseLost(s: Net, es: seq<Event>, a: int, b: int)
    requires Init(s) && Legal(s, es)
    ensures var m := Exec(s, es).At(a);
            (m.Got(b) + m.Box(b)) + (Carried(m, b) + ForBox(m.wire, b)) == Survivors(es, a, b)
  {
    InitInv(s);
    assert [] + es == es;
    RunNetInv(s, [], es);
  }

  lemma {:induction false} SurvivorsSub(es: seq<Event>, a: int, b: int)
    ensures Sub(Survivors(es, a, b), Mailed(es, a, b))
  {
    if es != [] {
      var before, e := es[..|es| - 1], es[|es| - 1];
      SurvivorsSub(before, a, b);
      hide Sub;
      var x, y, post := Survivors(before, a, b), Mailed(before, a, b), Posted(e, a, b);
      if post != [] {
        SubSnoc(x, y, post[0]);
      }
      assert x + [] == x && y + [] == y;
    }
  }

  /** Delivery only loses: in every run what a box's readers got is a subsequence of what was sent to it. */
  lemma LossOnly(s: Net, es: seq<Event>, a: int, b: int)
    requires Init(s) && Legal(s, es)
    ensures Sub(Exec(s, es).At(a).Got(b), Mailed(es, a, b))
  {
    NothingElseLost(s, es, a, b);
    SurvivorsSub(es, a, b);
    var m := Exec(s, es).At(a);
    hide Sub, ForBox, Carried, Exec, Legal, Mailed, Survivors;
    Assoc(m.Got(b), m.Box(b), Carried(m, b) + ForBox(m.wire, b));
    SubPrefix(m.Got(b), m.Box(b) + (Carried(m, b) + ForBox(m.wire, b)), Mailed(es, a, b));
  }

  /** No message arrives more often than it was sent. */
  lemma {:induction false} SubCounts(x: seq<Mail>, y: seq<Mail>)
    requires Sub(x, y)
    ensures multiset(x) <= multiset(y) && |x| <= |y|
    decreases |y|
  {
    if x != [] {
      var x', y' := x[..|x| - 1], y[..|y| - 1];
      assert x == x' + [x[|x| - 1]] && y == y' + [y[|y| - 1]];
      if Sub(x, y') {
        SubCounts(x, y');
      } else {
        SubCounts(x', y');
      }
    }
  }

  /**
   The assertions of the receiving side never fail: a frame taken off the wire
   is for this machine and not too long, the inbox is full whenever the worker
   reads it, and what it reads is a whole message for an existing box.
   */
  lemma ReceiveAssertions(s: Net, a: int32)
    requires NetInv(s)
    ensures var m := s.At(a);
            && (!m.Full() && m.wire != [] ==>
                 && |m.wire[0]| == MaxWireSize && DecodeHeader(m.wire[0]).to == a
                 && DecodeHeader(m.wire[0]).length <= MaxPacketSize)
            && (m.worker == HasToken ==> m.Full() && m.available == 0)
            && (m.worker.Holding? ==>
                 HeaderSize <= |m.worker.p.payload|
                 && 0 <= Unpack(m.worker.p).hdr.to < s.numBoxes && Unpack(m.worker.p).hdr.length <= MaxMailSize)
  {
    assert MachineOk(s, a);
    if s.At(a).wire != [] {
      assert GoodFrame(s.At(a).wire[0], a, s.numBoxes);
    }
  }
}
