/** The states of src/DTLS/RecordLayer.ts and what its operations do to them. */
module Records {
  import opened Bytes
  import opened Crypto
  import opened Packets
  import opened Protection
  import opened ConnectionStates
  import opened AntiReplay
  import opened Words

  const CHANGE_CIPHER_SPEC := 20
  const HANDSHAKE := 22
  const APPLICATION_DATA := 23

  datatype Message = Message(typ: int, data: bytes)

  datatype EpochState = EpochState(index: nat, conn: ConnState, writeSeq: int, window: Window)

  /** `sent` lists the datagrams handed to the UDP socket. */
  datatype Layer = Layer(epochs: map<nat, EpochState>, read: nat, write: nat, sent: seq<bytes>)

  /** The random bytes drawn while enciphering the record (epoch, sequence number). */
  type Entropy = (int, int, nat) -> byte

  function Draw(rnd: Entropy, epoch: int, seqNum: int, n: nat): bytes {
    seq(n, i requires 0 <= i < n => rnd(epoch, seqNum, i))
  }

  function Max(a: nat, b: nat): nat {
    if a > b then a else b
  }

  function NextEpochNr(l: Layer): nat {
    Max(l.read, l.write) + 1
  }

  function FreshEpoch(index: nat): EpochState {
    EpochState(index, FRESH_STATE, -1, FRESH)
  }

  const FRESH_LAYER := Layer(map[0 := FreshEpoch(0), 1 := FreshEpoch(1)], 0, 0, [])

  /** The epochs are exactly 0 up to one past the later of the two current ones. */
  ghost predicate Table(l: Layer) {
    && (forall k: nat :: k in l.epochs <==> k <= NextEpochNr(l))
    && (forall k: nat :: k in l.epochs ==>
          l.epochs[k].index == k && l.epochs[k].window.Ok() && l.epochs[k].writeSeq >= -1)
  }

  lemma FreshLayerTable()
    ensures Table(FRESH_LAYER)
  {
  }

  function EnsureNextEpoch(l: Layer): Layer {
    var n := NextEpochNr(l);
    if n in l.epochs then l else l.(epochs := l.epochs[n := FreshEpoch(n)])
  }

  function AdvanceRead(l: Layer): Layer {
    EnsureNextEpoch(l.(read := l.read + 1))
  }

  function AdvanceWrite(l: Layer): Layer {
    EnsureNextEpoch(l.(write := l.write + 1))
  }

  lemma CurrentEpochsExist(l: Layer)
    requires Table(l)
    ensures l.read in l.epochs && l.write in l.epochs && l.read + 1 in l.epochs && l.write + 1 in l.epochs
    ensures NextEpochNr(l) in l.epochs
  {
  }

  lemma SentKeepsTable(l: Layer, sent: seq<bytes>)
    requires Table(l)
    ensures Table(l.(sent := sent))
  {
  }

  /** The number of epochs, which makes the index test of `receive` a membership test. */
  lemma TableSize(l: Layer)
    requires Table(l)
    ensures |l.epochs| == NextEpochNr(l) + 1
    ensures forall e: int :: 0 <= e < |l.epochs| <==> e >= 0 && e in l.epochs
  {
    var n := NextEpochNr(l) + 1;
    BelowHas(n);
    assert l.epochs.Keys == Below(n);
  }

  function Below(n: nat): set<nat> {
    if n == 0 then {} else Below(n - 1) + {n - 1}
  }

  lemma {:induction false} BelowHas(n: nat)
    ensures |Below(n)| == n
    ensures forall k: nat :: k in Below(n) <==> k < n
  {
    if n > 0 {
      BelowHas(n - 1);
    }
  }

  lemma AdvancingKeepsTable(l: Layer)
    requires Table(l)
    ensures Table(AdvanceRead(l)) && Table(AdvanceWrite(l))
  {
  }

  function WithConn(l: Layer, e: nat, conn: ConnState): Layer
    requires e in l.epochs
  {
    l.(epochs := l.epochs[e := l.epochs[e].(conn := conn)])
  }

  lemma WithConnKeepsTable(l: Layer, e: nat, conn: ConnState)
    requires Table(l) && e in l.epochs
    ensures Table(WithConn(l, e, conn)) && WithConn(l, e, conn).epochs.Keys == l.epochs.Keys
  {
  }

  // ---- sending ----

  /** The packet built for a message, before protection. */
  function Plain(l: Layer, msg: Message): Packet
    requires l.write in l.epochs
  {
    var e := l.epochs[l.write];
    Packet(msg.typ, e.conn.major, e.conn.minor, l.write, e.writeSeq + 1, msg.data)
  }

  /** The layer after the sequence number was taken and, for a protected epoch, `Cipher` was read. */
  function Numbered(l: Layer): Layer
    requires l.write in l.epochs
  {
    var e := l.epochs[l.write];
    var conn := if e.conn.suite.Some?
      && !e.conn.suite.value.kind.NullCipher? then e.conn.(cipher := e.conn.CipherInUse())
                else e.conn;
    l.(epochs := l.epochs[l.write := e.(writeSeq := e.writeSeq + 1, conn := conn)])
  }

  /** The packet that goes on the wire; `None` when the suite or the cipher throws. */
  function Protected(c: Library, rnd: Entropy, l: Layer, msg: Message): Option<Packet>
    requires l.write in l.epochs
  {
    var conn := l.epochs[l.write].conn;
    var packet := Plain(l, msg);
    if conn.suite.None? then None
    else if conn.suite.value.kind.NullCipher? then Some(packet)
    else
      var d := conn.CipherInUse().value;
      Encrypt(c, d, packet, Draw(rnd, packet.epoch, packet.seqNum, RecordIvLength(d.suite)))
  }

  /** `processOutgoingMessage`: the new layer, and the bytes unless an exception ended it. */
  function Outgoing(c: Library, rnd: Entropy, l: Layer, msg: Message): (Layer, Option<bytes>)
    requires l.write in l.epochs
  {
    var numbered := Numbered(l);
    var packet := Protected(c, rnd, l, msg);
    if packet.None? then (numbered, None)
    else (if msg.typ == CHANGE_CIPHER_SPEC then AdvanceWrite(numbered) else numbered, Some(Print(packet.value)))
  }

  lemma OutgoingKeepsTable(c: Library, rnd: Entropy, l: Layer, msg: Message)
    requires Table(l)
    ensures Table(Numbered(l)) && Table(Outgoing(c, rnd, l, msg).0)
  {
    hide Protected;
  }

  /** `messages.map(processOutgoingMessage)`, concatenated. */
  function OutgoingAll(c: Library, rnd: Entropy, l: Layer, msgs: seq<Message>): (r: (Layer, Option<bytes>))
    requires Table(l)
    ensures Table(r.0)
    decreases |msgs|
  {
    OutgoingKeepsTable'(c, rnd, l);
    if msgs == [] then (l, Some([]))
    else
      var (l1, head) := Outgoing(c, rnd, l, msgs[0]);
      if head.None? then (l1, None)
      else
        var (l2, tail) := OutgoingAll(c, rnd, l1, msgs[1..]);
        (l2, if tail.None? then None else Some(head.value + tail.value))
  }

  function AfterBytes(b: bytes, r: (Layer, Option<bytes>)): (Layer, Option<bytes>) {
    (r.0, if r.1.None? then None else Some(b + r.1.value))
  }

  lemma AfterNoBytes(r: (Layer, Option<bytes>))
    ensures AfterBytes([], r) == r
  {
    if r.1.Some? {
      assert [] + r.1.value == r.1.value;
    }
  }

  lemma AfterBytesTwice(a: bytes, b: bytes, r: (Layer, Option<bytes>))
    ensures AfterBytes(a, AfterBytes(b, r)) == AfterBytes(a + b, r)
  {
    if r.1.Some? {
      assert a + (b + r.1.value) == (a + b) + r.1.value;
    }
  }

  lemma OutgoingKeepsTable'(c: Library, rnd: Entropy, l: Layer)
    requires Table(l)
    ensures forall msg :: Table(Outgoing(c, rnd, l, msg).0)
  {
    forall msg
      ensures Table(Outgoing(c, rnd, l, msg).0)
    {
      OutgoingKeepsTable(c, rnd, l, msg);
    }
  }

  function SendFlight(c: Library, rnd: Entropy, l: Layer, msgs: seq<Message>): (r: (Layer, bool))
    requires Table(l)
    ensures Table(r.0)
  {
    var (l1, buf) := OutgoingAll(c, rnd, l, msgs);
    if buf.None? then (l1, false) else (l1.(sent := l1.sent + [buf.value]), true)
  }

  /** `send`: one message in a datagram of its own. */
  function Send(c: Library, rnd: Entropy, l: Layer, msg: Message): (r: (Layer, bool))
    requires Table(l)
    ensures Table(r.0)
  {
    CurrentEpochsExist(l);
    OutgoingKeepsTable(c, rnd, l, msg);
    var (l1, buf) := Outgoing(c, rnd, l, msg);
    if buf.None? then (l1, false) else (l1.(sent := l1.sent + [buf.value]), true)
  }

  // ---- receiving ----

  /** The parse loop of `receive`. */
  function ParseAll(buf: bytes, offset: nat, g: Garbage): seq<Packet>
    decreases |buf| - offset
  {
    if offset >= |buf| then []
    else
      match Parse(buf, offset, g)
      case None => []
      case Some((p, n)) => if n <= 0 then [] else [p] + ParseAll(buf, offset + n, g)
  }

  /** `p.epoch in knownEpochs` asks for an index of the array of known epochs. */
  predicate Admits(l: Layer, p: Packet) {
    && 0 <= p.epoch < |l.epochs|
    && p.epoch >= l.read
    && p.epoch in l.epochs
    && l.epochs[p.epoch].window.MayReceive(p.seqNum)
  }

  function Filter(l: Layer, ps: seq<Packet>): seq<Packet> {
    if ps == [] then []
    else (if Admits(l, ps[0]) then [ps[0]] else []) + Filter(l, ps[1..])
  }

  predicate Known(l: Layer, ps: seq<Packet>) {
    forall i :: 0 <= i < |ps| ==> ps[i].epoch >= 0 && ps[i].epoch in l.epochs
  }

  /** Reading `Decipher` caches the delegate. */
  function Touch(l: Layer, e: nat): Layer
    requires e in l.epochs
  {
    var conn := l.epochs[e].conn;
    WithConn(l, e, conn.(decipher := conn.DecipherInUse()))
  }

  function DecryptOne(c: Library, l: Layer, p: Packet): Option<Packet>
    requires p.epoch >= 0 && p.epoch in l.epochs
  {
    var d := l.epochs[p.epoch].conn.DecipherInUse();
    if d.None? then None else Decrypt(c, d.value, p)
  }

  function Result(r: Option<Packet>): seq<Packet> {
    if r.Some? then [r.value] else []
  }

  function DecryptAll(c: Library, l: Layer, ps: seq<Packet>): (Layer, seq<Packet>)
    requires Known(l, ps)
    decreases |ps|
  {
    if ps == [] then (l, [])
    else
      var (l1, rest) := DecryptAll(c, Touch(l, ps[0].epoch), ps[1..]);
      (l1, Result(DecryptOne(c, l, ps[0])) + rest)
  }

  function MarkOne(l: Layer, p: Packet): Layer
    requires p.epoch >= 0 && p.epoch in l.epochs && l.epochs[p.epoch].window.Ok()
  {
    var e: nat := p.epoch;
    l.(epochs := l.epochs[e := l.epochs[e].(window := l.epochs[e].window.Mark(p.seqNum))])
  }

  function MarkAll(l: Layer, ps: seq<Packet>): Layer
    requires Table(l) && Known(l, ps)
    decreases |ps|
  {
    if ps == [] then l else MarkAll(MarkOne(l, ps[0]), ps[1..])
  }

  lemma TouchKeepsTable(l: Layer, e: nat)
    requires Table(l) && e in l.epochs
    ensures Table(Touch(l, e)) && Touch(l, e).epochs.Keys == l.epochs.Keys
  {
  }

  lemma MarkKeepsTable(l: Layer, p: Packet)
    requires Table(l) && p.epoch >= 0 && p.epoch in l.epochs
    ensures l.epochs[p.epoch].window.Ok()
    ensures Table(MarkOne(l, p)) && MarkOne(l, p).epochs.Keys == l.epochs.Keys
  {
    hide Raise, Shifted;
  }

  lemma {:induction false} FilterSplits(l: Layer, a: seq<Packet>, p: Packet)
    ensures Filter(l, a + [p]) == Filter(l, a) + if Admits(l, p) then [p] else []
  {
    if a == [] {
      assert Filter(l, [p]) == (if Admits(l, p) then [p] else []) + [];
      assert [] + [p] == [p];
    } else {
      assert (a + [p])[1..] == a[1..] + [p];
      FilterSplits(l, a[1..], p);
    }
  }

  function AfterPackets(ps: seq<Packet>, r: (Layer, seq<Packet>)): (Layer, seq<Packet>) {
    (r.0, ps + r.1)
  }

  lemma AfterNoPackets(r: (Layer, seq<Packet>))
    ensures AfterPackets([], r) == r
  {
    assert [] + r.1 == r.1;
  }

  lemma NoPacketsAfter(c: Library, ps: seq<Packet>, l: Layer)
    ensures AfterPackets(ps, DecryptAll(c, l, [])) == (l, ps)
  {
    assert ps + [] == ps;
  }

  lemma DecryptAllStep(c: Library, l: Layer, ps: seq<Packet>)
    requires ps != [] && Known(l, ps)
    ensures Known(Touch(l, ps[0].epoch), ps[1..])
    ensures DecryptAll(c, l, ps)
         == AfterPackets(Result(DecryptOne(c, l, ps[0])), DecryptAll(c, Touch(l, ps[0].epoch), ps[1..]))
  {
  }

  lemma AfterPacketsTwice(a: seq<Packet>, b: seq<Packet>, r: (Layer, seq<Packet>))
    ensures AfterPackets(a, AfterPackets(b, r)) == AfterPackets(a + b, r)
  {
    assert a + (b + r.1) == (a + b) + r.1;
  }

  lemma {:induction false} FilterIsKnown(l: Layer, ps: seq<Packet>)
    ensures Known(l, Filter(l, ps))
  {
    if ps != [] {
      FilterIsKnown(l, ps[1..]);
    }
  }

  lemma {:induction false} DecryptAllKnown(c: Library, l: Layer, ps: seq<Packet>)
    requires Table(l) && Known(l, ps)
    ensures var (l1, out) := DecryptAll(c, l, ps); Table(l1) && Known(l1, out) && l1.epochs.Keys == l.epochs.Keys
    decreases |ps|
  {
    if ps != [] {
      hide Decrypt, Table, Touch;
      TouchKeepsTable(l, ps[0].epoch);
      DecryptAllKnown(c, Touch(l, ps[0].epoch), ps[1..]);
    }
  }

  /** `receive`: the new layer and the records delivered. */
  function Receive(c: Library, g: Garbage, l: Layer, buf: bytes): (Layer, seq<Packet>)
    requires Table(l)
  {
    var admitted := Filter(l, ParseAll(buf, 0, g));
    FilterIsKnown(l, ParseAll(buf, 0, g));
    DecryptAllKnown(c, l, admitted);
    var (l1, records) := DecryptAll(c, l, admitted);
    (MarkAll(l1, records), records)
  }

  function MessageOf(p: Packet): Message {
    Message(p.typ, p.fragment)
  }

  function Messages(ps: seq<Packet>): seq<Message> {
    seq(|ps|, i requires 0 <= i < |ps| => MessageOf(ps[i]))
  }
}
