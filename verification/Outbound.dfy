/** What a session hands to the UDP socket, and that it arrives. */
module Outbound {
  import opened Bytes
  import opened BitConverter
  import opened Crypto
  import opened Packets
  import opened Protection
  import opened AntiReplay
  import opened AntiReplayProofs
  import opened Records
  import opened LayerChanges
  import opened LayerRuns
  import opened Codec
  import opened Handshakes
  import opened Handlers
  import opened Phases
  import opened Sessions
  import opened SessionProofs
  import opened SessionLayers
  import A = Authenticity
  import P = ProtectedTurns
  import HonestHandshake
  import T = Transfer
  import K = KeyAgreement
  import H = HandlerProofs
  import R = RecordProofs
  import W = WriteOrder

  // ---- no record of a session fails ----

  /** In every phase nothing is left in the queue, and what is written can be protected. */
  lemma PhaseIsAble(cfg: Config, cl: Endpoint, random: bytes, touched: bool)
    requires cfg.library.HmacLaw() && InPhase(cfg, cl, random, touched)
    ensures Able(cl)
  {
    hide Table, K.Blank, K.Keyed, K.OthersKeyless;
    var cached := if touched then Some(K.NULL_DELEGATE) else None;
    if HasKeys(cfg, cl, random, cached) {
      K.KeyedHasSuite(cfg, cl.l.epochs[1].conn, random);
    }
  }

  lemma {:induction false} RunIsAble(cfg: Config, cl: Endpoint, evs: seq<H.Event>, random: bytes)
    requires Live(cl) && cfg.library.HmacLaw() && K.Calm(evs) && Waiting(cl, random, None)
    ensures AlwaysAble(cfg, cl, evs)
  {
    hide H.Run, Live, Able, Waiting, InPhase, Touched;
    RunKeepsPhase(cfg, cl, evs, random);
    PhaseIsAble(cfg, H.Run(cfg, cl, evs), random, Touched(cfg, cl, evs));
    if evs != [] {
      RunIsAble(cfg, cl, evs[..|evs| - 1], random);
    }
  }

  /** No record that a session sends fails: the operations of its record layer are flawless. */
  lemma SessionIsFlawless(cfg: Config, random: Value, suiteIds: seq<int>, inputs: seq<Input>) returns (ops: seq<R.Op>)
    requires cfg.library.HmacLaw()
    ensures Traces(cfg, Opened(cfg, random, suiteIds), inputs, ops)
    ensures Table(FRESH_LAYER) && Flawless(cfg.library, FRESH_LAYER, ops)
    ensures var l, ns := Run(cfg, Opened(cfg, random, suiteIds), inputs).cl.l, W.Taken(cfg.library, ops);
            W.Ordered(ns) && W.Agrees(l, ns)
  {
    hide Start, Run, K.Calm, Waiting, AlwaysAble, Events, Flawless, W.Ordered, W.Agrees, W.Taken, Live;
    FreshLayerTable();
    StartIsWaiting(cfg, random, suiteIds);
    var s := Opened(cfg, random, suiteIds);
    SessionIsCalm(cfg, s, inputs);
    RunIsAble(cfg, s.cl, Events(cfg, s, inputs), RandomBytes(ClientHello(random, suiteIds)));
    ops := SessionRunsLayer(cfg, random, suiteIds, inputs);
  }

  // ---- the records on the wire ----

  /** The records that a run has sent since it last handed a datagram to the socket. */
  ghost function Unsent(c: Library, l: Layer, ops: seq<R.Op>): seq<Packet>
    requires Table(l) && Flawless(c, l, ops)
  {
    if ops == [] then []
    else
      var before, op := ops[..|ops| - 1], ops[|ops| - 1];
      CurrentEpochsExist(R.Run(c, l, before));
      if op.Transmit? then []
      else if op.Send? then Unsent(c, l, before) + [Protected(c, op.rnd, R.Run(c, l, before), op.msg).value]
      else Unsent(c, l, before)
  }

  /** The datagrams that a run hands to the socket, as lists of records. */
  ghost function Bundles(c: Library, l: Layer, ops: seq<R.Op>): seq<seq<Packet>>
    requires Table(l) && Flawless(c, l, ops)
  {
    if ops == [] then []
    else
      var before, op := ops[..|ops| - 1], ops[|ops| - 1];
      Bundles(c, l, before) + if op.Transmit? then [Unsent(c, l, before)] else []
  }

  function PrintEach(bundles: seq<seq<Packet>>): seq<bytes> {
    seq(|bundles|, i requires 0 <= i < |bundles| => T.PrintAll(bundles[i]))
  }

  /** All records in the order of the datagrams. */
  function Flat(bundles: seq<seq<Packet>>): seq<Packet> {
    if bundles == [] then [] else Flat(bundles[..|bundles| - 1]) + bundles[|bundles| - 1]
  }

  /** The records carry these numbers. */
  predicate Numbered(ps: seq<Packet>, ns: seq<W.Number>) {
    |ps| == |ns| && forall i :: 0 <= i < |ps| ==> (ps[i].epoch, ps[i].seqNum) == ns[i]
  }

  lemma {:induction false} PrintAllAppends(ps: seq<Packet>, p: Packet)
    ensures T.PrintAll(ps + [p]) == T.PrintAll(ps) + Print(p)
  {
    hide Print;
    if ps == [] {
      assert [p][1..] == [] && ps + [p] == [p] && Print(p) + [] == Print(p) == [] + Print(p);
    } else {
      assert (ps + [p])[1..] == ps[1..] + [p];
      PrintAllAppends(ps[1..], p);
    }
  }

  lemma OnlyTransmitsAreSent(c: Library, l: Layer, op: R.Op)
    requires Table(l)
    ensures R.Step(c, l, op).sent == if op.Transmit? then l.sent + [op.datagram] else l.sent
  {
    hide Receive, Protected, Table;
    match op
    case Recv(g, buf) => HonestHandshake.ReceiveKeepsSent(c, g, l, buf);
    case Send(rnd, msg) => CurrentEpochsExist(l);
    case ReadAdvance =>
    case WriteAdvance =>
    case Configure(e, conn) =>
    case Transmit(datagram) =>
  }

  /** What is pending in a flawless run is printed from the records not yet sent. */
  lemma {:induction false} PendingIsUnsent(c: Library, l: Layer, ops: seq<R.Op>)
    requires Table(l) && Flawless(c, l, ops)
    ensures Pending(c, l, ops) == T.PrintAll(Unsent(c, l, ops))
  {
    if ops != [] {
      hide R.Run, Outgoing, Protected, Table, Print, T.PrintAll;
      var before, op := ops[..|ops| - 1], ops[|ops| - 1];
      PendingIsUnsent(c, l, before);
      var mid := R.Run(c, l, before);
      CurrentEpochsExist(mid);
      if op.Send? {
        OutgoingIsProtected(c, op.rnd, mid, op.msg);
        PrintAllAppends(Unsent(c, l, before), Protected(c, op.rnd, mid, op.msg).value);
      } else if op.Transmit? {
        NothingPrinted();
      }
    }
  }

  lemma NothingPrinted()
    ensures T.PrintAll([]) == []
  {
  }

  /** Each datagram of a flawless run is printed from its records. */
  lemma {:induction false} BundlesAreSent(c: Library, l: Layer, ops: seq<R.Op>)
    requires Table(l) && Flawless(c, l, ops)
    requires forall i :: 0 <= i < |ops| && ops[i].Transmit? ==> ops[i].datagram == Pending(c, l, ops[..i])
    ensures R.Run(c, l, ops).sent == l.sent + PrintEach(Bundles(c, l, ops))
  {
    if ops == [] {
      assert l.sent + PrintEach([]) == l.sent;
    } else {
      hide R.Step, Protected, Table, Pending, Unsent, T.PrintAll;
      var before, op := ops[..|ops| - 1], ops[|ops| - 1];
      forall i | 0 <= i < |before| && before[i].Transmit?
        ensures before[i].datagram == Pending(c, l, before[..i])
      {
        assert before[..i] == ops[..i];
      }
      BundlesAreSent(c, l, before);
      OnlyTransmitsAreSent(c, R.Run(c, l, before), op);
      PendingIsUnsent(c, l, before);
      if op.Transmit? {
        var bundles := Bundles(c, l, before);
        assert PrintEach(bundles + [Unsent(c, l, before)]) == PrintEach(bundles) + [op.datagram];
      }
    }
  }

  /** The records of a run, in datagrams or not yet. */
  ghost function AllSent(c: Library, l: Layer, ops: seq<R.Op>): seq<Packet>
    requires Table(l) && Flawless(c, l, ops)
  {
    Flat(Bundles(c, l, ops)) + Unsent(c, l, ops)
  }

  lemma OneMoreSent(c: Library, l: Layer, ops: seq<R.Op>)
    requires Table(l) && Flawless(c, l, ops) && ops != []
    ensures var before, op := ops[..|ops| - 1], ops[|ops| - 1];
            && R.Run(c, l, before).write in R.Run(c, l, before).epochs
            && AllSent(c, l, ops)
               == AllSent(c, l, before)
                  + if op.Send? then [Protected(c, op.rnd, R.Run(c, l, before), op.msg).value] else []
  {
    hide R.Run, Protected, Table;
    var before, op := ops[..|ops| - 1], ops[|ops| - 1];
    CurrentEpochsExist(R.Run(c, l, before));
    var bundles, unsent := Bundles(c, l, before), Unsent(c, l, before);
    if op.Transmit? {
      assert (bundles + [unsent])[..|bundles|] == bundles;
      assert Flat(bundles) + unsent + [] == Flat(bundles) + unsent;
    } else {
      assert bundles + [] == bundles;
    }
  }

  /** The records carry exactly the numbers that were taken. */
  lemma {:induction false} RecordsAreNumbered(c: Library, ops: seq<R.Op>)
    requires Table(FRESH_LAYER) && Flawless(c, FRESH_LAYER, ops)
    ensures Numbered(AllSent(c, FRESH_LAYER, ops), W.Taken(c, ops))
  {
    if ops != [] {
      hide R.Run, Protected, Table, Plain, AllSent;
      var before, op := ops[..|ops| - 1], ops[|ops| - 1];
      RecordsAreNumbered(c, before);
      OneMoreSent(c, FRESH_LAYER, ops);
      if op.Send? {
        NumberOfRecord(c, op.rnd, R.Run(c, FRESH_LAYER, before), op.msg);
      }
    }
  }

  lemma NumberOfRecord(c: Library, rnd: Entropy, l: Layer, msg: Message)
    requires Table(l) && l.write in l.epochs && Protected(c, rnd, l, msg).Some?
    ensures var p := Protected(c, rnd, l, msg).value; (p.epoch, p.seqNum) == (l.write, Plain(l, msg).seqNum)
  {
    hide Protected, Outgoing, Print;
    W.EmittedNumber(c, rnd, l, msg);
  }

  lemma NothingUnsent(ps: seq<Packet>)
    requires T.PrintAll(ps) == []
    ensures ps == []
  {
    hide Print;
    if ps != [] {
      PacketLength(ps[0]);
    }
  }

  /** What a session puts on the wire. Every datagram consists of whole records, and over all
      datagrams of the session the records are numbered 0, 1, 2, ... within each epoch without a
      gap, and no epoch is gone back to; the counters agree. No record ever fails. */
  lemma RecordsOnTheWire(cfg: Config, random: Value, suiteIds: seq<int>, inputs: seq<Input>)
    returns (bundles: seq<seq<Packet>>, ns: seq<W.Number>)
    requires cfg.library.HmacLaw()
    ensures var l := Run(cfg, Opened(cfg, random, suiteIds), inputs).cl.l;
            && l.sent == PrintEach(bundles) && Numbered(Flat(bundles), ns)
            && W.Ordered(ns) && W.Agrees(l, ns)
  {
    hide Run, Opened, Flawless, W.Ordered, W.Agrees, W.Taken, Numbered, PrintEach, T.PrintAll, R.Run, Table;
    var c := cfg.library;
    var ops := SessionIsFlawless(cfg, random, suiteIds, inputs);
    PendingIsUnsent(c, FRESH_LAYER, ops);
    BundlesAreSent(c, FRESH_LAYER, ops);
    RecordsAreNumbered(c, ops);
    NothingUnsent(Unsent(c, FRESH_LAYER, ops));
    bundles, ns := Bundles(c, FRESH_LAYER, ops), W.Taken(c, ops);
    assert [] + PrintEach(bundles) == PrintEach(bundles);
    assert Flat(bundles) + [] == Flat(bundles);
  }

  // ---- application data ----

  /** The layer writes in epoch 1 and enciphers with `d`, which has the client's keys. */
  ghost predicate Writes(l: Layer, d: Delegate) {
    && Table(l) && l.write == 1 && 1 in l.epochs
    && var conn := l.epochs[1].conn;
    && conn.suite == Some(d.suite) && conn.keys == d.keys && d.keys.Some? && d.end == Client
    && conn.CipherInUse() == Some(d)
  }

  function DataRecord(l: Layer, data: bytes): Packet
    requires 1 in l.epochs
  {
    Packet(APPLICATION_DATA, l.epochs[1].conn.major, l.epochs[1].conn.minor, 1, l.epochs[1].writeSeq + 1, data)
  }

  /** The record enciphered with the keys. */
  function Sealed(c: Library, rnd: Entropy, d: Delegate, p: Packet): Option<Packet> {
    Encrypt(c, d, p, Draw(rnd, p.epoch, p.seqNum, RecordIvLength(d.suite)))
  }

  lemma KeyedWrites(c: Library, rnd: Entropy, l: Layer, d: Delegate, data: bytes)
    requires Writes(l, d)
    ensures l.write in l.epochs
    ensures Protected(c, rnd, l, Message(APPLICATION_DATA, data)) == Sealed(c, rnd, d, DataRecord(l, data))
            && Sealed(c, rnd, d, DataRecord(l, data)).Some?
    ensures var m := Outgoing(c, rnd, l, Message(APPLICATION_DATA, data)).0;
            Writes(m, d) && m.epochs[1].writeSeq == l.epochs[1].writeSeq + 1 && m.sent == l.sent
  {
    hide Encrypt, Table;
    var msg, p := Message(APPLICATION_DATA, data), DataRecord(l, data);
    OutgoingKeepsTable(c, rnd, l, msg);
    K.EncryptsWithKeys(c, d, p, Draw(rnd, p.epoch, p.seqNum, RecordIvLength(d.suite)));
  }

  /** A session whose handshake is finished writes in epoch 1, with the keys of the handshake. */
  lemma FinishedWrites(cfg: Config, random: Value, suiteIds: seq<int>, inputs: seq<Input>) returns (d: Delegate)
    requires cfg.library.HmacLaw() && Run(cfg, Opened(cfg, random, suiteIds), inputs).finished
    ensures var l := Run(cfg, Opened(cfg, random, suiteIds), inputs).cl.l;
            && Writes(l, d) && K.Keyed(cfg, l.epochs[1].conn, RandomBytes(ClientHello(random, suiteIds)))
  {
    hide Opened, Run, A.Tainted, InPhase, HasKeys, K.Keyed, K.OthersKeyless, AllData, Table;
    var s, bytes := Opened(cfg, random, suiteIds), RandomBytes(ClientHello(random, suiteIds));
    var cl := Run(cfg, s, inputs).cl;
    A.SessionPhase(cfg, random, suiteIds, inputs);
    A.FinishedHasKeys(cfg, random, suiteIds, inputs);
    A.KeyedPhase(cfg, cl, bytes, A.Tainted(cfg, s, inputs));
    HasKeysWrites(cfg, cl, bytes, if A.Tainted(cfg, s, inputs) then Some(K.NULL_DELEGATE) else None);
    d := K.DelegateOf(cl.l.epochs[1].conn);
  }

  lemma HasKeysWrites(cfg: Config, cl: Endpoint, random: bytes, cached: Option<Delegate>)
    requires cfg.library.HmacLaw() && HasKeys(cfg, cl, random, cached)
    ensures 1 in cl.l.epochs && cl.l.epochs[1].conn.suite.Some?
            && Writes(cl.l, K.DelegateOf(cl.l.epochs[1].conn)) && K.Keyed(cfg, cl.l.epochs[1].conn, random)
  {
    hide Table, K.Keyed, K.OthersKeyless;
    K.KeyedHasSuite(cfg, cl.l.epochs[1].conn, random);
  }

  /** Protection of what the user sends. In every session that is finished, `send` hands
      exactly one datagram to the socket, and this holds the data as the next record of epoch 1,
      enciphered with the keys that were derived from the pre-shared key and both randoms. Nothing
      else changes but the number of the next record. */
  lemma DataIsProtected(cfg: Config, random: Value, suiteIds: seq<int>, inputs: seq<Input>, data: bytes)
    returns (d: Delegate)
    requires cfg.library.HmacLaw() && Run(cfg, Opened(cfg, random, suiteIds), inputs).finished
    ensures var s := Run(cfg, Opened(cfg, random, suiteIds), inputs);
            var l, r := s.cl.l, OnData(cfg, s, data);
            && Writes(l, d) && K.Keyed(cfg, l.epochs[1].conn, RandomBytes(ClientHello(random, suiteIds)))
            && var sealed := Sealed(cfg.library, cfg.entropy, d, DataRecord(l, data));
            && sealed.Some? && r == s.(cl := s.cl.(l := r.cl.l))
            && r.cl.l.sent == l.sent + [Print(sealed.value)]
            && Writes(r.cl.l, d) && r.cl.l.epochs[1].writeSeq == l.epochs[1].writeSeq + 1
  {
    hide Opened, Run, K.Keyed, Writes, Sealed, Print, Protected, Numbered;
    d := FinishedWrites(cfg, random, suiteIds, inputs);
    var s := Run(cfg, Opened(cfg, random, suiteIds), inputs);
    KeyedWrites(cfg.library, cfg.entropy, s.cl.l, d, data);
    WritesInOne(s.cl.l, d);
    var m := Outgoing(cfg.library, cfg.entropy, s.cl.l, Message(APPLICATION_DATA, data)).0;
    SentKeepsWrites(m, d, s.cl.l.sent + [Print(Sealed(cfg.library, cfg.entropy, d, DataRecord(s.cl.l, data)).value)]);
  }

  lemma WritesInOne(l: Layer, d: Delegate)
    requires Writes(l, d)
    ensures Table(l) && l.write == 1 && 1 in l.epochs && d.keys.Some? && d.end == Client
  {
  }

  lemma SentKeepsWrites(l: Layer, d: Delegate, sent: seq<bytes>)
    requires Writes(l, d)
    ensures Writes(l.(sent := sent), d)
  {
    hide Table;
    SentKeepsTable(l, sent);
  }

  // ---- application data arrives ----

  /** The other side deciphers epoch 1 with the same keys. It has received the records `qs` of this
      epoch, none of them later than the last that was sent, and missed fewer than 32 since the
      highest of them. */
  ghost predicate Follows(l: Layer, peer: Layer, d: Delegate, qs: seq<int>) {
    && 1 in l.epochs && Table(peer) && 1 in peer.epochs && peer.read <= 1
    && peer.epochs[1].conn.DecipherInUse() == Some(Delegate(d.suite, d.keys, Server))
    && peer.epochs[1].window == Marks(FRESH, qs) && NoAlignedJump(WIDTH - 1, qs)
    && (forall q :: q in qs ==> q <= l.epochs[1].writeSeq)
    && l.epochs[1].writeSeq + 1 < Highest(WIDTH - 1, qs) + INT_SIZE
  }

  lemma NextIsFree(l: Layer, peer: Layer, d: Delegate, qs: seq<int>)
    requires Table(l) && Follows(l, peer, d, qs) && l.epochs[1].writeSeq + 1 < TWO32
    ensures l.epochs[1].writeSeq >= -1 && T.Free(peer.epochs[1].window, l.epochs[1].writeSeq + 1)
    ensures NoAlignedJump(WIDTH - 1, qs + [l.epochs[1].writeSeq + 1])
    ensures l.epochs[1].writeSeq + 2 < Highest(WIDTH - 1, qs + [l.epochs[1].writeSeq + 1]) + INT_SIZE
  {
    hide Window.MayReceive, Window.Mark;
    var q := l.epochs[1].writeSeq + 1;
    UnalignedRunIsClean(WIDTH - 1, {}, qs);
    CeilingIsHighest(FRESH, qs);
    HighestIsOneOf(WIDTH - 1, qs);
    CleanRunAccepts(qs, q);
    assert (qs + [q])[..|qs|] == qs;
  }

  lemma {:induction false} HighestIsOneOf(floor: int, qs: seq<int>)
    ensures Highest(floor, qs) == floor || Highest(floor, qs) in qs
  {
    if qs != [] {
      HighestIsOneOf(floor, qs[..|qs| - 1]);
    }
  }

  /** One record of data arrives at such a peer, which can follow on. */
  lemma DatumArrives(c: Library, rnd: Entropy, l: Layer, d: Delegate, data: bytes, peer: Layer, qs: seq<int>,
                     g: Garbage)
    requires c.Lawful() && Writes(l, d) && Follows(l, peer, d, qs) && l.epochs[1].writeSeq + 1 < TWO32
    requires Sealed(c, rnd, d, DataRecord(l, data)).Some?
    requires |Sealed(c, rnd, d, DataRecord(l, data)).value.fragment| <= MAX_FRAGMENT
    ensures l.write in l.epochs
    ensures var m := Outgoing(c, rnd, l, Message(APPLICATION_DATA, data)).0;
            var (next, records) := Receive(c, g, peer, Print(Sealed(c, rnd, d, DataRecord(l, data)).value));
            && Messages(records) == [Message(APPLICATION_DATA, data)]
            && Follows(m, next, d, qs + [l.epochs[1].writeSeq + 1])
  {
    hide Sealed, Print, Table, Library.Lawful, Protected, Receive, Outgoing, T.Free, Marks, Wire, Admits, DecryptOne,
         Window.Mark, NoAlignedJump, Highest;
    var msg, sent := Message(APPLICATION_DATA, data), Sealed(c, rnd, d, DataRecord(l, data)).value;
    KeyedWrites(c, rnd, l, d, data);
    NextIsFree(l, peer, d, qs);
    OneIsReady(c, rnd, l, d, msg, peer);
    T.HeadIsCarried(c, rnd, l, peer, [msg]);
    var plain := Plain(l, msg);
    A.OneRecordArrives(c, g, peer, sent, Wire(plain));
    var next := Receive(c, g, peer, Print(sent)).0;
    WireOfData(l, data);
    PeerFollows(c, g, peer, Print(sent), Wire(plain), qs);
  }

  lemma WireOfData(l: Layer, data: bytes)
    requires l.write == 1 && 1 in l.epochs && -1 <= l.epochs[1].writeSeq && l.epochs[1].writeSeq + 1 < TWO32
    ensures var p := Wire(Plain(l, Message(APPLICATION_DATA, data)));
            p.epoch == 1 && p.seqNum == l.epochs[1].writeSeq + 1 && MessageOf(p) == Message(APPLICATION_DATA, data)
  {
    Small(1, 65536);
    Small(l.epochs[1].writeSeq + 1, TWO32);
    Small(APPLICATION_DATA, 256);
  }

  lemma OneIsReady(c: Library, rnd: Entropy, l: Layer, d: Delegate, msg: Message, peer: Layer)
    requires Writes(l, d) && Table(peer) && 1 in peer.epochs && peer.read <= 1 && msg.typ == APPLICATION_DATA
    requires peer.epochs[1].conn.DecipherInUse() == Some(Delegate(d.suite, d.keys, Server))
    requires T.Free(peer.epochs[1].window, l.epochs[1].writeSeq + 1)
    requires Protected(c, rnd, l, msg).Some? && |Protected(c, rnd, l, msg).value.fragment| <= MAX_FRAGMENT
    ensures T.Ready(c, rnd, l, peer, [msg])
  {
    hide Table, Protected, T.Free, Outgoing;
    OutgoingKeepsTable(c, rnd, l, msg);
    assert [msg][1..] == [];
    assert T.Fits(c, rnd, Outgoing(c, rnd, l, msg).0, []);
  }

  lemma PeerFollows(c: Library, g: Garbage, peer: Layer, buf: bytes, p: Packet, qs: seq<int>)
    requires Table(peer) && 1 in peer.epochs && Receive(c, g, peer, buf).1 == [p] && p.epoch == 1
    requires peer.epochs[1].window == Marks(FRESH, qs)
    ensures var next := Receive(c, g, peer, buf).0;
            && Table(next) && 1 in next.epochs && next.read == peer.read
            && next.epochs[1].conn.DecipherInUse() == peer.epochs[1].conn.DecipherInUse()
            && next.epochs[1].window == Marks(FRESH, qs + [p.seqNum])
  {
    hide Receive, Table, Window.Mark, Reads, Marks;
    R.StepKeepsTable(c, peer, R.Recv(g, buf));
    ReceiveChanges(c, g, peer, buf, 1);
    R.ReceiveDelivers(c, g, peer, buf);
    assert [p][..0] == [] && R.NumbersOf(1, []) == [] && [] + [p.seqNum] == [p.seqNum];
    R.MarksConcat(FRESH, qs, [p.seqNum]);
  }

  function DataInputs(ds: seq<bytes>): seq<Input> {
    seq(|ds|, i requires 0 <= i < |ds| => Data(ds[i]))
  }

  function DataMessages(ds: seq<bytes>): seq<Message> {
    seq(|ds|, i requires 0 <= i < |ds| => Message(APPLICATION_DATA, ds[i]))
  }

  /** What a layer becomes and delivers when it receives some datagrams one after the other. */
  ghost function Listen(c: Library, g: Garbage, l: Layer, bufs: seq<bytes>): (r: (Layer, seq<Message>))
    requires Table(l)
    ensures Table(r.0)
  {
    if bufs == [] then (l, [])
    else
      var (m, heard) := Listen(c, g, l, bufs[..|bufs| - 1]);
      R.StepKeepsTable(c, m, R.Recv(g, bufs[|bufs| - 1]));
      var (next, records) := Receive(c, g, m, bufs[|bufs| - 1]);
      (next, heard + Messages(records))
  }

  /** `send` in a session that writes with the keys. */
  lemma DatumIsSent(cfg: Config, s: Session, d: Delegate, data: bytes, peer: Layer, qs: seq<int>, g: Garbage)
    returns (buf: bytes)
    requires Open(cfg, s) && s.finished && cfg.library.Lawful() && Writes(s.cl.l, d) && Follows(s.cl.l, peer, d, qs)
    requires s.cl.l.epochs[1].writeSeq + 1 < TWO32 && |data| <= P.MAX_PLAINTEXT
    ensures var r := Step(cfg, s, Data(data));
            var (next, records) := Receive(cfg.library, g, peer, buf);
            && r == s.(cl := s.cl.(l := r.cl.l)) && r.cl.l.sent == s.cl.l.sent + [buf] && Writes(r.cl.l, d)
            && r.cl.l.epochs[1].writeSeq == s.cl.l.epochs[1].writeSeq + 1
            && Messages(records) == [Message(APPLICATION_DATA, data)]
            && Follows(r.cl.l, next, d, qs + [s.cl.l.epochs[1].writeSeq + 1])
  {
    hide Writes, Follows, Receive, Print, Sealed, Protected, Library.Lawful, Live;
    var c, rnd, l := cfg.library, cfg.entropy, s.cl.l;
    WritesInOne(l, d);
    FollowsInOne(l, peer, d, qs);
    KeyedWrites(c, rnd, l, d, data);
    P.ProtectedIsShort(c, rnd, l, Message(APPLICATION_DATA, data));
    DatumArrives(c, rnd, l, d, data, peer, qs, g);
    var m := Outgoing(c, rnd, l, Message(APPLICATION_DATA, data)).0;
    buf := Print(Sealed(c, rnd, d, DataRecord(l, data)).value);
    SentKeepsWrites(m, d, l.sent + [buf]);
    SentKeepsFollows(m, l.sent + [buf], Receive(c, g, peer, buf).0, d, qs + [l.epochs[1].writeSeq + 1]);
  }

  lemma SentKeepsFollows(l: Layer, sent: seq<bytes>, peer: Layer, d: Delegate, qs: seq<int>)
    requires Follows(l, peer, d, qs)
    ensures Follows(l.(sent := sent), peer, d, qs)
  {
    hide Table, Marks, NoAlignedJump, Highest;
  }

  /** Everything the user sends arrives. In every session that is finished, however many pieces of
      data are sent one after the other, each goes into a datagram of its own, and a peer with the
      same keys that receives these datagrams delivers exactly the data, in order. */
  lemma {:induction false} StreamArrives(cfg: Config, random: Value, suiteIds: seq<int>, inputs: seq<Input>,
                                         ds: seq<bytes>, d: Delegate, peer: Layer, qs: seq<int>, g: Garbage)
    returns (bufs: seq<bytes>, all: seq<int>)
    requires cfg.library.Lawful() && cfg.library.HmacLaw()
    requires var s := Run(cfg, Opened(cfg, random, suiteIds), inputs);
             && s.finished && Writes(s.cl.l, d) && Follows(s.cl.l, peer, d, qs)
             && s.cl.l.epochs[1].writeSeq + |ds| < TWO32
    requires forall i :: 0 <= i < |ds| ==> |ds[i]| <= P.MAX_PLAINTEXT
    ensures var s := Opened(cfg, random, suiteIds);
            var at, r := Run(cfg, s, inputs), Run(cfg, s, inputs + DataInputs(ds));
            && |bufs| == |ds| && r == at.(cl := at.cl.(l := r.cl.l)) && r.cl.l.sent == at.cl.l.sent + bufs
            && Writes(r.cl.l, d) && r.cl.l.epochs[1].writeSeq == at.cl.l.epochs[1].writeSeq + |ds|
            && Table(peer) && Listen(cfg.library, g, peer, bufs).1 == DataMessages(ds)
            && Follows(r.cl.l, Listen(cfg.library, g, peer, bufs).0, d, all)
    decreases |ds|
  {
    hide Opened, Writes, Follows, Receive, Step, Library.Lawful, Run, Listen, DataInputs, DataMessages;
    var s, c := Opened(cfg, random, suiteIds), cfg.library;
    var at := Run(cfg, s, inputs);
    FollowsInOne(at.cl.l, peer, d, qs);
    WritesInOne(at.cl.l, d);
    if ds == [] {
      bufs, all := [], qs;
      NothingSaid(c, g, peer);
      assert inputs + [] == inputs && at.cl.l.sent + [] == at.cl.l.sent;
    } else {
      var last := |ds| - 1;
      var before, so := StreamArrives(cfg, random, suiteIds, inputs, ds[..last], d, peer, qs, g);
      var mid := Run(cfg, s, inputs + DataInputs(ds[..last]));
      var buf := DatumIsSent(cfg, mid, d, ds[last], Listen(c, g, peer, before).0, so, g);
      bufs, all := before + [buf], so + [mid.cl.l.epochs[1].writeSeq + 1];
      OneMoreDatum(cfg, s, inputs, ds);
      OneMoreDatagram(c, g, peer, before, buf);
      assert at.cl.l.sent + before + [buf] == at.cl.l.sent + bufs;
    }
  }

  lemma NothingSaid(c: Library, g: Garbage, l: Layer)
    requires Table(l)
    ensures DataInputs([]) == [] && DataMessages([]) == [] && Listen(c, g, l, []) == (l, [])
  {
  }

  lemma OneMoreDatum(cfg: Config, s: Session, inputs: seq<Input>, ds: seq<bytes>)
    requires Open(cfg, s) && ds != []
    ensures var first, datum := ds[..|ds| - 1], ds[|ds| - 1];
            && Run(cfg, s, inputs + DataInputs(ds)) == Step(cfg, Run(cfg, s, inputs + DataInputs(first)), Data(datum))
            && DataMessages(ds) == DataMessages(first) + [Message(APPLICATION_DATA, datum)]
  {
    hide Step, Open;
    var before := inputs + DataInputs(ds[..|ds| - 1]);
    assert inputs + DataInputs(ds) == before + [Data(ds[|ds| - 1])];
    assert (before + [Data(ds[|ds| - 1])])[..|before|] == before;
  }

  lemma OneMoreDatagram(c: Library, g: Garbage, l: Layer, bufs: seq<bytes>, buf: bytes)
    requires Table(l)
    ensures var (m, heard) := Listen(c, g, l, bufs);
            var (next, records) := Receive(c, g, m, buf);
            Listen(c, g, l, bufs + [buf]) == (next, heard + Messages(records))
  {
    hide Receive, Table;
    assert (bufs + [buf])[..|bufs|] == bufs;
  }

  lemma FollowsInOne(l: Layer, peer: Layer, d: Delegate, qs: seq<int>)
    requires Follows(l, peer, d, qs)
    ensures Table(peer) && 1 in l.epochs && 1 in peer.epochs
  {
  }
}
