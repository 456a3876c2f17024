/** How the keys of epoch 1 come about and what the client sends with them. */
module KeyAgreement {
  import opened Bytes
  import opened Codec
  import opened Prfs
  import opened Crypto
  import opened Protection
  import opened Packets
  import opened ConnectionStates
  import opened Records
  import R = RecordProofs
  import T = Transfer
  import opened LayerChanges
  import opened ClearFlights
  import opened Fragments
  import opened Handshakes
  import opened Handlers
  import opened MessageBytes
  import opened HandlerProofs
  import opened FlightAssembly
  import opened Transcripts

  // ---- the record layer during a handshake ----

  predicate Calm(evs: seq<Event>) {
    forall i :: 0 <= i < |evs| && evs[i].OnLayer? ==> CalmOp(evs[i].op)
  }

  /** How often the peer's ChangeCipherSpec was followed. */
  function PeerCcs(evs: seq<Event>): nat {
    if evs == [] then 0
    else
      var ev := evs[|evs| - 1];
      PeerCcs(evs[..|evs| - 1]) + if ev.OnLayer? && ev.op.ReadAdvance? then 1 else 0
  }

  /** Calm events keep the parameters of every epoch and follow the peer's ChangeCipherSpecs. */
  lemma {:induction false} CalmIsQuiet(c: Library, l: Layer, evs: seq<Event>)
    requires Table(l) && Calm(evs)
    ensures var m := LayerRun(c, l, evs); Quiet(l, m) && m.read == l.read + PeerCcs(evs)
  {
    hide R.Step, Quiet, Table;
    if evs == [] {
      QuietReflexive(l);
    } else {
      var before, ev := evs[..|evs| - 1], evs[|evs| - 1];
      CalmIsQuiet(c, l, before);
      if ev.OnLayer? {
        var mid := LayerRun(c, l, before);
        R.StepKeepsTable(c, mid, ev.op);
        CalmStep(c, mid, ev.op);
        QuietTransitive(l, mid, R.Step(c, mid, ev.op));
      }
    }
  }

  // ---- before the keys are computed ----

  /** Neither secrets nor keys, nor a cached delegate with keys. */
  predicate Keyless(conn: ConnState) {
    && conn.entity == Client && conn.masterSecret == None && conn.keys == None
    && (conn.cipher.Some? ==> conn.cipher.value.keys == None)
    && (conn.decipher.Some? ==> conn.decipher.value.keys == None)
  }

  const NULL_DELEGATE := Delegate(NULL_SUITE, None, Client)

  /** As in a new epoch: nothing is protected. */
  predicate Unprotected(conn: ConnState) {
    && Keyless(conn) && conn.suite == Some(NULL_SUITE)
    && (conn.cipher.Some? ==> conn.cipher.value == NULL_DELEGATE)
    && (conn.decipher.Some? ==> conn.decipher.value == NULL_DELEGATE)
  }

  /** Nothing is keyed or written but in epoch 0, and only epoch 1 knows the client random. */
  ghost predicate Early(l: Layer, random: bytes) {
    && Table(l) && l.write == 0 && 0 in l.epochs && 1 in l.epochs && Unprotected(l.epochs[0].conn)
    && forall e: nat {:trigger l.epochs[e]} :: e in l.epochs ==>
         && Keyless(l.epochs[e].conn)
         && l.epochs[e].conn.clientRandom == (if e == 1 then Some(random) else None)
         && (e > 0 ==> l.epochs[e].conn.cipher == None && l.epochs[e].writeSeq == -1)
  }

  /** Nothing was negotiated for epoch 1. */
  ghost predicate Blank(l: Layer) {
    1 in l.epochs && Unprotected(l.epochs[1].conn) && l.epochs[1].conn.serverRandom == None
  }

  lemma CachedKeepsKeyless(a: ConnState, b: ConnState)
    requires Cached(a, b)
    ensures Keyless(a) ==> Keyless(b)
    ensures Unprotected(a) ==> Unprotected(b)
  {
    CachedFields(a, b);
  }

  lemma QuietKeepsEarly(l: Layer, m: Layer, random: bytes)
    requires Early(l, random) && Quiet(l, m) && Table(m)
    ensures Early(m, random)
  {
    hide Cached, Keyless, Unprotected, Table;
    CurrentEpochsExist(m);
    FreshIsUnprotected();
    CachedKeepsKeyless(l.epochs[0].conn, m.epochs[0].conn);
    forall e: nat | e in m.epochs
      ensures Keyless(m.epochs[e].conn)
      ensures m.epochs[e].conn.clientRandom == if e == 1 then Some(random) else None
    {
      var a := if e in l.epochs then l.epochs[e].conn else FRESH_STATE;
      CachedKeepsKeyless(a, m.epochs[e].conn);
      CachedFields(a, m.epochs[e].conn);
    }
  }

  lemma FreshIsUnprotected()
    ensures Unprotected(FRESH_STATE)
  {
  }

  lemma QuietKeepsBlank(l: Layer, m: Layer)
    requires Blank(l) && Quiet(l, m)
    ensures Blank(m)
  {
    hide Cached, Unprotected;
    CachedKeepsKeyless(l.epochs[1].conn, m.epochs[1].conn);
    CachedFields(l.epochs[1].conn, m.epochs[1].conn);
  }

  lemma FinishIsQuiet(cfg: Config, cl: Endpoint, expected: seq<nat>)
    requires Live(cl) && NoCcs(cl.h.outgoing)
    ensures var r := Finish(cfg, cl, expected).0; Quiet(cl.l, r.l) && r.l.read == cl.l.read && Table(r.l)
  {
    hide Table, OutgoingAll, Cached;
    SendingIsQuiet(cfg.library, cfg.entropy, cl.l, cl.h.outgoing);
    var l := OutgoingAll(cfg.library, cfg.entropy, cl.l, cl.h.outgoing).0;
    SentKeepsTable(l, Finish(cfg, cl, expected).0.l.sent);
  }

  // ---- flights that are sent in the clear ----

  /** The records for a message that has a body: one, with as much of it as fits. */
  function FirstRecord(m: Handshake): Message {
    var body := Body(m);
    var n := if |body| < MAX_FRAGMENT_LENGTH then |body| else MAX_FRAGMENT_LENGTH;
    Message(HANDSHAKE, PrintFragment(Fragment(m.msgType, |body|, m.seqNum, 0, body[..n])))
  }

  lemma OneRecord(m: Handshake)
    requires Body(m) != []
    ensures RecordsOf(m) == [FirstRecord(m)]
    ensures |Body(m)| <= MAX_FRAGMENT_LENGTH ==> FirstRecord(m) == Message(HANDSHAKE, PrintFragment(ToFragment(m)))
  {
    hide PrintFragment, Body;
    assert Body(m)[..|Body(m)|] == Body(m);
  }

  lemma RecordsOfAreHandshake(m: Handshake)
    ensures NoCcs(RecordsOf(m))
  {
    hide Split, PrintFragment;
  }

  /** In the clear a flight is always sent: the queue is empty afterwards and one datagram more
      has been handed to the socket, which consists of exactly the queued records. */
  lemma ClearFlightIsSent(cfg: Config, cl: Endpoint, expected: seq<nat>)
    requires Live(cl) && NoCcs(cl.h.outgoing) && cl.l.write in cl.l.epochs
    requires cl.l.epochs[cl.l.write].conn.suite == Some(NULL_SUITE)
    ensures var (r, status) := Finish(cfg, cl, expected);
            && status == Continues && Quiet(cl.l, r.l) && r.l.read == cl.l.read && Table(r.l)
            && r.h == cl.h.(expected := Some(expected), outgoing := [], flightBegun := false)
            && var out := cl.h.outgoing;
               r.l == Counted(cl.l, |out|).(sent := cl.l.sent + [T.PrintAll(ClearRecords(cl.l, out))])
  {
    hide Quiet, Table, OutgoingAll, T.PrintAll;
    FinishIsQuiet(cfg, cl, expected);
    ClearDatagram(cfg.library, cfg.entropy, cl.l, cl.h.outgoing);
  }

  lemma {:induction false} SendingKeepsSent(c: Library, rnd: Entropy, l: Layer, msgs: seq<Message>)
    requires Table(l)
    ensures OutgoingAll(c, rnd, l, msgs).0.sent == l.sent
    decreases |msgs|
  {
    if msgs != [] {
      hide Protected, Table;
      CurrentEpochsExist(l);
      OutgoingKeepsTable(c, rnd, l, msgs[0]);
      SendingKeepsSent(c, rnd, Outgoing(c, rnd, l, msgs[0]).0, msgs[1..]);
    }
  }

  // ---- computing the keys ----

  /** The delegate of the parameters as they are now. */
  function DelegateOf(conn: ConnState): Delegate
    requires conn.suite.Some?
  {
    Delegate(conn.suite.value, conn.keys, conn.entity)
  }

  /** The connection state holds both randoms, and its master secret and key material are the
      ones computed from them. */
  ghost predicate Keyed(cfg: Config, conn: ConnState, random: bytes)
    requires cfg.library.HmacLaw()
  {
    && cfg.psk.Some? && conn.suite.Some? && conn.suite.value.prf.Some? && conn.entity == Client
    && conn.clientRandom == Some(random) && conn.serverRandom.Some?
    && var (h, server) := (conn.suite.value.prf.value, conn.serverRandom.value);
       var master := MasterSecret(cfg.library, h, PreMasterSecret(cfg.psk.value.1), random, server);
       var block := KeyBlock(cfg.library, h, conn.suite.value, master, random, server);
    && conn.masterSecret == Some(master)
    && |block| == KeyBlockLength(conn.suite.value) && conn.keys == Some(Partition(block, conn.suite.value))
  }

  /** All epochs but the first have no secrets and do not know the client random. */
  ghost predicate OthersKeyless(l: Layer) {
    forall e: nat {:trigger l.epochs[e]} :: e in l.epochs && e != 1 ==>
      Keyless(l.epochs[e].conn) && l.epochs[e].conn.clientRandom == None
  }

  /** Epoch 1 has just been keyed; `cached` is the decipher delegate if it was read before. */
  ghost predicate Keying(cfg: Config, l: Layer, random: bytes, cached: Option<Delegate>)
    requires cfg.library.HmacLaw()
  {
    && Table(l) && l.write == 0 && 0 in l.epochs && 1 in l.epochs && Unprotected(l.epochs[0].conn)
    && Keyed(cfg, l.epochs[1].conn, random) && OthersKeyless(l)
    && l.epochs[1].conn.cipher == None && l.epochs[1].writeSeq == -1
    && cached == l.epochs[1].conn.decipher
    && (cached.Some? ==> cached.value.keys == None)
  }

  /** Epoch 1 is keyed and written in, and no other epoch has secrets. What it enciphers with are
      the keys; so is what it deciphers with, unless a delegate was cached before. */
  ghost predicate Late(cfg: Config, l: Layer, random: bytes, cached: Option<Delegate>)
    requires cfg.library.HmacLaw()
  {
    && Table(l) && l.write == 1 && 1 in l.epochs && Keyed(cfg, l.epochs[1].conn, random) && OthersKeyless(l)
    && var conn := l.epochs[1].conn;
    && conn.CipherInUse() == Some(DelegateOf(conn))
    && (cached.Some? ==> cached.value.keys == None)
    && conn.DecipherInUse() == if cached.Some? then cached else Some(DelegateOf(conn))
  }

  lemma CachedKeepsKeyed(cfg: Config, a: ConnState, b: ConnState, random: bytes)
    requires cfg.library.HmacLaw() && Cached(a, b) && Keyed(cfg, a, random)
    ensures Keyed(cfg, b, random)
  {
    hide MasterSecret, KeyBlock, PreMasterSecret, Partition;
    CachedFields(a, b);
  }

  lemma DiscreetKeepsOthers(l: Layer, m: Layer)
    requires 1 in l.epochs && OthersKeyless(l) && Discreet(l, m)
    ensures OthersKeyless(m)
  {
    hide Cached, Keyless;
    FreshIsUnprotected();
    assert Keyless(FRESH_STATE);
    forall e: nat | e in m.epochs && e != 1
      ensures Keyless(m.epochs[e].conn) && m.epochs[e].conn.clientRandom == None
    {
      var a := if e in l.epochs then l.epochs[e].conn else FRESH_STATE;
      CachedKeepsKeyless(a, m.epochs[e].conn);
      CachedFields(a, m.epochs[e].conn);
    }
  }

  lemma DiscreetKeepsLate(cfg: Config, l: Layer, m: Layer, random: bytes, cached: Option<Delegate>)
    requires cfg.library.HmacLaw() && Late(cfg, l, random, cached) && Discreet(l, m) && Table(m) && m.write == 1
    ensures Late(cfg, m, random, cached)
  {
    hide Cached, Keyed, OthersKeyless, Table;
    CachedKeepsKeyed(cfg, l.epochs[1].conn, m.epochs[1].conn, random);
    DiscreetKeepsOthers(l, m);
    CachedFields(l.epochs[1].conn, m.epochs[1].conn);
    KeyedHasSuite(cfg, l.epochs[1].conn, random);
    KeyedHasSuite(cfg, m.epochs[1].conn, random);
  }

  lemma KeyedHasSuite(cfg: Config, conn: ConnState, random: bytes)
    requires cfg.library.HmacLaw() && Keyed(cfg, conn, random)
    ensures conn.suite.Some? && conn.keys.Some? && conn.masterSecret.Some? && conn.suite.value.prf.Some?
    ensures conn.entity == Client && conn.serverRandom.Some?
  {
  }

  lemma LateIsKeyed(cfg: Config, l: Layer, random: bytes, cached: Option<Delegate>)
    requires cfg.library.HmacLaw() && Late(cfg, l, random, cached)
    ensures Table(l) && l.write == 1 && 1 in l.epochs && Keyed(cfg, l.epochs[1].conn, random)
            && l.epochs[1].conn.suite.Some?
  {
  }

  lemma CalmKeepsEarly(c: Library, l: Layer, evs: seq<Event>, random: bytes)
    requires Early(l, random) && Calm(evs)
    ensures var m := LayerRun(c, l, evs); Early(m, random) && m.read == l.read + PeerCcs(evs)
  {
    hide Quiet, Calm;
    CalmIsQuiet(c, l, evs);
    QuietKeepsEarly(l, LayerRun(c, l, evs), random);
  }

  lemma CalmKeepsLate(cfg: Config, l: Layer, evs: seq<Event>, random: bytes, cached: Option<Delegate>)
    requires cfg.library.HmacLaw() && Late(cfg, l, random, cached) && Calm(evs)
    ensures var m := LayerRun(cfg.library, l, evs);
            Late(cfg, m, random, cached) && m.read == l.read + PeerCcs(evs) && Discreet(l, m)
  {
    hide Calm, Keyed, Discreet, OthersKeyless;
    CalmIsQuiet(cfg.library, l, evs);
    DiscreetKeepsLate(cfg, l, LayerRun(cfg.library, l, evs), random, cached);
  }

  lemma KeyedByComputation(cfg: Config, conn: ConnState, random: bytes)
    requires cfg.library.HmacLaw() && cfg.psk.Some? && conn.entity == Client
    ensures var keyed := WithMasterSecret(cfg.library, conn, PreMasterSecret(cfg.psk.value.1));
            keyed.Some? && conn.clientRandom == Some(random) ==>
              && Keyed(cfg, keyed.value, random)
              && keyed.value == conn.(masterSecret := keyed.value.masterSecret, keys := keyed.value.keys)
  {
    hide PreMasterSecret, P;
    if conn.suite.Some? && conn.suite.value.prf.Some? && conn.serverRandom.Some? {
      var h, server := conn.suite.value.prf.value, conn.serverRandom.value;
      var master := MasterSecret(cfg.library, h, PreMasterSecret(cfg.psk.value.1), random, server);
      PIsBlockStream(cfg.library, h, master, Ascii("key expansion") + (server + random),
                     KeyBlockLength(conn.suite.value));
    }
  }

  /** The keys can only be computed for the one epoch that knows the client random. */
  lemma OnlyEpochOneIsKeyed(cfg: Config, l: Layer, random: bytes)
    requires Early(l, random) && cfg.library.HmacLaw() && cfg.psk.Some? && NextEpochNr(l) in l.epochs
    ensures var n := NextEpochNr(l);
            var keyed := WithMasterSecret(cfg.library, l.epochs[n].conn, PreMasterSecret(cfg.psk.value.1));
            keyed.Some? ==>
              && n == 1 && l.read == 0
              && Keying(cfg, WithConn(l, 1, keyed.value), random, l.epochs[1].conn.decipher)
              && keyed.value.suite == l.epochs[1].conn.suite
              && keyed.value.serverRandom == l.epochs[1].conn.serverRandom
  {
    hide PreMasterSecret, MasterSecret, KeyBlock, Table, Partition;
    var n := NextEpochNr(l);
    var keyed := WithMasterSecret(cfg.library, l.epochs[n].conn, PreMasterSecret(cfg.psk.value.1));
    KeyedByComputation(cfg, l.epochs[n].conn, random);
    if keyed.Some? {
      WithConnKeepsTable(l, n, keyed.value);
    }
  }

  // ---- the client's answer ----

  /** What the client answers with, as packets: ClientKeyExchange and ChangeCipherSpec in epoch
      0, and record 0 of epoch 1, protected with the keys. */
  ghost predicate ReplyPackets(c: Library, rnd: Entropy, l: Layer, cke: Message, fin: Message, ps: seq<Packet>)
    requires 0 in l.epochs && 1 in l.epochs && l.epochs[1].conn.suite.Some?
  {
    && |ps| == 3
    && var e, conn, d := l.epochs[0], l.epochs[1].conn, DelegateOf(l.epochs[1].conn);
    && ps[0] == Packet(cke.typ, e.conn.major, e.conn.minor, 0, e.writeSeq + 1, cke.data)
    && ps[1] == Packet(CHANGE_CIPHER_SPEC, e.conn.major, e.conn.minor, 0, e.writeSeq + 2, [1])
    && Encrypt(c, d, Packet(fin.typ, conn.major, conn.minor, 1, 0, fin.data), Draw(rnd, 1, 0, RecordIvLength(d.suite)))
       == Some(ps[2])
  }

  lemma EncryptsWithKeys(c: Library, d: Delegate, packet: Packet, iv: bytes)
    requires d.keys.Some?
    ensures Encrypt(c, d, packet, iv).Some?
    ensures d.suite.kind.NullCipher? ==> Encrypt(c, d, packet, iv) == Some(packet)
  {
  }

  lemma ReplyIsSent(c: Library, rnd: Entropy, l: Layer, cke: Message, fin: Message) returns (ps: seq<Packet>)
    requires Table(l) && l.write == 0 && 0 in l.epochs && 1 in l.epochs && cke.typ != CHANGE_CIPHER_SPEC
             && fin.typ != CHANGE_CIPHER_SPEC
    requires l.epochs[0].conn.suite == Some(NULL_SUITE) && l.epochs[1].writeSeq == -1
    requires var conn := l.epochs[1].conn; conn.suite.Some? && conn.keys.Some? && conn.cipher == None
    ensures ReplyPackets(c, rnd, l, cke, fin, ps)
    ensures var (m, buf) := OutgoingAll(c, rnd, l, [cke, CCS_MESSAGE, fin]);
            && buf == Some(Print(ps[0]) + Print(ps[1]) + Print(ps[2]))
            && m.write == 1 && 1 in m.epochs && m.epochs[1].writeSeq == 0
  {
    hide Encrypt, Print, Table, Outgoing, Protected, OutgoingAll, Numbered, Plain;
    var conn := l.epochs[1].conn;
    var l1, l2 := FirstTwo(c, rnd, l, cke);
    CipherOfKeys(conn);
    EncryptsWithKeys(c, DelegateOf(conn), Packet(fin.typ, conn.major, conn.minor, 1, 0, fin.data),
                     Draw(rnd, 1, 0, RecordIvLength(conn.suite.value)));
    var p2 := FinishedIsSent(c, rnd, l2, fin);
    ps := [Plain(l, cke), Plain(l1, CCS_MESSAGE), p2];
    PlainFields(l, l1, cke);
    SendsThree(c, rnd, l, cke, fin, ps);
  }

  lemma CipherOfKeys(conn: ConnState)
    requires conn.suite.Some? && conn.cipher == None
    ensures conn.CipherInUse() == Some(DelegateOf(conn))
  {
  }

  lemma FirstTwo(c: Library, rnd: Entropy, l: Layer, cke: Message) returns (l1: Layer, l2: Layer)
    requires Table(l) && l.write == 0 && 0 in l.epochs && 1 in l.epochs && cke.typ != CHANGE_CIPHER_SPEC
    requires l.epochs[0].conn.suite == Some(NULL_SUITE)
    ensures Table(l1) && Table(l2) && l1.write == 0 && 0 in l1.epochs && l2.write == 1 && 1 in l2.epochs
    ensures l1 == Outgoing(c, rnd, l, cke).0 && Outgoing(c, rnd, l, cke).1 == Some(Print(Plain(l, cke)))
    ensures l2 == Outgoing(c, rnd, l1, CCS_MESSAGE).0
    ensures Outgoing(c, rnd, l1, CCS_MESSAGE).1 == Some(Print(Plain(l1, CCS_MESSAGE)))
    ensures l1.epochs[0] == l.epochs[0].(writeSeq := l.epochs[0].writeSeq + 1) && l2.epochs[1] == l.epochs[1]
  {
    hide Table;
    PlainIsSent(c, rnd, l, cke);
    OutgoingKeepsTable(c, rnd, l, cke);
    l1 := Outgoing(c, rnd, l, cke).0;
    PlainIsSent(c, rnd, l1, CCS_MESSAGE);
    OutgoingKeepsTable(c, rnd, l1, CCS_MESSAGE);
    l2 := Outgoing(c, rnd, l1, CCS_MESSAGE).0;
  }

  lemma PlainFields(l: Layer, l1: Layer, cke: Message)
    requires l.write == 0 && 0 in l.epochs && l1.write == 0 && 0 in l1.epochs
    requires l1.epochs[0] == l.epochs[0].(writeSeq := l.epochs[0].writeSeq + 1)
    ensures var e := l.epochs[0];
            && Plain(l, cke) == Packet(cke.typ, e.conn.major, e.conn.minor, 0, e.writeSeq + 1, cke.data)
            && Plain(l1, CCS_MESSAGE) == Packet(CHANGE_CIPHER_SPEC, e.conn.major, e.conn.minor, 0, e.writeSeq + 2, [1])
  {
  }

  lemma FinishedIsSent(c: Library, rnd: Entropy, l: Layer, fin: Message) returns (p: Packet)
    requires l.write == 1 && 1 in l.epochs && l.epochs[1].writeSeq == -1 && fin.typ != CHANGE_CIPHER_SPEC
    requires var conn := l.epochs[1].conn; conn.suite.Some? && conn.keys.Some? && conn.cipher == None
    ensures var conn, d := l.epochs[1].conn, DelegateOf(l.epochs[1].conn);
            && Encrypt(c, d, Packet(fin.typ, conn.major, conn.minor, 1, 0, fin.data),
                       Draw(rnd, 1, 0, RecordIvLength(d.suite)))
               == Some(p)
            && Outgoing(c, rnd, l, fin).1 == Some(Print(p))
            && var m := Outgoing(c, rnd, l, fin).0; m.write == 1 && 1 in m.epochs && m.epochs[1].writeSeq == 0
  {
    hide Encrypt, Print;
    var conn, d := l.epochs[1].conn, DelegateOf(l.epochs[1].conn);
    CipherOfKeys(conn);
    var plain := Packet(fin.typ, conn.major, conn.minor, 1, 0, fin.data);
    EncryptsWithKeys(c, d, plain, Draw(rnd, 1, 0, RecordIvLength(d.suite)));
    p := Encrypt(c, d, plain, Draw(rnd, 1, 0, RecordIvLength(d.suite))).value;
    assert Plain(l, fin) == plain;
  }

  lemma SendsThree(c: Library, rnd: Entropy, l: Layer, a: Message, b: Message, ps: seq<Packet>)
    requires Table(l) && l.write in l.epochs && |ps| == 3
    requires var (l1, x) := Outgoing(c, rnd, l, a);
             && Table(l1) && l1.write in l1.epochs && x == Some(Print(ps[0]))
             && var (l2, y) := Outgoing(c, rnd, l1, CCS_MESSAGE);
             && Table(l2) && l2.write in l2.epochs && y == Some(Print(ps[1]))
             && Outgoing(c, rnd, l2, b).1 == Some(Print(ps[2]))
    ensures var l2 := Outgoing(c, rnd, Outgoing(c, rnd, l, a).0, CCS_MESSAGE).0;
            OutgoingAll(c, rnd, l, [a, CCS_MESSAGE, b])
            == (Outgoing(c, rnd, l2, b).0, Some(Print(ps[0]) + Print(ps[1]) + Print(ps[2])))
  {
    hide Outgoing, Print, Table;
    var msgs := [a, CCS_MESSAGE, b];
    assert msgs[1..] == [CCS_MESSAGE, b] && msgs[1..][1..] == [b] && [b][1..] == [];
    var l1 := Outgoing(c, rnd, l, a).0;
    var l2 := Outgoing(c, rnd, l1, CCS_MESSAGE).0;
    var (l3, z) := Outgoing(c, rnd, l2, b);
    OutgoingKeepsTable(c, rnd, l2, b);
    assert OutgoingAll(c, rnd, l3, []) == (l3, Some([]));
    assert Print(ps[2]) + [] == Print(ps[2]);
    assert OutgoingAll(c, rnd, l2, [b]) == (l3, Some(Print(ps[2])));
    assert Print(ps[0]) + (Print(ps[1]) + Print(ps[2])) == Print(ps[0]) + Print(ps[1]) + Print(ps[2]);
  }

  /** Between `a`, with the keys computed, and `r` the client answered: it sent exactly one
      datagram, with its ClientKeyExchange and ChangeCipherSpec in the clear and its Finished as
      record 0 of epoch 1, the Finished covering all that was said before, and it waits for the
      server's Finished. */
  ghost predicate Replied(cfg: Config, a: Endpoint, r: Endpoint) {
    && 0 in a.l.epochs && 1 in a.l.epochs && a.l.epochs[1].conn.suite.Some? && cfg.psk.Some? && a.h.lastSent >= -1
    && |r.h.lastFlight| == 2
    && var cke, fin := r.h.lastFlight[0], r.h.lastFlight[1];
    && r.h == a.h.(lastSent := a.h.lastSent + 2, lastFlight := [cke, fin], expected := Some([FINISHED]), outgoing := [],
                   flightBegun := false, transcript := a.h.transcript + [Encoding(cke), Encoding(fin)])
    && cke == ClientKeyExchange(cfg.psk.value.0).(seqNum := a.h.lastSent + 1)
    && fin == FinishedMessage(BytesOf(Field(fin, 0))).(seqNum := a.h.lastSent + 2)
    && VerifyData(cfg.library, a.l.epochs[1].conn, a.h.transcript + [Encoding(cke)], "client finished")
       == Some(BytesOf(Field(fin, 0)))
    && Body(cke) != [] && Body(fin) != [] && 1 in r.l.epochs && r.l.epochs[1].writeSeq == 0
    && exists ps :: ReplyPackets(cfg.library, cfg.entropy, a.l, FirstRecord(cke), FirstRecord(fin), ps)
                    && r.l.sent == a.l.sent + [Print(ps[0]) + Print(ps[1]) + Print(ps[2])]
  }

  lemma FinishedBody(verifyData: bytes, n: nat)
    ensures Body(FinishedMessage(verifyData).(seqNum := n)) == verifyData
    ensures BytesOf(Field(FinishedMessage(verifyData).(seqNum := n), 0)) == verifyData
  {
    var v := VBuf(verifyData);
    assert [RestSpec][1..] == [] && [v][1..] == [];
    assert SerializeFields([RestSpec], [v]) == Serialize(RestSpec, v) + [];
    assert Sound(FinishedMessage(verifyData).(seqNum := n));
  }

  lemma KeyExchangeBody(identity: bytes, n: nat)
    ensures Body(ClientKeyExchange(identity).(seqNum := n)) == Body(ClientKeyExchange(identity)) != []
  {
    hide Serialize;
    ClientKeyExchangeLayout(identity);
  }

  /** What is queued for the answer. */
  lemma AnswerIsQueued(h: Handler, identity: bytes, verifyData: bytes)
    requires h.lastSent >= -1 && h.outgoing == [] && verifyData != []
    ensures var cke := ClientKeyExchange(identity).(seqNum := h.lastSent + 1);
            var fin := FinishedMessage(verifyData).(seqNum := h.lastSent + 2);
            var h1 := Enqueue(Begin(h), ClientKeyExchange(identity));
            && h1.transcript == h.transcript + [Encoding(cke)] && h1.lastSent == h.lastSent + 1
            && Body(cke) != [] && Body(fin) != [] && BytesOf(Field(fin, 0)) == verifyData
            && Enqueue(h1, FinishedMessage(verifyData))
               == h.(lastSent := h.lastSent + 2, lastFlight := [cke, fin], flightBegun := true,
                     outgoing := [FirstRecord(cke), CCS_MESSAGE, FirstRecord(fin)],
                     transcript := h.transcript + [Encoding(cke), Encoding(fin)])
  {
    hide PrintFragment, RecordsOf, Body, FirstRecord, ToFragment;
    var cke := ClientKeyExchange(identity).(seqNum := h.lastSent + 1);
    var fin := FinishedMessage(verifyData).(seqNum := h.lastSent + 2);
    KeyExchangeBody(identity, h.lastSent + 1);
    FinishedBody(verifyData, h.lastSent + 2);
    OneRecord(cke);
    OneRecord(fin);
    var h1 := Enqueue(Begin(h), ClientKeyExchange(identity));
    assert h1.outgoing == [FirstRecord(cke)];
    assert h.transcript + [Encoding(cke)] + [Encoding(fin)] == h.transcript + [Encoding(cke), Encoding(fin)];
  }

  lemma KeyedVerifies(cfg: Config, conn: ConnState, random: bytes, transcript: seq<bytes>, usage: string)
    requires cfg.library.HmacLaw() && Keyed(cfg, conn, random)
    ensures var v := VerifyData(cfg.library, conn, transcript, usage);
            v.Some? && |v.value| == conn.suite.value.verifyDataLength > 0
  {
    hide P;
    KeyedHasSuite(cfg, conn, random);
    VerifyDataIsPrf(cfg.library, conn, transcript, usage);
  }

  /** With the keys computed the client always answers. */
  lemma AnswerIsSent(cfg: Config, cl: Endpoint, random: bytes, cached: Option<Delegate>)
    requires Live(cl) && cfg.library.HmacLaw() && Keying(cfg, cl.l, random, cached) && cl.h.outgoing == []
    ensures cfg.psk.Some?
    ensures var (r, status) := Answer(cfg, cl, cfg.psk.value.0);
            && status == Continues && Replied(cfg, cl, r) && Late(cfg, r.l, random, cached)
            && r.l.read == cl.l.read && Discreet(cl.l, r.l)
  {
    hide Table, VerifyData, Enqueue, PrintFragment, ToFragment, Encrypt, Print, Keyed, OthersKeyless, Discreet,
         OutgoingAll, ReplyPackets, Body, RecordsOf;
    KeyedHasSuite(cfg, cl.l.epochs[1].conn, random);
    PskIsThere(cfg, cl.l.epochs[1].conn, random);
    var identity := cfg.psk.value.0;
    var h1 := Enqueue(Begin(cl.h), ClientKeyExchange(identity));
    KeyedVerifies(cfg, cl.l.epochs[1].conn, random, h1.transcript, "client finished");
    var v := VerifyData(cfg.library, cl.l.epochs[1].conn, h1.transcript, "client finished").value;
    AnswerIsQueued(cl.h, identity, v);
    var h2 := Enqueue(h1, FinishedMessage(v));
    var ps := ReplyIsSent(cfg.library, cfg.entropy, cl.l, h2.outgoing[0], h2.outgoing[2]);
    SendingIsDiscreet(cfg.library, cfg.entropy, cl.l, h2.outgoing);
    SendingKeepsSent(cfg.library, cfg.entropy, cl.l, h2.outgoing);
    var m := OutgoingAll(cfg.library, cfg.entropy, cl.l, h2.outgoing).0;
    var r := Answer(cfg, cl, identity).0;
    SentKeepsTable(m, r.l.sent);
    KeyingBecomesLate(cfg, cl.l, m, random, cached);
    SentKeepsLate(cfg, m, r.l.sent, random, cached);
    DiscreetIgnoresSent(cl.l, m, r.l.sent);
  }

  lemma PskIsThere(cfg: Config, conn: ConnState, random: bytes)
    requires cfg.library.HmacLaw() && Keyed(cfg, conn, random)
    ensures cfg.psk.Some?
  {
  }

  lemma DiscreetIgnoresSent(l: Layer, m: Layer, sent: seq<bytes>)
    requires Discreet(l, m)
    ensures Discreet(l, m.(sent := sent))
  {
  }

  lemma SentKeepsLate(cfg: Config, m: Layer, sent: seq<bytes>, random: bytes, cached: Option<Delegate>)
    requires cfg.library.HmacLaw() && Late(cfg, m, random, cached)
    ensures Late(cfg, m.(sent := sent), random, cached)
  {
    hide Keyed, Keyless;
  }

  lemma KeyingBecomesLate(cfg: Config, l: Layer, m: Layer, random: bytes, cached: Option<Delegate>)
    requires cfg.library.HmacLaw() && Keying(cfg, l, random, cached) && Discreet(l, m) && Table(m) && m.write == 1
             && 1 in m.epochs
    ensures Late(cfg, m, random, cached)
  {
    hide Cached, Keyed, OthersKeyless, Table;
    CachedKeepsKeyed(cfg, l.epochs[1].conn, m.epochs[1].conn, random);
    DiscreetKeepsOthers(l, m);
    CachedFields(l.epochs[1].conn, m.epochs[1].conn);
    KeyedHasSuite(cfg, l.epochs[1].conn, random);
    CipherOfKeys(l.epochs[1].conn);
  }

  // ---- which server flights the client answers ----

  /** A ServerKeyExchange is accepted: the suite is known, and for PSK the length of the hint is there. */
  predicate HintParses(suite: Option<CipherSuite>, m: Handshake) {
    && suite.Some?
    && (suite.value.keyExchange == Psk ==> |BytesOf(Field(m, 0))| >= 2)
  }

  /** The client can answer once the ServerHelloDone comes. */
  predicate CanAnswer(cfg: Config, suite: Option<CipherSuite>, greeted: bool) {
    && greeted && suite.Some? && suite.value.keyExchange == Psk && suite.value.prf.Some?
    && cfg.psk.Some?
  }

  /** The flight, up to its ServerHelloDone, is acceptable after a suite was negotiated and a
      ServerHello seen or not. */
  predicate Acceptable(cfg: Config, suite: Option<CipherSuite>, greeted: bool, ms: seq<Handshake>)
    decreases |ms|
  {
    if ms == [] then false
    else if ms[0].msgType == SERVER_HELLO then Acceptable(cfg, cfg.suites(NumberOf(Field(ms[0], 3))), true, ms[1..])
    else if ms[0].msgType == SERVER_KEY_EXCHANGE then HintParses(suite, ms[0])
      && Acceptable(cfg, suite, greeted, ms[1..])
    else if ms[0].msgType == SERVER_HELLO_DONE then CanAnswer(cfg, suite, greeted)
    else Acceptable(cfg, suite, greeted, ms[1..])
  }

  /** What fails is that the suite, though known, is not for PSK; everything before it is accepted. */
  predicate Unsupported(cfg: Config, suite: Option<CipherSuite>, ms: seq<Handshake>)
    decreases |ms|
  {
    if ms == [] then false
    else if ms[0].msgType == SERVER_HELLO then Unsupported(cfg, cfg.suites(NumberOf(Field(ms[0], 3))), ms[1..])
    else if ms[0].msgType == SERVER_KEY_EXCHANGE then HintParses(suite, ms[0]) && Unsupported(cfg, suite, ms[1..])
    else if ms[0].msgType == SERVER_HELLO_DONE then suite.Some? && suite.value.keyExchange != Psk
    else Unsupported(cfg, suite, ms[1..])
  }

  /** The last ServerHello before the first ServerHelloDone, or `hello` if there is none. */
  function LastHello(hello: Option<Handshake>, ms: seq<Handshake>): Option<Handshake>
    decreases |ms|
  {
    if ms == [] || ms[0].msgType == SERVER_HELLO_DONE then hello
    else LastHello(if ms[0].msgType == SERVER_HELLO then Some(ms[0]) else hello, ms[1..])
  }

  /** Suite and server random are those of the hello, or as before without one. */
  predicate Negotiated(cfg: Config, before: ConnState, conn: ConnState, hello: Option<Handshake>) {
    && conn.suite == (if hello.Some? then cfg.suites(NumberOf(Field(hello.value, 3))) else before.suite)
    && conn.serverRandom == if hello.Some? then Some(RandomBytes(hello.value)) else before.serverRandom
  }

  /** A change of parameters that touches neither secrets nor delegates. */
  predicate Harmless(e: nat, a: ConnState, b: ConnState) {
    && b.entity == a.entity && b.masterSecret == a.masterSecret && b.keys == a.keys && b.clientRandom == a.clientRandom
    && b.cipher == a.cipher && b.decipher == a.decipher && (e == 0 ==> b.suite == a.suite)
  }

  lemma HarmlessKeepsEarly(l: Layer, e: nat, conn: ConnState, random: bytes)
    requires Early(l, random) && e in l.epochs && Harmless(e, l.epochs[e].conn, conn)
    ensures Early(WithConn(l, e, conn), random)
  {
    hide Table;
    WithConnKeepsTable(l, e, conn);
  }

  lemma ServerHelloKeepsEarly(cfg: Config, cl: Endpoint, m: Handshake, random: bytes)
    requires Live(cl) && Early(cl.l, random)
    ensures var r := HandleServerHello(cfg, cl, m);
            && Early(r.l, random) && r.h == cl.h && r.l.read == cl.l.read && r.l.sent == cl.l.sent
            && r.l.epochs[0].writeSeq == cl.l.epochs[0].writeSeq
            && r.l.epochs[1].conn.decipher == cl.l.epochs[1].conn.decipher
            && Negotiated(cfg, cl.l.epochs[1].conn, r.l.epochs[1].conn, if cl.l.read == 0 then Some(m) else None)
  {
    hide RandomBytes, NumberOf, Table, Early;
    CurrentEpochsExist(cl.l);
    WritesInZero(cl.l, random);
    var r, n := HandleServerHello(cfg, cl, m).l, NextEpochNr(cl.l);
    var c0 := cl.l.epochs[n].conn.(serverRandom := Some(RandomBytes(m)), suite := cfg.suites(NumberOf(Field(m, 3))));
    var l1 := WithConn(cl.l, n, c0);
    HarmlessKeepsEarly(cl.l, n, c0, random);
    var c1 := l1.epochs[0].conn.(major := r.epochs[0].conn.major, minor := r.epochs[0].conn.minor);
    HarmlessKeepsEarly(l1, 0, c1, random);
    var l2 := WithConn(l1, 0, c1);
    HarmlessKeepsEarly(l2, 1, l2.epochs[1].conn.(major := r.epochs[1].conn.major, minor := r.epochs[1].conn.minor),
                       random);
  }

  lemma WritesInZero(l: Layer, random: bytes)
    requires Early(l, random)
    ensures l.write == 0 && 0 in l.epochs && 1 in l.epochs && NextEpochNr(l) >= 1
  {
  }

  lemma HintDecides(cl: Endpoint, m: Handshake, random: bytes)
    requires Live(cl) && Early(cl.l, random)
    ensures HandleServerKeyExchange(cl, m) in {Continues, Threw}
    ensures cl.l.read == 0 ==> (HandleServerKeyExchange(cl, m).Continues? <==> HintParses(cl.l.epochs[1].conn.suite, m))
  {
    hide Deserialize, Table, Keyless;
    CurrentEpochsExist(cl.l);
    HintParsesIff(BytesOf(Field(m, 0)));
  }

  /** A flight that is not answered leaves the handler as it is, but for a failure that is
      announced unless there was an exception. */
  predicate Rejected(a: Endpoint, r: Endpoint, status: Status) {
    r.h == if status.Returned? then a.h.(outcomes := a.h.outcomes + [HandshakeFailure]) else a.h
  }

  /** The endpoint whose next epoch has just been keyed. */
  function WithKeys(cfg: Config, cl: Endpoint): Endpoint
    requires cfg.library.HmacLaw() && cfg.psk.Some? && 1 in cl.l.epochs
  {
    var keyed := WithMasterSecret(cfg.library, cl.l.epochs[1].conn, PreMasterSecret(cfg.psk.value.1));
    if keyed.Some? then cl.(l := WithConn(cl.l, 1, keyed.value)) else cl
  }

  /** The client answered a ServerHelloDone with the parameters of epoch 1 in `cl`. */
  ghost predicate Answered(cfg: Config, cl: Endpoint, r: Endpoint, random: bytes)
    requires cfg.library.HmacLaw()
  {
    && cfg.psk.Some? && 1 in cl.l.epochs && cl.l.read == 0
    && var cached, a := cl.l.epochs[1].conn.decipher, WithKeys(cfg, cl);
    && Keying(cfg, a.l, random, cached) && Replied(cfg, a, r)
    && Late(cfg, r.l, random, cached) && r.l.read == 0 && Discreet(a.l, r.l)
  }

  lemma AnsweredShape(cfg: Config, cl: Endpoint, r: Endpoint, random: bytes)
    requires cfg.library.HmacLaw() && Answered(cfg, cl, r, random)
    ensures 1 in cl.l.epochs && Late(cfg, r.l, random, cl.l.epochs[1].conn.decipher)
    ensures r.h == cl.h.(lastSent := r.h.lastSent, lastFlight := r.h.lastFlight, transcript := r.h.transcript,
                         expected := Some([FINISHED]), outgoing := [], flightBegun := false)
    ensures |r.l.sent| == |cl.l.sent| + 1 && r.l.sent[..|cl.l.sent|] == cl.l.sent && r.l.read == 0
  {
    hide Keyed, Keying, Late, ReplyPackets;
  }

  /** The client answers a ServerHelloDone if and only if it can, and then in full. */
  lemma DoneIsAnsweredIff(cfg: Config, cl: Endpoint, random: bytes)
    requires Live(cl) && cfg.library.HmacLaw() && Early(cl.l, random) && cl.h.outgoing == []
    ensures var conn, (r, status) := cl.l.epochs[1].conn, HandleServerHelloDone(cfg, cl);
            && (status.Continues? <==> cl.l.read == 0 && CanAnswer(cfg, conn.suite, conn.serverRandom.Some?))
            && (status.Continues? ==> Answered(cfg, cl, r, random))
            && (!status.Continues? ==> r.l == cl.l && Rejected(cl, r, status))
            && (cl.l.read == 0 ==> (status.Returned? <==> conn.suite.Some? && conn.suite.value.keyExchange != Psk))
  {
    hide Table, PreMasterSecret, WithMasterSecret, Answer, Keyed, Late, Replied, Keyless, OthersKeyless, Discreet;
    CurrentEpochsExist(cl.l);
    var n := NextEpochNr(cl.l);
    var conn := cl.l.epochs[n].conn;
    if conn.suite.Some? && conn.suite.value.keyExchange == Psk && cfg.psk.Some? {
      OnlyEpochOneIsKeyed(cfg, cl.l, random);
      WhenKeyed(cfg.library, conn, PreMasterSecret(cfg.psk.value.1));
      KnowsRandom(cl.l, n, random);
      if WithMasterSecret(cfg.library, conn, PreMasterSecret(cfg.psk.value.1)).Some? {
        var a := WithKeys(cfg, cl);
        KeyingHasTable(cfg, a.l, random, conn.decipher);
        AnswerIsSent(cfg, a, random, conn.decipher);
      }
    }
  }

  lemma KnowsRandom(l: Layer, n: nat, random: bytes)
    requires Early(l, random) && n in l.epochs
    ensures l.epochs[n].conn.clientRandom.Some? <==> n == 1
  {
  }

  lemma KeyingHasTable(cfg: Config, l: Layer, random: bytes, cached: Option<Delegate>)
    requires cfg.library.HmacLaw() && Keying(cfg, l, random, cached)
    ensures Table(l)
  {
  }

  lemma WhenKeyed(c: Library, conn: ConnState, preMaster: bytes)
    requires c.HmacLaw()
    ensures WithMasterSecret(c, conn, preMaster).Some?
       <==> conn.suite.Some? && conn.suite.value.prf.Some? && conn.clientRandom.Some? && conn.serverRandom.Some?
  {
  }

  // ---- whole server flights ----

  lemma NoSuccessReflexive(h: Handler)
    ensures NoSuccess(h, h)
  {
  }

  /** From `cl` to `a` only ServerHellos were handled, the last of them `hello`. */
  ghost predicate Greeted(cfg: Config, cl: Endpoint, a: Endpoint, random: bytes, hello: Option<Handshake>) {
    && Early(cl.l, random) && Live(a) && Early(a.l, random) && a.h == cl.h
    && a.l.read == cl.l.read && a.l.sent == cl.l.sent && a.l.epochs[0].writeSeq == cl.l.epochs[0].writeSeq
    && a.l.epochs[1].conn.decipher == cl.l.epochs[1].conn.decipher
    && (cl.l.read == 0 ==> Negotiated(cfg, cl.l.epochs[1].conn, a.l.epochs[1].conn, hello))
  }

  /** The client answers a flight if and only if it has followed no ChangeCipherSpec and the flight
      is acceptable; the answer uses the parameters of the last ServerHello. */
  lemma {:induction false} FlightIsAnsweredIff(cfg: Config, cl: Endpoint, at: Endpoint, ms: seq<Handshake>,
                                               random: bytes, hello: Option<Handshake>) returns (a: Endpoint)
    requires Live(cl) && cfg.library.HmacLaw() && cl.h.outgoing == [] && Greeted(cfg, cl, at, random, hello)
    requires ms != [] && forall i :: 0 <= i < |ms| ==> (ms[i].msgType == SERVER_HELLO_DONE <==> i == |ms| - 1)
    ensures var conn, (r, status) := at.l.epochs[1].conn, HandleServerFlight(cfg, at, ms);
            && (status.Continues? <==> cl.l.read == 0 && Acceptable(cfg, conn.suite, conn.serverRandom.Some?, ms))
            && (status.Continues? ==> Greeted(cfg, cl, a, random, LastHello(hello, ms)) && Answered(cfg, a, r, random))
            && (!status.Continues? ==>
                  Early(r.l, random) && Rejected(cl, r, status) && r.l.sent == cl.l.sent && r.l.read == cl.l.read)
            && (cl.l.read == 0 ==> (status.Returned? <==> Unsupported(cfg, conn.suite, ms)))
    decreases |ms|
  {
    hide HandleServerHello, HandleServerHelloDone, HandleServerKeyExchange, HintParses, CanAnswer, Table, Early,
         Answered, RandomBytes, NumberOf;
    a := at;
    HandleOneKeepsTable(cfg, at, ms[0]);
    if ms[0].msgType == SERVER_HELLO_DONE {
      DoneIsAnsweredIff(cfg, at, random);
      LastOfFlight(cfg, at, ms);
    } else {
      HintDecides(at, ms[0], random);
      ServerHelloKeepsEarly(cfg, at, ms[0], random);
      var (next, status) := HandleOne(cfg, at, ms[0]);
      if status.Continues? {
        var now := if ms[0].msgType == SERVER_HELLO then Some(ms[0]) else hello;
        a := FlightIsAnsweredIff(cfg, cl, next, ms[1..], random, now);
      }
    }
  }

  // ---- the cookie exchange and the start ----

  /** What a handler becomes by repeating its ClientHello with the cookie; of the queue of
      fragments and of the transcript it says nothing. */
  predicate Repeats(h: Handler, hvr: Handshake, r: Handler)
    requires h.lastFlight != [] && h.lastSent >= -1
  {
    r == h.(expected := Some([SERVER_HELLO_DONE]), lastProcessed := hvr.seqNum, complete := map[],
            lastSent := h.lastSent + 1, lastFlight := [CookieHello(h, hvr)], outgoing := [], flightBegun := false,
            transcript := r.transcript, incomplete := r.incomplete)
  }

  /** Between the two layers the message was sent in a datagram of its own, in the clear. */
  ghost predicate SentInClear(l: Layer, m: Layer, msg: Handshake) {
    && l.write == 0 && 0 in l.epochs && 0 in m.epochs
    && m.sent == l.sent + [T.PrintAll(ClearRecords(l, RecordsOf(msg)))]
    && m.epochs[0].writeSeq == l.epochs[0].writeSeq + |RecordsOf(msg)|
  }

  /** The handler with its hello queued again. */
  function Repeating(h: Handler, ms: seq<Handshake>): Handler
    requires ms != [] && h.lastFlight != [] && h.lastSent >= -1
  {
    Enqueue(Begin(Taken(h, ms)), WithCookie(h.lastFlight[0], BytesOf(Field(ms[|ms| - 1], 1))))
  }

  lemma RepeatingIsQueued(h: Handler, ms: seq<Handshake>)
    requires ms != [] && h.lastFlight != [] && h.lastSent >= -1 && h.outgoing == []
    requires h.lastFlight[0].msgType == CLIENT_HELLO
    ensures var q, hello := Repeating(h, ms), CookieHello(h, ms[|ms| - 1]);
            && hello.msgType == CLIENT_HELLO && q.outgoing == RecordsOf(hello) && NoCcs(q.outgoing)
            && q == h.(expected := None, lastProcessed := ms[|ms| - 1].seqNum, complete := map[],
                       lastSent := h.lastSent + 1, lastFlight := [hello], outgoing := RecordsOf(hello),
                       flightBegun := true, transcript := q.transcript)
  {
    hide RecordsOf, Hashed, PrintFragment, ToFragment, NeedsToHash;
    var hello := CookieHello(h, ms[|ms| - 1]);
    RecordsOfAreHandshake(hello);
    assert [] + [] + RecordsOf(hello) == RecordsOf(hello);
  }

  lemma DispatchRepeats(cfg: Config, cl: Endpoint, ms: seq<Handshake>)
    requires Live(cl) && cfg.library.HmacLaw() && ms != [] && ms[|ms| - 1].msgType == HELLO_VERIFY_REQUEST
    requires cl.h.lastFlight != []
    ensures var (r, status) := Finish(cfg, cl.(h := Repeating(cl.h, ms)), [SERVER_HELLO_DONE]);
            status.Continues? ==> Dispatch(cfg, cl, ms) == r
  {
    hide Finish, Table, Enqueue, Hashed, WithCookie;
  }

  /** A HelloVerifyRequest is always answered, in the clear, with the cookie. */
  lemma HelloIsRepeated(cfg: Config, cl: Endpoint, ms: seq<Handshake>, random: bytes)
    requires Live(cl) && cfg.library.HmacLaw() && Early(cl.l, random) && cl.h.outgoing == []
    requires ms != [] && ms[|ms| - 1].msgType == HELLO_VERIFY_REQUEST
    requires cl.h.lastFlight != [] && cl.h.lastFlight[0].msgType == CLIENT_HELLO
    ensures var r, hvr := Dispatch(cfg, cl, ms), ms[|ms| - 1];
            && Quiet(cl.l, r.l) && Table(r.l) && r.l.read == cl.l.read
            && SentInClear(cl.l, r.l, CookieHello(cl.h, hvr))
            && Repeats(cl.h, hvr, r.h) && r.h.incomplete == cl.h.incomplete
            && CookieHello(cl.h, hvr).msgType == CLIENT_HELLO
            && 1 in r.l.epochs && r.l.epochs[1].conn.decipher == cl.l.epochs[1].conn.decipher
  {
    hide Quiet, Finish, Table, Repeating, CookieHello, Dispatch, T.PrintAll, ClearRecords, RecordsOf, Keyless;
    var queued := cl.(h := Repeating(cl.h, ms));
    RepeatingIsQueued(cl.h, ms);
    ClearFlightIsSent(cfg, queued, [SERVER_HELLO_DONE]);
    NothingIsDeciphered(cfg, queued, [SERVER_HELLO_DONE]);
    DispatchRepeats(cfg, cl, ms);
  }

  /** The state right after the handler was created on a fresh record layer. */
  lemma StartIsEarly(cfg: Config, random: Value, suiteIds: seq<int>)
    ensures Table(FRESH_LAYER)
    ensures var (cl, status) := Start(cfg, FRESH_LAYER, random, suiteIds);
            && Live(cl) && status == Continues
            && Early(cl.l, RandomBytes(ClientHello(random, suiteIds))) && Blank(cl.l) && cl.l.read == 0
            && cl.l.epochs[1].conn.decipher == None
            && SentInClear(FirstLayer(RandomBytes(ClientHello(random, suiteIds))), cl.l, ClientHello(random, suiteIds))
            && ClientHello(random, suiteIds).msgType == CLIENT_HELLO
            && cl.h == RESET.(lastSent := 0, lastFlight := [ClientHello(random, suiteIds)],
                              expected := Some([SERVER_HELLO_DONE, HELLO_VERIFY_REQUEST]))
  {
    hide RandomBytes, RecordsOf, PrintFragment, ToFragment, Finish, Quiet;
    FreshLayerTable();
    var hello := ClientHello(random, suiteIds);
    var l := FirstLayer(RandomBytes(hello));
    RecordsOfAreHandshake(hello);
    assert hello.(seqNum := 0) == hello;
    var cl := Endpoint(Enqueue(Begin(RESET), hello), l);
    assert cl.h.outgoing == RecordsOf(hello);
    ClearFlightIsSent(cfg, cl, [SERVER_HELLO_DONE, HELLO_VERIFY_REQUEST]);
    var r := Finish(cfg, cl, [SERVER_HELLO_DONE, HELLO_VERIFY_REQUEST]).0.l;
    QuietKeepsEarly(l, r, RandomBytes(hello));
    QuietKeepsBlank(l, r);
    NothingIsDeciphered(cfg, cl, [SERVER_HELLO_DONE, HELLO_VERIFY_REQUEST]);
  }

  /** The fresh layer once epoch 1 knows the client random. */
  function FirstLayer(random: bytes): (l: Layer)
    ensures Early(l, random) && Blank(l) && l.read == 0 && l.sent == [] && l.epochs[1].conn.decipher == None
  {
    FreshLayerTable();
    WithConn(FRESH_LAYER, 1, FRESH_STATE.(clientRandom := Some(random)))
  }

  lemma OutgoingDecipher(c: Library, rnd: Entropy, l: Layer, msg: Message, e: nat)
    requires Table(l) && l.write in l.epochs && e in l.epochs
    ensures var m := Outgoing(c, rnd, l, msg).0; e in m.epochs && m.epochs[e].conn.decipher == l.epochs[e].conn.decipher
  {
    hide Protected;
  }

  /** Sending does not touch a decipher delegate. */
  lemma {:induction false} SendingDecipher(c: Library, rnd: Entropy, l: Layer, msgs: seq<Message>, e: nat)
    requires Table(l) && e in l.epochs
    ensures var m := OutgoingAll(c, rnd, l, msgs).0;
            e in m.epochs && m.epochs[e].conn.decipher == l.epochs[e].conn.decipher
    decreases |msgs|
  {
    if msgs != [] {
      hide Outgoing, Table;
      CurrentEpochsExist(l);
      OutgoingKeepsTable(c, rnd, l, msgs[0]);
      OutgoingDecipher(c, rnd, l, msgs[0], e);
      SendingDecipher(c, rnd, Outgoing(c, rnd, l, msgs[0]).0, msgs[1..], e);
    }
  }

  lemma NothingIsDeciphered(cfg: Config, cl: Endpoint, expected: seq<nat>)
    requires Live(cl)
    ensures var m := Finish(cfg, cl, expected).0.l;
            forall e: nat :: e in cl.l.epochs ==>
              e in m.epochs && m.epochs[e].conn.decipher == cl.l.epochs[e].conn.decipher
  {
    hide OutgoingAll, Table;
    forall e: nat | e in cl.l.epochs
      ensures var m := Finish(cfg, cl, expected).0.l;
              e in m.epochs && m.epochs[e].conn.decipher == cl.l.epochs[e].conn.decipher
    {
      SendingDecipher(cfg.library, cfg.entropy, cl.l, cl.h.outgoing, e);
    }
  }

  lemma CookieIsSet(h: Handler, hvr: Handshake, random: Value, suiteIds: seq<int>)
    requires h.lastFlight == [ClientHello(random, suiteIds)] && h.lastSent == 0 && BytesOf(Field(hvr, 1)) != []
    ensures CookieHello(h, hvr).msgType == CLIENT_HELLO && ClientCookie(CookieHello(h, hvr)) != []
  {
  }
}
