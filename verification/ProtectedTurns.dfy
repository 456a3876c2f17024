/** The two datagrams of a handshake that change the cipher arrive at the other side. */
module ProtectedTurns {
  import opened Bytes
  import opened BitConverter
  import opened Crypto
  import opened Protection
  import opened Packets
  import opened ConnectionStates
  import opened AntiReplay
  import opened Records
  import opened LayerChanges
  import opened Fragments
  import opened Handshakes
  import opened Handlers
  import opened Completion
  import opened HonestServer
  import opened Sizes
  import opened HonestHandshake
  import R = RecordProofs
  import T = Transfer
  import K = KeyAgreement

  // ---- records that fit ----

  /** The longest plaintext (section 6.2.1 of RFC 5246). */
  const MAX_PLAINTEXT := 16384

  /** Protection makes a record longer by an IV, a MAC and a padding or a tag at most. */
  lemma EncryptedIsShort(c: Library, d: Delegate, packet: Packet, iv: bytes)
    requires c.Lawful() && |iv| == RecordIvLength(d.suite)
    ensures Encrypt(c, d, packet, iv).Some? ==>
              |Encrypt(c, d, packet, iv).value.fragment| <= |packet.fragment| + 1000
  {
    if d.keys.Some? {
      match d.suite.kind
      case NullCipher =>
      case BlockCipher(p, alg) => BlockIsShort(c, p, alg, d.keys.value, d.end, packet, iv);
      case AeadCipher(p) => AeadIsShort(c, p, d.keys.value, d.end, packet, iv);
    }
  }

  lemma BlockIsShort(c: Library, p: BlockParams, alg: Option<HashAlgorithm>, km: KeyMaterial, end: End, packet: Packet,
                     iv: bytes)
    requires c.Lawful() && 0 < p.blockSize <= 256 && p.recordIvLength == p.blockSize == |iv|
    ensures |BlockEncrypt(c, p, alg, km, end, packet, iv).fragment| <= |packet.fragment| + 1000
  {
    hide MacHeader, Mac;
    var header := MacHeader(packet, |packet.fragment|);
    MacHasItsSize(c, alg, header + packet.fragment, km, end);
    var plaintext := packet.fragment + Mac(c, alg, header + packet.fragment, km, end);
    PaddingAligns(|plaintext|, p.blockSize);
    var padded := plaintext + Padding(|plaintext|, p.blockSize);
    assert |padded| % p.blockSize == 0;
    assert |c.encipher(p, km.Key(end), iv, padded)| == |padded|;
  }

  lemma AeadIsShort(c: Library, p: AeadParams, km: KeyMaterial, end: End, packet: Packet, iv: bytes)
    requires c.Lawful() && 0 < p.authTagLength <= 256 && |iv| == p.recordIvLength <= 256
    ensures |AeadEncrypt(c, p, km, end, packet, iv).fragment| <= |packet.fragment| + 1000
  {
    hide MacHeader;
    var sealed := c.seal(p, km.Key(end), km.Iv(end) + iv, packet.fragment, MacHeader(packet, |packet.fragment|));
    assert |sealed.0| == |packet.fragment| && |sealed.1| == p.authTagLength;
  }

  /** Epoch 0 is plain, and epoch 1 has keys and was not written in. */
  ghost predicate CanChange(l: Layer) {
    && Table(l) && l.write == 0 && 0 in l.epochs && 1 in l.epochs
    && l.epochs[0].conn.suite == Some(NULL_SUITE)
    && l.epochs[1].writeSeq == -1 && l.epochs[1].conn.suite.Some? && l.epochs[1].conn.CipherInUse().Some?
    && l.epochs[1].conn.CipherInUse().value.suite == l.epochs[1].conn.suite.value
    && l.epochs[1].conn.CipherInUse().value.keys.Some?
  }

  lemma ProtectedIsShort(c: Library, rnd: Entropy, l: Layer, msg: Message)
    requires c.Lawful() && l.write in l.epochs && |msg.data| <= MAX_PLAINTEXT
    ensures Protected(c, rnd, l, msg).Some? ==> |Protected(c, rnd, l, msg).value.fragment| <= MAX_FRAGMENT
  {
    hide Encrypt, Library.Lawful;
    var conn := l.epochs[l.write].conn;
    if conn.suite.Some? && !conn.suite.value.kind.NullCipher? {
      var d, p := conn.CipherInUse().value, Plain(l, msg);
      EncryptedIsShort(c, d, p, Draw(rnd, p.epoch, p.seqNum, RecordIvLength(d.suite)));
    }
  }

  lemma {:induction false} ShortFlightFits(c: Library, rnd: Entropy, l: Layer, msgs: seq<Message>)
    requires c.Lawful() && Table(l) && forall i :: 0 <= i < |msgs| ==> |msgs[i].data| <= 2000
    ensures T.Fits(c, rnd, l, msgs)
    decreases |msgs|
  {
    hide Protected, Outgoing, Table, Library.Lawful;
    if msgs != [] {
      CurrentEpochsExist(l);
      OutgoingKeepsTable(c, rnd, l, msgs[0]);
      ProtectedIsShort(c, rnd, l, msgs[0]);
      ShortFlightFits(c, rnd, Outgoing(c, rnd, l, msgs[0]).0, msgs[1..]);
    }
  }

  // ---- one side changes the cipher ----

  /** What the receiver of such a flight of `n` records needs. */
  ghost predicate Expects(s: Layer, r: Layer, n: nat) {
    && Table(r) && r.read == 0 && 0 in s.epochs && 1 in s.epochs && 0 in r.epochs && 1 in r.epochs
    && T.Joined(s.epochs[0].conn, r.epochs[0].conn) && T.Joined(s.epochs[1].conn, r.epochs[1].conn)
    && (forall q: int :: s.epochs[0].writeSeq < q <= s.epochs[0].writeSeq + n ==> T.Free(r.epochs[0].window, q))
    && (forall q: int :: s.epochs[1].writeSeq < q <= s.epochs[1].writeSeq + n ==> T.Free(r.epochs[1].window, q))
  }

  /** A flight with one ChangeCipherSpec, short messages before and behind it. */
  predicate Changes(msgs: seq<Message>) {
    && (forall i :: 0 <= i < |msgs| ==> |msgs[i].data| <= 2000 && 0 <= msgs[i].typ < 256)
    && (forall i, j :: 0 <= i < j < |msgs| ==> !(T.IsCcs(msgs[i]) && T.IsCcs(msgs[j])))
  }

  lemma ChangeArrives(c: Library, rnd: Entropy, s: Layer, r: Layer, msgs: seq<Message>, g: Garbage)
    requires c.Lawful() && CanChange(s) && Expects(s, r, |msgs|) && Changes(msgs)
    ensures var buf := OutgoingAll(c, rnd, s, msgs).1;
            buf.Some? && Messages(Receive(c, g, r, buf.value).1) == msgs
  {
    hide OutgoingAll, Receive, Table, Library.Lawful, T.Joined;
    ShortFlightFits(c, rnd, s, msgs);
    NumbersAreFree(s, r, 0, |msgs|);
    NumbersAreFree(s, r, 1, |msgs|);
    T.FlightTransfer(c, rnd, s, r, msgs, g);
  }

  lemma NumbersAreFree(s: Layer, r: Layer, e: nat, n: nat)
    requires Expects(s, r, n) && e < 2
    ensures T.Channel(s, r, e, n)
  {
    hide T.Joined, T.Free, Table;
  }

  lemma JoinedByKeys(s: ConnState, r: ConnState, suite: CipherSuite, keys: KeyMaterial, end: End)
    requires s.suite == Some(suite) && s.CipherInUse() == Some(Delegate(suite, Some(keys), end))
    requires r.DecipherInUse() == Some(Delegate(suite, Some(keys), Peer(end)))
    ensures T.Joined(s, r)
  {
  }

  lemma JoinedInClear(s: ConnState, r: ConnState)
    requires s.suite == Some(NULL_SUITE) && r.DecipherInUse().Some? && r.DecipherInUse().value.suite == NULL_SUITE
    ensures T.Joined(s, r)
  {
  }

  lemma FreeNumber(w: Window, ns: seq<int>, q: int)
    requires w == Marks(FRESH, ns) && Low(ns) && 0 <= q < WIDTH && q !in ns
    ensures T.Free(w, q)
  {
    hide Window.MayReceive, Marks;
    LowAccepts(ns, q);
  }

  // ---- the client changes, the server hears it ----

  /** The server computes its keys when it has sent its flight. */
  function WithServerKeys(c: Library, x: Exchange, l: Layer): (r: Layer)
    requires Table(l) && x.suite.prf.Some? && c.HmacLaw()
    ensures Table(r)
  {
    CurrentEpochsExist(l);
    WithConnKeepsTable(l, 1, l.epochs[1].conn.(suite := Some(x.suite), keys := Some(x.Keys(c))));
    WithConn(l, 1, l.epochs[1].conn.(suite := Some(x.suite), keys := Some(x.Keys(c))))
  }

  /** The server knows the keys, has sent `n` records in epoch 0 and received those of `ns`. */
  ghost predicate Prepared(c: Library, x: Exchange, l: Layer, n: nat, ns: seq<int>)
    requires x.suite.prf.Some? && c.HmacLaw()
  {
    && CanChange(l) && l.read == 0 && l.epochs[0].writeSeq == n - 1
    && l.epochs[0].conn.DecipherInUse() == Some(Delegate(NULL_SUITE, None, Server))
    && l.epochs[0].window == Marks(FRESH, ns) && Low(ns) && l.epochs[1].window == Marks(FRESH, [])
    && l.epochs[1].conn.suite == Some(x.suite)
    && l.epochs[1].conn.CipherInUse() == l.epochs[1].conn.DecipherInUse()
       == Some(Delegate(x.suite, Some(x.Keys(c)), Server))
  }

  lemma KeysPrepare(c: Library, x: Exchange, l: Layer, n: nat, ns: seq<int>)
    requires x.suite.prf.Some? && c.HmacLaw() && Plainly(l, n, ns)
    ensures Prepared(c, x, WithServerKeys(c, x, l), n, ns)
  {
    hide Exchange.Keys, Table, Window.Mark;
  }

  lemma OneChange(a: Message, b: Message)
    requires a.typ == HANDSHAKE == b.typ && |a.data| <= 2000 && |b.data| <= 2000
    ensures Changes([a, CCS_MESSAGE, b]) && Changes([CCS_MESSAGE, b])
  {
  }

  lemma ReplyIsShort(c: Library, x: Exchange)
    requires x.suite.prf.Some?
    ensures |Reply(c, x)| == 3 && Changes(Reply(c, x))
  {
    hide Changes, K.FirstRecord, Exchange.KeyExchange, Exchange.ClientsFinished;
    FirstRecordIsShort(x.KeyExchange());
    FirstRecordIsShort(x.ClientsFinished(c));
    OneChange(K.FirstRecord(x.KeyExchange()), K.FirstRecord(x.ClientsFinished(c)));
  }

  lemma LawfulHmac(c: Library)
    requires c.Lawful()
    ensures c.HmacLaw()
  {
  }

  lemma FirstRecordIsShort(m: Handshake)
    ensures K.FirstRecord(m).typ == HANDSHAKE && |K.FirstRecord(m).data| <= 2000
  {
    hide Body, PrintFragment;
    var body := Body(m);
    var n := if |body| < MAX_FRAGMENT_LENGTH then |body| else MAX_FRAGMENT_LENGTH;
    EncodingLength(Fragment(m.msgType, |body|, m.seqNum, 0, body[..n]));
  }

  lemma {:induction false} SelectedIsShorter(a: seq<Packet>, b: seq<Packet>)
    requires R.Selected(a, b)
    ensures |a| <= |b|
    decreases |b|
  {
    if a != [] {
      if R.SameHeader(a[0], b[0]) && R.Selected(a[1..], b[1..]) {
        SelectedIsShorter(a[1..], b[1..]);
      } else {
        SelectedIsShorter(a, b[1..]);
      }
    }
  }

  lemma {:induction false} SelectedAll(a: seq<Packet>, b: seq<Packet>)
    requires R.Selected(a, b) && |a| == |b|
    ensures forall i :: 0 <= i < |a| ==> R.SameHeader(a[i], b[i])
    decreases |b|
  {
    if a != [] {
      if R.Selected(a, b[1..]) {
        SelectedIsShorter(a, b[1..]);
      }
      SelectedAll(a[1..], b[1..]);
    }
  }

  /** A datagram of which every record is delivered. */
  lemma NumbersArrive(c: Library, g: Garbage, l: Layer, ps: seq<Packet>)
    requires Table(l) && |Receive(c, g, l, T.PrintAll(ps)).1| == |ps|
    requires forall i :: 0 <= i < |ps| ==> |ps[i].fragment| <= MAX_FRAGMENT
    ensures var records := Receive(c, g, l, T.PrintAll(ps)).1;
            forall i :: 0 <= i < |ps| ==>
              records[i].epoch == Wire(ps[i]).epoch && records[i].seqNum == Wire(ps[i]).seqNum
  {
    hide Receive, Table, T.PrintAll, Wire, Window.MayReceive, R.Selected;
    T.ParsesAll(ps, [], g);
    assert [] + T.PrintAll(ps) == T.PrintAll(ps);
    R.ReceiveDelivers(c, g, l, T.PrintAll(ps));
    SelectedAll(Receive(c, g, l, T.PrintAll(ps)).1, T.WireAll(ps));
  }

  /** Of the records of an answer only the Finished is one of epoch 1. */
  lemma ReplyIsNumbered(c: Library, rnd: Entropy, l: Layer, cke: Message, fin: Message, ps: seq<Packet>, sv: Layer,
                        g: Garbage)
    requires c.Lawful() && 0 in l.epochs && 1 in l.epochs && l.epochs[1].conn.suite.Some?
    requires K.ReplyPackets(c, rnd, l, cke, fin, ps) && |cke.data| <= 2000 && |fin.data| <= 2000 && Table(sv)
    requires |Receive(c, g, sv, Print(ps[0]) + Print(ps[1]) + Print(ps[2])).1| == 3
    ensures R.NumbersOf(1, Receive(c, g, sv, Print(ps[0]) + Print(ps[1]) + Print(ps[2])).1) == [0]
  {
    hide Receive, Table, Print, Library.Lawful, Encrypt, Wire;
    var conn, d := l.epochs[1].conn, K.DelegateOf(l.epochs[1].conn);
    var p, iv := Packet(fin.typ, conn.major, conn.minor, 1, 0, fin.data), Draw(rnd, 1, 0, RecordIvLength(d.suite));
    EncryptedIsShort(c, d, p, iv);
    EncryptKeepsHeader(c, d, p, iv);
    PrintThree(ps);
    NumbersArrive(c, g, sv, ps);
    WireEpochs(ps);
    NumbersOfThree(Receive(c, g, sv, T.PrintAll(ps)).1);
  }

  lemma PrintThree(ps: seq<Packet>)
    requires |ps| == 3
    ensures T.PrintAll(ps) == Print(ps[0]) + Print(ps[1]) + Print(ps[2])
  {
    hide Print;
    assert ps[1..][1..] == ps[2..] && ps[2..][1..] == [];
    assert T.PrintAll(ps[2..]) == Print(ps[2]) + [] == Print(ps[2]);
    assert T.PrintAll(ps[1..]) == Print(ps[1]) + Print(ps[2]);
    assert Print(ps[0]) + (Print(ps[1]) + Print(ps[2])) == Print(ps[0]) + Print(ps[1]) + Print(ps[2]);
  }

  lemma WireEpochs(ps: seq<Packet>)
    requires |ps| == 3 && ps[0].epoch == 0 == ps[1].epoch && ps[2].epoch == 1 && ps[2].seqNum == 0
    ensures Wire(ps[0]).epoch == 0 == Wire(ps[1]).epoch && Wire(ps[2]).epoch == 1 && Wire(ps[2]).seqNum == 0
  {
    Small(0, 65536);
    Small(1, 65536);
    Small(0, TWO32);
  }

  lemma NumbersOfThree(ps: seq<Packet>)
    requires |ps| == 3 && ps[0].epoch == 0 == ps[1].epoch && ps[2].epoch == 1 && ps[2].seqNum == 0
    ensures R.NumbersOf(1, ps) == [0]
  {
    assert ps[..2][..1] == ps[..1] && ps[..1][..0] == [];
    assert R.NumbersOf(1, []) == [] && R.NumbersOf(1, ps[..1]) == [] && R.NumbersOf(1, ps[..2]) == [];
    assert [] + [0] == [0];
  }

  /** The server has followed the client's ChangeCipherSpec and received its Finished, and nothing
      else in epoch 1. */
  ghost predicate HeardFinished(c: Library, x: Exchange, l: Layer)
    requires x.suite.prf.Some? && c.HmacLaw()
  {
    && Table(l) && 1 in l.epochs && l.read == 1
    && l.epochs[1].conn.DecipherInUse() == Some(Delegate(x.suite, Some(x.Keys(c)), Server))
    && l.epochs[1].window == Marks(FRESH, [0])
  }

  lemma ServerHasHeard(c: Library, x: Exchange, l: Layer, n: nat, ns: seq<int>, g: Garbage, buf: bytes)
    requires x.suite.prf.Some? && c.HmacLaw() && Prepared(c, x, l, n, ns)
    requires R.NumbersOf(1, Receive(c, g, l, buf).1) == [0]
    ensures HeardFinished(c, x, AdvanceRead(Receive(c, g, l, buf).0))
  {
    hide Receive, Exchange.Keys, Marks, Reads, Window.MayReceive, R.Selected;
    var m := Receive(c, g, l, buf).0;
    ReceiveChanges(c, g, l, buf, 1);
    R.StepKeepsTable(c, l, R.Recv(g, buf));
    R.ReceiveDelivers(c, g, l, buf);
    AdvancingKeepsTable(m);
    FreshMarks(m.epochs[1].window);
  }

  lemma FreshMarks(w: Window)
    requires w == Marks(Marks(FRESH, []), [0])
    ensures w == Marks(FRESH, [0])
  {
    assert Marks(FRESH, []) == FRESH;
  }

  lemma OutgoingKeepsWindows(c: Library, rnd: Entropy, l: Layer, msg: Message)
    requires l.write in l.epochs
    ensures var m := Outgoing(c, rnd, l, msg).0;
            forall e: nat :: e in l.epochs ==> e in m.epochs && m.epochs[e].window == l.epochs[e].window
  {
    hide Protected;
  }

  lemma {:induction false} SendingKeepsWindows(c: Library, rnd: Entropy, l: Layer, msgs: seq<Message>)
    requires Table(l)
    ensures var m := OutgoingAll(c, rnd, l, msgs).0;
            forall e: nat :: e in l.epochs ==> e in m.epochs && m.epochs[e].window == l.epochs[e].window
    decreases |msgs|
  {
    hide Outgoing, Table;
    if msgs != [] {
      CurrentEpochsExist(l);
      OutgoingKeepsTable(c, rnd, l, msgs[0]);
      OutgoingKeepsWindows(c, rnd, l, msgs[0]);
      SendingKeepsWindows(c, rnd, Outgoing(c, rnd, l, msgs[0]).0, msgs[1..]);
    }
  }

  lemma SpeakingKeepsHeard(c: Library, rnd: Entropy, x: Exchange, l: Layer, msgs: seq<Message>)
    requires x.suite.prf.Some? && c.HmacLaw() && HeardFinished(c, x, l)
    ensures HeardFinished(c, x, Speaks(c, rnd, l, msgs).0)
  {
    hide OutgoingAll, Table, Exchange.Keys, Marks;
    SendingIsDiscreet(c, rnd, l, msgs);
    SendingKeepsWindows(c, rnd, l, msgs);
  }

  /** The client's answer arrives: the server delivers exactly its three messages. */
  lemma ReplyArrives(cfg: Config, x: Exchange, at: Layer, l: Layer, r: Layer, sv: Layer, n: nat, ns: seq<int>,
                     g: Garbage)
    requires cfg.library.Lawful() && Agreed(cfg, x) && Replies(cfg, x, at, l, r) && Prepared(cfg.library, x, sv, n, ns)
    requires -1 <= at.epochs[0].writeSeq < 10 && forall q :: q in ns ==> q <= at.epochs[0].writeSeq
    ensures var answer := OutgoingAll(cfg.library, cfg.entropy, l, Reply(cfg.library, x)).1;
            && answer.Some? && r.sent == at.sent + [answer.value]
            && Messages(Receive(cfg.library, g, sv, answer.value).1) == Reply(cfg.library, x)
            && R.NumbersOf(1, Receive(cfg.library, g, sv, answer.value).1) == [0]
  {
    hide OutgoingAll, Receive, Table, Library.Lawful, T.Joined, Exchange.Keys, Reply, Marks, Exchange.Master, Changes,
         HasAgreedKeys, RandomValue;
    var c := cfg.library;
    LawfulHmac(c);
    ReplyIsShort(c, x);
    KeysOfClient(c, x, l.epochs[1].conn);
    JoinedInClear(l.epochs[0].conn, sv.epochs[0].conn);
    JoinedByKeys(l.epochs[1].conn, sv.epochs[1].conn, x.suite, x.Keys(c), Client);
    forall q: int | l.epochs[0].writeSeq < q <= l.epochs[0].writeSeq + 3
      ensures T.Free(sv.epochs[0].window, q)
    {
      FreeNumber(sv.epochs[0].window, ns, q);
    }
    forall q: int | -1 < q <= 2
      ensures T.Free(sv.epochs[1].window, q)
    {
      FreeNumber(sv.epochs[1].window, [], q);
    }
    ChangeArrives(c, cfg.entropy, l, sv, Reply(c, x), g);
    AnswerIsNumbered(c, cfg.entropy, x, l, sv, g);
  }

  lemma AnswerIsNumbered(c: Library, rnd: Entropy, x: Exchange, l: Layer, sv: Layer, g: Garbage)
    requires c.Lawful() && c.HmacLaw() && x.suite.prf.Some? && Table(l) && Table(sv) && l.write == 0 && 0 in l.epochs
             && 1 in l.epochs
    requires l.epochs[0].conn.suite == Some(NULL_SUITE) && HasAgreedKeys(c, x, l.epochs[1].conn)
             && l.epochs[1].conn.cipher == None && l.epochs[1].writeSeq == -1
    requires var answer := OutgoingAll(c, rnd, l, Reply(c, x)).1;
             answer.Some? && Messages(Receive(c, g, sv, answer.value).1) == Reply(c, x)
    ensures R.NumbersOf(1, Receive(c, g, sv, OutgoingAll(c, rnd, l, Reply(c, x)).1.value).1) == [0]
  {
    hide OutgoingAll, Receive, Table, Library.Lawful, Exchange.Keys, Exchange.Master, K.ReplyPackets, Print,
         K.FirstRecord, Exchange.KeyExchange, Exchange.ClientsFinished;
    var cke, fin := K.FirstRecord(x.KeyExchange()), K.FirstRecord(x.ClientsFinished(c));
    FirstRecordIsShort(x.KeyExchange());
    FirstRecordIsShort(x.ClientsFinished(c));
    var ps := K.ReplyIsSent(c, rnd, l, cke, fin);
    assert |ps| == 3 by {
      ThreePackets(c, rnd, l, cke, fin, ps);
    }
    assert |Messages(Receive(c, g, sv, Print(ps[0]) + Print(ps[1]) + Print(ps[2])).1)| == 3;
    ReplyIsNumbered(c, rnd, l, cke, fin, ps, sv, g);
  }

  lemma ThreePackets(c: Library, rnd: Entropy, l: Layer, cke: Message, fin: Message, ps: seq<Packet>)
    requires 0 in l.epochs && 1 in l.epochs && l.epochs[1].conn.suite.Some?
             && K.ReplyPackets(c, rnd, l, cke, fin, ps)
    ensures |ps| == 3
  {
  }

  lemma KeysOfClient(c: Library, x: Exchange, conn: ConnState)
    requires x.suite.prf.Some? && c.HmacLaw() && HasAgreedKeys(c, x, conn) && conn.cipher == None
    ensures conn.suite == Some(x.suite) && conn.CipherInUse() == Some(Delegate(x.suite, Some(x.Keys(c)), Client))
  {
    hide Exchange.Keys, Exchange.Master;
  }

  // ---- the server changes, the client hears it ----

  /** The server follows the client's ChangeCipherSpec. */
  lemma ServerFollows(c: Library, x: Exchange, l: Layer, n: nat, ns: seq<int>, g: Garbage, buf: bytes)
    requires x.suite.prf.Some? && c.HmacLaw() && Prepared(c, x, l, n, ns)
    ensures var m := AdvanceRead(Receive(c, g, l, buf).0);
            && CanChange(m) && m.epochs[0].writeSeq == n - 1 && m.epochs[1].conn.suite == Some(x.suite)
            && m.epochs[1].conn.CipherInUse() == Some(Delegate(x.suite, Some(x.Keys(c)), Server))
  {
    hide Receive, Exchange.Keys, Marks, Reads;
    ReceiveChanges(c, g, l, buf, 0);
    ReceiveChanges(c, g, l, buf, 1);
    R.StepKeepsTable(c, l, R.Recv(g, buf));
    AdvancingKeepsTable(Receive(c, g, l, buf).0);
  }

  /** The server's ChangeCipherSpec and Finished arrive at the client. */
  lemma LastTurnArrives(cfg: Config, x: Exchange, cl: Layer, sv: Layer, rnd: Entropy, fin: Message, ns: seq<int>,
                        g: Garbage)
    requires cfg.library.Lawful() && x.suite.prf.Some? && Table(cl) && cl.read == 0 && 0 in cl.epochs && 1 in cl.epochs
    requires cl.epochs[0].conn.DecipherInUse().Some? && cl.epochs[0].conn.DecipherInUse().value.suite == NULL_SUITE
    requires cl.epochs[1].conn.DecipherInUse() == Some(Delegate(x.suite, Some(x.Keys(cfg.library)), Client))
    requires cl.epochs[0].window == Marks(FRESH, ns) && Low(ns) && cl.epochs[1].window == Marks(FRESH, [])
    requires CanChange(sv) && sv.epochs[0].writeSeq == 2 && sv.epochs[1].conn.suite == Some(x.suite) && 3 !in ns
             && 4 !in ns
    requires sv.epochs[1].conn.CipherInUse() == Some(Delegate(x.suite, Some(x.Keys(cfg.library)), Server))
    requires fin.typ == HANDSHAKE && |fin.data| <= 2000
    ensures Messages(Receive(cfg.library, g, cl, Speaks(cfg.library, rnd, sv, [CCS_MESSAGE, fin]).1).1)
            == [CCS_MESSAGE, fin]
  {
    hide OutgoingAll, Receive, Table, Library.Lawful, T.Joined, Exchange.Keys, Marks, Changes;
    LawfulHmac(cfg.library);
    OneChange(fin, fin);
    JoinedInClear(sv.epochs[0].conn, cl.epochs[0].conn);
    JoinedByKeys(sv.epochs[1].conn, cl.epochs[1].conn, x.suite, x.Keys(cfg.library), Server);
    forall q: int | 2 < q <= 4
      ensures T.Free(cl.epochs[0].window, q)
    {
      FreeNumber(cl.epochs[0].window, ns, q);
    }
    forall q: int | -1 < q <= 1
      ensures T.Free(cl.epochs[1].window, q)
    {
      FreeNumber(cl.epochs[1].window, [], q);
    }
    ChangeArrives(cfg.library, rnd, sv, cl, [CCS_MESSAGE, fin], g);
  }
}
