/** The handshake of a session with an honest server, datagram by datagram. */
module Conversations {
  import opened Bytes
  import opened Crypto
  import opened Prfs
  import opened Packets
  import opened ConnectionStates
  import opened AntiReplay
  import opened Records
  import opened LayerChanges
  import opened ClearFlights
  import opened Fragments
  import opened Handshakes
  import opened Handlers
  import opened Transcripts
  import opened Completion
  import opened HonestServer
  import opened Sizes
  import opened Sessions
  import opened SessionProofs
  import opened SessionLayers
  import opened Authenticity
  import opened HonestHandshake
  import opened ProtectedTurns
  import R = RecordProofs
  import T = Transfer
  import H = HandlerProofs
  import A = FlightAssembly
  import K = KeyAgreement

  function Start(cfg: Config, x: Exchange): (s: Session)
    requires cfg.library.HmacLaw()
    ensures Open(cfg, s)
  {
    Opened(cfg, x.random, x.suiteIds)
  }

  ghost function After(cfg: Config, x: Exchange, inputs: seq<Input>): (s: Session)
    requires cfg.library.HmacLaw()
    ensures Open(cfg, s)
  {
    Run(cfg, Start(cfg, x), inputs)
  }

  /** The numbers of the records of an epoch that were delivered so far. */
  ghost function Delivered(cfg: Config, x: Exchange, inputs: seq<Input>, e: nat): seq<int>
    requires cfg.library.HmacLaw()
  {
    R.NumbersOf(e, AllRecords(cfg, Start(cfg, x), inputs))
  }

  /** A server that has used the numbers below `k` of epoch 0 can go on up to number 4. */
  ghost predicate Unmet(cfg: Config, x: Exchange, inputs: seq<Input>, k: nat)
    requires cfg.library.HmacLaw()
  {
    && Low(Delivered(cfg, x, inputs, 0)) && Delivered(cfg, x, inputs, 1) == []
    && forall q: int :: k <= q < 5 ==> q !in Delivered(cfg, x, inputs, 0)
  }

  lemma WindowsAreDelivered(cfg: Config, x: Exchange, inputs: seq<Input>)
    requires cfg.library.HmacLaw()
    ensures var l := After(cfg, x, inputs).cl.l;
            forall e: nat :: e in l.epochs ==> l.epochs[e].window == Marks(FRESH, Delivered(cfg, x, inputs, e))
  {
    hide Traces, Opened, Run;
    var ops := SessionRunsLayer(cfg, x.random, x.suiteIds, inputs);
  }

  /** One more datagram of the server in the clear. */
  function Turn(g: Garbage, gs: nat -> Garbage, ps: seq<Packet>): Input {
    Datagram(T.PrintAll(ps), g, gs)
  }

  /** The client reads epoch 0, which is not protected. */
  predicate ReadsInClear(l: Layer) {
    && l.read == 0 && 0 in l.epochs && 1 in l.epochs && l.epochs[0].conn.DecipherInUse().Some?
    && l.epochs[0].conn.DecipherInUse().value.suite.kind.NullCipher?
  }

  /** The server's next records. */
  predicate NextRecords(ps: seq<Packet>, k: nat) {
    && k + |ps| <= 5
    && forall i :: 0 <= i < |ps| ==>
         ps[i].epoch == 0 && ps[i].seqNum == k + i && 0 <= ps[i].typ < 256 && |ps[i].fragment| <= MAX_FRAGMENT
  }

  lemma TurnIsHeard(cfg: Config, x: Exchange, inputs: seq<Input>, k: nat, ps: seq<Packet>, msgs: seq<Message>,
                    g: Garbage, gs: nat -> Garbage)
    requires cfg.library.HmacLaw() && Unmet(cfg, x, inputs, k) && ReadsInClear(After(cfg, x, inputs).cl.l)
    requires NextRecords(ps, k) && Carry(ps, msgs) && forall i :: 0 <= i < |msgs| ==> Smooth(msgs[i])
    ensures var at, turn := After(cfg, x, inputs), Turn(g, gs, ps);
            && HeardInClear(cfg.library, g, at.cl.l, ps, msgs)
            && After(cfg, x, inputs + [turn]) == Step(cfg, at, turn)
            && Step(cfg, at, turn).cl == H.Run(cfg, at.cl, Heard(g, T.PrintAll(ps), msgs, gs))
            && Unmet(cfg, x, inputs + [turn], k + |ps|)
  {
    hide Open, T.PrintAll, T.WireAll, Receive, Smooth, Start, Step, HeardInClear, Delivered, Marks, Table;
    var at, turn := After(cfg, x, inputs), Turn(g, gs, ps);
    WindowsAreDelivered(cfg, x, inputs);
    OpenIsTable(cfg, at);
    NextIsSendable(cfg, x, inputs, k, ps);
    SendableIsWelcome(at.cl.l, ps, Delivered(cfg, x, inputs, 0));
    HearsInClear(cfg.library, g, at.cl.l, ps, msgs);
    HeardMessages(cfg.library, g, at.cl.l, ps, msgs);
    SessionHears(cfg, at, g, T.PrintAll(ps), msgs, gs);
    assert (inputs + [turn])[..|inputs|] == inputs;
    TurnIsDelivered(cfg, x, inputs, k, ps, msgs, g, gs);
  }

  lemma OpenIsTable(cfg: Config, s: Session)
    requires Open(cfg, s)
    ensures Table(s.cl.l) && Live(s.cl) && cfg.library.HmacLaw()
  {
  }

  lemma HeardMessages(c: Library, g: Garbage, l: Layer, ps: seq<Packet>, msgs: seq<Message>)
    requires Table(l) && HeardInClear(c, g, l, ps, msgs)
    ensures Messages(Receive(c, g, l, T.PrintAll(ps)).1) == msgs
  {
  }

  lemma NextIsSendable(cfg: Config, x: Exchange, inputs: seq<Input>, k: nat, ps: seq<Packet>)
    requires cfg.library.HmacLaw() && Unmet(cfg, x, inputs, k) && NextRecords(ps, k)
    ensures Sendable(ps, Delivered(cfg, x, inputs, 0)) && Low(Delivered(cfg, x, inputs, 0))
  {
    hide Delivered;
  }

  lemma TurnIsDelivered(cfg: Config, x: Exchange, inputs: seq<Input>, k: nat, ps: seq<Packet>, msgs: seq<Message>,
                        g: Garbage, gs: nat -> Garbage)
    requires cfg.library.HmacLaw() && Unmet(cfg, x, inputs, k) && NextRecords(ps, k)
    requires Table(After(cfg, x, inputs).cl.l) && HeardInClear(cfg.library, g, After(cfg, x, inputs).cl.l, ps, msgs)
    ensures Unmet(cfg, x, inputs + [Turn(g, gs, ps)], k + |ps|)
  {
    hide Start, Run, T.PrintAll, T.WireAll, Receive, Table;
    var turn := Turn(g, gs, ps);
    assert (inputs + [turn])[..|inputs|] == inputs;
    var out := T.WireAll(ps);
    assert AllRecords(cfg, Start(cfg, x), inputs + [turn]) == AllRecords(cfg, Start(cfg, x), inputs) + out;
    R.NumbersOfConcat(0, AllRecords(cfg, Start(cfg, x), inputs), out);
    R.NumbersOfConcat(1, AllRecords(cfg, Start(cfg, x), inputs), out);
    var more := R.NumbersOf(0, out);
    forall i | 0 <= i < |more|
      ensures k <= more[i] < k + |ps|
    {
      assert more[i] in more;
    }
  }

  // ---- the client's turns ----

  lemma LayerRunSkips(c: Library, l: Layer, evs: seq<H.Event>, ev: H.Event)
    requires Table(l) && ev.Incoming?
    ensures A.LayerRun(c, l, evs + [ev]) == A.LayerRun(c, l, evs)
  {
    assert (evs + [ev])[..|evs|] == evs;
  }

  lemma LayerRunOne(c: Library, l: Layer, op: R.Op)
    requires Table(l)
    ensures A.LayerRun(c, l, [H.OnLayer(op)]) == R.Step(c, l, op)
  {
    hide R.Step;
    assert [H.OnLayer(op)][..0] == [];
  }

  /** What a datagram of whole messages does to the layer, the handshake left aside. */
  lemma LayerHears(c: Library, l: Layer, g: Garbage, buf: bytes, f: Fragment, h: Fragment, g1: Garbage, g2: Garbage)
    requires Table(l)
    ensures var recv, m := H.OnLayer(R.Recv(g, buf)), Receive(c, g, l, buf).0;
            && A.LayerRun(c, l, [recv, H.Incoming(f, g1)]) == m
            && A.LayerRun(c, l, [recv, H.Incoming(f, g1)] + [H.Incoming(h, g2)]) == m
            && A.LayerRun(c, l, [recv, H.OnLayer(R.ReadAdvance)] + [H.Incoming(h, g2)]) == AdvanceRead(m)
  {
    hide Receive, Table;
    var recv, next := H.OnLayer(R.Recv(g, buf)), H.OnLayer(R.ReadAdvance);
    LayerRunOne(c, l, R.Recv(g, buf));
    LayerRunSkips(c, l, [recv], H.Incoming(f, g1));
    assert [recv] + [H.Incoming(f, g1)] == [recv, H.Incoming(f, g1)];
    LayerRunSkips(c, l, [recv, H.Incoming(f, g1)], H.Incoming(h, g2));
    assert [recv, next][..1] == [recv];
    R.StepKeepsTable(c, l, R.Recv(g, buf));
    assert A.LayerRun(c, l, [recv, next]) == R.Step(c, A.LayerRun(c, l, [recv]), R.ReadAdvance);
    LayerRunSkips(c, l, [recv, next], H.Incoming(h, g2));
  }

  /** The parts of a layer that matter to what is sent next are unchanged. */
  ghost predicate SameSender(l: Layer, m: Layer) {
    && 0 in l.epochs && 1 in l.epochs && 0 in m.epochs && 1 in m.epochs && m.sent == l.sent && m.write == l.write
    && m.epochs[0].writeSeq == l.epochs[0].writeSeq
    && m.epochs[0].conn.major == l.epochs[0].conn.major && m.epochs[0].conn.minor == l.epochs[0].conn.minor
    && m.epochs[1].conn.decipher == l.epochs[1].conn.decipher
  }

  lemma HeardIsSameSender(c: Library, g: Garbage, l: Layer, ps: seq<Packet>, msgs: seq<Message>)
    requires Table(l) && HeardInClear(c, g, l, ps, msgs)
    ensures SameSender(l, Receive(c, g, l, T.PrintAll(ps)).0)
  {
    hide Receive, T.PrintAll, T.WireAll, Marks, Table;
  }

  lemma SameClearRecords(l: Layer, m: Layer, msgs: seq<Message>)
    requires SameSender(l, m) && l.write == 0
    ensures ClearRecords(m, msgs) == ClearRecords(l, msgs)
  {
  }

  lemma CookieTurn(cfg: Config, x: Exchange, inputs: seq<Input>, ps: seq<Packet>, g: Garbage, gs: nat -> Garbage)
    requires cfg.library.HmacLaw() && Agreed(cfg, x) && Unmet(cfg, x, inputs, 0) && Begun(x, After(cfg, x, inputs).cl)
    requires NextRecords(ps, 0) && Carry(ps, [Whole(CookieRequest(x.cookie))])
    ensures var at, r := After(cfg, x, inputs).cl, After(cfg, x, inputs + [Turn(g, gs, ps)]).cl;
            && Asked(x, r, 0) && Unmet(cfg, x, inputs + [Turn(g, gs, ps)], 1)
            && K.SentInClear(at.l, r.l, x.SecondHello())
            && 1 in at.l.epochs && 1 in r.l.epochs && r.l.epochs[1].conn.decipher == at.l.epochs[1].conn.decipher
  {
    hide After, Unmet, T.PrintAll, Receive, Smooth, NextRecords, Heard, Hears, Asked, H.Run, Table, Carry, ClearRecords,
         Whole, CookieRequest, ClientHello, RandomValue, HeardInClear;
    var c, at, hvr := cfg.library, After(cfg, x, inputs), CookieRequest(x.cookie);
    OpenIsTable(cfg, at);
    BegunReads(x, at.cl);
    CookieRequestIsShort(x.cookie);
    OneIsSmooth(hvr);
    TurnIsHeard(cfg, x, inputs, 0, ps, [Whole(hvr)], g, gs);
    OneCarried(ps, Whole(hvr));
    HeardOne(g, T.PrintAll(ps), hvr, gs);
    LayerHears(c, at.cl.l, g, T.PrintAll(ps), ToFragment(hvr), ToFragment(hvr), gs(0), gs(0));
    HearsCookie(cfg, x, at.cl, Heard(g, T.PrintAll(ps), [Whole(hvr)], gs));
    HeardIsSameSender(c, g, at.cl.l, ps, [Whole(hvr)]);
    SameClearRecords(at.cl.l, Receive(c, g, at.cl.l, T.PrintAll(ps)).0, RecordsOf(x.SecondHello()));
  }

  lemma BegunReads(x: Exchange, cl: Endpoint)
    requires Begun(x, cl)
    ensures ReadsInClear(cl.l) && cl.l.write == 0
  {
  }

  lemma AskedReads(x: Exchange, cl: Endpoint, n: int)
    requires Asked(x, cl, n)
    ensures ReadsInClear(cl.l) && cl.l.write == 0
  {
  }

  lemma OneIsSmooth(m: Handshake)
    requires Short(m)
    ensures Smooth(Whole(m))
  {
  }

  lemma OneCarried(ps: seq<Packet>, msg: Message)
    requires Carry(ps, [msg])
    ensures |ps| == 1
  {
  }

  lemma FlightTurn(cfg: Config, x: Exchange, inputs: seq<Input>, ps: seq<Packet>, g: Garbage, gs: nat -> Garbage)
    returns (l: Layer)
    requires cfg.library.HmacLaw() && Agreed(cfg, x) && Unmet(cfg, x, inputs, 1)
             && Asked(x, After(cfg, x, inputs).cl, 0)
    requires NextRecords(ps, 1) && Carry(ps, [Whole(x.Hello()), Whole(HELLO_DONE)])
    ensures var at, r := After(cfg, x, inputs).cl, After(cfg, x, inputs + [Turn(g, gs, ps)]).cl;
            Told(cfg, x, r) && Replies(cfg, x, at.l, l, r.l) && Unmet(cfg, x, inputs + [Turn(g, gs, ps)], 3)
  {
    hide After, Unmet, T.PrintAll, Receive, Smooth, NextRecords, Heard, Hears, Asked, H.Run, Table, Carry, Whole, Told,
         Replies, RandomValue, HeardInClear, SameSender;
    var c, at, flight := cfg.library, After(cfg, x, inputs), [x.Hello(), HELLO_DONE];
    var msgs := [Whole(x.Hello()), Whole(HELLO_DONE)];
    OpenIsTable(cfg, at);
    AskedReads(x, at.cl, 0);
    HelloIsShort(x.serverRandom, x.suiteId);
    EndingsAreShort([]);
    OneIsSmooth(x.Hello());
    OneIsSmooth(HELLO_DONE);
    TurnIsHeard(cfg, x, inputs, 1, ps, msgs, g, gs);
    TwoCarried(ps, Whole(x.Hello()), Whole(HELLO_DONE));
    HeardTwo(g, T.PrintAll(ps), x.Hello(), HELLO_DONE, gs);
    LayerHears(c, at.cl.l, g, T.PrintAll(ps), ToFragment(x.Hello()), ToFragment(HELLO_DONE), gs(0), gs(1));
    l := HearsFlight(cfg, x, at.cl, Heard(g, T.PrintAll(ps), msgs, gs));
    HeardIsSameSender(c, g, at.cl.l, ps, msgs);
    SameReplies(cfg, x, at.cl.l, Receive(c, g, at.cl.l, T.PrintAll(ps)).0, l,
                After(cfg, x, inputs + [Turn(g, gs, ps)]).cl.l);
  }

  lemma TwoCarried(ps: seq<Packet>, a: Message, b: Message)
    requires Carry(ps, [a, b])
    ensures |ps| == 2
  {
  }

  lemma SameReplies(cfg: Config, x: Exchange, at: Layer, now: Layer, l: Layer, r: Layer)
    requires x.suite.prf.Some? && cfg.library.HmacLaw() && SameSender(at, now) && Replies(cfg, x, now, l, r)
    ensures Replies(cfg, x, at, l, r)
  {
    hide Table, OutgoingAll, Reply, HasAgreedKeys;
  }

  /** Nothing was sent, and epoch 1 has the same keys. */
  ghost predicate SameWriter(l: Layer, m: Layer) {
    && m.sent == l.sent && 1 in l.epochs && 1 in m.epochs && m.epochs[1].writeSeq == l.epochs[1].writeSeq
    && m.epochs[1].conn.suite == l.epochs[1].conn.suite && m.epochs[1].conn.keys == l.epochs[1].conn.keys
  }

  lemma HearingKeepsWriter(c: Library, g: Garbage, l: Layer, buf: bytes)
    requires Table(l) && 1 in l.epochs
    ensures SameWriter(l, AdvanceRead(Receive(c, g, l, buf).0))
  {
    hide Receive, Reads;
    ReceiveKeepsSent(c, g, l, buf);
    ReceiveChanges(c, g, l, buf, 1);
    R.StepKeepsTable(c, l, R.Recv(g, buf));
    CurrentEpochsExist(Receive(c, g, l, buf).0);
  }

  /** The last datagram of the server, however it was protected. */
  lemma FinishedTurn(cfg: Config, x: Exchange, inputs: seq<Input>, buf: bytes, g: Garbage, gs: nat -> Garbage)
    requires cfg.library.HmacLaw() && Agreed(cfg, x) && Told(cfg, x, After(cfg, x, inputs).cl)
    requires var l := After(cfg, x, inputs).cl.l;
             Table(l) && Messages(Receive(cfg.library, g, l, buf).1)
               == [CCS_MESSAGE, Whole(x.ServersFinished(cfg.library))]
    ensures var at, r := After(cfg, x, inputs), After(cfg, x, inputs + [Datagram(buf, g, gs)]);
            && r.cl.h.outcomes == [Connected] && !r.cl.h.isHandshaking && r.finished
            && !at.finished && at.cl.h.outcomes == [] && SameWriter(at.cl.l, r.cl.l)
  {
    hide After, Receive, Smooth, Heard, Hears, H.Run, Table, Whole, Told, RandomValue, Start, AllData, Encoding,
         SameWriter, AdvanceRead;
    var c, at, fin, input := cfg.library, After(cfg, x, inputs), x.ServersFinished(cfg.library), Datagram(buf, g, gs);
    OpenIsTable(cfg, at);
    FinishedIsShort(cfg, x);
    OneIsSmooth(fin);
    CcsIsSmooth();
    SessionHears(cfg, at, g, buf, [CCS_MESSAGE, Whole(fin)], gs);
    HeardLast(g, buf, fin, gs);
    LayerHears(c, at.cl.l, g, buf, ToFragment(fin), ToFragment(fin), gs(1), gs(1));
    HearsFinished(cfg, x, at.cl, Heard(g, buf, [CCS_MESSAGE, Whole(fin)], gs));
    AfterOneMore(cfg, x, inputs, input);
    ToldNothingYet(cfg, x, at.cl);
    HearingKeepsWriter(c, g, at.cl.l, buf);
    FinishedIffConnected(cfg, x, inputs);
    FinishedIffConnected(cfg, x, inputs + [input]);
  }

  lemma AfterOneMore(cfg: Config, x: Exchange, inputs: seq<Input>, input: Input)
    requires cfg.library.HmacLaw()
    ensures After(cfg, x, inputs + [input]) == Step(cfg, After(cfg, x, inputs), input)
  {
    hide Start, Step;
    assert (inputs + [input])[..|inputs|] == inputs;
  }

  lemma CcsIsSmooth()
    ensures Smooth(CCS_MESSAGE)
  {
  }

  lemma ToldNothingYet(cfg: Config, x: Exchange, cl: Endpoint)
    requires x.suite.prf.Some? && cfg.library.HmacLaw() && Told(cfg, x, cl)
    ensures cl.h.outcomes == [] && 1 in cl.l.epochs
  {
  }

  lemma FinishedIffConnected(cfg: Config, x: Exchange, inputs: seq<Input>)
    requires cfg.library.HmacLaw()
    ensures var r := After(cfg, x, inputs); r.finished <==> Connected in r.cl.h.outcomes
  {
    hide Opened, Run, AllData;
    DataIsConserved(cfg, x.random, x.suiteIds, inputs);
  }

  lemma FinishedIsShort(cfg: Config, x: Exchange)
    requires cfg.library.HmacLaw() && Agreed(cfg, x)
    ensures Short(x.ServersFinished(cfg.library))
            && |Body(x.ClientsFinished(cfg.library))| == x.suite.verifyDataLength < 256
  {
    hide Encoding, MasterSecret, P, Canonical;
    var c := cfg.library;
    VerifyDataLength(cfg, x, "server finished", x.Before() + [Encoding(x.ClientsFinished(c))]);
    VerifyDataLength(cfg, x, "client finished", x.Before());
    EndingsAreShort(x.VerifyDataOf(c, "server finished", x.Before() + [Encoding(x.ClientsFinished(c))]));
    K.FinishedBody(x.VerifyDataOf(c, "client finished", x.Before()), 3);
  }

  lemma VerifyDataLength(cfg: Config, x: Exchange, usage: string, messages: seq<bytes>)
    requires cfg.library.HmacLaw() && x.suite.prf.Some?
    ensures |x.VerifyDataOf(cfg.library, usage, messages)| == x.suite.verifyDataLength
  {
    hide P, MasterSecret, Exchange.Master;
    var h := x.suite.prf.value;
    PIsBlockStream(cfg.library, h, x.Master(cfg.library), Ascii(usage) + cfg.library.hash(h, Concat(messages)),
                   x.suite.verifyDataLength);
  }

  // ---- the whole conversation ----

  /** The datagrams of a handshake in their order, and the server's layer after its two turns in
      the clear. */
  datatype Talk = Talk(hello: bytes, request: bytes, first: Layer, again: bytes, flight: bytes, second: Layer,
                       answer: bytes, finished: bytes)

  /** The server answers each datagram it receives with one of its own. */
  ghost predicate ServerSpeaksSo(c: Library, rnd: Entropy, g: Garbage, x: Exchange, t: Talk)
    requires x.suite.prf.Some? && c.HmacLaw()
  {
    && Table(SERVER_LAYER) && Table(t.first) && Table(t.second)
    && Speaks(c, rnd, Listens(c, g, SERVER_LAYER, t.hello).0, [Whole(CookieRequest(x.cookie))]) == (t.first, t.request)
    && Speaks(c, rnd, Listens(c, g, t.first, t.again).0, [Whole(x.Hello()), Whole(HELLO_DONE)]) == (t.second, t.flight)
    && var m := AdvanceRead(Listens(c, g, WithServerKeys(c, x, t.second), t.answer).0);
       Table(m) && Speaks(c, rnd, m, [CCS_MESSAGE, Whole(x.ServersFinished(c))]).1 == t.finished
  }

  /** What the server hears: the two ClientHellos, and exactly the three messages of the answer. */
  ghost predicate ServerHearsSo(c: Library, g: Garbage, x: Exchange, t: Talk)
    requires x.suite.prf.Some? && c.HmacLaw()
  {
    && Table(SERVER_LAYER) && Table(t.first) && Table(t.second)
    && Listens(c, g, SERVER_LAYER, t.hello).1 == RecordsOf(ClientHello(x.random, x.suiteIds))
    && Listens(c, g, t.first, t.again).1 == RecordsOf(x.SecondHello())
    && Listens(c, g, WithServerKeys(c, x, t.second), t.answer).1 == Reply(c, x)
  }

  /** The session has sent its ClientHello and whatever it received since has changed neither the
      handshake nor epoch 1, nor used the server's numbers. */
  ghost predicate Undisturbed(cfg: Config, x: Exchange, before: seq<Input>)
    requires cfg.library.HmacLaw()
  {
    var cl := After(cfg, x, before).cl;
    && Begun(x, cl) && Unmet(cfg, x, before, 0)
    && 1 in cl.l.epochs && cl.l.epochs[1].conn.decipher == None
    && K.SentInClear(K.FirstLayer(x.ClientRandom()), cl.l, ClientHello(x.random, x.suiteIds))
  }

  /** The records of a hello, as the server receives them. */
  lemma HelloRecords(l: Layer, m: Handshake, ns: seq<int>)
    requires l.write == 0 && 0 in l.epochs && -1 <= l.epochs[0].writeSeq <= 5
    requires forall i :: 0 <= i < |ns| ==> ns[i] <= l.epochs[0].writeSeq
    ensures var ps := ClearRecords(l, RecordsOf(m));
            && |RecordsOf(m)| <= 1 && Sendable(ps, ns) && Carry(ps, RecordsOf(m))
            && forall i :: 0 <= i < |ps| ==> ps[i].seqNum == l.epochs[0].writeSeq + 1 + i
  {
    hide RecordsOf;
    RecordsAreShort(m);
  }

  lemma NextOfServer(m: Layer, n: nat, msgs: seq<Message>)
    requires n + |msgs| <= 5 && 0 in m.epochs && m.write == 0
    requires forall i :: 0 <= i < |msgs| ==> msgs[i].typ == HANDSHAKE && |msgs[i].data| <= 2000
    requires forall i :: 0 <= i < |msgs| ==>
               ClearRecords(m, msgs)[i] == Packet(msgs[i].typ, -2, -1, 0, n + i, msgs[i].data)
    ensures NextRecords(ClearRecords(m, msgs), n)
  {
  }

  /** A turn of the server in the clear: it hears one datagram and answers with another. */
  lemma ServerTurn(c: Library, rnd: Entropy, g: Garbage, l: Layer, n: nat, ns: seq<int>, ps: seq<Packet>,
                   heard: seq<Message>, say: seq<Message>, w: int) returns (m: Layer, qs: seq<Packet>, all: seq<int>)
    requires Plainly(l, n, ns) && Table(l) && Sendable(ps, ns) && Carry(ps, heard) && n + |say| <= 5
    requires forall i :: 0 <= i < |say| ==> say[i].typ == HANDSHAKE && |say[i].data| <= 2000
    requires (forall i :: 0 <= i < |ns| ==> ns[i] <= w) && forall i :: 0 <= i < |ps| ==> ps[i].seqNum <= w
    ensures Listens(c, g, l, T.PrintAll(ps)).1 == heard
    ensures Speaks(c, rnd, Listens(c, g, l, T.PrintAll(ps)).0, say) == (m, T.PrintAll(qs))
    ensures Plainly(m, n + |say|, all) && Table(m) && NextRecords(qs, n) && Carry(qs, say)
    ensures forall i :: 0 <= i < |all| ==> all[i] <= w
  {
    hide T.PrintAll, ClearRecords, Listens, Speaks, Plainly, Sendable, Carry, NextRecords;
    all := ServerListens(c, g, l, n, ns, ps, heard);
    var now := Listens(c, g, l, T.PrintAll(ps)).0;
    PlainlyIsTable(now, n, all);
    assert NoCcs(say);
    ServerSpeaks(c, rnd, now, n, all, say);
    m, qs := Speaks(c, rnd, now, say).0, ClearRecords(now, say);
    NextOfServer(now, n, say);
    forall i | 0 <= i < |all|
      ensures all[i] <= w
    {
      assert all[i] in all;
    }
  }

  /** The client's first datagram, which the server answers with a cookie request. */
  lemma ServerAsks(cfg: Config, x: Exchange, before: seq<Input>, rnd: Entropy, g: Garbage)
    returns (hello: bytes, first: Layer, qs: seq<Packet>, ns: seq<int>)
    requires cfg.library.HmacLaw() && Agreed(cfg, x) && Undisturbed(cfg, x, before)
    ensures Table(SERVER_LAYER) && Plainly(first, 1, ns) && Table(first)
    ensures Listens(cfg.library, g, SERVER_LAYER, hello).1 == RecordsOf(ClientHello(x.random, x.suiteIds))
    ensures Speaks(cfg.library, rnd, Listens(cfg.library, g, SERVER_LAYER, hello).0, [Whole(CookieRequest(x.cookie))])
            == (first, T.PrintAll(qs))
    ensures NextRecords(qs, 0) && Carry(qs, [Whole(CookieRequest(x.cookie))])
    ensures var l := After(cfg, x, before).cl.l;
            && l.sent == [hello] && l.write == 0 && 0 in l.epochs && -1 <= l.epochs[0].writeSeq <= 0
            && forall i :: 0 <= i < |ns| ==> ns[i] <= l.epochs[0].writeSeq
  {
    hide After, Unmet, Begun, T.PrintAll, ClearRecords, RecordsOf, Whole, Listens, Speaks, Plainly, Sendable, Carry,
         ClientHello, CookieRequest, NextRecords, RandomValue;
    var l0, hello0, at := K.FirstLayer(x.ClientRandom()), ClientHello(x.random, x.suiteIds), After(cfg, x, before).cl;
    FirstLayerCounts(x.ClientRandom());
    HelloRecords(l0, hello0, []);
    var ps := ClearRecords(l0, RecordsOf(hello0));
    hello := T.PrintAll(ps);
    ServerIsPlain();
    CookieRequestIsShort(x.cookie);
    ShortFits(CookieRequest(x.cookie));
    WholeIsHandshake(CookieRequest(x.cookie));
    CarryLength(ps, RecordsOf(hello0));
    first, qs, ns := ServerTurn(cfg.library, rnd, g, SERVER_LAYER, 0, [], ps, RecordsOf(hello0),
                                [Whole(CookieRequest(x.cookie))],
                                at.l.epochs[0].writeSeq);
    BegunReads(x, at);
    assert [] + [hello] == [hello];
  }

  lemma CarryLength(ps: seq<Packet>, msgs: seq<Message>)
    requires Carry(ps, msgs)
    ensures |ps| == |msgs|
  {
  }

  /** The client repeats its hello with the cookie, and the server answers with its flight. */
  lemma ServerGreets(cfg: Config, x: Exchange, before: seq<Input>, rnd: Entropy, g: Garbage, gs: nat -> Garbage,
                     first: Layer, qs: seq<Packet>, ns: seq<int>)
    returns (again: bytes, second: Layer, ps: seq<Packet>, all: seq<int>)
    requires cfg.library.HmacLaw() && Agreed(cfg, x) && Undisturbed(cfg, x, before)
    requires Plainly(first, 1, ns) && Table(first) && NextRecords(qs, 0) && Carry(qs, [Whole(CookieRequest(x.cookie))])
    requires var l := After(cfg, x, before).cl.l;
             && 0 in l.epochs && -1 <= l.epochs[0].writeSeq <= 0
             && forall i :: 0 <= i < |ns| ==> ns[i] <= l.epochs[0].writeSeq
    ensures Listens(cfg.library, g, first, again).1 == RecordsOf(x.SecondHello())
    ensures Speaks(cfg.library, rnd, Listens(cfg.library, g, first, again).0, [Whole(x.Hello()), Whole(HELLO_DONE)])
            == (second, T.PrintAll(ps))
    ensures Plainly(second, 3, all) && Table(second) && NextRecords(ps, 1)
            && Carry(ps, [Whole(x.Hello()), Whole(HELLO_DONE)])
    ensures var at, r := After(cfg, x, before).cl, After(cfg, x, before + [Turn(g, gs, qs)]).cl;
            && Asked(x, r, 0) && Unmet(cfg, x, before + [Turn(g, gs, qs)], 1) && r.l.sent == at.l.sent + [again]
            && 0 in r.l.epochs && 1 in r.l.epochs && r.l.epochs[1].conn.decipher == None
            && -1 <= r.l.epochs[0].writeSeq <= 1 && forall i :: 0 <= i < |all| ==> all[i] <= r.l.epochs[0].writeSeq
  {
    hide After, Unmet, Begun, T.PrintAll, ClearRecords, RecordsOf, Whole, Listens, Speaks, Plainly, Sendable, Carry,
         ClientHello, CookieRequest, NextRecords, RandomValue, Asked;
    var at, hello := After(cfg, x, before).cl, x.SecondHello();
    BegunReads(x, at);
    CookieTurn(cfg, x, before, qs, g, gs);
    HelloRecords(at.l, hello, ns);
    var rs := ClearRecords(at.l, RecordsOf(hello));
    again := T.PrintAll(rs);
    HelloIsShort(x.serverRandom, x.suiteId);
    EndingsAreShort([]);
    ShortFits(x.Hello());
    ShortFits(HELLO_DONE);
    WholeIsHandshake(x.Hello());
    WholeIsHandshake(HELLO_DONE);
    CarryLength(rs, RecordsOf(hello));
    second, ps, all := ServerTurn(cfg.library, rnd, g, first, 1, ns, rs, RecordsOf(hello),
                                  [Whole(x.Hello()), Whole(HELLO_DONE)],
                                  at.l.epochs[0].writeSeq + |RecordsOf(hello)|);
  }

  lemma FirstLayerCounts(random: bytes)
    ensures var l := K.FirstLayer(random); l.write == 0 && 0 in l.epochs && l.epochs[0].writeSeq == -1 && l.sent == []
  {
  }

  lemma PlainlyIsTable(l: Layer, n: nat, ns: seq<int>)
    requires Plainly(l, n, ns)
    ensures Table(l) && l.write == 0 && 0 in l.epochs && 1 in l.epochs && Low(ns)
  {
  }

  lemma WholeIsHandshake(m: Handshake)
    ensures Whole(m).typ == HANDSHAKE
  {
  }

  /** The client's record layer has the agreed keys and has sent its Finished with them. */
  ghost predicate CarriesKeys(c: Library, x: Exchange, l: Layer)
    requires x.suite.prf.Some? && c.HmacLaw()
  {
    && 1 in l.epochs && l.epochs[1].writeSeq == 0
    && l.epochs[1].conn.suite == Some(x.suite) && l.epochs[1].conn.keys == Some(x.Keys(c))
  }

  lemma ReplyCarriesKeys(cfg: Config, x: Exchange, at: Layer, l: Layer, m: Layer, r: Endpoint)
    requires x.suite.prf.Some? && cfg.library.HmacLaw() && Replies(cfg, x, at, l, m) && Told(cfg, x, r) && r.l == m
    ensures CarriesKeys(cfg.library, x, m)
  {
    hide Exchange.Keys, Exchange.Master, OutgoingAll, Reply, Table, Exchange.VerifyDataOf, Encoding;
  }

  lemma SameWriterCarriesKeys(c: Library, x: Exchange, l: Layer, m: Layer)
    requires x.suite.prf.Some? && c.HmacLaw() && CarriesKeys(c, x, l) && SameWriter(l, m)
    ensures CarriesKeys(c, x, m) && m.sent == l.sent
  {
    hide Exchange.Keys;
  }

  /** The server's layer after its last turn. */
  function ServerAtEnd(c: Library, rnd: Entropy, g: Garbage, x: Exchange, second: Layer, answer: bytes): (r: Layer)
    requires Table(second) && x.suite.prf.Some? && c.HmacLaw()
    ensures Table(r)
  {
    var m := Listens(c, g, WithServerKeys(c, x, second), answer).0;
    AdvancingKeepsTable(m);
    Speaks(c, rnd, AdvanceRead(m), [CCS_MESSAGE, Whole(x.ServersFinished(c))]).0
  }

  /** The client answers, the server hears exactly that, and its last datagram reaches the client. */
  lemma CiphersChange(cfg: Config, x: Exchange, one: seq<Input>, rnd: Entropy, g: Garbage, gs: nat -> Garbage,
                      second: Layer, ps: seq<Packet>, ns: seq<int>) returns (answer: bytes, finished: bytes)
    requires cfg.library.Lawful() && cfg.library.HmacLaw() && Agreed(cfg, x) && Unmet(cfg, x, one, 1)
    requires Asked(x, After(cfg, x, one).cl, 0) && Plainly(second, 3, ns) && Table(second)
    requires NextRecords(ps, 1) && Carry(ps, [Whole(x.Hello()), Whole(HELLO_DONE)])
    requires var l := After(cfg, x, one).cl.l;
             && 0 in l.epochs && 1 in l.epochs && l.epochs[1].conn.decipher == None
             && -1 <= l.epochs[0].writeSeq <= 1 && forall i :: 0 <= i < |ns| ==> ns[i] <= l.epochs[0].writeSeq
    ensures var c := cfg.library;
            var (m, heard) := Listens(c, g, WithServerKeys(c, x, second), answer);
            && heard == Reply(c, x) && Table(AdvanceRead(m))
            && finished == Speaks(c, rnd, AdvanceRead(m), [CCS_MESSAGE, Whole(x.ServersFinished(c))]).1
    ensures var at, r := After(cfg, x, one).cl, After(cfg, x, one + [Turn(g, gs, ps)]).cl;
            && Told(cfg, x, r) && r.l.sent == at.l.sent + [answer] && CarriesKeys(cfg.library, x, r.l)
            && Messages(Receive(cfg.library, g, r.l, finished).1)
               == [CCS_MESSAGE, Whole(x.ServersFinished(cfg.library))]
    ensures HeardFinished(cfg.library, x, ServerAtEnd(cfg.library, rnd, g, x, second, answer))
  {
    hide After, Unmet, Asked, T.PrintAll, Whole, Speaks, Plainly, Carry, NextRecords, RandomValue, Receive,
         Library.Lawful, Reply, HasAgreedKeys, Table, OutgoingAll, Prepared, CanChange, Delivered, Marks, Exchange.Keys,
         Exchange.Master, WithServerKeys, Exchange.VerifyDataOf, Encoding, HeardFinished, CarriesKeys;
    var c, at, two := cfg.library, After(cfg, x, one).cl, one + [Turn(g, gs, ps)];
    var r := After(cfg, x, two).cl;
    var l := FlightTurn(cfg, x, one, ps, g, gs);
    var sv := WithServerKeys(c, x, second);
    KeysPrepare(c, x, second, 3, ns);
    ReplyArrives(cfg, x, at.l, l, r.l, sv, 3, ns, g);
    answer := OutgoingAll(c, cfg.entropy, l, Reply(c, x)).1.value;
    ServerFollows(c, x, sv, 3, ns, g, answer);
    ServerHasHeard(c, x, sv, 3, ns, g, answer);
    SpeakingKeepsHeard(c, rnd, x, AdvanceRead(Receive(c, g, sv, answer).0),
                       [CCS_MESSAGE, Whole(x.ServersFinished(c))]);
    ReplyCarriesKeys(cfg, x, at.l, l, r.l, r);
    var m := AdvanceRead(Receive(c, g, sv, answer).0);
    CanChangeIsTable(m);
    finished := Speaks(c, rnd, m, [CCS_MESSAGE, Whole(x.ServersFinished(c))]).1;
    WindowsAreDelivered(cfg, x, two);
    UnmetNumbers(cfg, x, two, 3);
    FinishedIsShort(cfg, x);
    ShortFits(x.ServersFinished(c));
    WholeIsHandshake(x.ServersFinished(c));
    LastTurnArrives(cfg, x, r.l, m, rnd, Whole(x.ServersFinished(c)), Delivered(cfg, x, two, 0), g);
  }

  lemma SecondHalf(cfg: Config, x: Exchange, one: seq<Input>, rnd: Entropy, g: Garbage, gs: nat -> Garbage,
                   second: Layer, ps: seq<Packet>, ns: seq<int>) returns (answer: bytes, finished: bytes)
    requires cfg.library.Lawful() && cfg.library.HmacLaw() && Agreed(cfg, x) && Unmet(cfg, x, one, 1)
    requires Asked(x, After(cfg, x, one).cl, 0) && Plainly(second, 3, ns) && Table(second)
    requires NextRecords(ps, 1) && Carry(ps, [Whole(x.Hello()), Whole(HELLO_DONE)])
    requires var l := After(cfg, x, one).cl.l;
             && 0 in l.epochs && 1 in l.epochs && l.epochs[1].conn.decipher == None
             && -1 <= l.epochs[0].writeSeq <= 1 && forall i :: 0 <= i < |ns| ==> ns[i] <= l.epochs[0].writeSeq
    ensures var c := cfg.library;
            var (m, heard) := Listens(c, g, WithServerKeys(c, x, second), answer);
            && heard == Reply(c, x) && Table(AdvanceRead(m))
            && finished == Speaks(c, rnd, AdvanceRead(m), [CCS_MESSAGE, Whole(x.ServersFinished(c))]).1
    ensures var two := one + [Turn(g, gs, ps)];
            var at, r, done := After(cfg, x, one), After(cfg, x, two), After(cfg, x, two + [Datagram(finished, g, gs)]);
            && r.cl.l.sent == at.cl.l.sent + [answer] && !r.finished && r.cl.h.outcomes == []
            && done.cl.l.sent == r.cl.l.sent && done.finished && done.cl.h.outcomes == [Connected]
            && !done.cl.h.isHandshaking && CarriesKeys(cfg.library, x, done.cl.l)
    ensures HeardFinished(cfg.library, x, ServerAtEnd(cfg.library, rnd, g, x, second, answer))
  {
    hide After, Unmet, Asked, T.PrintAll, Whole, Speaks, Listens, Plainly, Carry, NextRecords, RandomValue, Receive,
         Library.Lawful, Reply, Told, Table, Exchange.VerifyDataOf, WithServerKeys, AdvanceRead, Exchange.Hello,
         CarriesKeys, SameWriter, HeardFinished, ServerAtEnd;
    answer, finished := CiphersChange(cfg, x, one, rnd, g, gs, second, ps, ns);
    var two := one + [Turn(g, gs, ps)];
    OpenIsTable(cfg, After(cfg, x, two));
    FinishedTurn(cfg, x, two, finished, g, gs);
    SameWriterCarriesKeys(cfg.library, x, After(cfg, x, two).cl.l,
                          After(cfg, x, two + [Datagram(finished, g, gs)]).cl.l);
  }

  lemma CanChangeIsTable(l: Layer)
    requires CanChange(l)
    ensures Table(l)
  {
  }

  lemma UnmetNumbers(cfg: Config, x: Exchange, inputs: seq<Input>, k: nat)
    requires cfg.library.HmacLaw() && Unmet(cfg, x, inputs, k) && k <= 3
    ensures Low(Delivered(cfg, x, inputs, 0)) && Delivered(cfg, x, inputs, 1) == []
    ensures 3 !in Delivered(cfg, x, inputs, 0) && 4 !in Delivered(cfg, x, inputs, 0)
  {
    hide Delivered;
  }

  /** A short identity goes out whole. */
  lemma ReplyIsWhole(cfg: Config, x: Exchange)
    requires cfg.library.HmacLaw() && Agreed(cfg, x) && |x.identity| + 2 <= MAX_FRAGMENT_LENGTH
    ensures Reply(cfg.library, x) == [Whole(x.KeyExchange()), CCS_MESSAGE, Whole(x.ClientsFinished(cfg.library))]
  {
    hide Body, PrintFragment, Exchange.VerifyDataOf;
    var cke, fin := x.KeyExchange(), x.ClientsFinished(cfg.library);
    K.KeyExchangeBody(x.identity, 2);
    ClientKeyExchangeLayout(x.identity);
    FinishedIsShort(cfg, x);
    K.OneRecord(cke);
    K.OneRecord(fin);
  }

  lemma ServerServesSo(c: Library, rnd: Entropy, g: Garbage, x: Exchange, t: Talk)
    requires x.suite.prf.Some? && c.HmacLaw() && Table(SERVER_LAYER) && Table(t.first) && Table(t.second)
    requires Listens(c, g, SERVER_LAYER, t.hello).1 == RecordsOf(ClientHello(x.random, x.suiteIds))
    requires Speaks(c, rnd, Listens(c, g, SERVER_LAYER, t.hello).0, [Whole(CookieRequest(x.cookie))])
             == (t.first, t.request)
    requires Listens(c, g, t.first, t.again).1 == RecordsOf(x.SecondHello())
    requires Speaks(c, rnd, Listens(c, g, t.first, t.again).0, [Whole(x.Hello()), Whole(HELLO_DONE)])
             == (t.second, t.flight)
    requires var (m, heard) := Listens(c, g, WithServerKeys(c, x, t.second), t.answer);
             && heard == Reply(c, x) && Table(AdvanceRead(m))
             && t.finished == Speaks(c, rnd, AdvanceRead(m), [CCS_MESSAGE, Whole(x.ServersFinished(c))]).1
    ensures ServerSpeaksSo(c, rnd, g, x, t) && ServerHearsSo(c, g, x, t)
  {
    hide Whole, Speaks, Listens, Reply, Table, Exchange.VerifyDataOf, WithServerKeys, RecordsOf, ClientHello,
         CookieRequest;
  }

  /** The server's datagrams make the client send its three and succeed, in this order. */
  ghost predicate Connects(cfg: Config, x: Exchange, before: seq<Input>, g: Garbage, gs: nat -> Garbage, t: Talk)
    requires cfg.library.HmacLaw()
  {
    var one := before + [Datagram(t.request, g, gs)];
    var two := one + [Datagram(t.flight, g, gs)];
    var (r, done) := (After(cfg, x, two), After(cfg, x, two + [Datagram(t.finished, g, gs)]));
    && After(cfg, x, before).cl.l.sent == [t.hello] && After(cfg, x, one).cl.l.sent == [t.hello, t.again]
    && r.cl.l.sent == [t.hello, t.again, t.answer] && !r.finished && r.cl.h.outcomes == []
    && done.cl.l.sent == [t.hello, t.again, t.answer]
    && done.finished && done.cl.h.outcomes == [Connected] && !done.cl.h.isHandshaking
  }

  /** In the end the client writes with the agreed keys, of which it has used number 0, and the server
      reads with them and has received just that number. */
  ghost predicate EndsKeyed(cfg: Config, x: Exchange, before: seq<Input>, rnd: Entropy, g: Garbage, gs: nat -> Garbage,
                            t: Talk)
    requires x.suite.prf.Some? && cfg.library.HmacLaw()
  {
    && CarriesKeys(cfg.library, x, After(cfg, x, before + ServersTurns(g, gs, t)).cl.l)
    && Table(t.second) && HeardFinished(cfg.library, x, ServerAtEnd(cfg.library, rnd, g, x, t.second, t.answer))
  }

  /** The three datagrams of the server. */
  function ServersTurns(g: Garbage, gs: nat -> Garbage, t: Talk): seq<Input> {
    [Datagram(t.request, g, gs), Datagram(t.flight, g, gs), Datagram(t.finished, g, gs)]
  }

  lemma BothAreKeyed(cfg: Config, x: Exchange, before: seq<Input>, rnd: Entropy, g: Garbage, gs: nat -> Garbage,
                     t: Talk)
    requires x.suite.prf.Some? && cfg.library.HmacLaw() && Table(t.second)
    requires var three := before + [Datagram(t.request, g, gs)] + [Datagram(t.flight, g, gs)]
                          + [Datagram(t.finished, g, gs)];
             CarriesKeys(cfg.library, x, After(cfg, x, three).cl.l)
    requires HeardFinished(cfg.library, x, ServerAtEnd(cfg.library, rnd, g, x, t.second, t.answer))
    ensures EndsKeyed(cfg, x, before, rnd, g, gs, t)
  {
    hide After, CarriesKeys, HeardFinished, ServerAtEnd;
    assert before + ServersTurns(g, gs, t)
           == before + [Datagram(t.request, g, gs)] + [Datagram(t.flight, g, gs)] + [Datagram(t.finished, g, gs)];
  }

  lemma ClientConnects(cfg: Config, x: Exchange, before: seq<Input>, g: Garbage, gs: nat -> Garbage, t: Talk)
    requires cfg.library.HmacLaw()
    requires var one := before + [Datagram(t.request, g, gs)];
             var two := one + [Datagram(t.flight, g, gs)];
             var at, r, done := After(cfg, x, one), After(cfg, x, two),
               After(cfg, x, two + [Datagram(t.finished, g, gs)]);
             && After(cfg, x, before).cl.l.sent == [t.hello] && at.cl.l.sent == [t.hello] + [t.again]
             && r.cl.l.sent == at.cl.l.sent + [t.answer] && !r.finished && r.cl.h.outcomes == []
             && done.cl.l.sent == r.cl.l.sent && done.finished && done.cl.h.outcomes == [Connected]
             && !done.cl.h.isHandshaking
    ensures Connects(cfg, x, before, g, gs, t)
  {
    hide After;
    assert [t.hello] + [t.again] == [t.hello, t.again]
           && [t.hello, t.again] + [t.answer] == [t.hello, t.again, t.answer];
  }

  /** A whole handshake on the wire. The server knows the key and what it receives, nothing else:
      its verify data is the PRF of the secret, derived from the key and both randoms, over the
      encodings of the messages that were exchanged. Whatever cookie, random and PSK suite it
      chooses and whatever the session received before that disturbs neither the handshake nor the
      server's numbers: the client sends exactly three datagrams, from which the server hears the
      two ClientHellos and then exactly the ClientKeyExchange, the ChangeCipherSpec and the
      Finished, the latter protected; and its own three datagrams make the session succeed. In the
      end both have the agreed keys in epoch 1. */
  lemma HonestServerConnects(cfg: Config, x: Exchange, before: seq<Input>, rnd: Entropy, g: Garbage, gs: nat -> Garbage)
    returns (t: Talk)
    requires cfg.library.Lawful() && cfg.library.HmacLaw() && Agreed(cfg, x) && Undisturbed(cfg, x, before)
    ensures ServerSpeaksSo(cfg.library, rnd, g, x, t) && ServerHearsSo(cfg.library, g, x, t)
    ensures |x.identity| + 2 <= MAX_FRAGMENT_LENGTH ==>
              Reply(cfg.library, x) == [Whole(x.KeyExchange()), CCS_MESSAGE, Whole(x.ClientsFinished(cfg.library))]
    ensures Connects(cfg, x, before, g, gs, t) && EndsKeyed(cfg, x, before, rnd, g, gs, t)
  {
    hide After, Undisturbed, Unmet, Asked, T.PrintAll, Whole, Speaks, Listens, Plainly, Carry, NextRecords, RandomValue,
         Receive, Library.Lawful, Reply, Told, Table, Exchange.VerifyDataOf, WithServerKeys, RecordsOf, ClientHello,
         CookieRequest, ServerSpeaksSo, ServerHearsSo, Connects, AdvanceRead, Exchange.SecondHello, Exchange.Hello,
         CarriesKeys, HeardFinished, ServerAtEnd, EndsKeyed;
    var hello, first, qs, ns := ServerAsks(cfg, x, before, rnd, g);
    var again, second, ps, all := ServerGreets(cfg, x, before, rnd, g, gs, first, qs, ns);
    var one := before + [Turn(g, gs, qs)];
    var answer, finished := SecondHalf(cfg, x, one, rnd, g, gs, second, ps, all);
    if |x.identity| + 2 <= MAX_FRAGMENT_LENGTH {
      ReplyIsWhole(cfg, x);
    }
    t := Talk(hello, T.PrintAll(qs), first, again, T.PrintAll(ps), second, answer, finished);
    PlainlyIsTable(first, 1, ns);
    ServerServesSo(cfg.library, rnd, g, x, t);
    ClientConnects(cfg, x, before, g, gs, t);
    BothAreKeyed(cfg, x, before, rnd, g, gs, t);
  }

  // ---- how the conversation may begin ----

  /** A session that has just been opened. */
  lemma StartIsUndisturbed(cfg: Config, x: Exchange)
    requires cfg.library.HmacLaw()
    ensures Undisturbed(cfg, x, [])
  {
    hide Handlers.Start, ClientHello, K.FirstLayer, K.SentInClear, K.Early, K.Blank;
    K.StartIsEarly(cfg, x.random, x.suiteIds);
  }

  lemma OneNumber(p: Packet)
    requires p.epoch == 0
    ensures R.NumbersOf(0, [p]) == [p.seqNum] && R.NumbersOf(1, [p]) == []
  {
    assert [p][..0] == [] && R.NumbersOf(0, []) == [] && R.NumbersOf(1, []) == [];
    assert [] + [p.seqNum] == [p.seqNum];
  }

  /** A session that has received application data in the clear, under a number that the server
      does not need for its handshake. */
  lemma ClearDataDisturbsNothing(cfg: Config, x: Exchange, q: nat, data: bytes, g: Garbage, gs: nat -> Garbage)
    requires cfg.library.HmacLaw() && 5 <= q < WIDTH && |data| <= MAX_FRAGMENT
    ensures Undisturbed(cfg, x, [Datagram(Print(PlainRecord(0, q, data)), g, gs)])
  {
    hide Handlers.Start, ClientHello, K.FirstLayer, K.Early, K.Blank, Opened, Receive, Print, Step, Table, Quiet,
         Taints, RecordsFrom, RecordsOf, ClearRecords;
    var c, s, p := cfg.library, Start(cfg, x), PlainRecord(0, q, data);
    var input := Datagram(Print(p), g, gs);
    StartIsUndisturbed(cfg, x);
    OpenIsTable(cfg, s);
    PlainDataIsKept(cfg, x.random, x.suiteIds, 0, q, data, g, gs);
    AfterOneMore(cfg, x, [], input);
    assert [] + [input] == [input] && [input][..0] == [];
    var l, m := s.cl.l, Receive(c, g, s.cl.l, Print(p)).0;
    ReceiveIsQuiet(c, g, l, Print(p));
    R.StepKeepsTable(c, l, R.Recv(g, Print(p)));
    K.QuietKeepsEarly(l, m, x.ClientRandom());
    K.QuietKeepsBlank(l, m);
    ClearDatumIsHeard(cfg, x, q, data, g);
    assert [] + [p] == [p];
    OneNumber(p);
  }

  lemma ClearDatumIsHeard(cfg: Config, x: Exchange, q: nat, data: bytes, g: Garbage)
    requires cfg.library.HmacLaw() && q < WIDTH && |data| <= MAX_FRAGMENT
    ensures var l := Start(cfg, x).cl.l;
            && Table(l)
            && var m := Receive(cfg.library, g, l, Print(PlainRecord(0, q, data))).0;
               SameSender(l, m) && m.read == l.read
  {
    hide Opened, Receive, Print, Table, PlainRecord, SameSender, FRESH;
    OpenedLayer(cfg, x.random, x.suiteIds);
    PlainDatumIsHeard(cfg.library, g, Start(cfg, x).cl.l, q, data);
  }

  lemma PlainDatumIsHeard(c: Library, g: Garbage, l: Layer, q: nat, data: bytes)
    requires Table(l) && l.read == 0 && 0 in l.epochs && 1 in l.epochs && l.epochs[0].window == FRESH
    requires l.epochs[0].conn.DecipherInUse() == Some(K.NULL_DELEGATE) && q < WIDTH && |data| <= MAX_FRAGMENT
    ensures var m := Receive(c, g, l, Print(PlainRecord(0, q, data))).0; SameSender(l, m) && m.read == l.read
  {
    assert Marks(FRESH, []) == FRESH;
    hide Receive, Print, Table, T.WireAll, Marks;
    var p := PlainRecord(0, q, data);
    assert T.PrintAll([p]) == Print(p) by {
      assert [p][1..] == [] && T.PrintAll([]) == [] && Print(p) + [] == Print(p);
    }
    SendableIsWelcome(l, [p], []);
    HearsInClear(c, g, l, [p], [Message(APPLICATION_DATA, data)]);
    HeardIsSameSender(c, g, l, [p], [Message(APPLICATION_DATA, data)]);
  }

  /** The input for which authenticity fails: data in the clear, then an honest handshake. The
      session succeeds and the first data it emits are those that nothing protected. */
  lemma ClearDataThenHandshake(cfg: Config, x: Exchange, q: nat, data: bytes, rnd: Entropy, g: Garbage,
                               gs: nat -> Garbage)
    returns (t: Talk)
    requires cfg.library.Lawful() && cfg.library.HmacLaw() && Agreed(cfg, x) && 5 <= q < WIDTH && |data| <= MAX_FRAGMENT
    ensures var forged := Datagram(Print(PlainRecord(0, q, data)), g, gs);
            var inputs := [forged, Datagram(t.request, g, gs), Datagram(t.flight, g, gs), Datagram(t.finished, g, gs)];
            var (s, done) := (Start(cfg, x), After(cfg, x, inputs));
            && done.finished && done.cl.h.outcomes == [Connected]
            && done.emitted != [] && done.emitted[0] == data
            && Arrivals(cfg, s, inputs) != []
            && Arrivals(cfg, s, inputs)[0] == Arrival(PlainRecord(0, q, data), Some(K.NULL_DELEGATE))
  {
    hide Opened, Run, Print, Undisturbed, RandomValue, Library.Lawful, ServerSpeaksSo, ServerHearsSo, Arrivals, Tainted,
         EndsKeyed;
    var forged := Datagram(Print(PlainRecord(0, q, data)), g, gs);
    ClearDataDisturbsNothing(cfg, x, q, data, g, gs);
    t := HonestServerConnects(cfg, x, [forged], rnd, g, gs);
    var rest := [Datagram(t.request, g, gs), Datagram(t.flight, g, gs), Datagram(t.finished, g, gs)];
    assert [forged] + rest == [forged] + [rest[0]] + [rest[1]] + [rest[2]];
    assert [forged] + rest == [forged, rest[0], rest[1], rest[2]];
    ClearDataIsEmitted(cfg, x.random, x.suiteIds, 0, q, data, g, gs, rest);
  }
}
