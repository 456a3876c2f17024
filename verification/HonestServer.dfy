/** A handshake with a server that knows the wire and the key, message by message. */
module HonestServer {
  import opened Bytes
  import opened Codec
  import opened Crypto
  import opened Prfs
  import opened Protection
  import opened Packets
  import opened ConnectionStates
  import opened Records
  import opened LayerChanges
  import opened Fragments
  import opened Handshakes
  import opened Handlers
  import opened HandlerProofs
  import opened FlightAssembly
  import opened Transcripts
  import opened KeyAgreement
  import opened EpochAgreement
  import opened Completion

  // ---- what both sides say ----

  /** What the two sides choose, and the key they share. */
  datatype Exchange = Exchange(
    random: Value, suiteIds: seq<int>, cookie: bytes, serverRandom: Value, suiteId: nat, suite: CipherSuite,
    identity: bytes, key: bytes)
  {
    /** The ClientHello with the cookie. */
    function SecondHello(): Handshake {
      WithCookie(ClientHello(random, suiteIds), cookie).(seqNum := 1)
    }

    function ClientRandom(): bytes {
      RandomBytes(ClientHello(random, suiteIds))
    }

    function Hello(): Handshake {
      ServerHello(serverRandom, suiteId)
    }

    function KeyExchange(): Handshake {
      ClientKeyExchange(identity).(seqNum := 2)
    }

    /** The master secret of section 8.1 of RFC 5246 over the premaster secret of the key. */
    function Master(c: Library): bytes
      requires suite.prf.Some?
    {
      MasterSecret(c, suite.prf.value, PreMasterSecret(key), ClientRandom(), RandomBytes(Hello()))
    }

    function Keys(c: Library): KeyMaterial
      requires suite.prf.Some? && c.HmacLaw()
    {
      var h, block := suite.prf.value,
        KeyBlock(c, suite.prf.value, suite, Master(c), ClientRandom(), RandomBytes(Hello()));
      PIsBlockStream(c, h, Master(c), Ascii("key expansion") + (RandomBytes(Hello()) + ClientRandom()),
                     KeyBlockLength(suite));
      Partition(block, suite)
    }

    /** The verify data of section 7.4.9 of RFC 5246 over some messages. */
    function VerifyDataOf(c: Library, usage: string, messages: seq<bytes>): bytes
      requires suite.prf.Some?
    {
      var h := suite.prf.value;
      Expand(c, h, Master(c), usage, c.hash(h, Concat(messages)), suite.verifyDataLength)
    }

    /** All that was said before the client's Finished. */
    function Before(): seq<bytes> {
      [Encoding(SecondHello()), Encoding(Hello()), Encoding(HELLO_DONE), Encoding(KeyExchange())]
    }

    function ClientsFinished(c: Library): Handshake
      requires suite.prf.Some?
    {
      FinishedMessage(VerifyDataOf(c, "client finished", Before())).(seqNum := 3)
    }

    function ServersFinished(c: Library): Handshake
      requires suite.prf.Some?
    {
      ServerFinished(VerifyDataOf(c, "server finished", Before() + [Encoding(ClientsFinished(c))]))
    }
  }

  /** Client and server can agree: the key is the client's, the suite is a PSK suite of the table,
      and the server's messages are well formed. */
  ghost predicate Agreed(cfg: Config, x: Exchange) {
    && cfg.psk == Some((x.identity, x.key)) && cfg.suites(x.suiteId) == Some(x.suite)
    && x.suite.keyExchange == Psk && x.suite.prf.Some?
    && 0 < |x.cookie| < 256 && RandomValue(x.serverRandom) && x.suiteId < 65536
  }

  // ---- the client's side, flight by flight ----

  /** The client has sent its first ClientHello. */
  ghost predicate Begun(x: Exchange, cl: Endpoint) {
    && Early(cl.l, x.ClientRandom()) && Blank(cl.l) && cl.l.read == 0
    && cl.h == RESET.(lastSent := 0, lastFlight := [ClientHello(x.random, x.suiteIds)],
                      expected := Some([SERVER_HELLO_DONE, HELLO_VERIFY_REQUEST]))
  }

  /** The client has answered the cookie request; fragments of messages up to `n` may be queued. */
  ghost predicate Asked(x: Exchange, cl: Endpoint, n: int) {
    && Early(cl.l, x.ClientRandom()) && Blank(cl.l) && cl.l.read == 0
    && cl.h == RESET.(lastSent := 1, lastFlight := [x.SecondHello()], lastProcessed := 0,
                      expected := Some([SERVER_HELLO_DONE]),
                      transcript := [Encoding(x.SecondHello())], incomplete := cl.h.incomplete)
    && forall f :: f in cl.h.incomplete ==> f.seqNum <= n
  }

  /** Whole messages that arrive one after the other, with nothing in between but datagrams and `n`
      ChangeCipherSpecs that are followed. */
  ghost predicate Hears(evs: seq<Event>, ms: seq<Handshake>, n: nat) {
    evs != [] && evs[|evs| - 1].Incoming? && Incomings(evs) == Wholes(ms) && Calm(evs) && PeerCcs(evs) == n
  }

  lemma HearsCookie(cfg: Config, x: Exchange, cl: Endpoint, evs: seq<Event>)
    requires Live(cl) && cfg.library.HmacLaw() && Agreed(cfg, x) && Begun(x, cl)
             && Hears(evs, [CookieRequest(x.cookie)], 0)
    ensures var r, l := Run(cfg, cl, evs), LayerRun(cfg.library, cl.l, evs);
            && Asked(x, r, 0) && SentInClear(l, r.l, x.SecondHello())
            && 1 in l.epochs && 1 in r.l.epochs && r.l.epochs[1].conn.decipher == l.epochs[1].conn.decipher
  {
    hide Early, Blank, Calm, Run, Live, Canonical, Arrives, Quiet, SentInClear, ClientHello, Encoding, WithCookie,
         ToFragment;
    var hvr := CookieRequest(x.cookie);
    CookieRequestIsCanonical(x.cookie);
    WholesArrive(cfg, cl, [hvr], evs);
    HelloIsHello(x);
    CookieStage(cfg, cl, hvr, evs, x.ClientRandom());
    CookieExchange(cfg, cl, hvr, evs);
  }

  lemma HelloIsHello(x: Exchange)
    requires x.cookie != []
    ensures ClientHello(x.random, x.suiteIds).msgType == CLIENT_HELLO && x.SecondHello().msgType == CLIENT_HELLO
    ensures ClientCookie(x.SecondHello()) != [] && BytesOf(Field(CookieRequest(x.cookie), 1)) == x.cookie
    ensures CookieRequest(x.cookie).msgType == HELLO_VERIFY_REQUEST && CookieRequest(x.cookie).seqNum == 0
  {
  }

  /** Epoch 1 has the agreed suite, secret and keys. */
  ghost predicate HasAgreedKeys(c: Library, x: Exchange, conn: ConnState)
    requires x.suite.prf.Some? && c.HmacLaw()
  {
    && conn.entity == Client && conn.suite == Some(x.suite)
    && conn.masterSecret == Some(x.Master(c)) && conn.keys == Some(x.Keys(c))
  }

  /** The client has answered the server's flight. */
  ghost predicate Told(cfg: Config, x: Exchange, cl: Endpoint)
    requires x.suite.prf.Some? && cfg.library.HmacLaw()
  {
    && Table(cl.l) && cl.l.read == 0 && 0 in cl.l.epochs && 1 in cl.l.epochs
    && cl.l.epochs[0].conn.DecipherInUse() == Some(NULL_DELEGATE)
    && HasAgreedKeys(cfg.library, x, cl.l.epochs[1].conn)
    && cl.h == RESET.(lastSent := 3, lastFlight := [x.KeyExchange(), x.ClientsFinished(cfg.library)],
                      lastProcessed := 2,
                      expected := Some([FINISHED]), incomplete := cl.h.incomplete,
                      transcript := x.Before() + [Encoding(x.ClientsFinished(cfg.library))])
    && forall f :: f in cl.h.incomplete ==> f.seqNum <= 2
  }

  /** What the client answers with: `l` is its layer when the keys were computed. */
  function Reply(c: Library, x: Exchange): seq<Message>
    requires x.suite.prf.Some?
  {
    [FirstRecord(x.KeyExchange()), CCS_MESSAGE, FirstRecord(x.ClientsFinished(c))]
  }

  /** From `now`, the layer after the server's flight was received, to `r`: the client computed the
      keys, in `l`, and sent its reply with it; epoch 1 deciphers as the keys do unless its delegate
      was read before. */
  ghost predicate Replies(cfg: Config, x: Exchange, now: Layer, l: Layer, r: Layer)
    requires x.suite.prf.Some? && cfg.library.HmacLaw()
  {
    && Table(l) && l.write == 0 && 0 in now.epochs && 1 in now.epochs && 0 in l.epochs && 1 in l.epochs && 1 in r.epochs
    && l.epochs[0].conn.suite == Some(NULL_SUITE) && l.epochs[0].writeSeq == now.epochs[0].writeSeq
    && HasAgreedKeys(cfg.library, x, l.epochs[1].conn) && l.epochs[1].conn.cipher == None && l.epochs[1].writeSeq == -1
    && var (m, answer) := OutgoingAll(cfg.library, cfg.entropy, l, Reply(cfg.library, x));
    && answer.Some? && r.sent == now.sent + [answer.value] && r.epochs[1].writeSeq == 0
    && (now.epochs[1].conn.decipher == None ==>
          r.epochs[1].conn.DecipherInUse() == Some(Delegate(x.suite, Some(x.Keys(cfg.library)), Client)))
  }

  lemma FlightIsAcceptable(cfg: Config, x: Exchange)
    requires Agreed(cfg, x)
    ensures var flight := [x.Hello(), HELLO_DONE];
            && Acceptable(cfg, Some(NULL_SUITE), false, flight) && LastHello(None, flight) == Some(x.Hello())
            && Canonical(x.Hello()) && Canonical(HELLO_DONE) && x.Hello().seqNum == 1 && HELLO_DONE.seqNum == 2
            && x.Hello().msgType == SERVER_HELLO && HELLO_DONE.msgType == SERVER_HELLO_DONE
            && cfg.suites(NumberOf(Field(x.Hello(), 3))) == Some(x.suite)
  {
    ServerHelloIsCanonical(x.serverRandom, x.suiteId);
    EndingsAreCanonical([]);
    var flight := [x.Hello(), HELLO_DONE];
    assert flight[1..] == [HELLO_DONE];
    assert NumberOf(Field(flight[0], 3)) == x.suiteId;
  }

  lemma FlightIsDue(cfg: Config, x: Exchange, cl: Endpoint)
    requires Agreed(cfg, x) && Asked(x, cl, 0)
    ensures Due(cl.h, [x.Hello(), HELLO_DONE]) && cl.h.complete == map[]
  {
    hide Canonical, Early, Blank, Body;
    FlightIsAcceptable(cfg, x);
    var flight := [x.Hello(), HELLO_DONE];
    forall i | 0 <= i < 2
      ensures flight[i].seqNum == 1 + i && Canonical(flight[i])
      ensures flight[i].msgType in [SERVER_HELLO_DONE] <==> i == 1
    {
    }
    forall f | f in cl.h.incomplete
      ensures !Belongs(f, flight)
    {
    }
  }

  lemma KeysAsAgreed(cfg: Config, x: Exchange, at: Endpoint, a: Endpoint)
    requires cfg.library.HmacLaw() && Agreed(cfg, x) && at.l.read == 0
    requires Greeted(cfg, at, a, x.ClientRandom(), Some(x.Hello()))
    requires var l := WithKeys(cfg, a).l; 1 in l.epochs && Keyed(cfg, l.epochs[1].conn, x.ClientRandom())
    ensures HasAgreedKeys(cfg.library, x, WithKeys(cfg, a).l.epochs[1].conn)
    ensures WithKeys(cfg, a).l.epochs[0] == a.l.epochs[0] && WithKeys(cfg, a).l.sent == a.l.sent
    ensures WithKeys(cfg, a).h == a.h
  {
    hide Early, Live, PreMasterSecret, MasterSecret, KeyBlock, Partition, RandomBytes, NumberOf, Table;
    FlightIsAcceptable(cfg, x);
    EarlyIsClient(a.l, x.ClientRandom());
    EarlyHasZero(a.l, x.ClientRandom());
    KeyedByComputation(cfg, a.l.epochs[1].conn, x.ClientRandom());
  }

  lemma EarlyHasZero(l: Layer, random: bytes)
    requires Early(l, random)
    ensures 0 in l.epochs && l.epochs[0].conn.suite == Some(NULL_SUITE)
  {
  }

  lemma HashedTwo(h: Handler, a: Handshake, b: Handshake)
    requires ServerType(a) && b.msgType == SERVER_HELLO_DONE
    ensures Taken(h, [a, b]) == h.(expected := None, lastProcessed := b.seqNum, complete := map[],
                                   transcript := h.transcript + [Encoding(a), Encoding(b)])
  {
    hide Encoding, Hashed;
    ServerMessagesAreHashed([a, b]);
    assert Encodings([a, b]) == [Encoding(a), Encoding(b)];
  }

  lemma HashedFlight(x: Exchange, h: Handler)
    requires h.transcript == [Encoding(x.SecondHello())]
    ensures var flight := [x.Hello(), HELLO_DONE];
            && Taken(h, flight).transcript + [Encoding(x.KeyExchange())] == x.Before()
            && Taken(h, flight)
               == h.(expected := None, lastProcessed := 2, complete := map[], transcript := Taken(h, flight).transcript)
  {
    hide Encoding, Taken, ClientHello, ClientKeyExchange;
    HashedTwo(h, x.Hello(), HELLO_DONE);
  }

  lemma SaysAsAgreed(cfg: Config, x: Exchange, h: Handler, a: Endpoint, r: Endpoint)
    requires cfg.library.HmacLaw() && Agreed(cfg, x) && Replied(cfg, a, r) && 1 in a.l.epochs
    requires HasAgreedKeys(cfg.library, x, a.l.epochs[1].conn) && h.transcript == [Encoding(x.SecondHello())]
             && h.lastSent == 1
    requires a.h == Taken(h, [x.Hello(), HELLO_DONE])
    ensures r.h == h.(lastSent := 3, lastFlight := [x.KeyExchange(), x.ClientsFinished(cfg.library)],
                      lastProcessed := 2,
                      complete := map[], expected := Some([FINISHED]), outgoing := [], flightBegun := false,
                      transcript := x.Before() + [Encoding(x.ClientsFinished(cfg.library))])
  {
    hide Encoding, ClientKeyExchange, FinishedMessage, MasterSecret, PreMasterSecret, Expand, ReplyPackets, Partition,
         KeyBlock, Hashed, Body;
    HashedFlight(x, h);
    var cke, fin := r.h.lastFlight[0], r.h.lastFlight[1];
    assert cke == x.KeyExchange();
    assert fin == x.ClientsFinished(cfg.library);
    assert a.h.transcript + [Encoding(cke), Encoding(fin)] == (a.h.transcript + [Encoding(cke)]) + [Encoding(fin)];
  }

  lemma OneReply(c: Library, rnd: Entropy, l: Layer, cke: Message, fin: Message, ps: seq<Packet>, qs: seq<Packet>)
    requires 0 in l.epochs && 1 in l.epochs && l.epochs[1].conn.suite.Some?
    requires ReplyPackets(c, rnd, l, cke, fin, ps) && ReplyPackets(c, rnd, l, cke, fin, qs)
    ensures ps == qs
  {
    hide Encrypt;
  }

  /** The datagram of an answer is what the record layer makes of its records. */
  lemma ReplyIsDatagram(cfg: Config, x: Exchange, a: Endpoint, r: Endpoint, random: bytes, cached: Option<Delegate>)
    requires cfg.library.HmacLaw() && Keying(cfg, a.l, random, cached) && Replied(cfg, a, r) && x.suite.prf.Some?
    requires r.h.lastFlight == [x.KeyExchange(), x.ClientsFinished(cfg.library)]
    ensures var answer := OutgoingAll(cfg.library, cfg.entropy, a.l, Reply(cfg.library, x)).1;
            answer.Some? && r.l.sent == a.l.sent + [answer.value]
    ensures 1 in r.l.epochs && r.l.epochs[1].writeSeq == 0
  {
    hide Keyed, OthersKeyless, Table, ReplyPackets, FirstRecord, Print, Encoding, Body, OutgoingAll, VerifyData;
    var cke, fin := FirstRecord(x.KeyExchange()), FirstRecord(x.ClientsFinished(cfg.library));
    RecordsAreHandshake(x.KeyExchange());
    RecordsAreHandshake(x.ClientsFinished(cfg.library));
    KeyedHasSuite(cfg, a.l.epochs[1].conn, random);
    var ps := ReplyIsSent(cfg.library, cfg.entropy, a.l, cke, fin);
    var qs := SentPackets(cfg, a, r);
    OneReply(cfg.library, cfg.entropy, a.l, cke, fin, ps, qs);
  }

  lemma RecordsAreHandshake(m: Handshake)
    ensures FirstRecord(m).typ == HANDSHAKE
  {
  }

  lemma SentPackets(cfg: Config, a: Endpoint, r: Endpoint) returns (qs: seq<Packet>)
    requires Replied(cfg, a, r)
    ensures 0 in a.l.epochs && 1 in a.l.epochs && a.l.epochs[1].conn.suite.Some? && |r.h.lastFlight| == 2
    ensures ReplyPackets(cfg.library, cfg.entropy, a.l, FirstRecord(r.h.lastFlight[0]),
                         FirstRecord(r.h.lastFlight[1]), qs)
    ensures |qs| == 3 && r.l.sent == a.l.sent + [Print(qs[0]) + Print(qs[1]) + Print(qs[2])]
  {
    hide Encrypt, FirstRecord, Print, VerifyData, Encoding, Body;
    qs :| ReplyPackets(cfg.library, cfg.entropy, a.l, FirstRecord(r.h.lastFlight[0]), FirstRecord(r.h.lastFlight[1]),
                       qs)
          && r.l.sent == a.l.sent + [Print(qs[0]) + Print(qs[1]) + Print(qs[2])];
  }

  lemma AnswerAsAgreed(cfg: Config, x: Exchange, at: Endpoint, a: Endpoint, r: Endpoint) returns (l: Layer)
    requires cfg.library.HmacLaw() && Agreed(cfg, x) && Asked(x, at, 2)
    requires Greeted(cfg, at.(h := Taken(at.h, [x.Hello(), HELLO_DONE])), a, x.ClientRandom(), Some(x.Hello()))
    requires Answered(cfg, a, r, x.ClientRandom())
    ensures r.h.incomplete == at.h.incomplete && Told(cfg, x, r) && Replies(cfg, x, at.l, l, r.l)
  {
    hide Early, Blank, Replied, Keyed, Keying, RandomBytes, NumberOf, Table, Taken, OutgoingAll, Reply, HasAgreedKeys,
         Answered, Greeted, RandomValue, Encoding, ClientHello;
    AnsweredFacts(cfg, x, at.(h := Taken(at.h, [x.Hello(), HELLO_DONE])), a, r);
    l := WithKeys(cfg, a).l;
    SaysAsAgreed(cfg, x, at.h, WithKeys(cfg, a), r);
    ReplyIsDatagram(cfg, x, WithKeys(cfg, a), r, x.ClientRandom(), a.l.epochs[1].conn.decipher);
  }

  lemma AnsweredFacts(cfg: Config, x: Exchange, at: Endpoint, a: Endpoint, r: Endpoint)
    requires cfg.library.HmacLaw() && Agreed(cfg, x) && at.l.read == 0
    requires Greeted(cfg, at, a, x.ClientRandom(), Some(x.Hello())) && Answered(cfg, a, r, x.ClientRandom())
    ensures var l, now := WithKeys(cfg, a).l, at.l;
            && Table(l) && l.write == 0 && 0 in now.epochs && 1 in now.epochs && 0 in l.epochs && 1 in l.epochs
            && 1 in a.l.epochs && Keying(cfg, l, x.ClientRandom(), a.l.epochs[1].conn.decipher)
            && Replied(cfg, WithKeys(cfg, a), r) && WithKeys(cfg, a).h == at.h && l.sent == now.sent
            && l.epochs[0].conn.suite == Some(NULL_SUITE) && l.epochs[0].writeSeq == now.epochs[0].writeSeq
            && HasAgreedKeys(cfg.library, x, l.epochs[1].conn) && l.epochs[1].conn.cipher == None
            && l.epochs[1].writeSeq == -1
            && Table(r.l) && r.l.read == 0 && 0 in r.l.epochs && 1 in r.l.epochs
            && r.l.epochs[0].conn.DecipherInUse() == Some(NULL_DELEGATE)
            && HasAgreedKeys(cfg.library, x, r.l.epochs[1].conn)
            && (now.epochs[1].conn.decipher == None ==>
                  r.l.epochs[1].conn.DecipherInUse() == Some(Delegate(x.suite, Some(x.Keys(cfg.library)), Client)))
  {
    hide Early, Live, Replied, Keyed, RandomBytes, NumberOf, Table, Negotiated, OthersKeyless, Cached;
    var l, cached := WithKeys(cfg, a).l, a.l.epochs[1].conn.decipher;
    EarlyHasZero(at.l, x.ClientRandom());
    EarlyIsClient(at.l, x.ClientRandom());
    KeysAsAgreed(cfg, x, at, a);
    UnprotectedDeciphers(l.epochs[0].conn);
    CachedFields(l.epochs[0].conn, r.l.epochs[0].conn);
    CachedFields(l.epochs[1].conn, r.l.epochs[1].conn);
    LateIsKeyed(cfg, r.l, x.ClientRandom(), cached);
  }

  lemma UnprotectedDeciphers(conn: ConnState)
    requires Unprotected(conn)
    ensures conn.DecipherInUse() == Some(NULL_DELEGATE) && conn.suite == Some(NULL_SUITE)
  {
  }

  lemma HearsFlight(cfg: Config, x: Exchange, cl: Endpoint, evs: seq<Event>) returns (l: Layer)
    requires Live(cl) && cfg.library.HmacLaw() && Agreed(cfg, x) && Asked(x, cl, 0)
             && Hears(evs, [x.Hello(), HELLO_DONE], 0)
    ensures var r := Run(cfg, cl, evs);
            Told(cfg, x, r) && Replies(cfg, x, LayerRun(cfg.library, cl.l, evs), l, r.l)
  {
    hide Early, Blank, Calm, Run, Canonical, Arrives, Answered, Greeted, LastHello, Table, RandomBytes, NumberOf,
         Acceptable, Due, Told, Replies, Quiet, Taken, Encoding, ClientHello;
    var flight := [x.Hello(), HELLO_DONE];
    FlightIsDue(cfg, x, cl);
    FlightIsAcceptable(cfg, x);
    WholesArrive(cfg, cl, flight, evs);
    var a := AnswersIff(cfg, cl, flight, evs, x.ClientRandom());
    ArrivedFlight(cfg, cl, flight, evs);
    CalmIsQuiet(cfg.library, cl.l, evs);
    CalmKeepsEarly(cfg.library, cl.l, evs, x.ClientRandom());
    QuietKeepsBlank(cl.l, LayerRun(cfg.library, cl.l, evs));
    l := AnswerAsAgreed(cfg, x, AtHandover(cfg, cl, evs), a, Run(cfg, cl, evs));
  }

  lemma ArrivedFlight(cfg: Config, cl: Endpoint, flight: seq<Handshake>, evs: seq<Event>)
    requires Live(cl) && cfg.library.HmacLaw() && Arrives(cfg, cl, flight, evs)
    ensures flight != []
    ensures var h := Run(cfg, cl, evs).h;
            && h.lastProcessed == flight[|flight| - 1].seqNum && h.complete == map[]
            && QueueGrew(cl.h, h.incomplete, |flight|)
  {
    hide Due, Completes, Blocked, Run, Dispatch, VerifyData, Table, QueueGrew;
    FlightIsAssembled(cfg, cl, flight, evs);
    DueIsNotEmpty(cl.h, flight);
    DispatchEffect(cfg, AtHandover(cfg, cl, evs), flight);
  }

  lemma FinishedIsDue(cfg: Config, x: Exchange, cl: Endpoint)
    requires cfg.library.HmacLaw() && Agreed(cfg, x) && Told(cfg, x, cl)
    ensures Due(cl.h, [x.ServersFinished(cfg.library)]) && cl.h.complete == map[]
    ensures x.ServersFinished(cfg.library).msgType == FINISHED
    ensures BytesOf(Field(x.ServersFinished(cfg.library), 0))
            == x.VerifyDataOf(cfg.library, "server finished", x.Before() + [Encoding(x.ClientsFinished(cfg.library))])
  {
    hide Canonical, Body, Encoding, MasterSecret, Expand, HasAgreedKeys, Table, KeyBlock;
    var c := cfg.library;
    var v := x.VerifyDataOf(c, "server finished", x.Before() + [Encoding(x.ClientsFinished(c))]);
    EndingsAreCanonical(v);
    forall f | f in cl.h.incomplete
      ensures !Belongs(f, [x.ServersFinished(c)])
    {
    }
  }

  /** The server's Finished, behind one ChangeCipherSpec, completes the handshake. */
  lemma HearsFinished(cfg: Config, x: Exchange, cl: Endpoint, evs: seq<Event>)
    requires Live(cl) && cfg.library.HmacLaw() && Agreed(cfg, x) && Told(cfg, x, cl)
    requires Hears(evs, [x.ServersFinished(cfg.library)], 1)
    ensures var r := Run(cfg, cl, evs).h; r.outcomes == [Connected] && !r.isHandshaking
    ensures Run(cfg, cl, evs).l == LayerRun(cfg.library, cl.l, evs)
  {
    hide Calm, Run, Canonical, Arrives, Table, Due, Told, Quiet, Encoding, Dispatch, VerifyData, HasAgreedKeys,
         AtHandover, Exchange.ServersFinished, Exchange.VerifyDataOf, LayerRun;
    var fin, at := x.ServersFinished(cfg.library), AtHandover(cfg, cl, evs);
    FinishedIsDue(cfg, x, cl);
    WholesArrive(cfg, cl, [fin], evs);
    ArrivesInFull(cfg, cl, [fin], evs);
    CalmIsQuiet(cfg.library, cl.l, evs);
    VerifiesAsAgreed(cfg, x, cl, LayerRun(cfg.library, cl.l, evs));
    HandoverOf(cfg, cl, evs);
    FinishedMatches(cfg, at, fin);
  }

  lemma ArrivesInFull(cfg: Config, cl: Endpoint, ms: seq<Handshake>, evs: seq<Event>)
    requires Live(cl) && cfg.library.HmacLaw() && Arrives(cfg, cl, ms, evs)
    ensures ms != [] && Run(cfg, cl, evs) == Dispatch(cfg, AtHandover(cfg, cl, evs), ms)
  {
    hide Due, Completes, Blocked, Run, Dispatch;
    FlightIsAssembled(cfg, cl, ms, evs);
    DueIsNotEmpty(cl.h, ms);
  }

  lemma VerifiesAsAgreed(cfg: Config, x: Exchange, cl: Endpoint, l: Layer)
    requires cfg.library.HmacLaw() && Agreed(cfg, x) && Told(cfg, x, cl) && Quiet(cl.l, l)
    ensures 1 in l.epochs && cl.h.outcomes == [] && cl.l.read == 0
    ensures VerifyData(cfg.library, l.epochs[1].conn, cl.h.transcript, "server finished")
            == Some(BytesOf(Field(x.ServersFinished(cfg.library), 0)))
  {
    hide Encoding, MasterSecret, Expand, Table, Cached, KeyBlock, Partition;
    FinishedIsDue(cfg, x, cl);
    CachedFields(cl.l.epochs[1].conn, l.epochs[1].conn);
  }

  lemma FinishedMatches(cfg: Config, cl: Endpoint, fin: Handshake)
    requires Live(cl) && cfg.library.HmacLaw() && fin.msgType == FINISHED && cl.l.read in cl.l.epochs
    requires VerifyData(cfg.library, cl.l.epochs[cl.l.read].conn, cl.h.transcript, "server finished")
             == Some(BytesOf(Field(fin, 0)))
    ensures var r := Dispatch(cfg, cl, [fin]);
            r.h.outcomes == cl.h.outcomes + [Connected] && !r.h.isHandshaking && r.l == cl.l
  {
    hide VerifyData, PrintFragment, Table;
    assert [fin][..0] == [] && Hashed([]) == [];
    assert cl.h.transcript + [] == cl.h.transcript;
  }
}
