/** All key material of a handshake lives in one connection state, reached by four getters. */
module EpochAgreement {
  import opened Bytes
  import opened Codec
  import opened Crypto
  import opened Protection
  import opened ConnectionStates
  import opened Records
  import opened LayerChanges
  import opened Fragments
  import opened Handshakes
  import opened Handlers
  import opened HandlerProofs
  import opened FlightAssembly
  import opened Transcripts
  import opened KeyAgreement

  // ---- the cookie exchange ----

  /** While the cookie is exchanged nothing is keyed, negotiated or protected. */
  lemma CookieStage(cfg: Config, cl: Endpoint, hvr: Handshake, evs: seq<Event>, random: bytes)
    requires Live(cl) && cfg.library.HmacLaw() && Arrives(cfg, cl, [hvr], evs) && hvr.msgType == HELLO_VERIFY_REQUEST
    requires Early(cl.l, random) && Blank(cl.l) && cl.h.outgoing == [] && Calm(evs)
    requires cl.h.lastFlight != [] && cl.h.lastFlight[0].msgType == CLIENT_HELLO
    ensures var r, l := Run(cfg, cl, evs), LayerRun(cfg.library, cl.l, evs);
            && Early(r.l, random) && Blank(r.l) && r.l.read == cl.l.read + PeerCcs(evs) && Quiet(l, r.l)
            && cl.h.lastFlight != [] && SentInClear(l, r.l, CookieHello(cl.h, hvr))
            && 1 in l.epochs && 1 in r.l.epochs && r.l.epochs[1].conn.decipher == l.epochs[1].conn.decipher
            && Repeats(cl.h, hvr, r.h) && QueueGrew(cl.h, r.h.incomplete, 1)
            && CookieHello(cl.h, hvr).msgType == CLIENT_HELLO
  {
    hide Due, Completes, Blocked, Dispatch, Run, Early, Calm, Blank, Quiet, WithCookie, QueueGrew, Table,
         Taken, SentInClear, Repeats, CookieHello;
    FlightIsAssembled(cfg, cl, [hvr], evs);
    CalmIsQuiet(cfg.library, cl.l, evs);
    var l, r := LayerRun(cfg.library, cl.l, evs), Run(cfg, cl, evs);
    QuietKeepsEarly(cl.l, l, random);
    QuietKeepsBlank(cl.l, l);
    WritesInZero(l, random);
    HelloIsRepeated(cfg, AtHandover(cfg, cl, evs), [hvr], random);
    RepeatsAnyQueue(cl.h, AtHandover(cfg, cl, evs).h, hvr, r.h);
    QuietKeepsEarly(l, r.l, random);
    QuietKeepsBlank(l, r.l);
  }

  lemma RepeatsAnyQueue(h: Handler, at: Handler, hvr: Handshake, r: Handler)
    requires h.lastFlight != [] && h.lastSent >= -1 && at == h.(incomplete := at.incomplete)
    ensures CookieHello(at, hvr) == CookieHello(h, hvr) && (Repeats(at, hvr, r) ==> Repeats(h, hvr, r))
  {
  }

  // ---- the server's flight ----

  /** In these events the client answers the flight: `a` is the endpoint after the ServerHellos. */
  ghost predicate Answers(cfg: Config, cl: Endpoint, flight: seq<Handshake>, evs: seq<Event>, a: Endpoint,
                          random: bytes)
    requires Live(cl) && cfg.library.HmacLaw() && flight != []
  {
    var at := AtHandover(cfg, cl, evs);
    && Greeted(cfg, at.(h := Taken(at.h, flight)), a, random, LastHello(None, flight))
    && Answered(cfg, a, Run(cfg, cl, evs), random)
  }

  /** The client answers the server's flight, with one datagram and nothing else, if and only if
      it has followed no ChangeCipherSpec before and the flight is acceptable. Otherwise it sends
      nothing, expects nothing any more and reports a failure: a handshake failure if the suite that
      was chosen is not for PSK, and otherwise an exception. */
  lemma AnswersIff(cfg: Config, cl: Endpoint, flight: seq<Handshake>, evs: seq<Event>, random: bytes)
    returns (a: Endpoint)
    requires Live(cl) && cfg.library.HmacLaw() && Arrives(cfg, cl, flight, evs) && Calm(evs)
    requires Early(cl.l, random) && Blank(cl.l) && cl.h.outgoing == [] && cl.h.expected == Some([SERVER_HELLO_DONE])
    ensures flight != []
    ensures var r, l := Run(cfg, cl, evs), LayerRun(cfg.library, cl.l, evs);
            if cl.l.read + PeerCcs(evs) == 0 && Acceptable(cfg, Some(NULL_SUITE), false, flight) then
              && Answers(cfg, cl, flight, evs, a, random)
              && r.h.outcomes == cl.h.outcomes && r.h.isHandshaking == cl.h.isHandshaking
              && |r.l.sent| == |l.sent| + 1 && r.l.sent[..|l.sent|] == l.sent && r.h.expected == Some([FINISHED])
            else
              && r.l.sent == l.sent && r.h.expected == None && Early(r.l, random)
              && r.h.outcomes in {cl.h.outcomes + [HandlerThrew], cl.h.outcomes + [HandshakeFailure]}
              && (r.h.outcomes == cl.h.outcomes + [HandlerThrew] ==> !r.h.isHandshaking)
              && (cl.l.read + PeerCcs(evs) == 0 ==>
                    r.h.outcomes == cl.h.outcomes + [
                      if Unsupported(cfg, Some(NULL_SUITE), flight) then HandshakeFailure else HandlerThrew])
  {
    hide Due, Completes, Blocked, Run, Calm, Table, Early, Quiet, Hashed, Acceptable, HandleServerFlight, Unprotected,
         Answered, Unsupported;
    FlightIsAssembled(cfg, cl, flight, evs);
    OnlyLastIsExpected(cl.h, flight);
    CalmIsQuiet(cfg.library, cl.l, evs);
    CalmKeepsEarly(cfg.library, cl.l, evs, random);
    QuietKeepsBlank(cl.l, LayerRun(cfg.library, cl.l, evs));
    var at := AtHandover(cfg, cl, evs);
    var taken := at.(h := Taken(at.h, flight));
    BlankIsNull(at.l);
    NothingNegotiated(cfg, taken, random);
    a := FlightIsAnsweredIff(cfg, taken, taken, flight, random, None);
    var (r, status) := HandleServerFlight(cfg, taken, flight);
    if status.Continues? {
      AnsweredShape(cfg, a, r, random);
    }
    var n := |cl.h.outcomes|;
    assert (cl.h.outcomes + [HandlerThrew])[n] != (cl.h.outcomes + [HandshakeFailure])[n];
  }

  lemma BlankIsNull(l: Layer)
    requires Blank(l)
    ensures 1 in l.epochs && l.epochs[1].conn.suite == Some(NULL_SUITE) && l.epochs[1].conn.serverRandom == None
  {
  }

  lemma NothingNegotiated(cfg: Config, cl: Endpoint, random: bytes)
    requires Live(cl) && Early(cl.l, random)
    ensures Greeted(cfg, cl, cl, random, None)
  {
  }

  /** The keys are those of the client random and of the random and the suite of the ServerHello. */
  ghost predicate KeyedBy(cfg: Config, conn: ConnState, random: bytes, hello: Handshake)
    requires cfg.library.HmacLaw()
  {
    && Keyed(cfg, conn, random)
    && conn.serverRandom == Some(RandomBytes(hello)) && conn.suite == cfg.suites(NumberOf(Field(hello, 3)))
  }

  lemma AnswerIsKeyedBy(cfg: Config, at: Endpoint, a: Endpoint, r: Endpoint, random: bytes, hello: Option<Handshake>)
    requires cfg.library.HmacLaw() && Greeted(cfg, at, a, random, hello) && Answered(cfg, a, r, random) && Blank(at.l)
    ensures hello.Some? && 1 in r.l.epochs && KeyedBy(cfg, r.l.epochs[1].conn, random, hello.value)
  {
    hide Early, Keyed, Keying, Replied, Cached, PreMasterSecret, WithMasterSecret, Table, Live, RandomBytes, NumberOf;
    EarlyIsClient(a.l, random);
    BlankIsNull(at.l);
    KeyedByComputation(cfg, a.l.epochs[1].conn, random);
    var keyed := WithKeys(cfg, a).l;
    KeyingIsKeyed(cfg, keyed, random, a.l.epochs[1].conn.decipher);
    KeyedHasSuite(cfg, keyed.epochs[1].conn, random);
    CachedFields(keyed.epochs[1].conn, r.l.epochs[1].conn);
    LateIsKeyed(cfg, r.l, random, a.l.epochs[1].conn.decipher);
  }

  lemma EarlyIsClient(l: Layer, random: bytes)
    requires Early(l, random)
    ensures 1 in l.epochs && l.epochs[1].conn.entity == Client && l.epochs[1].conn.clientRandom == Some(random)
  {
  }

  lemma KeyingIsKeyed(cfg: Config, l: Layer, random: bytes, cached: Option<Delegate>)
    requires cfg.library.HmacLaw() && Keying(cfg, l, random, cached)
    ensures 1 in l.epochs && Keyed(cfg, l.epochs[1].conn, random)
  {
  }

  // ---- the server's Finished ----

  /** Without a master secret there is no verify data. */
  lemma OnlyEpochOneVerifies(cfg: Config, l: Layer, e: nat, random: bytes, cached: Option<Delegate>,
                             transcript: seq<bytes>, usage: string)
    requires cfg.library.HmacLaw() && Late(cfg, l, random, cached) && e in l.epochs && e != 1
    ensures VerifyData(cfg.library, l.epochs[e].conn, transcript, usage) == None
  {
  }

  /** Epoch 1 alone is keyed, by the ServerHello, and stays as it is; success takes exactly one
      followed ChangeCipherSpec and a Finished that matches the verify data of epoch 1 over the
      transcript. */
  ghost predicate AgreesOnEpochOne(cfg: Config, cl: Endpoint, hello: Handshake, fin: Handshake, evs: seq<Event>,
                                   random: bytes, cached: Option<Delegate>)
    requires Live(cl) && cfg.library.HmacLaw()
  {
    && Late(cfg, cl.l, random, cached) && KeyedBy(cfg, cl.l.epochs[1].conn, random, hello)
    && var l := LayerRun(cfg.library, cl.l, evs);
    && Late(cfg, l, random, cached) && Discreet(cl.l, l)
    && (Connected in Run(cfg, cl, evs).h.outcomes <==>
        && PeerCcs(evs) == 1
        && VerifyData(cfg.library, cl.l.epochs[1].conn, cl.h.transcript, "server finished")
           == Some(BytesOf(Field(fin, 0))))
  }

  lemma SuccessInEpochOne(cfg: Config, cl: Endpoint, hello: Handshake, fin: Handshake, evs: seq<Event>, random: bytes,
                          cached: Option<Delegate>)
    requires Live(cl) && cfg.library.HmacLaw() && Calm(evs) && Late(cfg, cl.l, random, cached) && cl.l.read == 0
    requires KeyedBy(cfg, cl.l.epochs[1].conn, random, hello)
    requires SucceedsIfMatching(cfg, cl, fin, evs)
    ensures AgreesOnEpochOne(cfg, cl, hello, fin, evs, random, cached)
  {
    hide Run, VerifyData, Calm, Keyed, KeyedBy, Table, Cached, OthersKeyless;
    CalmKeepsLate(cfg, cl.l, evs, random, cached);
    var l := LayerRun(cfg.library, cl.l, evs);
    SameVerifyData(cfg.library, cl.l.epochs[1].conn, l.epochs[1].conn, cl.h.transcript, "server finished");
    if l.read != 1 {
      OnlyEpochOneVerifies(cfg, l, l.read, random, cached, cl.h.transcript, "server finished");
    }
  }

  /** Epoch agreement over a whole handshake from a fresh start. Whatever the record layer does
      meanwhile, provided it sends no ChangeCipherSpec of its own: if the client answers the
      server's flight then no ChangeCipherSpec of the server was followed before, epoch 1 alone
      holds secrets, all derived from the client random and from the random and suite of the last
      ServerHello, and the client's verify data is computed with them. The handshake then succeeds
      exactly when one ChangeCipherSpec is followed before the server's Finished is handled and
      that Finished matches the verify data of the very same secrets over the same transcript. */
  lemma EpochAgreement(cfg: Config, random: Value, suiteIds: seq<int>, hvr: Handshake, flight: seq<Handshake>,
                       fin: Handshake, evs1: seq<Event>, evs2: seq<Event>, evs3: seq<Event>)
    returns (cached: Option<Delegate>)
    requires cfg.library.HmacLaw() && Calm(evs1) && Calm(evs2) && Calm(evs3) && BytesOf(Field(hvr, 1)) != []
    requires Table(FRESH_LAYER) && Live(Start(cfg, FRESH_LAYER, random, suiteIds).0)
    requires Proceeds(cfg, Start(cfg, FRESH_LAYER, random, suiteIds).0, hvr, flight, fin, evs1, evs2, evs3)
    ensures var cl := Start(cfg, FRESH_LAYER, random, suiteIds).0;
            var cl2, hello := Run(cfg, Run(cfg, cl, evs1), evs2), LastHello(None, flight);
            && PeerCcs(evs1) + PeerCcs(evs2) == 0 && hello.Some?
            && cl.h.lastFlight != []
            && FinishedCovers(cfg, cl2, 1, [Encoding(CookieHello(cl.h, hvr))] + Encodings(flight))
            && AgreesOnEpochOne(cfg, cl2, hello.value, fin, evs3, RandomBytes(ClientHello(random, suiteIds)), cached)
  {
    hide Proceeds, Early, Blank, Calm, Start, ClientHello, CookieHello, ClientCookie, FinishedCovers, AgreesOnEpochOne,
         Run, LastHello;
    StartIsEarly(cfg, random, suiteIds);
    var cl := Start(cfg, FRESH_LAYER, random, suiteIds).0;
    CookieIsSet(cl.h, hvr, random, suiteIds);
    cached := FromEarlyState(cfg, cl, hvr, flight, fin, evs1, evs2, evs3, RandomBytes(ClientHello(random, suiteIds)));
  }

  lemma FromEarlyState(cfg: Config, cl: Endpoint, hvr: Handshake, flight: seq<Handshake>, fin: Handshake,
                       evs1: seq<Event>, evs2: seq<Event>, evs3: seq<Event>, random: bytes)
    returns (cached: Option<Delegate>)
    requires Live(cl) && cfg.library.HmacLaw() && Calm(evs1) && Calm(evs2) && Calm(evs3)
    requires Early(cl.l, random) && Blank(cl.l) && cl.l.read == 0 && cl.h.outgoing == [] && cl.h.transcript == []
    requires cl.h.lastFlight != [] && cl.h.lastFlight[0].msgType == CLIENT_HELLO && Connected !in cl.h.outcomes
    requires CookieHello(cl.h, hvr).msgType == CLIENT_HELLO && ClientCookie(CookieHello(cl.h, hvr)) != []
    requires Proceeds(cfg, cl, hvr, flight, fin, evs1, evs2, evs3)
    ensures var cl2, hello := Run(cfg, Run(cfg, cl, evs1), evs2), LastHello(None, flight);
            && PeerCcs(evs1) + PeerCcs(evs2) == 0 && hello.Some?
            && FinishedCovers(cfg, cl2, 1, [Encoding(CookieHello(cl.h, hvr))] + Encodings(flight))
            && AgreesOnEpochOne(cfg, cl2, hello.value, fin, evs3, random, cached)
  {
    hide Arrives, Run, Encodings, Calm, Early, Blank, FinishedCovers, AgreesOnEpochOne, SucceedsIfMatching, Late, Live,
         CookieHello, ClientCookie, LastHello, KeyedBy, Quiet, QueueGrew, SentInClear, LayerRun, Encoding;
    CookieStage(cfg, cl, hvr, evs1, random);
    CookieExchange(cfg, cl, hvr, evs1);
    var cl1 := Run(cfg, cl, evs1);
    cached := AnswerStage(cfg, cl1, flight, evs2, random);
    TranscriptAgreement(cfg, cl, hvr, flight, fin, evs1, evs2, evs3);
    SuccessInEpochOne(cfg, Run(cfg, cl1, evs2), LastHello(None, flight).value, fin, evs3, random, cached);
  }

  /** If the client answers the server's flight, the server has not changed its cipher yet and
      afterwards exactly epoch 1 is keyed, by the last ServerHello of the flight. */
  lemma AnswerStage(cfg: Config, cl: Endpoint, flight: seq<Handshake>, evs: seq<Event>, random: bytes)
    returns (cached: Option<Delegate>)
    requires Live(cl) && cfg.library.HmacLaw() && Arrives(cfg, cl, flight, evs) && Calm(evs)
    requires Early(cl.l, random) && Blank(cl.l) && cl.h.outgoing == [] && cl.h.expected == Some([SERVER_HELLO_DONE])
    requires Run(cfg, cl, evs).h.expected.Some?
    ensures var r, hello := Run(cfg, cl, evs), LastHello(None, flight);
            && cl.l.read + PeerCcs(evs) == 0 && r.l.read == 0 && LayerRun(cfg.library, cl.l, evs).write == 0
            && hello.Some? && Late(cfg, r.l, random, cached) && KeyedBy(cfg, r.l.epochs[1].conn, random, hello.value)
  {
    hide Arrives, Run, Calm, Early, Blank, Late, LastHello, KeyedBy, Quiet, Answered, Greeted, Table;
    var a := AnswersIff(cfg, cl, flight, evs, random);
    CalmKeepsEarly(cfg.library, cl.l, evs, random);
    WritesInZero(LayerRun(cfg.library, cl.l, evs), random);
    CalmIsQuiet(cfg.library, cl.l, evs);
    QuietKeepsBlank(cl.l, LayerRun(cfg.library, cl.l, evs));
    var at := AtHandover(cfg, cl, evs);
    AnswerIsKeyedBy(cfg, at.(h := Taken(at.h, flight)), a, Run(cfg, cl, evs), random, LastHello(None, flight));
    AnsweredShape(cfg, a, Run(cfg, cl, evs), random);
    cached := a.l.epochs[1].conn.decipher;
  }
}
