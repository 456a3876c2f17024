/** The bytes both Finished messages are computed over (section 4.2.6 of RFC 6347). */
module Transcripts {
  import opened Bytes
  import opened Crypto
  import opened ConnectionStates
  import opened LayerChanges
  import opened Records
  import opened Handshakes
  import opened Handlers
  import opened HandlerProofs
  import opened FlightAssembly

  /** The encoding of a whole, unfragmented message, header included. */
  function Encoding(m: Handshake): bytes {
    PrintFragment(ToFragment(m))
  }

  function Encodings(ms: seq<Handshake>): seq<bytes> {
    seq(|ms|, i requires 0 <= i < |ms| => Encoding(ms[i]))
  }

  predicate ServerType(m: Handshake) {
    m.msgType in {SERVER_HELLO, SERVER_KEY_EXCHANGE, SERVER_HELLO_DONE, FINISHED}
  }

  lemma {:induction false} ServerMessagesAreHashed(ms: seq<Handshake>)
    requires forall i :: 0 <= i < |ms| ==> ServerType(ms[i])
    ensures Hashed(ms) == Encodings(ms)
  {
    hide PrintFragment, ToFragment;
    if ms != [] {
      ServerMessagesAreHashed(ms[1..]);
      assert Encodings(ms) == [Encoding(ms[0])] + Encodings(ms[1..]);
    }
  }

  lemma SameVerifyData(c: Library, a: ConnState, b: ConnState, transcript: seq<bytes>, usage: string)
    requires Cached(a, b)
    ensures VerifyData(c, b, transcript, usage) == VerifyData(c, a, transcript, usage)
  {
    CachedFields(a, b);
  }

  // ---- the flights, one by one ----

  lemma FinishTranscript(cfg: Config, cl: Endpoint, expected: seq<nat>)
    requires Live(cl)
    ensures var r := Finish(cfg, cl, expected).0;
            && r.h == cl.h.(expected := Some(expected), outgoing := r.h.outgoing, flightBegun := r.h.flightBegun)
            && Discreet(cl.l, r.l)
  {
    hide OutgoingAll, Table;
    SendingIsDiscreet(cfg.library, cfg.entropy, cl.l, cl.h.outgoing);
  }

  /** The second ClientHello: the stored one with the cookie and the next number. */
  function CookieHello(h: Handler, hvr: Handshake): Handshake
    requires h.lastFlight != [] && h.lastSent >= -1
  {
    WithCookie(h.lastFlight[0], BytesOf(Field(hvr, 1))).(seqNum := h.lastSent + 1)
  }

  lemma HelloVerifyTranscript(cfg: Config, cl: Endpoint, hvr: Handshake)
    requires Live(cl) && cfg.library.HmacLaw() && cl.h.lastFlight != []
    requires hvr.msgType == HELLO_VERIFY_REQUEST
    requires CookieHello(cl.h, hvr).msgType == CLIENT_HELLO && ClientCookie(CookieHello(cl.h, hvr)) != []
    ensures var r := Dispatch(cfg, cl, [hvr]);
            && r.h.transcript == cl.h.transcript + [Encoding(CookieHello(cl.h, hvr))]
            && r.h.lastFlight == [CookieHello(cl.h, hvr)]
            && r.h.expected == Some([SERVER_HELLO_DONE]) && r.h.lastProcessed == hvr.seqNum
            && r.h.complete == map[] && r.h.incomplete == cl.h.incomplete && r.h.lastSent == cl.h.lastSent + 1
            && Discreet(cl.l, r.l)
  {
    hide Finish, PrintFragment, RecordsOf;
    var taken := cl.(h := Taken(cl.h, [hvr]));
    assert Hashed([hvr]) == [] + Hashed([]) by {
      assert [hvr][1..] == [];
    }
    var hello := WithCookie(cl.h.lastFlight[0], BytesOf(Field(hvr, 1)));
    FinishTranscript(cfg, taken.(h := Enqueue(Begin(taken.h), hello)), [SERVER_HELLO_DONE]);
  }

  /** The last flight is a ClientKeyExchange and a Finished. Both joined the transcript, and
      the Finished covers all that was in it before, the ClientKeyExchange included. */
  ghost predicate FinishedCovers(cfg: Config, cl: Endpoint, e: nat, transcript: seq<bytes>) {
    && |cl.h.lastFlight| == 2
    && var cke, fin := cl.h.lastFlight[0], cl.h.lastFlight[1];
    && cke.msgType == CLIENT_KEY_EXCHANGE && fin.msgType == FINISHED && e in cl.l.epochs
    && cl.h.transcript == transcript + [Encoding(cke), Encoding(fin)]
    && VerifyData(cfg.library, cl.l.epochs[e].conn, transcript + [Encoding(cke)], "client finished")
       == Some(BytesOf(Field(fin, 0)))
    && cl.h.expected == Some([FINISHED])
  }

  /** Between `a` and `b` the client sent its ClientKeyExchange and its Finished. */
  ghost predicate AwaitsFinished(cfg: Config, a: Endpoint, b: Endpoint) {
    && FinishedCovers(cfg, b, a.l.write + 1, a.h.transcript)
    && b.h.complete == a.h.complete && b.h.incomplete == a.h.incomplete && b.h.lastProcessed == a.h.lastProcessed
  }

  lemma ServerHelloDoneTranscript(cfg: Config, cl: Endpoint)
    requires Live(cl) && cfg.library.HmacLaw()
    ensures var r := HandleServerHelloDone(cfg, cl).0;
            r.h.expected != cl.h.expected ==> AwaitsFinished(cfg, cl, r)
  {
    hide WithMasterSecret, VerifyData, PrintFragment, RecordsOf, PreMasterSecret, Finish, Table, Body;
    CurrentEpochsExist(cl.l);
    var n := NextEpochNr(cl.l);
    var conn := cl.l.epochs[n].conn;
    if conn.suite.Some? && conn.suite.value.keyExchange == Psk && cfg.psk.Some? {
      var keyed := WithMasterSecret(cfg.library, conn, PreMasterSecret(cfg.psk.value.1));
      if keyed.Some? {
        var l := WithConn(cl.l, n, keyed.value);
        var h := Enqueue(Begin(cl.h), ClientKeyExchange(cfg.psk.value.0));
        var verifyData := VerifyData(cfg.library, l.epochs[l.write + 1].conn, h.transcript, "client finished");
        if verifyData.Some? {
          WithConnKeepsTable(cl.l, n, keyed.value);
          ClientFlight(cfg, Endpoint(cl.h, l), cfg.psk.value.0, verifyData.value);
        }
      }
    }
  }

  lemma ClientFlight(cfg: Config, cl: Endpoint, identity: bytes, verifyData: bytes)
    requires Live(cl) && cl.l.write + 1 in cl.l.epochs
    requires VerifyData(cfg.library, cl.l.epochs[cl.l.write + 1].conn,
                        Enqueue(Begin(cl.h), ClientKeyExchange(identity)).transcript,
                          "client finished") == Some(verifyData)
    ensures var h := Enqueue(Begin(cl.h), ClientKeyExchange(identity));
            AwaitsFinished(cfg, cl, Finish(cfg, Endpoint(Enqueue(h, FinishedMessage(verifyData)), cl.l), [FINISHED]).0)
  {
    hide VerifyData, PrintFragment, RecordsOf, Finish, Table, Body, Cached;
    var h := Enqueue(Begin(cl.h), ClientKeyExchange(identity));
    var sent := Endpoint(Enqueue(h, FinishedMessage(verifyData)), cl.l);
    FinishTranscript(cfg, sent, [FINISHED]);
    var r := Finish(cfg, sent, [FINISHED]).0;
    var cke, fin := r.h.lastFlight[0], r.h.lastFlight[1];
    assert h.transcript == cl.h.transcript + [Encoding(cke)];
    assert r.h.transcript == cl.h.transcript + [Encoding(cke)] + [Encoding(fin)];
    SameVerifyData(cfg.library, cl.l.epochs[cl.l.write + 1].conn, r.l.epochs[cl.l.write + 1].conn, h.transcript,
                   "client finished");
  }

  /** Before the ServerHelloDone a server flight changes nothing in the handler. */
  lemma {:induction false} ServerFlightTranscript(cfg: Config, cl: Endpoint, ms: seq<Handshake>)
    requires Live(cl) && cfg.library.HmacLaw() && ms != []
    requires forall i :: 0 <= i < |ms| - 1 ==> ms[i].msgType != SERVER_HELLO_DONE
    ensures var r := HandleServerFlight(cfg, cl, ms).0;
            r.h.expected != cl.h.expected ==> AwaitsFinished(cfg, cl, r)
    decreases |ms|
  {
    hide HandleServerHello, HandleServerHelloDone, HandleServerKeyExchange, VerifyData, PrintFragment, Table;
    HandleOneKeepsTable(cfg, cl, ms[0]);
    if |ms| == 1 {
      ServerHelloDoneTranscript(cfg, cl);
      HandleServerHelloKeepsTable(cfg, cl, ms[0]);
      LastOfFlight(cfg, cl, ms);
    } else {
      HandleServerHelloKeepsTable(cfg, cl, ms[0]);
      ServerHelloKeepsWrite(cfg, cl, ms[0]);
      var (next, status) := HandleOne(cfg, cl, ms[0]);
      if status.Continues? {
        ServerFlightTranscript(cfg, next, ms[1..]);
      }
    }
  }

  lemma LastOfFlight(cfg: Config, cl: Endpoint, ms: seq<Handshake>)
    requires Live(cl) && cfg.library.HmacLaw() && |ms| == 1
    ensures HandleServerFlight(cfg, cl, ms) == HandleOne(cfg, cl, ms[0])
  {
    hide HandleOne;
  }

  lemma ServerHelloKeepsWrite(cfg: Config, cl: Endpoint, m: Handshake)
    requires Live(cl)
    ensures HandleServerHello(cfg, cl, m).l.write == cl.l.write
  {
  }

  // ---- whole handshakes ----

  /** A due flight arrives in these events, the last missing piece at the end, and no message that
      was processed before is stored again meanwhile. */
  ghost predicate Arrives(cfg: Config, cl: Endpoint, ms: seq<Handshake>, evs: seq<Event>)
    requires Live(cl) && cfg.library.HmacLaw()
  {
    Due(cl.h, ms) && Completes(cl.h, ms, evs) && !Blocked(Run(cfg, cl, evs[..|evs| - 1]).h)
  }

  lemma SameCookieHello(a: Handler, b: Handler, hvr: Handshake)
    requires a.lastFlight != [] && a.lastSent >= -1 && b == a.(incomplete := b.incomplete)
    ensures CookieHello(b, hvr) == CookieHello(a, hvr)
  {
  }

  /** The cookie exchange: whatever happens in the record layer meanwhile, the transcript is
      just the second ClientHello. */
  lemma CookieExchange(cfg: Config, cl: Endpoint, hvr: Handshake, evs: seq<Event>)
    requires Live(cl) && cfg.library.HmacLaw() && Arrives(cfg, cl, [hvr], evs) && hvr.msgType == HELLO_VERIFY_REQUEST
    requires cl.h.transcript == [] && cl.h.lastFlight != []
    requires CookieHello(cl.h, hvr).msgType == CLIENT_HELLO && ClientCookie(CookieHello(cl.h, hvr)) != []
    ensures Run(cfg, cl, evs).h.transcript == [Encoding(CookieHello(cl.h, hvr))]
    ensures Run(cfg, cl, evs).h.expected == Some([SERVER_HELLO_DONE])
  {
    hide Due, Completes, Blocked, Dispatch, CookieHello, Run, Encoding, QueueGrew, Table, LayerRun, ClientCookie,
         AtHandover;
    FlightIsAssembled(cfg, cl, [hvr], evs);
    HandoverOf(cfg, cl, evs);
    SameCookieHello(cl.h, AtHandover(cfg, cl, evs).h, hvr);
    HelloVerifyTranscript(cfg, AtHandover(cfg, cl, evs), hvr);
  }

  /** The server's flight: if the client answers at all, its Finished covers exactly the
      transcript so far, the server's messages whole and in sequence order, and the
      ClientKeyExchange, however the server's messages were cut and reordered. */
  lemma ClientFinishedCovers(cfg: Config, cl: Endpoint, flight: seq<Handshake>, evs: seq<Event>)
    requires Live(cl) && cfg.library.HmacLaw() && Arrives(cfg, cl, flight, evs)
    requires cl.h.expected == Some([SERVER_HELLO_DONE]) && forall i :: 0 <= i < |flight| ==> ServerType(flight[i])
    ensures var r := Run(cfg, cl, evs);
            r.h.expected.Some? ==>
              FinishedCovers(cfg, r, LayerRun(cfg.library, cl.l, evs).write + 1, cl.h.transcript + Encodings(flight))
  {
    hide Due, Completes, Blocked, Run, Encodings, Dispatch, FinishedCovers, Flights, Table;
    FlightIsAssembled(cfg, cl, flight, evs);
    OnlyLastIsExpected(cl.h, flight);
    AnswerToFlight(cfg, AtHandover(cfg, cl, evs), flight);
  }

  lemma OnlyLastIsExpected(h: Handler, ms: seq<Handshake>)
    requires Due(h, ms) && h.expected == Some([SERVER_HELLO_DONE])
    ensures ms != []
    ensures forall i :: 0 <= i < |ms| ==> (ms[i].msgType == SERVER_HELLO_DONE <==> i == |ms| - 1)
  {
    hide Canonical;
    forall i | 0 <= i < |ms|
      ensures ms[i].msgType == SERVER_HELLO_DONE <==> i == |ms| - 1
    {
      assert ms[i].msgType in [SERVER_HELLO_DONE] <==> i == |ms| - 1;
    }
  }

  lemma AnswerToFlight(cfg: Config, cl: Endpoint, flight: seq<Handshake>)
    requires Live(cl) && cfg.library.HmacLaw() && flight != []
    requires forall i :: 0 <= i < |flight| ==> ServerType(flight[i])
    requires forall i :: 0 <= i < |flight| ==> (flight[i].msgType == SERVER_HELLO_DONE <==> i == |flight| - 1)
    ensures var r := Dispatch(cfg, cl, flight);
            r.h.expected.Some? ==> FinishedCovers(cfg, r, cl.l.write + 1, cl.h.transcript + Encodings(flight))
  {
    hide HandleServerFlight, VerifyData, Encoding, Hashed, Encodings, Table;
    ServerMessagesAreHashed(flight);
    ServerFlightTranscript(cfg, cl.(h := Taken(cl.h, flight)), flight);
  }

  /** The events lead to success exactly when the Finished carries the verify data that the then
      current read epoch computes over the transcript. */
  ghost predicate SucceedsIfMatching(cfg: Config, cl: Endpoint, fin: Handshake, evs: seq<Event>)
    requires Live(cl) && cfg.library.HmacLaw()
  {
    var l := LayerRun(cfg.library, cl.l, evs);
    && l.read in l.epochs
    && (Connected in Run(cfg, cl, evs).h.outcomes <==>
        VerifyData(cfg.library, l.epochs[l.read].conn, cl.h.transcript, "server finished")
          == Some(BytesOf(Field(fin, 0))))
  }

  /** The server's Finished is checked over the whole transcript. */
  lemma ServerFinishedCovers(cfg: Config, cl: Endpoint, fin: Handshake, evs: seq<Event>)
    requires Live(cl) && cfg.library.HmacLaw() && Arrives(cfg, cl, [fin], evs) && fin.msgType == FINISHED
    requires Connected !in cl.h.outcomes
    ensures SucceedsIfMatching(cfg, cl, fin, evs)
  {
    hide Due, Completes, Blocked, Run, VerifyData, Encoding;
    FlightIsAssembled(cfg, cl, [fin], evs);
    CurrentEpochsExist(LayerRun(cfg.library, cl.l, evs));
    FinishedDispatch(cfg, AtHandover(cfg, cl, evs), fin);
  }

  lemma FinishedDispatch(cfg: Config, cl: Endpoint, fin: Handshake)
    requires Live(cl) && cfg.library.HmacLaw() && fin.msgType == FINISHED && Connected !in cl.h.outcomes
    requires cl.l.read in cl.l.epochs
    ensures Connected in Dispatch(cfg, cl, [fin]).h.outcomes <==>
            VerifyData(cfg.library, cl.l.epochs[cl.l.read].conn, cl.h.transcript, "server finished")
              == Some(BytesOf(Field(fin, 0)))
  {
    hide VerifyData, PrintFragment, Table;
    assert [fin][..0] == [] && Hashed([]) == [];
    assert cl.h.transcript + [] == cl.h.transcript;
  }

  lemma NoSuccessYet(cfg: Config, cl: Endpoint, ms: seq<Handshake>, evs: seq<Event>)
    requires Live(cl) && cfg.library.HmacLaw() && Arrives(cfg, cl, ms, evs) && ms != []
    requires ms[|ms| - 1].msgType != FINISHED && Connected !in cl.h.outcomes
    ensures Connected !in Run(cfg, cl, evs).h.outcomes
  {
    hide Due, Completes, Blocked, Run, Dispatch;
    FlightIsAssembled(cfg, cl, ms, evs);
    OnlyFinishedSucceeds(cfg, AtHandover(cfg, cl, evs), ms);
  }

  /** A whole handshake with a cookie exchange: HelloVerifyRequest, server flight and server
      Finished arrive one after the other, and the client answers the flight. */
  ghost predicate Proceeds(cfg: Config, cl: Endpoint, hvr: Handshake, flight: seq<Handshake>, fin: Handshake,
                           evs1: seq<Event>, evs2: seq<Event>, evs3: seq<Event>)
    requires Live(cl) && cfg.library.HmacLaw()
  {
    && hvr.msgType == HELLO_VERIFY_REQUEST && fin.msgType == FINISHED
    && (forall i :: 0 <= i < |flight| ==> ServerType(flight[i]))
    && Arrives(cfg, cl, [hvr], evs1)
    && var cl1 := Run(cfg, cl, evs1);
    && Arrives(cfg, cl1, flight, evs2)
    && var cl2 := Run(cfg, cl1, evs2);
    && cl2.h.expected.Some? && Arrives(cfg, cl2, [fin], evs3)
  }

  lemma FlightEnds(cl: Endpoint, flight: seq<Handshake>)
    requires Due(cl.h, flight) && cl.h.expected == Some([SERVER_HELLO_DONE])
    ensures flight != [] && flight[|flight| - 1].msgType == SERVER_HELLO_DONE
  {
    hide Due, Completes, Blocked;
    OnlyLastIsExpected(cl.h, flight);
  }

  /** Transcript agreement. With base = cookie ClientHello, server flight: the client's Finished
      is computed over base and the ClientKeyExchange, and the server's is checked over those
      and the client's Finished, which is what the transcript then holds. */
  lemma TranscriptAgreement(cfg: Config, cl: Endpoint, hvr: Handshake, flight: seq<Handshake>, fin: Handshake,
                            evs1: seq<Event>, evs2: seq<Event>, evs3: seq<Event>)
    requires Live(cl) && cfg.library.HmacLaw() && cl.h.transcript == [] && cl.h.lastFlight != []
    requires CookieHello(cl.h, hvr).msgType == CLIENT_HELLO && ClientCookie(CookieHello(cl.h, hvr)) != []
    requires Connected !in cl.h.outcomes
    requires Proceeds(cfg, cl, hvr, flight, fin, evs1, evs2, evs3)
    ensures var cl1 := Run(cfg, cl, evs1);
            var cl2 := Run(cfg, cl1, evs2);
            && FinishedCovers(cfg, cl2, LayerRun(cfg.library, cl1.l, evs2).write + 1,
                              [Encoding(CookieHello(cl.h, hvr))] + Encodings(flight))
            && SucceedsIfMatching(cfg, cl2, fin, evs3)
  {
    hide Due, Completes, Blocked, Run, Encodings, CookieHello, FinishedCovers, SucceedsIfMatching, Live, LayerRun,
         Encoding, ClientCookie;
    CookieExchange(cfg, cl, hvr, evs1);
    var cl1 := Run(cfg, cl, evs1);
    ClientFinishedCovers(cfg, cl1, flight, evs2);
    NoSuccessYet(cfg, cl, [hvr], evs1);
    FlightEnds(cl1, flight);
    NoSuccessYet(cfg, cl1, flight, evs2);
    ServerFinishedCovers(cfg, Run(cfg, cl1, evs2), fin, evs3);
  }
}
