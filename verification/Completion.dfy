/** When the handshake goes on, and when it stops for good. */
module Completion {
  import opened Bytes
  import opened BitConverter
  import opened Codec
  import opened CodecProofs
  import opened Crypto
  import opened Packets
  import opened Records
  import opened LayerChanges
  import R = RecordProofs
  import opened Fragments
  import opened Handshakes
  import opened Handlers
  import opened HandlerProofs
  import opened FlightAssembly
  import opened Transcripts
  import opened KeyAgreement
  import opened EpochAgreement

  /** From a fresh start: after the cookie exchange the client answers the server's flight, with
      exactly one datagram, if and only if it followed no ChangeCipherSpec before and the flight
      holds a ServerHello, the last of which chose a PSK suite, and key exchange messages that can
      be parsed, while the client has a key. Otherwise it sends nothing and reports one failure. */
  lemma ClientAnswersIff(cfg: Config, random: Value, suiteIds: seq<int>, hvr: Handshake, flight: seq<Handshake>,
                         evs1: seq<Event>, evs2: seq<Event>) returns (a: Endpoint)
    requires cfg.library.HmacLaw() && Calm(evs1) && Calm(evs2) && hvr.msgType == HELLO_VERIFY_REQUEST
    requires Table(FRESH_LAYER) && Live(Start(cfg, FRESH_LAYER, random, suiteIds).0)
    requires Arrives(cfg, Start(cfg, FRESH_LAYER, random, suiteIds).0, [hvr], evs1)
    requires Arrives(cfg, Run(cfg, Start(cfg, FRESH_LAYER, random, suiteIds).0, evs1), flight, evs2)
    ensures flight != []
    ensures var cl := Run(cfg, Start(cfg, FRESH_LAYER, random, suiteIds).0, evs1);
            var r, l := Run(cfg, cl, evs2), LayerRun(cfg.library, cl.l, evs2);
            if PeerCcs(evs1) + PeerCcs(evs2) == 0 && Acceptable(cfg, Some(NULL_SUITE), false, flight) then
              && Answers(cfg, cl, flight, evs2, a, RandomBytes(ClientHello(random, suiteIds)))
              && r.h.outcomes == [] && r.h.isHandshaking && r.h.expected == Some([FINISHED])
              && |r.l.sent| == |l.sent| + 1 && r.l.sent[..|l.sent|] == l.sent
            else
              && r.l.sent == l.sent && r.h.expected == None && r.h.outcomes in {[HandlerThrew], [HandshakeFailure]}
              && (PeerCcs(evs1) + PeerCcs(evs2) == 0 ==>
                    (r.h.outcomes == [HandshakeFailure] <==> Unsupported(cfg, Some(NULL_SUITE), flight)))
  {
    hide Arrives, Run, Calm, Early, Blank, Start, ClientHello, CookieHello, Live, Answers, Quiet, QueueGrew, Acceptable,
         Unsupported;
    StartIsEarly(cfg, random, suiteIds);
    var cl := Start(cfg, FRESH_LAYER, random, suiteIds).0;
    var bytes := RandomBytes(ClientHello(random, suiteIds));
    CookieStage(cfg, cl, hvr, evs1, bytes);
    a := AnswersIff(cfg, Run(cfg, cl, evs1), flight, evs2, bytes);
    assert [] + [HandlerThrew] == [HandlerThrew] && [] + [HandshakeFailure] == [HandshakeFailure];
  }

  // ---- messages that come whole ----

  function Wholes(ms: seq<Handshake>): seq<Fragment> {
    seq(|ms|, i requires 0 <= i < |ms| => ToFragment(ms[i]))
  }

  lemma WholeIsPiece(m: Handshake)
    ensures PieceOf(ToFragment(m), m)
  {
    hide Body;
  }

  lemma WholesArePieces(h: Handler, ms: seq<Handshake>, n: nat)
    requires Due(h, ms) && n <= |ms|
    ensures Pieces(h, ms, Wholes(ms)[..n])
    ensures AllDone(Wholes(ms)[..n], ms) <==> n == |ms|
    ensures forall j :: 0 <= j < n ==> !Old(h, Wholes(ms)[..n][j])
  {
    hide Canonical, Body, Done, PieceOf, Belongs, Fits;
    var arr := Wholes(ms)[..n];
    forall j | 0 <= j < n
      ensures IndexOf(h, arr[j]) == j && PieceOf(arr[j], ms[j]) && Done(arr, ms[j])
    {
      WholeIsPiece(ms[j]);
      assert arr[j] in arr;
      WholeIsDone(arr, ms[j]);
    }
    if n < |ms| {
      forall f | f in arr
        ensures !f.SameMessage(ToFragment(ms[|ms| - 1]))
      {
        var j :| 0 <= j < n && arr[j] == f;
      }
      NoneArrived(arr, ms[|ms| - 1]);
    }
  }

  lemma NoneArrived(arr: seq<Fragment>, m: Handshake)
    requires forall f :: f in arr ==> !f.SameMessage(ToFragment(m))
    ensures !Done(arr, m)
  {
    ForeignIsNotFound(arr, ToFragment(m));
  }

  /** Pieces of a flight that is due never block it. */
  lemma {:induction false} DueNeverBlocks(cfg: Config, cl: Endpoint, ms: seq<Handshake>, evs: seq<Event>)
    requires Live(cl) && cfg.library.HmacLaw() && Due(cl.h, ms) && !Blocked(cl.h)
    requires Pieces(cl.h, ms, Incomings(evs)) && !AllDone(Incomings(evs), ms)
    requires forall j :: 0 <= j < |Incomings(evs)| ==> !Old(cl.h, Incomings(evs)[j])
    ensures !Blocked(Run(cfg, cl, evs).h)
  {
    hide Due, Pieces, AllDone, Holds, Store, FlightReady, Dispatch, Live, R.Step, Blocked, Old;
    if evs != [] {
      var before, ev := evs[..|evs| - 1], evs[|evs| - 1];
      var arr := Incomings(before);
      if ev.Incoming? {
        PiecesPrefix(cl.h, ms, arr, ev.f);
        StillMissing(cl.h, ms, arr, ev.f);
        assert forall j :: 0 <= j < |arr| ==> Incomings(evs)[j] == arr[j];
        assert Incomings(evs)[|arr|] == ev.f;
        DueNeverBlocks(cfg, cl, ms, before);
        WaitsForAll(cfg, cl, ms, before);
        var mid := Run(cfg, cl, before);
        StoreStep(cl.h, mid.h, ms, arr, ev.f, ev.g);
        var next := Store(mid.h, ev.f, ev.g).0;
        SameBlocks(cl.h, mid.h, next, ms, arr, ev.f, ev.g);
        ReadyIffAllDone(cl.h, next, ms, arr + [ev.f]);
      } else {
        assert Incomings(evs) == arr;
        DueNeverBlocks(cfg, cl, ms, before);
      }
    }
  }

  /** A due flight whose messages come whole, one after the other, arrives. */
  lemma WholesArrive(cfg: Config, cl: Endpoint, ms: seq<Handshake>, evs: seq<Event>)
    requires Live(cl) && cfg.library.HmacLaw() && Due(cl.h, ms) && cl.h.complete == map[]
    requires evs != [] && evs[|evs| - 1].Incoming? && Incomings(evs) == Wholes(ms)
    ensures Arrives(cfg, cl, ms, evs)
  {
    hide Due, Pieces, AllDone, Run, Live;
    var before, n := evs[..|evs| - 1], |ms| - 1;
    DueIsNotEmpty(cl.h, ms);
    WholesArePieces(cl.h, ms, |ms|);
    WholesArePieces(cl.h, ms, n);
    assert Wholes(ms)[..|ms|] == Wholes(ms);
    assert Incomings(before) == Wholes(ms)[..n];
    DueNeverBlocks(cfg, cl, ms, before);
  }

  // ---- a message that comes again ----

  /** A whole message that was processed before blocks the handshake for good when it comes again
      in a new record, as it does when the server repeats it: whatever follows, no flight is
      dispatched any more and nothing is decided. */
  lemma RepeatedMessageBlocks(cfg: Config, cl: Endpoint, m: Handshake, g: Garbage, evs: seq<Event>)
    requires Live(cl) && cfg.library.HmacLaw() && Canonical(m) && m.seqNum <= cl.h.lastProcessed && m.seqNum < SEQ_NUMS
    ensures var at := Step(cfg, cl, Incoming(ToFragment(m), g));
            && Live(at) && FlightOf(cl, Incoming(ToFragment(m), g)) == [] && at.l == cl.l
            && Flights(cfg, at, evs) == []
            && var r := Run(cfg, at, evs).h;
               r == cl.h.(complete := r.complete, incomplete := r.incomplete) && m.seqNum in r.complete
  {
    hide Run, Flights, Dispatch, FlightReady, Live, Body, FromFragment;
    var ev, f := Incoming(ToFragment(m), g), ToFragment(m);
    FromFragmentInverts(m, g);
    var (next, status) := Store(cl.h, f, g);
    assert m.seqNum in next.complete && m.seqNum <= next.lastProcessed;
    BlockedIsNotReady(next);
    StepKeepsLive(cfg, cl, ev);
    BlockedForGood(cfg, Step(cfg, cl, ev), evs, m.seqNum);
  }

  // ---- the messages of a server ----

  const VERSION_1_2 := VStruct([VNum(Num(254)), VNum(Num(253))])

  function CookieRequest(cookie: bytes): Handshake {
    Handshake(HELLO_VERIFY_REQUEST, 0, VStruct([VERSION_1_2, VBuf(cookie)]))
  }

  function ServerHello(random: Value, suiteId: nat): Handshake {
    Handshake(SERVER_HELLO, 1, VStruct([VERSION_1_2, random, VBuf([]), VNum(Num(suiteId)), VNum(Num(0)), VVec([])]))
  }

  const HELLO_DONE := Handshake(SERVER_HELLO_DONE, 2, VStruct([]))

  function ServerFinished(verifyData: bytes): Handshake {
    FinishedMessage(verifyData).(seqNum := 3)
  }

  ghost predicate RandomValue(v: Value) {
    Typed(RANDOM, v) && WellFormed(RANDOM, v)
  }

  lemma VersionIsWellFormed()
    ensures Typed(VERSION_SPEC, VERSION_1_2) && WellFormed(VERSION_SPEC, VERSION_1_2)
  {
    assert Pow256(1) == 256;
  }

  lemma CookieRequestIsCanonical(cookie: bytes)
    requires |cookie| < 256
    ensures Canonical(CookieRequest(cookie))
  {
    VersionIsWellFormed();
    var spec, v := BodySpec(HELLO_VERIFY_REQUEST).value, CookieRequest(cookie).body;
    assert Typed(spec.fields[0], v.fields[0]) && Typed(spec.fields[1], v.fields[1]);
    assert WellFormed(spec.fields[0], v.fields[0]) && WellFormed(spec.fields[1], v.fields[1]);
  }

  lemma ServerHelloIsCanonical(random: Value, suiteId: nat)
    requires RandomValue(random) && suiteId < 65536
    ensures Canonical(ServerHello(random, suiteId))
  {
    VersionIsWellFormed();
    assert Pow256(1) == 256 && Pow256(2) == 65536;
    var spec, v := BodySpec(SERVER_HELLO).value, ServerHello(random, suiteId).body;
    forall i | 0 <= i < 6
      ensures Typed(spec.fields[i], v.fields[i]) && WellFormed(spec.fields[i], v.fields[i])
    {
    }
  }

  lemma EndingsAreCanonical(verifyData: bytes)
    ensures Canonical(HELLO_DONE) && Canonical(ServerFinished(verifyData))
  {
    var v := VStruct([VBuf(verifyData)]);
    assert Typed(RAW.fields[0], v.fields[0]) && WellFormed(RAW.fields[0], v.fields[0]);
  }

  /** The input: a HelloVerifyRequest that comes a second time after it was answered. Whatever the
      server does then, the handshake never goes on. */
  lemma RepeatedHelloVerifyBlocks(cfg: Config, random: Value, suiteIds: seq<int>, cookie: bytes, g: Garbage,
                                  evs: seq<Event>)
    requires cfg.library.HmacLaw() && |cookie| < 256
    ensures Table(FRESH_LAYER) && Live(Start(cfg, FRESH_LAYER, random, suiteIds).0)
    ensures var hvr := Incoming(ToFragment(CookieRequest(cookie)), g);
            var cl := Run(cfg, Start(cfg, FRESH_LAYER, random, suiteIds).0, [hvr]);
            && cl.h.expected == Some([SERVER_HELLO_DONE]) && cl.h.lastProcessed == 0
            && var at := Step(cfg, cl, hvr);
            && Live(at) && Flights(cfg, at, evs) == []
            && var r := Run(cfg, at, evs).h; r.expected == Some([SERVER_HELLO_DONE]) && r.outcomes == []
  {
    hide Run, Flights, Start, Live, Step, Early, Blank, Quiet, CookieHello, ClientHello, Arrives, Calm, Canonical,
         CookieRequest, Body;
    StartIsEarly(cfg, random, suiteIds);
    var cl, m := Start(cfg, FRESH_LAYER, random, suiteIds).0, CookieRequest(cookie);
    var evs1 := [Incoming(ToFragment(m), g)];
    CookieArrives(cfg, cl, cookie, g, evs1);
    CookieStage(cfg, cl, m, evs1, RandomBytes(ClientHello(random, suiteIds)));
    CookieRequestIsCanonical(cookie);
    RepeatedMessageBlocks(cfg, Run(cfg, cl, evs1), m, g, evs);
  }

  lemma OneIncoming(f: Fragment, g: Garbage)
    ensures var evs := [Incoming(f, g)]; Incomings(evs) == [f] && PeerCcs(evs) == 0 && Calm(evs)
  {
    assert [Incoming(f, g)][..0] == [];
    assert Incomings([]) + [f] == [f];
  }

  lemma CookieArrives(cfg: Config, cl: Endpoint, cookie: bytes, g: Garbage, evs: seq<Event>)
    requires Live(cl) && cfg.library.HmacLaw() && |cookie| < 256
             && evs == [Incoming(ToFragment(CookieRequest(cookie)), g)]
    requires cl.h.lastProcessed == -1 && cl.h.complete == map[] && cl.h.incomplete == []
    requires cl.h.expected == Some([SERVER_HELLO_DONE, HELLO_VERIFY_REQUEST])
    ensures Arrives(cfg, cl, [CookieRequest(cookie)], evs) && Calm(evs) && PeerCcs(evs) == 0
    ensures CookieRequest(cookie).msgType == HELLO_VERIFY_REQUEST && CookieRequest(cookie).seqNum == 0
  {
    hide Canonical, Body, Arrives, Calm;
    CookieRequestIsCanonical(cookie);
    OneIncoming(ToFragment(CookieRequest(cookie)), g);
    assert Wholes([CookieRequest(cookie)]) == [ToFragment(CookieRequest(cookie))];
    WholesArrive(cfg, cl, [CookieRequest(cookie)], evs);
  }
}
