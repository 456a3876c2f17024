/** The phases of a handshake over arbitrary runs: which keys a client has and what it sent. */
module Phases {
  import opened Bytes
  import opened Codec
  import opened Crypto
  import opened Protection
  import opened Packets
  import opened ConnectionStates
  import opened Records
  import R = RecordProofs
  import opened LayerChanges
  import opened Fragments
  import opened Handshakes
  import opened Handlers
  import opened HandlerProofs
  import opened Transcripts
  import opened KeyAgreement

  // ---- flights of any kind ----

  /** While a flight is handled: not answered yet, or answered; `cached` is the
      decipher delegate of epoch 1 if it was read before the keys were computed. */
  ghost predicate InFlight(cfg: Config, cl: Endpoint, random: bytes, cached: Option<Delegate>)
    requires cfg.library.HmacLaw()
  {
    || (Early(cl.l, random) && cl.h.outgoing == [] && cl.h.expected == None
        && cached == cl.l.epochs[1].conn.decipher)
    || (Late(cfg, cl.l, random, cached) && cl.h.outgoing == [] && cl.h.expected == Some([FINISHED]))
  }

  lemma LateServerHello(cfg: Config, cl: Endpoint, m: Handshake, random: bytes, cached: Option<Delegate>)
    requires Live(cl) && cfg.library.HmacLaw() && Late(cfg, cl.l, random, cached)
    ensures var r := HandleServerHello(cfg, cl, m);
            && Late(cfg, r.l, random, cached) && r.h == cl.h && r.l.sent == cl.l.sent
            && DelegateOf(r.l.epochs[1].conn) == DelegateOf(cl.l.epochs[1].conn)
  {
    hide RandomBytes, NumberOf, Table, Keyed, OthersKeyless;
    CurrentEpochsExist(cl.l);
    HandleServerHelloKeepsTable(cfg, cl, m);
    var r, n := HandleServerHello(cfg, cl, m).l, NextEpochNr(cl.l);
    assert n >= 2;
    var a, b := cl.l.epochs[1].conn, r.epochs[1].conn;
    assert b == a.(major := b.major, minor := b.minor);
    VersionIsNoSecret(cfg, a, b, random);
    LateOthers(cl.l, r, n);
  }

  lemma VersionIsNoSecret(cfg: Config, a: ConnState, b: ConnState, random: bytes)
    requires cfg.library.HmacLaw() && Keyed(cfg, a, random) && b == a.(major := b.major, minor := b.minor)
    ensures Keyed(cfg, b, random) && b.CipherInUse() == a.CipherInUse() && b.DecipherInUse() == a.DecipherInUse()
    ensures a.suite.Some? && b.suite.Some? && DelegateOf(b) == DelegateOf(a)
  {
    hide MasterSecret, KeyBlock, PreMasterSecret, Partition;
  }

  lemma LateOthers(l: Layer, m: Layer, n: nat)
    requires OthersKeyless(l) && m.epochs.Keys == l.epochs.Keys
    requires forall e: nat :: e in l.epochs && e != 1 ==>
               Harmless(1, l.epochs[e].conn, m.epochs[e].conn)
    ensures OthersKeyless(m)
  {
  }

  lemma LateDone(cfg: Config, cl: Endpoint, random: bytes, cached: Option<Delegate>)
    requires Live(cl) && cfg.library.HmacLaw() && Late(cfg, cl.l, random, cached)
    ensures var (r, status) := HandleServerHelloDone(cfg, cl); r.l == cl.l && Rejected(cl, r, status)
  {
    hide Table, PreMasterSecret, WithMasterSecret, Answer, Keyed;
    CurrentEpochsExist(cl.l);
    var n := NextEpochNr(cl.l);
    if cfg.psk.Some? {
      WhenKeyed(cfg.library, cl.l.epochs[n].conn, PreMasterSecret(cfg.psk.value.1));
    }
  }

  /** The client has sent its answer in one datagram after all that was sent before: the keys were
      those that epoch 1 has now, and the Finished is record 0 of epoch 1. */
  ghost predicate HasReplied(cfg: Config, sent: seq<bytes>, r: Endpoint) {
    exists l, ps :: ReplySent(cfg, sent, r, l, ps)
  }

  /** The datagram holds the records `ps` for the two messages of the last flight; `l` is the layer
      they were sent with. */
  ghost predicate ReplySent(cfg: Config, sent: seq<bytes>, r: Endpoint, l: Layer, ps: seq<Packet>) {
    && 0 in l.epochs && 1 in l.epochs && l.epochs[1].conn.suite.Some? && 1 in r.l.epochs
    && r.l.epochs[1].conn.suite.Some?
    && DelegateOf(l.epochs[1].conn) == DelegateOf(r.l.epochs[1].conn)
    && |r.h.lastFlight| == 2 && r.h.lastFlight[0].msgType == CLIENT_KEY_EXCHANGE
    && r.h.lastFlight[1].msgType == FINISHED
    && ReplyPackets(cfg.library, cfg.entropy, l, FirstRecord(r.h.lastFlight[0]), FirstRecord(r.h.lastFlight[1]), ps)
    && r.l.sent == sent + [Print(ps[0]) + Print(ps[1]) + Print(ps[2])]
  }

  lemma AnsweredHasReplied(cfg: Config, cl: Endpoint, r: Endpoint, random: bytes)
    requires cfg.library.HmacLaw() && Answered(cfg, cl, r, random)
    ensures HasReplied(cfg, cl.l.sent, r)
  {
    hide Keyed, OthersKeyless, Cached, FirstRecord, VerifyData, Body, Encoding, ClientKeyExchange, FinishedMessage,
         Print, Table, Encrypt;
    var a := WithKeys(cfg, cl);
    CachedFields(a.l.epochs[1].conn, r.l.epochs[1].conn);
    KeyedHasSuite(cfg, a.l.epochs[1].conn, random);
    var cke, fin := r.h.lastFlight[0], r.h.lastFlight[1];
    KindsOfReply(cfg, cke, fin);
    var ps :| ReplyPackets(cfg.library, cfg.entropy, a.l, FirstRecord(cke), FirstRecord(fin), ps)
              && r.l.sent == a.l.sent + [Print(ps[0]) + Print(ps[1]) + Print(ps[2])];
    assert ReplySent(cfg, cl.l.sent, r, a.l, ps);
  }

  lemma KindsOfReply(cfg: Config, cke: Handshake, fin: Handshake)
    requires cfg.psk.Some?
    ensures cke == ClientKeyExchange(cfg.psk.value.0).(seqNum := cke.seqNum) ==> cke.msgType == CLIENT_KEY_EXCHANGE
    ensures fin == FinishedMessage(BytesOf(Field(fin, 0))).(seqNum := fin.seqNum) ==> fin.msgType == FINISHED
  {
  }

  lemma RepliedStays(cfg: Config, sent: seq<bytes>, cl: Endpoint, r: Endpoint)
    requires HasReplied(cfg, sent, cl) && r.l.sent == cl.l.sent && r.h.lastFlight == cl.h.lastFlight
    requires 1 in cl.l.epochs && 1 in r.l.epochs && cl.l.epochs[1].conn.suite.Some? && r.l.epochs[1].conn.suite.Some?
    requires DelegateOf(r.l.epochs[1].conn) == DelegateOf(cl.l.epochs[1].conn)
    ensures HasReplied(cfg, sent, r)
  {
    hide ReplyPackets, FirstRecord, Print;
    var l, ps :| ReplySent(cfg, sent, cl, l, ps);
    assert ReplySent(cfg, sent, r, l, ps);
  }

  /** What one message of a flight, or all of them, lead to: nothing is sent unless the client
      answers, which happens at most once. */
  ghost predicate Proceeded(cfg: Config, cl: Endpoint, r: Endpoint) {
    && NoSuccess(cl.h, r.h)
    && (if cl.l.write == 0 && r.l.write == 1 then HasReplied(cfg, cl.l.sent, r) else r.l.sent == cl.l.sent)
    && (cl.l.write == 1 ==> r.h.lastFlight == cl.h.lastFlight && 1 in cl.l.epochs && 1 in r.l.epochs
                            && cl.l.epochs[1].conn.suite.Some? && r.l.epochs[1].conn.suite.Some?
                            && DelegateOf(r.l.epochs[1].conn) == DelegateOf(cl.l.epochs[1].conn))
  }

  lemma OneWhenEarly(cfg: Config, cl: Endpoint, m: Handshake, random: bytes)
    requires Live(cl) && cfg.library.HmacLaw() && Early(cl.l, random) && cl.h.outgoing == [] && cl.h.expected == None
    ensures var r := HandleOne(cfg, cl, m).0;
            InFlight(cfg, r, random, cl.l.epochs[1].conn.decipher) && Proceeded(cfg, cl, r)
  {
    hide HandleServerHello, HandleServerHelloDone, HandleServerKeyExchange, Table, Late, Answered, Keyless, Unprotected,
         HasReplied;
    NoSuccessReflexive(cl.h);
    ServerHelloKeepsEarly(cfg, cl, m, random);
    DoneIsAnsweredIff(cfg, cl, random);
    var r := HandleServerHelloDone(cfg, cl).0;
    if Answered(cfg, cl, r, random) {
      AnsweredShape(cfg, cl, r, random);
      AnsweredHasReplied(cfg, cl, r, random);
      LateIsKeyed(cfg, r.l, random, cl.l.epochs[1].conn.decipher);
    }
  }

  lemma OneWhenLate(cfg: Config, cl: Endpoint, m: Handshake, random: bytes, cached: Option<Delegate>)
    requires Live(cl) && cfg.library.HmacLaw() && Late(cfg, cl.l, random, cached) && cl.h.outgoing == []
             && cl.h.expected == Some([FINISHED])
    ensures var r := HandleOne(cfg, cl, m).0;
            InFlight(cfg, r, random, cached) && Proceeded(cfg, cl, r) && r.l.write == 1
  {
    hide HandleServerHello, HandleServerHelloDone, HandleServerKeyExchange, Table, Late, HasReplied;
    NoSuccessReflexive(cl.h);
    LateIsKeyed(cfg, cl.l, random, cached);
    LateServerHello(cfg, cl, m, random, cached);
    LateIsKeyed(cfg, HandleServerHello(cfg, cl, m).l, random, cached);
    LateDone(cfg, cl, random, cached);
  }

  lemma OneInFlight(cfg: Config, cl: Endpoint, m: Handshake, random: bytes, cached: Option<Delegate>)
    requires Live(cl) && cfg.library.HmacLaw() && InFlight(cfg, cl, random, cached)
    ensures var r := HandleOne(cfg, cl, m).0;
            InFlight(cfg, r, random, cached) && Proceeded(cfg, cl, r) && (cl.l.write == 1 ==> r.l.write == 1)
  {
    hide HandleOne, Table, Late, Keyless, Proceeded;
    if Late(cfg, cl.l, random, cached) && cl.h.outgoing == [] && cl.h.expected == Some([FINISHED]) {
      OneWhenLate(cfg, cl, m, random, cached);
    } else {
      OneWhenEarly(cfg, cl, m, random);
    }
  }

  lemma ProceededTransitive(cfg: Config, a: Endpoint, b: Endpoint, d: Endpoint)
    requires Proceeded(cfg, a, b) && Proceeded(cfg, b, d) && b.l.write in {0, 1} && (b.l.write == 1 ==> d.l.write == 1)
    requires a.l.write in {0, 1} && (a.l.write == 1 ==> b.l.write == 1)
    ensures Proceeded(cfg, a, d)
  {
    hide HasReplied;
    if a.l.write == 0 && b.l.write == 1 {
      RepliedStays(cfg, a.l.sent, b, d);
    }
  }

  lemma InFlightWrites(cfg: Config, cl: Endpoint, random: bytes, cached: Option<Delegate>)
    requires cfg.library.HmacLaw() && InFlight(cfg, cl, random, cached)
    ensures cl.l.write in {0, 1} && (cl.l.write == 1 <==> cl.h.expected == Some([FINISHED]))
  {
    hide Keyed, OthersKeyless, Keyless, Table;
  }

  lemma {:induction false} FlightInFlight(cfg: Config, cl: Endpoint, ms: seq<Handshake>, random: bytes,
                                          cached: Option<Delegate>)
    requires Live(cl) && cfg.library.HmacLaw() && InFlight(cfg, cl, random, cached)
    ensures var r := HandleServerFlight(cfg, cl, ms).0; InFlight(cfg, r, random, cached) && Proceeded(cfg, cl, r)
    ensures cl.l.write == 1 ==> HandleServerFlight(cfg, cl, ms).0.l.write == 1
    decreases |ms|
  {
    hide HandleOne, InFlight, Table, Proceeded;
    InFlightWrites(cfg, cl, random, cached);
    if ms == [] {
      NothingProceeded(cfg, cl, random, cached);
    } else {
      HandleOneKeepsTable(cfg, cl, ms[0]);
      OneInFlight(cfg, cl, ms[0], random, cached);
      var (next, status) := HandleOne(cfg, cl, ms[0]);
      InFlightWrites(cfg, next, random, cached);
      if status.Continues? {
        FlightInFlight(cfg, next, ms[1..], random, cached);
        ProceededTransitive(cfg, cl, next, HandleServerFlight(cfg, next, ms[1..]).0);
      }
    }
  }

  lemma NothingProceeded(cfg: Config, cl: Endpoint, random: bytes, cached: Option<Delegate>)
    requires cfg.library.HmacLaw() && InFlight(cfg, cl, random, cached)
    ensures Proceeded(cfg, cl, cl)
  {
    hide Keyed, OthersKeyless, Keyless, Table, HasReplied;
    NoSuccessReflexive(cl.h);
    if cl.l.write == 1 {
      LateIsKeyed(cfg, cl.l, random, cached);
    }
  }

  // ---- phases ----

  /** The client has answered nothing but HelloVerifyRequests; nothing has failed yet. */
  ghost predicate Waiting(cl: Endpoint, random: bytes, cached: Option<Delegate>) {
    && Early(cl.l, random) && Blank(cl.l) && cached == cl.l.epochs[1].conn.decipher && cl.h.outgoing == []
    && cl.h.expected in {Some([SERVER_HELLO_DONE, HELLO_VERIFY_REQUEST]), Some([SERVER_HELLO_DONE])}
    && cl.h.lastFlight != [] && cl.h.lastFlight[0].msgType == CLIENT_HELLO
    && cl.h.isHandshaking && cl.h.outcomes == []
  }

  /** The client rejected the server's flight and has no keys. */
  ghost predicate GivenUp(cl: Endpoint, random: bytes) {
    Early(cl.l, random) && cl.h.outgoing == [] && cl.h.expected == None && Connected !in cl.h.outcomes
  }

  /** The client has answered the server's flight. */
  ghost predicate HasKeys(cfg: Config, cl: Endpoint, random: bytes, cached: Option<Delegate>)
    requires cfg.library.HmacLaw()
  {
    Late(cfg, cl.l, random, cached) && cl.h.outgoing == [] && cl.h.expected in {None, Some([FINISHED])}
  }

  ghost predicate InPhase(cfg: Config, cl: Endpoint, random: bytes, touched: bool)
    requires cfg.library.HmacLaw()
  {
    var cached := if touched then Some(NULL_DELEGATE) else None;
    Waiting(cl, random, cached) || GivenUp(cl, random) || HasKeys(cfg, cl, random, cached)
  }

  /** The event deciphers a record of epoch 1 before there are keys for it. */
  ghost predicate Touches(l: Layer, ev: Event) {
    1 in l.epochs && l.epochs[1].conn.masterSecret == None && ev.OnLayer? && Reads(l, ev.op, 1)
  }

  /** In these events a record of epoch 1 was admitted before the keys of epoch 1 were computed. */
  ghost predicate Touched(cfg: Config, cl: Endpoint, evs: seq<Event>)
    requires Live(cl) && cfg.library.HmacLaw()
  {
    evs != [] && (Touched(cfg, cl, evs[..|evs| - 1]) || Touches(Run(cfg, cl, evs[..|evs| - 1]).l, evs[|evs| - 1]))
  }

  lemma LayerKeepsPhase(cfg: Config, cl: Endpoint, op: R.Op, random: bytes, touched: bool)
    requires Live(cl) && cfg.library.HmacLaw() && CalmOp(op) && InPhase(cfg, cl, random, touched)
    ensures var r := Step(cfg, cl, OnLayer(op));
            InPhase(cfg, r, random, touched || Touches(cl.l, OnLayer(op))) && r.l.write == cl.l.write
  {
    hide R.Step, Quiet, Table, Reads, Early, Late, Waiting;
    CalmStep(cfg.library, cl.l, op);
    R.StepKeepsTable(cfg.library, cl.l, op);
    var r := R.Step(cfg.library, cl.l, op);
    QuietIsDiscreet(cl.l, r);
    var cached := if touched then Some(NULL_DELEGATE) else None;
    if HasKeys(cfg, cl, random, cached) {
      LateIsKeyed(cfg, cl.l, random, cached);
      KeyedHasSuite(cfg, cl.l.epochs[1].conn, random);
      DiscreetKeepsLate(cfg, cl.l, r, random, cached);
    } else if Waiting(cl, random, cached) {
      LayerKeepsWaiting(cfg, cl, op, random, touched);
    } else {
      QuietKeepsEarly(cl.l, r, random);
    }
  }

  lemma LayerKeepsWaiting(cfg: Config, cl: Endpoint, op: R.Op, random: bytes, touched: bool)
    requires Live(cl) && cfg.library.HmacLaw() && CalmOp(op)
    requires Waiting(cl, random, if touched then Some(NULL_DELEGATE) else None)
    ensures var r := Step(cfg, cl, OnLayer(op));
            Waiting(r, random, if touched || Touches(cl.l, OnLayer(op)) then Some(NULL_DELEGATE) else None)
  {
    hide R.Step, Quiet, Table, Reads, Early, Blank;
    CalmStep(cfg.library, cl.l, op);
    R.StepKeepsTable(cfg.library, cl.l, op);
    var r := R.Step(cfg.library, cl.l, op);
    QuietKeepsEarly(cl.l, r, random);
    QuietKeepsBlank(cl.l, r);
    BlankDeciphers(cl.l);
    CalmDecipher(cfg.library, cl.l, op, 1);
  }

  lemma QuietIsDiscreet(l: Layer, m: Layer)
    requires Quiet(l, m)
    ensures Discreet(l, m) && m.write == l.write
  {
  }

  lemma BlankDeciphers(l: Layer)
    requires Blank(l)
    ensures 1 in l.epochs && l.epochs[1].conn.DecipherInUse() == Some(NULL_DELEGATE)
            && l.epochs[1].conn.masterSecret == None
  {
  }

  lemma DispatchKeepsPhase(cfg: Config, cl: Endpoint, ms: seq<Handshake>, random: bytes, touched: bool)
    requires Live(cl) && cfg.library.HmacLaw() && InPhase(cfg, cl, random, touched)
    requires ms != [] && cl.h.expected.Some? && ms[|ms| - 1].msgType in cl.h.expected.value
    ensures var r := Dispatch(cfg, cl, ms);
            && InPhase(cfg, r, random, touched)
            && (r.l.write != cl.l.write ==> cl.l.write == 0 && HasReplied(cfg, cl.l.sent, r))
  {
    hide Dispatch, Early, Blank, Late, Table, HasReplied, Quiet, CookieHello;
    var r, cached := Dispatch(cfg, cl, ms), if touched then Some(NULL_DELEGATE) else None;
    if Waiting(cl, random, cached) {
      if ms[|ms| - 1].msgType == HELLO_VERIFY_REQUEST {
        HelloIsRepeated(cfg, cl, ms, random);
        QuietKeepsEarly(cl.l, r.l, random);
        QuietKeepsBlank(cl.l, r.l);
        WritesInZero(cl.l, random);
        WritesInZero(r.l, random);
      } else {
        ServerFlightKeepsPhase(cfg, cl, ms, random, cached);
      }
    } else {
      FinishedKeepsPhase(cfg, cl, ms);
    }
  }

  /** After a server flight dispatching only announces an exception. */
  lemma ServerFlightIsDispatched(cfg: Config, cl: Endpoint, ms: seq<Handshake>)
    requires Live(cl) && cfg.library.HmacLaw() && ms != [] && ms[|ms| - 1].msgType == SERVER_HELLO_DONE
    ensures var r, d := HandleServerFlight(cfg, cl.(h := Taken(cl.h, ms)), ms).0, Dispatch(cfg, cl, ms);
            && d == r.(h := r.h.(isHandshaking := d.h.isHandshaking, outcomes := d.h.outcomes))
            && (Connected in d.h.outcomes ==> Connected in r.h.outcomes)
  {
    hide HandleServerFlight, Hashed, Table;
  }

  /** Taking a flight off the queue does not touch what the phases speak of. */
  lemma WaitingTakes(cfg: Config, cl: Endpoint, ms: seq<Handshake>, random: bytes, cached: Option<Delegate>)
    requires Live(cl) && cfg.library.HmacLaw() && Waiting(cl, random, cached) && ms != []
    ensures var taken := cl.(h := Taken(cl.h, ms));
            Live(taken) && InFlight(cfg, taken, random, cached) && taken.h.outcomes == [] && taken.h.expected == None
  {
    hide Early, Blank, Late, Table, Hashed;
  }

  lemma ServerFlightKeepsPhase(cfg: Config, cl: Endpoint, ms: seq<Handshake>, random: bytes, cached: Option<Delegate>)
    requires Live(cl) && cfg.library.HmacLaw() && Waiting(cl, random, cached)
    requires ms != [] && ms[|ms| - 1].msgType == SERVER_HELLO_DONE
    ensures var r := Dispatch(cfg, cl, ms);
            && (GivenUp(r, random) || HasKeys(cfg, r, random, cached))
            && (r.l.write != cl.l.write ==> cl.l.write == 0 && HasReplied(cfg, cl.l.sent, r))
  {
    hide Early, Late, Table, HasReplied, HandleServerFlight, Dispatch, Taken, Live, Waiting;
    var taken := cl.(h := Taken(cl.h, ms));
    WaitingTakes(cfg, cl, ms, random, cached);
    FlightInFlight(cfg, taken, ms, random, cached);
    ServerFlightIsDispatched(cfg, cl, ms);
    var r := HandleServerFlight(cfg, taken, ms).0;
    InFlightWrites(cfg, taken, random, cached);
    InFlightWrites(cfg, r, random, cached);
    if r.l.write == 1 {
      SameReply(cfg, cl.l.sent, r, Dispatch(cfg, cl, ms));
    }
  }

  lemma SameReply(cfg: Config, sent: seq<bytes>, a: Endpoint, b: Endpoint)
    requires HasReplied(cfg, sent, a) && b.l == a.l && b.h.lastFlight == a.h.lastFlight
    ensures HasReplied(cfg, sent, b)
  {
    hide ReplyPackets, FirstRecord, Print;
    var l, ps :| ReplySent(cfg, sent, a, l, ps);
    assert ReplySent(cfg, sent, b, l, ps);
  }

  lemma FinishedKeepsPhase(cfg: Config, cl: Endpoint, ms: seq<Handshake>)
    requires Live(cl) && cfg.library.HmacLaw() && ms != [] && ms[|ms| - 1].msgType == FINISHED
    ensures var r := Dispatch(cfg, cl, ms); r.l == cl.l && r.h.expected == None && r.h.outgoing == cl.h.outgoing
  {
    hide VerifyData, Table, Hashed, PrintFragment;
  }

  lemma IncomingKeepsPhase(cfg: Config, cl: Endpoint, f: Fragment, g: Garbage, random: bytes, touched: bool)
    requires Live(cl) && cfg.library.HmacLaw() && InPhase(cfg, cl, random, touched)
    ensures var r := Step(cfg, cl, Incoming(f, g));
            && InPhase(cfg, r, random, touched)
            && (r.l.write != cl.l.write ==> cl.l.write == 0 && HasReplied(cfg, cl.l.sent, r))
  {
    hide Dispatch, Store, FlightReady, Stored, Early, Blank, Late, Table, HasReplied;
    StoreFrame(cl.h, f, g);
    var (h, status) := Store(cl.h, f, g);
    if status.Continues? && FlightReady(h) {
      ReadyIsExpected(h);
      DispatchKeepsPhase(cfg, cl.(h := h), Stored(h), random, touched);
    }
  }

  lemma {:induction false} RunKeepsPhase(cfg: Config, cl: Endpoint, evs: seq<Event>, random: bytes)
    requires Live(cl) && cfg.library.HmacLaw() && Calm(evs) && Waiting(cl, random, None)
    ensures InPhase(cfg, Run(cfg, cl, evs), random, Touched(cfg, cl, evs))
  {
    hide Step, InPhase, Live, Touches;
    if evs == [] {
      WaitingIsPhase(cfg, cl, random);
    } else {
      var before, ev := evs[..|evs| - 1], evs[|evs| - 1];
      RunKeepsPhase(cfg, cl, before, random);
      StepKeepsPhase(cfg, Run(cfg, cl, before), ev, random, Touched(cfg, cl, before));
    }
  }

  lemma WaitingIsPhase(cfg: Config, cl: Endpoint, random: bytes)
    requires cfg.library.HmacLaw() && Waiting(cl, random, None)
    ensures InPhase(cfg, cl, random, false)
  {
  }

  lemma StepKeepsPhase(cfg: Config, cl: Endpoint, ev: Event, random: bytes, touched: bool)
    requires Live(cl) && cfg.library.HmacLaw() && InPhase(cfg, cl, random, touched) && (ev.OnLayer? ==> CalmOp(ev.op))
    ensures var r := Step(cfg, cl, ev);
            && InPhase(cfg, r, random, touched || Touches(cl.l, ev))
            && (r.l.write != cl.l.write ==> cl.l.write == 0 && HasReplied(cfg, cl.l.sent, r))
  {
    hide Step, InPhase, Live, HasReplied;
    if ev.OnLayer? {
      LayerKeepsPhase(cfg, cl, ev.op, random, touched);
    } else {
      IncomingKeepsPhase(cfg, cl, ev.f, ev.g, random, touched);
      assert !Touches(cl.l, ev);
    }
  }

  /** The parameters and keys of epoch 1 stay once they are there. */
  lemma StepKeepsKeys(cfg: Config, cl: Endpoint, ev: Event, random: bytes, cached: Option<Delegate>)
    requires Live(cl) && cfg.library.HmacLaw() && HasKeys(cfg, cl, random, cached) && (ev.OnLayer? ==> CalmOp(ev.op))
    ensures var r := Step(cfg, cl, ev);
            && HasKeys(cfg, r, random, cached)
            && cl.l.epochs[1].conn.suite.Some? && r.l.epochs[1].conn.suite.Some?
            && DelegateOf(r.l.epochs[1].conn) == DelegateOf(cl.l.epochs[1].conn)
  {
    hide Dispatch, Store, FlightReady, Stored, Late, Table, Quiet, R.Step, Cached;
    LateIsKeyed(cfg, cl.l, random, cached);
    if ev.Incoming? {
      StoreFrame(cl.h, ev.f, ev.g);
      var (h, status) := Store(cl.h, ev.f, ev.g);
      if status.Continues? && FlightReady(h) {
        ReadyIsExpected(h);
        FinishedKeepsPhase(cfg, cl.(h := h), Stored(h));
      }
    } else {
      CalmStep(cfg.library, cl.l, ev.op);
      R.StepKeepsTable(cfg.library, cl.l, ev.op);
      var r := R.Step(cfg.library, cl.l, ev.op);
      QuietIsDiscreet(cl.l, r);
      DiscreetKeepsLate(cfg, cl.l, r, random, cached);
      LateIsKeyed(cfg, r, random, cached);
      CachedFields(cl.l.epochs[1].conn, r.epochs[1].conn);
    }
  }

  lemma {:induction false} RunKeepsKeys(cfg: Config, cl: Endpoint, evs: seq<Event>, random: bytes,
                                        cached: Option<Delegate>)
    requires Live(cl) && cfg.library.HmacLaw() && HasKeys(cfg, cl, random, cached) && Calm(evs)
    ensures var r := Run(cfg, cl, evs);
            && HasKeys(cfg, r, random, cached)
            && cl.l.epochs[1].conn.suite.Some? && r.l.epochs[1].conn.suite.Some?
            && DelegateOf(r.l.epochs[1].conn) == DelegateOf(cl.l.epochs[1].conn)
            && !Touched(cfg, cl, evs)
  {
    hide Step, Late, Table;
    LateIsKeyed(cfg, cl.l, random, cached);
    if evs != [] {
      var before, ev := evs[..|evs| - 1], evs[|evs| - 1];
      RunKeepsKeys(cfg, cl, before, random, cached);
      var mid := Run(cfg, cl, before);
      StepKeepsKeys(cfg, mid, ev, random, cached);
      LateIsKeyed(cfg, mid.l, random, cached);
      KeyedHasSuite(cfg, mid.l.epochs[1].conn, random);
    }
  }

  lemma StartIsWaiting(cfg: Config, random: Value, suiteIds: seq<int>)
    ensures Table(FRESH_LAYER) && Live(Start(cfg, FRESH_LAYER, random, suiteIds).0)
    ensures Waiting(Start(cfg, FRESH_LAYER, random, suiteIds).0, RandomBytes(ClientHello(random, suiteIds)), None)
  {
    hide Start, Early, Blank, Table, ClientHello;
    StartIsEarly(cfg, random, suiteIds);
  }

  /** The delegates of epoch 1 in every run: as soon as the keys are computed the client enciphers
      with them, and deciphers with them if and only if no record of epoch 1 was admitted before.
      Otherwise it deciphers with nothing for good. No other epoch ever has keys. */
  lemma DelegatesInUse(cfg: Config, random: Value, suiteIds: seq<int>, evs: seq<Event>)
    requires cfg.library.HmacLaw() && Calm(evs)
    requires Table(FRESH_LAYER) && Live(Start(cfg, FRESH_LAYER, random, suiteIds).0)
    ensures var cl := Start(cfg, FRESH_LAYER, random, suiteIds).0;
            var l := Run(cfg, cl, evs).l;
            && 1 in l.epochs
            && var conn := l.epochs[1].conn;
            && (conn.masterSecret.Some? ==>
                  && conn.suite.Some? && conn.keys.Some?
                  && var keyed := Delegate(conn.suite.value, conn.keys, Client);
                  && conn.CipherInUse() == Some(keyed)
                  && conn.DecipherInUse() == Some(if Touched(cfg, cl, evs) then NULL_DELEGATE else keyed)
                  && (conn.DecipherInUse() == Some(keyed) <==> !Touched(cfg, cl, evs)))
            && forall e: nat {:trigger l.epochs[e]} :: e in l.epochs && (e != 1 || conn.masterSecret.None?) ==>
                 Keyless(l.epochs[e].conn)
  {
    hide Start, Run, Calm, Touched, Keyless, Blank, Table, Keyed, Waiting;
    StartIsWaiting(cfg, random, suiteIds);
    var cl, bytes := Start(cfg, FRESH_LAYER, random, suiteIds).0, RandomBytes(ClientHello(random, suiteIds));
    RunKeepsPhase(cfg, cl, evs, bytes);
    DelegatesOfPhase(cfg, Run(cfg, cl, evs), bytes, Touched(cfg, cl, evs));
  }

  lemma DelegatesOfPhase(cfg: Config, cl: Endpoint, random: bytes, touched: bool)
    requires cfg.library.HmacLaw() && InPhase(cfg, cl, random, touched)
    ensures 1 in cl.l.epochs
    ensures var conn := cl.l.epochs[1].conn;
            && (conn.masterSecret.Some? ==>
                  && conn.suite.Some? && conn.keys.Some?
                  && var keyed := Delegate(conn.suite.value, conn.keys, Client);
                  && conn.CipherInUse() == Some(keyed)
                  && conn.DecipherInUse() == Some(if touched then NULL_DELEGATE else keyed))
            && forall e: nat {:trigger cl.l.epochs[e]} :: e in cl.l.epochs && (e != 1 || conn.masterSecret.None?) ==>
                 Keyless(cl.l.epochs[e].conn)
  {
    hide Blank, Table, Keyed;
    var cached := if touched then Some(NULL_DELEGATE) else None;
    if HasKeys(cfg, cl, random, cached) {
      KeyedHasSuite(cfg, cl.l.epochs[1].conn, random);
    } else {
      assert Early(cl.l, random);
      assert Keyless(cl.l.epochs[1].conn);
    }
  }

  lemma PhaseWrites(cfg: Config, cl: Endpoint, random: bytes, touched: bool)
    requires cfg.library.HmacLaw() && InPhase(cfg, cl, random, touched)
    ensures cl.l.write in {0, 1}
    ensures cl.h.expected.Some? && SERVER_HELLO_DONE in cl.h.expected.value ==> cl.h.outgoing == [] && cl.l.write == 0
  {
    hide Blank, Table, Keyed, Keyless, OthersKeyless;
  }

  lemma CalmPrefix(evs: seq<Event>, k: nat)
    requires Calm(evs) && k < |evs|
    ensures Calm(evs[..k]) && (evs[k].OnLayer? ==> CalmOp(evs[k].op))
  {
  }

  lemma ReplyOf(cfg: Config, sent: seq<bytes>, r: Endpoint) returns (l: Layer, ps: seq<Packet>)
    requires HasReplied(cfg, sent, r)
    ensures ReplySent(cfg, sent, r, l, ps) && |ps| == 3
    ensures (ps[0].typ, ps[0].epoch) == (HANDSHAKE, 0) && (ps[1].typ, ps[1].epoch) == (CHANGE_CIPHER_SPEC, 0)
    ensures (ps[2].typ, ps[2].epoch, ps[2].seqNum) == (HANDSHAKE, 1, 0)
  {
    hide Encrypt, Print, PrintFragment;
    l, ps :| ReplySent(cfg, sent, r, l, ps);
    var conn, fin := l.epochs[1].conn, FirstRecord(r.h.lastFlight[1]);
    var d := DelegateOf(conn);
    EncryptKeepsHeader(cfg.library, d, Packet(fin.typ, conn.major, conn.minor, 1, 0, fin.data),
                       Draw(cfg.entropy, 1, 0, RecordIvLength(d.suite)));
  }

  /** A Finished is always record 0 of epoch 1. In every run the write epoch moves at most once,
      from 0 to 1; in that step one datagram is sent, with a ClientKeyExchange and a
      ChangeCipherSpec in epoch 0 and the Finished, protected with the keys, as number 0 of epoch
      1. Until then, while a ServerHelloDone is expected, nothing is queued. */
  lemma FinishedIsRecordZero(cfg: Config, random: Value, suiteIds: seq<int>, evs: seq<Event>, k: nat)
    returns (l: Layer, ps: seq<Packet>)
    requires cfg.library.HmacLaw() && Calm(evs) && k < |evs|
    requires Table(FRESH_LAYER) && Live(Start(cfg, FRESH_LAYER, random, suiteIds).0)
    ensures var a := Run(cfg, Start(cfg, FRESH_LAYER, random, suiteIds).0, evs[..k]);
            var r := Step(cfg, a, evs[k]);
            && (a.h.expected.Some? && SERVER_HELLO_DONE in a.h.expected.value ==> a.h.outgoing == [] && a.l.write == 0)
            && (r.l.write != a.l.write ==>
                  && a.l.write == 0 && r.l.write == 1
                  && ReplySent(cfg, a.l.sent, r, l, ps) && |ps| == 3
                  && (ps[0].typ, ps[0].epoch) == (HANDSHAKE, 0) && (ps[1].typ, ps[1].epoch) == (CHANGE_CIPHER_SPEC, 0)
                  && (ps[2].typ, ps[2].epoch, ps[2].seqNum) == (HANDSHAKE, 1, 0))
  {
    hide Start, Run, Calm, Touched, Touches, Step, Live, HasReplied, ReplySent, InPhase, Waiting, Late, Early;
    StartIsWaiting(cfg, random, suiteIds);
    var cl, bytes := Start(cfg, FRESH_LAYER, random, suiteIds).0, RandomBytes(ClientHello(random, suiteIds));
    CalmPrefix(evs, k);
    RunKeepsPhase(cfg, cl, evs[..k], bytes);
    var a := Run(cfg, cl, evs[..k]);
    StepKeepsPhase(cfg, a, evs[k], bytes, Touched(cfg, cl, evs[..k]));
    var r := Step(cfg, a, evs[k]);
    PhaseWrites(cfg, a, bytes, Touched(cfg, cl, evs[..k]));
    l, ps := a.l, [];
    if r.l.write != a.l.write {
      l, ps := ReplyOf(cfg, a.l.sent, r);
      PhaseWrites(cfg, r, bytes, Touched(cfg, cl, evs[..k]) || Touches(a.l, evs[k]));
    }
  }
}
