/** Which keys protect what a session hands to the application. */
module Authenticity {
  import opened Bytes
  import opened BitConverter
  import opened Codec
  import opened Crypto
  import opened Packets
  import opened AntiReplay
  import opened AntiReplayProofs
  import opened Protection
  import opened ConnectionStates
  import opened Records
  import opened LayerChanges
  import opened Handshakes
  import opened Handlers
  import opened KeyAgreement
  import opened Phases
  import opened Sessions
  import opened SessionProofs
  import opened SessionLayers
  import opened Transfer
  import H = HandlerProofs
  import R = RecordProofs

  // ---- records of epoch 1 before the keys ----

  /** The datagram holds a record of epoch 1 that is admitted before the keys are computed. */
  ghost predicate Taints(s: Session, input: Input) {
    && input.Datagram? && 1 in s.cl.l.epochs && s.cl.l.epochs[1].conn.masterSecret == None
    && Among(Filter(s.cl.l, ParseAll(input.buf, 0, input.g)), 1)
  }

  /** One of the datagrams so far does. */
  ghost predicate Tainted(cfg: Config, s: Session, inputs: seq<Input>)
    requires Open(cfg, s)
  {
    inputs != [] && (Tainted(cfg, s, inputs[..|inputs| - 1])
                     || Taints(Run(cfg, s, inputs[..|inputs| - 1]), inputs[|inputs| - 1]))
  }

  lemma {:induction false} TouchedConcat(cfg: Config, cl: Endpoint, a: seq<H.Event>, b: seq<H.Event>)
    requires Live(cl) && cfg.library.HmacLaw()
    ensures Touched(cfg, cl, a + b) <==> Touched(cfg, cl, a) || Touched(cfg, H.Run(cfg, cl, a), b)
  {
    hide H.Run, Live, Touches;
    if b == [] {
      assert a + b == a;
    } else {
      assert (a + b)[..|a + b| - 1] == a + b[..|b| - 1];
      HandlerRunConcat(cfg, cl, a, b[..|b| - 1]);
      TouchedConcat(cfg, cl, a, b[..|b| - 1]);
    }
  }

  lemma {:induction false} BehindTouchesNothing(cfg: Config, cl: Endpoint, evs: seq<H.Event>)
    requires Live(cl) && cfg.library.HmacLaw() && AllBehind(evs)
    ensures !Touched(cfg, cl, evs)
  {
    hide H.Run, Live;
    if evs != [] {
      BehindTouchesNothing(cfg, cl, evs[..|evs| - 1]);
      assert Behind(evs[|evs| - 1]);
    }
  }

  lemma InputTouches(cfg: Config, s: Session, input: Input)
    requires Open(cfg, s)
    ensures Touched(cfg, s.cl, EventsOf(cfg, s, input)) <==> Taints(s, input)
  {
    hide H.Run, Live, Outgoing;
    var evs := EventsOf(cfg, s, input);
    if input.Datagram? {
      hide EventsOf, Among;
      var ev := H.OnLayer(R.Recv(input.g, input.buf));
      FirstEvent(cfg, s, input);
      RestIsBehind(cfg, s, input);
      TouchedConcat(cfg, s.cl, [ev], evs[1..]);
      BehindTouchesNothing(cfg, H.Run(cfg, s.cl, [ev]), evs[1..]);
      TouchedOne(cfg, s.cl, ev);
    } else {
      DataTouchesNothing(cfg, s.cl, evs);
    }
  }

  lemma FirstEvent(cfg: Config, s: Session, input: Input)
    requires Open(cfg, s) && input.Datagram?
    ensures var evs := EventsOf(cfg, s, input); evs != [] && evs == [H.OnLayer(R.Recv(input.g, input.buf))] + evs[1..]
  {
    hide Receive, OnMessages, EventsOfMessages;
  }

  lemma TouchedOne(cfg: Config, cl: Endpoint, ev: H.Event)
    requires Live(cl) && cfg.library.HmacLaw()
    ensures Touched(cfg, cl, [ev]) <==> Touches(cl.l, ev)
  {
    hide Live, Touches;
    assert [ev][..0] == [];
    NoEvents(cfg, cl);
  }

  lemma {:induction false} DataTouchesNothing(cfg: Config, cl: Endpoint, evs: seq<H.Event>)
    requires Live(cl) && cfg.library.HmacLaw() && forall i :: 0 <= i < |evs| ==> evs[i].OnLayer? && !evs[i].op.Recv?
    ensures !Touched(cfg, cl, evs)
  {
    hide H.Run, Live;
    if evs != [] {
      DataTouchesNothing(cfg, cl, evs[..|evs| - 1]);
    }
  }

  /** Over a session the events touch epoch 1 too early exactly if one of its datagrams does. */
  lemma {:induction false} TouchedIffTainted(cfg: Config, s: Session, inputs: seq<Input>)
    requires Open(cfg, s)
    ensures Touched(cfg, s.cl, Events(cfg, s, inputs)) <==> Tainted(cfg, s, inputs)
  {
    hide EventsOf, Taints, Touched, Step, Open;
    if inputs == [] {
      NeverTouched(cfg, s);
    } else {
      var last := |inputs| - 1;
      var before, mid := inputs[..last], Run(cfg, s, inputs[..last]);
      TouchedIffTainted(cfg, s, before);
      SessionIsRun(cfg, s, before);
      OpenIsLive(cfg, s);
      TouchedConcat(cfg, s.cl, Events(cfg, s, before), EventsOf(cfg, mid, inputs[last]));
      InputTouches(cfg, mid, inputs[last]);
    }
  }

  lemma NeverTouched(cfg: Config, s: Session)
    requires Open(cfg, s)
    ensures !Touched(cfg, s.cl, Events(cfg, s, []))
  {
  }

  // ---- the delegates of a session ----

  /** The phase of a session. */
  lemma SessionPhase(cfg: Config, random: Value, suiteIds: seq<int>, inputs: seq<Input>)
    requires cfg.library.HmacLaw()
    ensures var s := Opened(cfg, random, suiteIds);
            InPhase(cfg, Run(cfg, s, inputs).cl, RandomBytes(ClientHello(random, suiteIds)), Tainted(cfg, s, inputs))
  {
    hide Start, InPhase, Tainted, H.Run, Run, ClientHello, K.Calm, Waiting, Touched, Events, RandomBytes;
    var s := Opened(cfg, random, suiteIds);
    StartIsWaiting(cfg, random, suiteIds);
    SessionIsRun(cfg, s, inputs);
    SessionIsCalm(cfg, s, inputs);
    TouchedIffTainted(cfg, s, inputs);
    RunKeepsPhase(cfg, s.cl, Events(cfg, s, inputs), RandomBytes(ClientHello(random, suiteIds)));
  }

  /** The delegates of epoch 1 in every session. As soon as the keys are computed the client
      enciphers with them, and it deciphers with them if and only if no datagram held a record of
      epoch 1 that was admitted before; otherwise it deciphers with nothing for good. */
  lemma SessionDelegates(cfg: Config, random: Value, suiteIds: seq<int>, inputs: seq<Input>)
    requires cfg.library.HmacLaw()
    ensures var s := Opened(cfg, random, suiteIds);
            var l := Run(cfg, s, inputs).cl.l;
            && 1 in l.epochs
            && var conn := l.epochs[1].conn;
            && (conn.masterSecret.Some? ==>
                  && conn.suite.Some? && conn.keys.Some?
                  && var keyed := Delegate(conn.suite.value, conn.keys, Client);
                  && conn.CipherInUse() == Some(keyed)
                  && (conn.DecipherInUse() == Some(keyed) <==> !Tainted(cfg, s, inputs))
                  && (conn.DecipherInUse() == Some(NULL_DELEGATE) <==> Tainted(cfg, s, inputs)))
            && forall e: nat {:trigger l.epochs[e]} :: e in l.epochs && (e != 1 || conn.masterSecret.None?) ==>
                 Keyless(l.epochs[e].conn)
  {
    hide InPhase, Tainted, Run, Opened, Keyless;
    var s := Opened(cfg, random, suiteIds);
    SessionPhase(cfg, random, suiteIds, inputs);
    DelegatesOfPhase(cfg, Run(cfg, s, inputs).cl, RandomBytes(ClientHello(random, suiteIds)), Tainted(cfg, s, inputs));
  }

  // ---- data in the clear ----

  /** An application data record that nothing protects. */
  function PlainRecord(e: nat, q: nat, data: bytes): Packet {
    Packet(APPLICATION_DATA, 254, 253, e, q, data)
  }

  lemma FreshAccepts(q: nat)
    requires q < 2 * WIDTH
    ensures FRESH.MayReceive(q)
  {
    assert Marks(FRESH, []) == FRESH;
    CleanRunAccepts([], q);
  }

  /** A datagram with one record that is admitted and deciphers. */
  lemma OneRecordArrives(c: Library, g: Garbage, l: Layer, p: Packet, plain: Packet)
    requires Table(l) && |p.fragment| <= MAX_FRAGMENT && Admits(l, Wire(p)) && DecryptOne(c, l, Wire(p)) == Some(plain)
    ensures Receive(c, g, l, Print(p)).1 == [plain]
    ensures Filter(l, ParseAll(Print(p), 0, g)) == [Wire(p)]
  {
    hide ParseAll, DecryptAll, MarkAll, Table, Admits, DecryptOne, Print, Wire;
    assert [p][1..] == [] && PrintAll([p]) == Print(p) + PrintAll([]) == Print(p) && [] + Print(p) == Print(p);
    ParsesAll([p], [], g);
    assert WireAll([p]) == [Wire(p)];
    FilterKeepsAll(l, [Wire(p)]);
    FilterIsKnown(l, [Wire(p)]);
    DecryptsAll(c, l, [Wire(p)], [plain]);
  }

  lemma PlainRecordOnTheWire(e: nat, q: nat, data: bytes)
    requires e < 65536 && q < 2 * WIDTH
    ensures Wire(PlainRecord(e, q, data)) == PlainRecord(e, q, data)
  {
    PowFour();
    Small(e, 65536);
    Small(q, TWO32);
    Small(APPLICATION_DATA, 256);
    Small(254, 256);
    Small(253, 256);
  }

  /** While nothing is negotiated a plain record is delivered as it is, also in epoch 1. */
  lemma PlainRecordArrives(c: Library, g: Garbage, l: Layer, e: nat, q: nat, data: bytes)
    requires Table(l) && e in l.epochs && l.read <= e < 65536 && q < 2 * WIDTH && |data| <= MAX_FRAGMENT
    requires l.epochs[e].conn.DecipherInUse() == Some(NULL_DELEGATE) && l.epochs[e].window == FRESH
    ensures var p := PlainRecord(e, q, data);
            && Receive(c, g, l, Print(p)).1 == [p] && Filter(l, ParseAll(Print(p), 0, g)) == [p]
            && Reads(l, R.Recv(g, Print(p)), e)
  {
    hide Table, Window.MayReceive, Print, ParseAll, Receive;
    var p := PlainRecord(e, q, data);
    FreshAccepts(q);
    TableSize(l);
    PlainRecordOnTheWire(e, q, data);
    OneRecordArrives(c, g, l, p, p);
    assert [p][0].epoch == e;
  }

  /** One plain record of epoch 1 is enough. A fresh record layer delivers it and remembers that
      epoch 1 is not protected; whatever keys are computed for this epoch later, every record of
      it is then taken as it is. */
  lemma EarlyRecordIsRemembered(c: Library, g: Garbage, q: nat, data: bytes, suite: CipherSuite, client: bytes,
                                server: bytes, preMaster: bytes, record: Packet)
    requires c.HmacLaw() && q < 2 * WIDTH && |data| <= MAX_FRAGMENT
    ensures Table(FRESH_LAYER)
    ensures var p := PlainRecord(1, q, data);
            var (l, records) := Receive(c, g, FRESH_LAYER, Print(p));
            && records == [p] && 1 in l.epochs
            && l.epochs[1].conn.decipher == Some(NULL_DELEGATE)
            && var conn := l.epochs[1].conn.(suite := Some(suite), clientRandom := Some(client),
                                             serverRandom := Some(server));
            && var keyed := WithMasterSecret(c, conn, preMaster);
            && (keyed.Some? ==> keyed.value.keys.Some? && keyed.value.DecipherInUse() == Some(NULL_DELEGATE))
            && Decrypt(c, NULL_DELEGATE, record) == Some(record)
  {
    hide Receive, Print, MasterSecret, KeyBlock, Partition, Reads;
    FreshLayerTable();
    PlainRecordArrives(c, g, FRESH_LAYER, 1, q, data);
    ReceiveChanges(c, g, FRESH_LAYER, Print(PlainRecord(1, q, data)), 1);
  }

  lemma OpenedLayer(cfg: Config, random: Value, suiteIds: seq<int>)
    requires cfg.library.HmacLaw()
    ensures var s := Opened(cfg, random, suiteIds);
            var l := s.cl.l;
            && Table(l) && l.read == 0 && l.write == 0 && 0 in l.epochs && 1 in l.epochs
            && l.epochs[0].window == FRESH && l.epochs[1].window == FRESH
            && l.epochs[0].conn.DecipherInUse() == Some(NULL_DELEGATE)
            && l.epochs[1].conn.DecipherInUse() == Some(NULL_DELEGATE) && l.epochs[1].conn.masterSecret == None
            && !s.finished && s.buffered == [] && s.emitted == [] && s.cl.h.outcomes == []
  {
    hide Start, Table, ClientHello, Traces;
    StartIsEarly(cfg, random, suiteIds);
    var l := Opened(cfg, random, suiteIds).cl.l;
    var ops := SessionRunsLayer(cfg, random, suiteIds, []);
    WritesInZero(l, RandomBytes(ClientHello(random, suiteIds)));
    assert R.NumbersOf(0, []) == [] && R.NumbersOf(1, []) == [] && Marks(FRESH, []) == FRESH;
  }

  /** Data that comes in the clear right after the start, in epoch 0 or epoch 1, is kept for the
      application. */
  lemma PlainDataIsKept(cfg: Config, random: Value, suiteIds: seq<int>, e: nat, q: nat, data: bytes, g: Garbage,
                        gs: nat -> Garbage)
    requires cfg.library.HmacLaw() && e < 2 && q < 2 * WIDTH && |data| <= MAX_FRAGMENT
    ensures var s, input := Opened(cfg, random, suiteIds), Datagram(Print(PlainRecord(e, q, data)), g, gs);
            && RecordsFrom(cfg, s, input) == [PlainRecord(e, q, data)]
            && Step(cfg, s, input)
               == s.(cl := s.cl.(l := Receive(cfg.library, g, s.cl.l, input.buf).0), buffered := [data])
            && (Taints(s, input) <==> e == 1)
  {
    hide Receive, Print, Table, Opened, Filter, ParseAll;
    OpenedLayer(cfg, random, suiteIds);
    var s, input, p := Opened(cfg, random, suiteIds), Datagram(Print(PlainRecord(e, q, data)), g, gs),
      PlainRecord(e, q, data);
    PlainRecordArrives(cfg.library, g, s.cl.l, e, q, data);
    R.StepKeepsTable(cfg.library, s.cl.l, R.Recv(g, input.buf));
    var received := s.(cl := s.cl.(l := Receive(cfg.library, g, s.cl.l, input.buf).0));
    assert Messages([p]) == [Message(APPLICATION_DATA, data)];
    OneDatum(cfg, received, data, gs);
    assert [] + [data] == [data];
  }

  lemma OneDatum(cfg: Config, s: Session, data: bytes, gs: nat -> Garbage)
    requires Open(cfg, s) && !s.finished
    ensures OnMessages(cfg, s, [Message(APPLICATION_DATA, data)], gs, 0) == (s.(buffered := s.buffered + [data]), 1)
  {
    hide Live;
    OnMessageKeepsOpen(cfg, s, Message(APPLICATION_DATA, data), gs(0));
    var next := s.(buffered := s.buffered + [data]);
    assert OnMessage(cfg, s, Message(APPLICATION_DATA, data), gs(0)) == (next, true);
    assert OnMessages(cfg, next, [Message(APPLICATION_DATA, data)], gs, 1) == (next, 1);
  }

  // ---- authenticity ----

  /** An application data record that was delivered, and what deciphered it. */
  datatype Arrival = Arrival(record: Packet, through: Option<Delegate>)

  function DelegateAt(l: Layer, e: int): Option<Delegate> {
    if e >= 0 && e in l.epochs then l.epochs[e].conn.DecipherInUse() else None
  }

  function ArrivalsIn(l: Layer, ps: seq<Packet>): seq<Arrival> {
    if ps == [] then []
    else
      var p := ps[|ps| - 1];
      ArrivalsIn(l, ps[..|ps| - 1]) + if p.typ == APPLICATION_DATA then [Arrival(p, DelegateAt(l, p.epoch))] else []
  }

  /** The application data records that an input delivers, up to the first message that is refused. */
  function ArrivalsOf(cfg: Config, s: Session, input: Input): seq<Arrival>
    requires Open(cfg, s)
  {
    if input.Data? then []
    else
      R.StepKeepsTable(cfg.library, s.cl.l, R.Recv(input.g, input.buf));
      var (l, records) := Receive(cfg.library, input.g, s.cl.l, input.buf);
      ArrivalsIn(s.cl.l, records[..Reached(cfg, s.(cl := s.cl.(l := l)), Messages(records), input.gs, 0)])
  }

  ghost function Arrivals(cfg: Config, s: Session, inputs: seq<Input>): seq<Arrival>
    requires Open(cfg, s)
  {
    if inputs == [] then []
    else Arrivals(cfg, s, inputs[..|inputs| - 1])
         + ArrivalsOf(cfg, Run(cfg, s, inputs[..|inputs| - 1]), inputs[|inputs| - 1])
  }

  function Payloads(arrivals: seq<Arrival>): seq<bytes> {
    seq(|arrivals|, i requires 0 <= i < |arrivals| => arrivals[i].record.fragment)
  }

  lemma {:induction false} PayloadsIn(l: Layer, ps: seq<Packet>)
    ensures Payloads(ArrivalsIn(l, ps)) == DataIn(Messages(ps))
  {
    if ps != [] {
      var last := |ps| - 1;
      PayloadsIn(l, ps[..last]);
      assert Messages(ps)[..last] == Messages(ps[..last]);
      assert Messages(ps)[last] == MessageOf(ps[last]);
    }
  }

  lemma PayloadsOf(cfg: Config, s: Session, input: Input)
    requires Open(cfg, s)
    ensures Payloads(ArrivalsOf(cfg, s, input)) == DataOf(cfg, s, input)
  {
    hide Reached, Receive, Table, DataIn, ArrivalsIn;
    if input.Datagram? {
      R.StepKeepsTable(cfg.library, s.cl.l, R.Recv(input.g, input.buf));
      var (l, records) := Receive(cfg.library, input.g, s.cl.l, input.buf);
      var n := Reached(cfg, s.(cl := s.cl.(l := l)), Messages(records), input.gs, 0);
      PayloadsIn(s.cl.l, records[..n]);
      assert Messages(records)[..n] == Messages(records[..n]);
    }
  }

  /** The data of a session are the payloads of its arrivals. */
  lemma {:induction false} PayloadsAreData(cfg: Config, s: Session, inputs: seq<Input>)
    requires Open(cfg, s)
    ensures Payloads(Arrivals(cfg, s, inputs)) == AllData(cfg, s, inputs)
  {
    hide ArrivalsOf, DataOf, Step, Open;
    if inputs != [] {
      var last := |inputs| - 1;
      PayloadsAreData(cfg, s, inputs[..last]);
      PayloadsOf(cfg, Run(cfg, s, inputs[..last]), inputs[last]);
    }
  }

  lemma {:induction false} ArrivedFrom(l: Layer, ps: seq<Packet>, a: Arrival)
    requires a in ArrivalsIn(l, ps)
    ensures a.record in ps && a.record.typ == APPLICATION_DATA && a.through == DelegateAt(l, a.record.epoch)
  {
    var last := |ps| - 1;
    if a in ArrivalsIn(l, ps[..last]) {
      ArrivedFrom(l, ps[..last], a);
    }
  }

  lemma {:induction false} DeliverableFrom(c: Library, l: Layer, ps: seq<Packet>, p: Packet)
    requires p in Deliverable(c, l, ps)
    ensures p in ps && Delivery(c, l, p).Some?
  {
    hide Delivery;
    if ps != [] && p in Deliverable(c, l, ps[1..]) {
      DeliverableFrom(c, l, ps[1..], p);
    }
  }

  lemma {:induction false} AdmittedIsFiltered(l: Layer, ps: seq<Packet>, p: Packet)
    requires p in ps && Admits(l, p)
    ensures p in Filter(l, ps)
  {
    hide Admits;
    if p != ps[0] {
      AdmittedIsFiltered(l, ps[1..], p);
    }
  }

  /** What an arrival says is what happened: its delegate deciphered it from a record of the
      datagram that was admitted. */
  lemma ArrivalIsDeciphered(cfg: Config, s: Session, input: Input, a: Arrival) returns (p: Packet)
    requires Open(cfg, s) && a in ArrivalsOf(cfg, s, input)
    ensures input.Datagram? && p in Filter(s.cl.l, ParseAll(input.buf, 0, input.g)) && p.epoch == a.record.epoch
    ensures a.record.typ == APPLICATION_DATA
    ensures a.through == DelegateAt(s.cl.l, a.record.epoch) && a.through.Some?
    ensures Decrypt(cfg.library, a.through.value, p) == Some(a.record)
  {
    hide Reached, Receive, Table, ParseAll, Filter, ArrivalsIn, Admits, Decrypt;
    var c, l := cfg.library, s.cl.l;
    R.StepKeepsTable(c, l, R.Recv(input.g, input.buf));
    var (next, records) := Receive(c, input.g, l, input.buf);
    var n := Reached(cfg, s.(cl := s.cl.(l := next)), Messages(records), input.gs, 0);
    ArrivedFrom(l, records[..n], a);
    var i :| 0 <= i < n && records[..n][i] == a.record;
    OnceInOneDatagramIff(c, input.g, l, input.buf);
    p := Deliverable(c, l, ParseAll(input.buf, 0, input.g))[i];
    DeliverableFrom(c, l, ParseAll(input.buf, 0, input.g), p);
    AdmittedIsFiltered(l, ParseAll(input.buf, 0, input.g), p);
    AdmittedIsKnown(l, p);
  }

  lemma AdmittedIsKnown(l: Layer, p: Packet)
    requires Admits(l, p)
    ensures p.epoch >= 0 && p.epoch in l.epochs
  {
  }

  lemma KeyedPhase(cfg: Config, cl: Endpoint, random: bytes, touched: bool)
    requires cfg.library.HmacLaw() && InPhase(cfg, cl, random, touched) && 1 in cl.l.epochs
    requires cl.l.epochs[1].conn.masterSecret.Some? || Connected in cl.h.outcomes
    ensures HasKeys(cfg, cl, random, if touched then Some(NULL_DELEGATE) else None)
    ensures cl.l.epochs[1].conn.suite.Some? && cl.l.epochs[1].conn.masterSecret.Some?
  {
    hide Table, Blank, Keyed, Early;
    EarlyHasNoSecret(cl.l, random);
    KeyedHasSuite(cfg, cl.l.epochs[1].conn, random);
  }

  lemma EarlyHasNoSecret(l: Layer, random: bytes)
    ensures Early(l, random) ==> 1 in l.epochs && l.epochs[1].conn.masterSecret == None
  {
  }

  /** Once they are there the keys of a session stay, and nothing can taint it any more. */
  lemma {:induction false} KeysStay(cfg: Config, random: Value, suiteIds: seq<int>, inputs: seq<Input>, i: nat)
    requires cfg.library.HmacLaw() && i <= |inputs|
    requires var l := Run(cfg, Opened(cfg, random, suiteIds), inputs[..i]).cl.l;
             1 in l.epochs && l.epochs[1].conn.masterSecret.Some?
    ensures var s := Opened(cfg, random, suiteIds);
            var (l, m) := (Run(cfg, s, inputs[..i]).cl.l, Run(cfg, s, inputs).cl.l);
            && 1 in m.epochs && m.epochs[1].conn.masterSecret.Some?
            && l.epochs[1].conn.suite.Some? && m.epochs[1].conn.suite.Some?
            && DelegateOf(m.epochs[1].conn) == DelegateOf(l.epochs[1].conn)
            && (Tainted(cfg, s, inputs) <==> Tainted(cfg, s, inputs[..i]))
    decreases |inputs|
  {
    hide Opened, Step, EventsOf, InPhase, HasKeys, Live, Filter, ParseAll, K.Calm;
    var s, bytes := Opened(cfg, random, suiteIds), RandomBytes(ClientHello(random, suiteIds));
    if i == |inputs| {
      assert inputs[..i] == inputs;
      SessionPhase(cfg, random, suiteIds, inputs);
      KeyedPhase(cfg, Run(cfg, s, inputs).cl, bytes, Tainted(cfg, s, inputs));
    } else {
      var last := |inputs| - 1;
      assert inputs[..last][..i] == inputs[..i];
      KeysStay(cfg, random, suiteIds, inputs[..last], i);
      var mid := Run(cfg, s, inputs[..last]);
      SessionPhase(cfg, random, suiteIds, inputs[..last]);
      KeyedPhase(cfg, mid.cl, bytes, Tainted(cfg, s, inputs[..last]));
      InputIsRun(cfg, mid, inputs[last]);
      InputIsCalm(cfg, mid, inputs[last]);
      var cached := if Tainted(cfg, s, inputs[..last]) then Some(NULL_DELEGATE) else None;
      RunKeepsKeys(cfg, mid.cl, EventsOf(cfg, mid, inputs[last]), bytes, cached);
      HasKeysIsKeyed(cfg, Run(cfg, s, inputs).cl, bytes, cached);
    }
  }

  lemma HasKeysIsKeyed(cfg: Config, cl: Endpoint, random: bytes, cached: Option<Delegate>)
    requires cfg.library.HmacLaw() && HasKeys(cfg, cl, random, cached)
    ensures 1 in cl.l.epochs && cl.l.epochs[1].conn.masterSecret.Some? && cl.l.epochs[1].conn.suite.Some?
  {
    hide Table;
  }

  lemma KeylessDeciphers(conn: ConnState)
    ensures Keyless(conn) && conn.DecipherInUse().Some? ==> conn.DecipherInUse().value.keys == None
  {
  }

  lemma OpenedIsOpen(cfg: Config, random: Value, suiteIds: seq<int>)
    requires cfg.library.HmacLaw()
    ensures Open(cfg, Opened(cfg, random, suiteIds))
  {
  }

  lemma {:induction false} TaintedAt(cfg: Config, s: Session, inputs: seq<Input>, i: nat)
    requires Open(cfg, s) && i < |inputs|
    ensures Taints(Run(cfg, s, inputs[..i]), inputs[i]) || Tainted(cfg, s, inputs[..i]) ==> Tainted(cfg, s, inputs)
    decreases |inputs|
  {
    hide Taints, Step, Open;
    var last := |inputs| - 1;
    if i < last {
      assert inputs[..last][..i] == inputs[..i];
      TaintedAt(cfg, s, inputs[..last], i);
    }
  }

  /** Authenticity, record by record. In a session whose keys are computed by now, an application
      data record was deciphered with these keys if and only if it came in epoch 1 and no record of
      epoch 1 was admitted before the keys were computed. */
  lemma ArrivalIsAuthenticIff(cfg: Config, random: Value, suiteIds: seq<int>, inputs: seq<Input>, i: nat, a: Arrival)
    requires cfg.library.HmacLaw() && i < |inputs|
    requires var s := Opened(cfg, random, suiteIds); a in ArrivalsOf(cfg, Run(cfg, s, inputs[..i]), inputs[i])
    requires var l := Run(cfg, Opened(cfg, random, suiteIds), inputs).cl.l;
             1 in l.epochs && l.epochs[1].conn.masterSecret.Some?
    ensures var s := Opened(cfg, random, suiteIds);
            var conn := Run(cfg, s, inputs).cl.l.epochs[1].conn;
            && conn.suite.Some? && conn.keys.Some?
            && (a.through == Some(Delegate(conn.suite.value, conn.keys, Client))
                <==> a.record.epoch == 1 && !Tainted(cfg, s, inputs))
  {
    hide Opened, Run, Tainted, ArrivalsOf, Keyless, Filter, ParseAll, Open;
    var s := Opened(cfg, random, suiteIds);
    var mid := Run(cfg, s, inputs[..i]);
    OpenedIsOpen(cfg, random, suiteIds);
    SessionDelegates(cfg, random, suiteIds, inputs[..i]);
    SessionDelegates(cfg, random, suiteIds, inputs);
    var p := ArrivalIsDeciphered(cfg, mid, inputs[i], a);
    if mid.cl.l.epochs[1].conn.masterSecret.Some? {
      KeysStay(cfg, random, suiteIds, inputs, i);
    } else if a.record.epoch == 1 {
      var ps := Filter(mid.cl.l, ParseAll(inputs[i].buf, 0, inputs[i].g));
      var j :| 0 <= j < |ps| && ps[j] == p;
      TaintedAt(cfg, s, inputs, i);
    }
    KeylessDeciphers(mid.cl.l.epochs[a.record.epoch].conn);
  }

  lemma {:induction false} ArrivalAt(cfg: Config, s: Session, inputs: seq<Input>, a: Arrival) returns (i: nat)
    requires Open(cfg, s) && a in Arrivals(cfg, s, inputs)
    ensures i < |inputs| && a in ArrivalsOf(cfg, Run(cfg, s, inputs[..i]), inputs[i])
    decreases |inputs|
  {
    hide ArrivalsOf, Step, Open;
    i := |inputs| - 1;
    if a in Arrivals(cfg, s, inputs[..i]) {
      var last := i;
      i := ArrivalAt(cfg, s, inputs[..last], a);
      assert inputs[..last][..i] == inputs[..i];
    }
  }

  lemma FinishedHasKeys(cfg: Config, random: Value, suiteIds: seq<int>, inputs: seq<Input>)
    requires cfg.library.HmacLaw() && Run(cfg, Opened(cfg, random, suiteIds), inputs).finished
    ensures var l := Run(cfg, Opened(cfg, random, suiteIds), inputs).cl.l;
            1 in l.epochs && l.epochs[1].conn.masterSecret.Some?
  {
    hide Opened, Run, Tainted, InPhase, HasKeys, AllData;
    var s := Opened(cfg, random, suiteIds);
    SessionDelegates(cfg, random, suiteIds, inputs);
    SessionPhase(cfg, random, suiteIds, inputs);
    DataIsConserved(cfg, random, suiteIds, inputs);
    KeyedPhase(cfg, Run(cfg, s, inputs).cl, RandomBytes(ClientHello(random, suiteIds)), Tainted(cfg, s, inputs));
  }

  /** Authenticity of all the data a session hands to the application. Everything emitted was
      deciphered with the keys of the handshake if and only if no application data record was
      delivered in another epoch than 1 and, if there was any in epoch 1, no record of epoch 1 was
      admitted before the keys were computed. */
  lemma EmittedIsAuthenticIff(cfg: Config, random: Value, suiteIds: seq<int>, inputs: seq<Input>)
    requires cfg.library.HmacLaw() && Run(cfg, Opened(cfg, random, suiteIds), inputs).finished
    ensures var s := Opened(cfg, random, suiteIds);
            var r, arrivals := Run(cfg, s, inputs), Arrivals(cfg, s, inputs);
            && r.emitted == Payloads(arrivals)
            && 1 in r.cl.l.epochs
            && var conn := r.cl.l.epochs[1].conn;
            && conn.suite.Some? && conn.keys.Some?
            && ((forall a :: a in arrivals ==> a.through == Some(Delegate(conn.suite.value, conn.keys, Client)))
                <==> && (forall a :: a in arrivals ==> a.record.epoch == 1)
                     && (arrivals == [] || !Tainted(cfg, s, inputs)))
  {
    hide Opened, Run, Tainted, AllData, ArrivalsOf, Payloads, Keyless, Arrivals;
    var s := Opened(cfg, random, suiteIds);
    FinishedHasKeys(cfg, random, suiteIds, inputs);
    SessionDelegates(cfg, random, suiteIds, inputs);
    DataIsConserved(cfg, random, suiteIds, inputs);
    PayloadsAreData(cfg, s, inputs);
    var conn, arrivals := Run(cfg, s, inputs).cl.l.epochs[1].conn, Arrivals(cfg, s, inputs);
    forall a | a in arrivals
      ensures a.through == Some(Delegate(conn.suite.value, conn.keys, Client)) <==>
                a.record.epoch == 1 && !Tainted(cfg, s, inputs)
    {
      var i := ArrivalAt(cfg, s, inputs, a);
      ArrivalIsAuthenticIff(cfg, random, suiteIds, inputs, i, a);
    }
    assert arrivals != [] ==> arrivals[0] in arrivals;
  }

  lemma {:induction false} ArrivalsPrefix(cfg: Config, s: Session, a: seq<Input>, b: seq<Input>)
    requires Open(cfg, s)
    ensures Arrivals(cfg, s, a) <= Arrivals(cfg, s, a + b)
    ensures Tainted(cfg, s, a) ==> Tainted(cfg, s, a + b)
  {
    hide ArrivalsOf, Step, Open, Taints;
    if b == [] {
      assert a + b == a;
    } else {
      assert (a + b)[..|a + b| - 1] == a + b[..|b| - 1];
      ArrivalsPrefix(cfg, s, a, b[..|b| - 1]);
    }
  }

  /** Data in the clear is handed to the application like any other: if it comes right after the
      start, in epoch 0 or epoch 1, it is the first data that a session emits when it succeeds,
      although nothing protected it. In epoch 1 it also taints the session. */
  lemma ClearDataIsEmitted(cfg: Config, random: Value, suiteIds: seq<int>, e: nat, q: nat, data: bytes, g: Garbage,
                           gs: nat -> Garbage, rest: seq<Input>)
    requires cfg.library.HmacLaw() && e < 2 && q < 2 * WIDTH && |data| <= MAX_FRAGMENT
    requires Run(cfg, Opened(cfg, random, suiteIds), [Datagram(Print(PlainRecord(e, q, data)), g, gs)] + rest).finished
    ensures var s, inputs := Opened(cfg, random, suiteIds), [Datagram(Print(PlainRecord(e, q, data)), g, gs)] + rest;
            && var (r, arrivals) := (Run(cfg, s, inputs), Arrivals(cfg, s, inputs));
            && r.emitted == Payloads(arrivals)
            && arrivals != [] && arrivals[0] == Arrival(PlainRecord(e, q, data), Some(NULL_DELEGATE))
            && r.emitted != [] && r.emitted[0] == data
            && (e == 1 ==> Tainted(cfg, s, inputs))
  {
    hide Opened, Run, AllData, Keyless, Taints, Print;
    var s, first := Opened(cfg, random, suiteIds), Datagram(Print(PlainRecord(e, q, data)), g, gs);
    OpenedIsOpen(cfg, random, suiteIds);
    FirstArrival(cfg, random, suiteIds, e, q, data, g, gs);
    ArrivalsPrefix(cfg, s, [first], rest);
    DataIsConserved(cfg, random, suiteIds, [first] + rest);
    PayloadsAreData(cfg, s, [first] + rest);
  }

  lemma FirstArrival(cfg: Config, random: Value, suiteIds: seq<int>, e: nat, q: nat, data: bytes, g: Garbage,
                     gs: nat -> Garbage)
    requires cfg.library.HmacLaw() && e < 2 && q < 2 * WIDTH && |data| <= MAX_FRAGMENT
    ensures var s, first := Opened(cfg, random, suiteIds), Datagram(Print(PlainRecord(e, q, data)), g, gs);
            && Arrivals(cfg, s, [first]) == [Arrival(PlainRecord(e, q, data), Some(NULL_DELEGATE))]
            && (e == 1 ==> Tainted(cfg, s, [first]))
  {
    hide Opened, Receive, Print, Table, Reached, Taints, PlainRecord, ArrivalsOf, Step;
    var s, first := Opened(cfg, random, suiteIds), Datagram(Print(PlainRecord(e, q, data)), g, gs);
    PlainDataIsKept(cfg, random, suiteIds, e, q, data, g, gs);
    FirstOf(cfg, random, suiteIds, e, q, data, g, gs);
    assert [first][..0] == [];
    assert [] + ArrivalsOf(cfg, s, first) == ArrivalsOf(cfg, s, first);
  }

  lemma FirstOf(cfg: Config, random: Value, suiteIds: seq<int>, e: nat, q: nat, data: bytes, g: Garbage,
                gs: nat -> Garbage)
    requires cfg.library.HmacLaw() && e < 2 && q < 2 * WIDTH && |data| <= MAX_FRAGMENT
    ensures var s, first := Opened(cfg, random, suiteIds), Datagram(Print(PlainRecord(e, q, data)), g, gs);
            ArrivalsOf(cfg, s, first) == [Arrival(PlainRecord(e, q, data), Some(NULL_DELEGATE))]
  {
    hide Opened, Receive, Print, Table, Reached, Taints, PlainRecord, ArrivalsIn, Step;
    var s, first, p := Opened(cfg, random, suiteIds), Datagram(Print(PlainRecord(e, q, data)), g, gs),
      PlainRecord(e, q, data);
    PlainDataIsKept(cfg, random, suiteIds, e, q, data, g, gs);
    OpenedLayer(cfg, random, suiteIds);
    R.StepKeepsTable(cfg.library, s.cl.l, R.Recv(g, first.buf));
    var received := s.(cl := s.cl.(l := Receive(cfg.library, g, s.cl.l, first.buf).0));
    OneArrivalIn(s.cl.l, p, e, q, data);
    OneRecordIsReached(cfg, received, p, data, gs);
    assert [p][..1] == [p];
  }

  lemma OneRecordIsReached(cfg: Config, s: Session, p: Packet, data: bytes, gs: nat -> Garbage)
    requires Open(cfg, s) && !s.finished && MessageOf(p) == Message(APPLICATION_DATA, data)
    ensures Reached(cfg, s, Messages([p]), gs, 0) == 1
  {
    hide Open, OnMessages, Reached;
    LoopReaches(cfg, s, Messages([p]), gs, 0);
    assert Through(cfg, s, Messages([p]), gs, 0) == s;
    assert Messages([p]) == [Message(APPLICATION_DATA, data)];
    OneDatum(cfg, s, data, gs);
  }

  lemma OneArrivalIn(l: Layer, p: Packet, e: nat, q: nat, data: bytes)
    requires p == PlainRecord(e, q, data) && e in l.epochs && l.epochs[e].conn.DecipherInUse() == Some(NULL_DELEGATE)
    ensures ArrivalsIn(l, [p]) == [Arrival(p, Some(NULL_DELEGATE))] && MessageOf(p) == Message(APPLICATION_DATA, data)
  {
    assert [p][..0] == [] && ArrivalsIn(l, []) == [];
    assert [] + [Arrival(p, Some(NULL_DELEGATE))] == [Arrival(p, Some(NULL_DELEGATE))];
  }
}
