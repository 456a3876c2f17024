/** The record layer of a whole session. */
module SessionLayers {
  import opened Bytes
  import opened Codec
  import opened Crypto
  import opened Packets
  import opened Protection
  import opened AntiReplay
  import opened AntiReplayProofs
  import opened Records
  import opened Handshakes
  import opened Handlers
  import opened LayerRuns
  import opened Sessions
  import opened SessionProofs
  import W = WriteOrder
  import K = KeyAgreement
  import H = HandlerProofs
  import R = RecordProofs

  // ---- events and operations ----

  /** A handler event behind the reception of a datagram. */
  predicate Behind(ev: H.Event) {
    ev.OnLayer? ==> ev.op.ReadAdvance?
  }

  predicate AllBehind(evs: seq<H.Event>) {
    forall i :: 0 <= i < |evs| ==> Behind(evs[i])
  }

  /** Nothing is left in the queue, and the write epoch can protect a record: it is plain, or its
      cipher has keys. */
  ghost predicate Able(cl: Endpoint) {
    && cl.h.outgoing == [] && cl.l.write in cl.l.epochs
    && var conn := cl.l.epochs[cl.l.write].conn;
    && conn.suite.Some?
    && (conn.suite.value.kind.NullCipher? || (conn.CipherInUse().Some? && conn.CipherInUse().value.keys.Some?))
  }

  /** At the beginning and after each of the events. */
  ghost predicate AlwaysAble(cfg: Config, cl: Endpoint, evs: seq<H.Event>)
    requires Live(cl) && cfg.library.HmacLaw()
  {
    Able(H.Run(cfg, cl, evs)) && (evs == [] || AlwaysAble(cfg, cl, evs[..|evs| - 1]))
  }

  lemma {:induction false} AlwaysAbleConcat(cfg: Config, cl: Endpoint, a: seq<H.Event>, b: seq<H.Event>)
    requires Live(cl) && cfg.library.HmacLaw()
    ensures AlwaysAble(cfg, cl, a + b) ==> AlwaysAble(cfg, cl, a) && AlwaysAble(cfg, H.Run(cfg, cl, a), b)
  {
    hide H.Run, Live, Able;
    NoEvents(cfg, H.Run(cfg, cl, a));
    if b == [] {
      assert a + b == a;
    } else {
      assert (a + b)[..|a + b| - 1] == a + b[..|b| - 1];
      HandlerRunConcat(cfg, cl, a, b);
      AlwaysAbleConcat(cfg, cl, a, b[..|b| - 1]);
    }
  }

  lemma AbleNow(cfg: Config, cl: Endpoint)
    requires Live(cl) && cfg.library.HmacLaw()
    ensures AlwaysAble(cfg, cl, []) <==> Able(cl)
  {
    hide Able, Live;
    NoEvents(cfg, cl);
  }

  /** A client that is able to can protect any message. */
  lemma AbleProtects(c: Library, rnd: Entropy, cl: Endpoint, msg: Message)
    requires Able(cl)
    ensures Protected(c, rnd, cl.l, msg).Some?
  {
    hide Encrypt;
    var conn := cl.l.epochs[cl.l.write].conn;
    if !conn.suite.value.kind.NullCipher? {
      var d, p := conn.CipherInUse().value, Plain(cl.l, msg);
      K.EncryptsWithKeys(c, d, p, Draw(rnd, p.epoch, p.seqNum, RecordIvLength(d.suite)));
    }
  }

  lemma OneEventRunsLayer(cfg: Config, cl: Endpoint, ev: H.Event) returns (ops: seq<R.Op>)
    requires Live(cl) && cfg.library.HmacLaw() && Behind(ev)
    ensures AllLocal(ops) && Leads(cfg.library, cl.l, ops, H.Step(cfg, cl, ev).l)
    ensures Able(H.Step(cfg, cl, ev)) ==> Flawless(cfg.library, cl.l, ops)
  {
    hide Table, ProcessIncoming, R.Step, Leads, Flawless;
    if ev.Incoming? {
      ops := ProcessingRuns(cfg, cl, ev.f, ev.g);
    } else {
      LeadsByOne(cfg.library, cl.l, ev.op);
      ops := [ev.op];
    }
  }

  lemma {:induction false} EventsRunLayer(cfg: Config, cl: Endpoint, evs: seq<H.Event>) returns (ops: seq<R.Op>)
    requires Live(cl) && cfg.library.HmacLaw() && AllBehind(evs)
    ensures AllLocal(ops) && Leads(cfg.library, cl.l, ops, H.Run(cfg, cl, evs).l)
    ensures AlwaysAble(cfg, cl, evs) ==> Flawless(cfg.library, cl.l, ops)
    decreases |evs|
  {
    hide Table, H.Step, Leads, Flawless, Able;
    if evs == [] {
      ops := [];
      LeadsNowhere(cfg.library, cl.l);
    } else {
      var last := |evs| - 1;
      var before := H.Run(cfg, cl, evs[..last]);
      ops := EventsRunLayer(cfg, cl, evs[..last]);
      var step := OneEventRunsLayer(cfg, before, evs[last]);
      LeadsOn(cfg.library, cl.l, ops, before.l, step, H.Step(cfg, before, evs[last]).l);
      ops := ops + step;
    }
  }

  lemma {:induction false} MessagesAreBehind(msgs: seq<Message>, gs: nat -> Garbage, i: nat, n: nat)
    requires n <= |msgs|
    ensures AllBehind(EventsOfMessages(msgs, gs, i, n))
    decreases n - i
  {
    hide ParseFragment;
    if i < n {
      MessagesAreBehind(msgs, gs, i + 1, n);
    }
  }

  lemma RestIsBehind(cfg: Config, s: Session, input: Input)
    requires Open(cfg, s) && input.Datagram?
    ensures EventsOf(cfg, s, input) != [] && AllBehind(EventsOf(cfg, s, input)[1..])
  {
    hide Table, Receive, OnMessages, EventsOfMessages;
    R.StepKeepsTable(cfg.library, s.cl.l, R.Recv(input.g, input.buf));
    var (l, records) := Receive(cfg.library, input.g, s.cl.l, input.buf);
    var msgs := Messages(records);
    MessagesAreBehind(msgs, input.gs, 0, OnMessages(cfg, s.(cl := s.cl.(l := l)), msgs, input.gs, 0).1);
  }

  /** The reception of an input, if it is a datagram. */
  function Reception(input: Input): seq<R.Op> {
    if input.Datagram? then [R.Recv(input.g, input.buf)] else []
  }

  lemma DatagramRunsLayer(cfg: Config, s: Session, input: Input) returns (ops: seq<R.Op>)
    requires Open(cfg, s) && input.Datagram?
    ensures AllLocal(ops) && Leads(cfg.library, s.cl.l, Reception(input) + ops, Step(cfg, s, input).cl.l)
    ensures AlwaysAble(cfg, s.cl, EventsOf(cfg, s, input)) ==> Flawless(cfg.library, s.cl.l, Reception(input) + ops)
  {
    hide Table, H.Run, EventsOfMessages, OnMessages, R.Step, Receive, Leads, Flawless, Able;
    var op := R.Recv(input.g, input.buf);
    var ev, evs := H.OnLayer(op), EventsOf(cfg, s, input);
    InputIsRun(cfg, s, input);
    H.StepKeepsLive(cfg, s.cl, ev);
    HandlerRunOne(cfg, s.cl, ev);
    assert evs == [ev] + evs[1..];
    HandlerRunConcat(cfg, s.cl, [ev], evs[1..]);
    AlwaysAbleConcat(cfg, s.cl, [ev], evs[1..]);
    RestIsBehind(cfg, s, input);
    ops := EventsRunLayer(cfg, H.Step(cfg, s.cl, ev), evs[1..]);
    LeadsByOne(cfg.library, s.cl.l, op);
    LeadsOn(cfg.library, s.cl.l, [op], R.Step(cfg.library, s.cl.l, op), ops, Step(cfg, s, input).cl.l);
  }

  lemma DataIsAble(cfg: Config, s: Session, input: Input)
    requires Open(cfg, s) && input.Data?
    ensures AlwaysAble(cfg, s.cl, EventsOf(cfg, s, input)) ==>
              Able(s.cl) && Protected(cfg.library, cfg.entropy, s.cl.l, Message(APPLICATION_DATA, input.data)).Some?
  {
    hide Able, Live, EventsOf;
    var evs := EventsOf(cfg, s, input);
    assert [] + evs == evs;
    AlwaysAbleConcat(cfg, s.cl, [], evs);
    AbleNow(cfg, s.cl);
    if Able(s.cl) {
      AbleProtects(cfg.library, cfg.entropy, s.cl, Message(APPLICATION_DATA, input.data));
    }
  }

  lemma DataRunsLayer(cfg: Config, s: Session, input: Input) returns (ops: seq<R.Op>)
    requires Open(cfg, s) && input.Data?
    ensures AllLocal(ops) && Leads(cfg.library, s.cl.l, Reception(input) + ops, Step(cfg, s, input).cl.l)
    ensures AlwaysAble(cfg, s.cl, EventsOf(cfg, s, input)) ==> Flawless(cfg.library, s.cl.l, Reception(input) + ops)
  {
    hide Table, Outgoing, Flawless, Protected, AlwaysAble;
    var c, l, msg := cfg.library, s.cl.l, Message(APPLICATION_DATA, input.data);
    ops := [];
    LeadsNowhere(c, l);
    if s.finished {
      DataIsAble(cfg, s, input);
      ops := [R.Send(cfg.entropy, msg)];
      SendsOneMore(c, cfg.entropy, l, [], msg);
      OutgoingIsProtected(c, cfg.entropy, l, msg);
      assert [] + ops == ops && R.Run(c, l, []) == l && Pending(c, l, []) == [];
      var buf := Outgoing(c, cfg.entropy, l, msg).1;
      if buf.Some? {
        assert [] + buf.value == buf.value;
        ops := Transmitted(c, l, ops);
      }
    }
    assert [] + ops == ops;
  }

  /** An input leads to the next layer by its reception and by operations that receive nothing. If
      the client is always able to protect what it sends, no record fails. */
  lemma InputRunsLayer(cfg: Config, s: Session, input: Input) returns (ops: seq<R.Op>)
    requires Open(cfg, s)
    ensures AllLocal(ops) && Leads(cfg.library, s.cl.l, Reception(input) + ops, Step(cfg, s, input).cl.l)
    ensures AlwaysAble(cfg, s.cl, EventsOf(cfg, s, input)) ==> Flawless(cfg.library, s.cl.l, Reception(input) + ops)
  {
    hide Step, Leads, Open, AlwaysAble, Flawless;
    if input.Datagram? {
      ops := DatagramRunsLayer(cfg, s, input);
    } else {
      ops := DataRunsLayer(cfg, s, input);
    }
  }

  // ---- the operations of a session ----

  /** The records that an input delivers. */
  function RecordsFrom(cfg: Config, s: Session, input: Input): seq<Packet>
    requires Open(cfg, s)
  {
    if input.Datagram? then Receive(cfg.library, input.g, s.cl.l, input.buf).1 else []
  }

  /** The records that a session delivers, in order. */
  ghost function AllRecords(cfg: Config, s: Session, inputs: seq<Input>): seq<Packet>
    requires Open(cfg, s)
  {
    if inputs == [] then []
    else AllRecords(cfg, s, inputs[..|inputs| - 1])
         + RecordsFrom(cfg, Run(cfg, s, inputs[..|inputs| - 1]), inputs[|inputs| - 1])
  }

  /** The operations among some that receive, and the datagrams among some inputs as such. */
  function Receptions(ops: seq<R.Op>): seq<R.Op> {
    if ops == [] then [] else Receptions(ops[..|ops| - 1]) + if ops[|ops| - 1].Recv? then [ops[|ops| - 1]] else []
  }

  function Datagrams(inputs: seq<Input>): seq<R.Op> {
    if inputs == [] then [] else Datagrams(inputs[..|inputs| - 1]) + Reception(inputs[|inputs| - 1])
  }

  lemma {:induction false} NothingReceived(c: Library, ops: seq<R.Op>, more: seq<R.Op>, e: nat)
    requires AllLocal(more)
    ensures Receptions(ops + more) == Receptions(ops) && R.History(c, ops + more, e) == R.History(c, ops, e)
    decreases |more|
  {
    hide R.Run;
    if more == [] {
      assert ops + more == ops;
    } else {
      var last := |more| - 1;
      assert (ops + more)[..|ops + more| - 1] == ops + more[..last];
      NothingReceived(c, ops, more[..last], e);
    }
  }

  lemma OneReceived(c: Library, ops: seq<R.Op>, g: Garbage, buf: bytes, e: nat)
    ensures Table(FRESH_LAYER)
    ensures var all, l := ops + [R.Recv(g, buf)], R.Run(c, FRESH_LAYER, ops);
            && Receptions(all) == Receptions(ops) + [R.Recv(g, buf)]
            && R.History(c, all, e) == R.History(c, ops, e) + R.NumbersOf(e, Receive(c, g, l, buf).1)
  {
    hide R.Run, Receive;
    FreshLayerTable();
    assert (ops + [R.Recv(g, buf)])[..|ops|] == ops;
  }

  /** The operations are those of the session: they lead to its layer, sending in whole datagrams,
      they receive exactly its datagrams in order, they deliver exactly the records that it
      delivers, and none of them fails as long as the client is able to protect what it sends. */
  ghost predicate Traces(cfg: Config, s: Session, inputs: seq<Input>, ops: seq<R.Op>)
    requires Open(cfg, s)
  {
    && Leads(cfg.library, FRESH_LAYER, ops, Run(cfg, s, inputs).cl.l)
    && Receptions(ops) == Datagrams(inputs)
    && (AlwaysAble(cfg, s.cl, Events(cfg, s, inputs)) ==> Flawless(cfg.library, FRESH_LAYER, ops))
    && forall e: nat :: R.History(cfg.library, ops, e) == R.NumbersOf(e, AllRecords(cfg, s, inputs))
  }

  lemma LeadsFrom(c: Library, ops: seq<R.Op>, m: Layer)
    requires Leads(c, FRESH_LAYER, ops, m)
    ensures Table(FRESH_LAYER) && m == R.Run(c, FRESH_LAYER, ops)
  {
  }

  lemma OpenIsLive(cfg: Config, s: Session)
    requires Open(cfg, s)
    ensures Live(s.cl) && cfg.library.HmacLaw()
  {
  }

  lemma OneMoreInput(cfg: Config, s: Session, inputs: seq<Input>, input: Input, ops: seq<R.Op>) returns (all: seq<R.Op>)
    requires Open(cfg, s) && Traces(cfg, s, inputs, ops)
    ensures Traces(cfg, s, inputs + [input], all)
  {
    hide R.Run, Step, Receive, R.History, R.Step, Open, Bundled, EventsOf, AlwaysAble, Flawless, Leads;
    assert (inputs + [input])[..|inputs|] == inputs;
    var at, c := Run(cfg, s, inputs), cfg.library;
    var first := Reception(input);
    var more := InputRunsLayer(cfg, at, input);
    LeadsOn(c, FRESH_LAYER, ops, at.cl.l, first + more, Step(cfg, at, input).cl.l);
    all := ops + first + more;
    assert all == ops + (first + more);
    OpenIsLive(cfg, s);
    SessionIsRun(cfg, s, inputs);
    AlwaysAbleConcat(cfg, s.cl, Events(cfg, s, inputs), EventsOf(cfg, at, input));
    LeadsFrom(c, ops, at.cl.l);
    HistoryOfInput(cfg, at, input, ops, 0);
    NothingReceived(c, ops + first, more, 0);
    forall e: nat
      ensures R.History(c, all, e) == R.NumbersOf(e, AllRecords(cfg, s, inputs + [input]))
    {
      HistoryOfInput(cfg, at, input, ops, e);
      NothingReceived(c, ops + first, more, e);
      R.NumbersOfConcat(e, AllRecords(cfg, s, inputs), RecordsFrom(cfg, at, input));
    }
  }

  lemma HistoryOfInput(cfg: Config, s: Session, input: Input, ops: seq<R.Op>, e: nat)
    requires Open(cfg, s) && Table(FRESH_LAYER) && s.cl.l == R.Run(cfg.library, FRESH_LAYER, ops)
    ensures Receptions(ops + Reception(input)) == Receptions(ops) + Reception(input)
    ensures R.History(cfg.library, ops + Reception(input), e)
            == R.History(cfg.library, ops, e) + R.NumbersOf(e, RecordsFrom(cfg, s, input))
  {
    hide R.Run, Receive, R.History;
    if input.Datagram? {
      OneReceived(cfg.library, ops, input.g, input.buf, e);
    } else {
      assert ops + [] == ops;
    }
  }

  lemma {:induction false} SessionIsTraced(cfg: Config, s: Session, inputs: seq<Input>, start: seq<R.Op>)
    returns (ops: seq<R.Op>)
    requires Open(cfg, s) && Traces(cfg, s, [], start)
    ensures Traces(cfg, s, inputs, ops)
  {
    hide Traces, Open;
    if inputs == [] {
      ops := start;
    } else {
      var last := |inputs| - 1;
      var before := SessionIsTraced(cfg, s, inputs[..last], start);
      ops := OneMoreInput(cfg, s, inputs[..last], inputs[last], before);
      assert inputs[..last] + [inputs[last]] == inputs;
    }
  }

  lemma StartIsTraced(cfg: Config, random: Value, suiteIds: seq<int>) returns (ops: seq<R.Op>)
    requires cfg.library.HmacLaw()
    ensures Traces(cfg, Opened(cfg, random, suiteIds), [], ops)
  {
    hide Start, R.Run, Table;
    ops := StartRuns(cfg, random, suiteIds);
    assert [] + ops == ops;
    forall e: nat
      ensures R.History(cfg.library, ops, e) == []
    {
      NothingReceived(cfg.library, [], ops, e);
    }
    NothingReceived(cfg.library, [], ops, 0);
  }

  /** The record layer of every session. It is the outcome of a run of record layer operations
      from the fresh layer that receives exactly the datagrams of the session, in order, and puts
      exactly the records it sends into the datagrams of the session. Its
      epochs are 0 up to one past the later current one, the numbers taken are in order and agree
      with its counters, and every window is the fresh one marked with exactly the numbers of the
      records that the session delivered, in order. */
  lemma SessionRunsLayer(cfg: Config, random: Value, suiteIds: seq<int>, inputs: seq<Input>) returns (ops: seq<R.Op>)
    requires cfg.library.HmacLaw()
    ensures var s := Opened(cfg, random, suiteIds);
            var l := Run(cfg, s, inputs).cl.l;
            && Traces(cfg, s, inputs, ops)
            && |l.epochs| == Max(l.read, l.write) + 2
            && W.Ordered(W.Taken(cfg.library, ops)) && W.Agrees(l, W.Taken(cfg.library, ops))
            && forall e: nat :: e in l.epochs ==>
                 l.epochs[e].window == Marks(FRESH, R.NumbersOf(e, AllRecords(cfg, s, inputs)))
  {
    hide R.Run, R.History, Table, W.Ordered, W.Agrees, W.Taken, Opened, Run, Receptions, Datagrams;
    var s := Opened(cfg, random, suiteIds);
    var start := StartIsTraced(cfg, random, suiteIds);
    ops := SessionIsTraced(cfg, s, inputs, start);
    R.EpochTable(cfg.library, ops, 0);
    W.Invariant(cfg.library, ops);
    var l := R.Run(cfg.library, FRESH_LAYER, ops);
    forall e: nat | e in l.epochs
      ensures l.epochs[e].window == Marks(FRESH, R.NumbersOf(e, AllRecords(cfg, s, inputs)))
    {
      R.WindowIsHistory(cfg.library, ops, e);
    }
  }

  // ---- no record is delivered by two datagrams ----

  lemma {:induction false} GoneStays(c: Library, l: Layer, ops: seq<R.Op>, e: int, q: int)
    requires Table(l) && R.Gone(l, e, q)
    ensures R.Gone(R.Run(c, l, ops), e, q)
  {
    hide Table, R.Gone, R.Step, R.Delivered;
    if ops != [] {
      var last := |ops| - 1;
      GoneStays(c, l, ops[..last], e, q);
      R.StepKeepsTable(c, R.Run(c, l, ops[..last]), ops[last]);
      R.StepSpends(c, R.Run(c, l, ops[..last]), ops[last], e, q);
    }
  }

  lemma InputSpends(cfg: Config, s: Session, input: Input, e: int, q: int)
    requires Open(cfg, s)
    requires R.Gone(s.cl.l, e, q) || exists p :: p in RecordsFrom(cfg, s, input) && p.epoch == e && p.seqNum == q
    ensures R.Gone(Step(cfg, s, input).cl.l, e, q)
  {
    hide Table, R.Gone, R.Step, Step, Receive, R.Run, Bundled;
    var c := cfg.library;
    var ops := InputRunsLayer(cfg, s, input);
    if input.Datagram? {
      var op := R.Recv(input.g, input.buf);
      R.StepKeepsTable(c, s.cl.l, op);
      R.StepSpends(c, s.cl.l, op, e, q);
      RunConcat(c, s.cl.l, [op], ops);
      LeadsByOne(c, s.cl.l, op);
      GoneStays(c, R.Step(c, s.cl.l, op), ops, e, q);
    } else {
      assert [] + ops == ops;
      GoneStays(c, s.cl.l, ops, e, q);
    }
  }

  lemma {:induction false} SessionSpends(cfg: Config, s: Session, inputs: seq<Input>, i: nat, p: Packet)
    requires Open(cfg, s) && i < |inputs| && p in RecordsFrom(cfg, Run(cfg, s, inputs[..i]), inputs[i])
    ensures R.Gone(Run(cfg, s, inputs).cl.l, p.epoch, p.seqNum)
    decreases |inputs|
  {
    hide R.Gone, Step, RecordsFrom, Open;
    var last := |inputs| - 1;
    if i < last {
      assert inputs[..last][..i] == inputs[..i];
      SessionSpends(cfg, s, inputs[..last], i, p);
    }
    InputSpends(cfg, Run(cfg, s, inputs[..last]), inputs[last], p.epoch, p.seqNum);
  }

  /** In every session, with all that the handshake and the user do in between, no record is
      delivered by two datagrams (section 4.1.2.6 of RFC 6347). */
  lemma DeliveredByOneDatagram(cfg: Config, random: Value, suiteIds: seq<int>, inputs: seq<Input>,
                               i: nat, j: nat, p: Packet, q: Packet)
    requires cfg.library.HmacLaw() && i < j < |inputs|
    requires p in RecordsFrom(cfg, Run(cfg, Opened(cfg, random, suiteIds), inputs[..i]), inputs[i])
    requires q in RecordsFrom(cfg, Run(cfg, Opened(cfg, random, suiteIds), inputs[..j]), inputs[j])
    ensures (p.epoch, p.seqNum) != (q.epoch, q.seqNum)
  {
    hide Receive, Table, Spent, Run, Opened;
    var s := Opened(cfg, random, suiteIds);
    assert inputs[..j][..i] == inputs[..i];
    SessionSpends(cfg, s, inputs[..j], i, p);
    var l := Run(cfg, s, inputs[..j]).cl.l;
    R.ReceiveDelivers(cfg.library, inputs[j].g, l, inputs[j].buf);
    if p.epoch == q.epoch && p.seqNum == q.seqNum {
      SpentIsRefused(l.epochs[q.epoch].window, q.seqNum);
    }
  }
}
