/** Whatever the handshake does to its record layer is a run of record layer operations. */
module LayerRuns {
  import opened Bytes
  import opened Codec
  import opened Crypto
  import opened Packets
  import opened ConnectionStates
  import opened Records
  import opened RecordProofs
  import opened Fragments
  import opened Handshakes
  import opened Handlers
  import H = HandlerProofs

  // ---- runs that send whole datagrams ----

  /** The operations that the handshake itself uses, and following the peer's epoch. */
  predicate Local(op: Op) {
    op.Send? || op.Configure? || op.Transmit? || op.ReadAdvance?
  }

  predicate AllLocal(ops: seq<Op>) {
    forall i :: 0 <= i < |ops| ==> Local(ops[i])
  }

  predicate AllSend(ops: seq<Op>) {
    forall i :: 0 <= i < |ops| ==> ops[i].Send?
  }

  /** The records printed since a datagram was last handed to the socket or a record failed. */
  ghost function Pending(c: Library, l: Layer, ops: seq<Op>): bytes
    requires Table(l)
  {
    if ops == [] then []
    else
      var before, op := ops[..|ops| - 1], ops[|ops| - 1];
      if op.Transmit? then []
      else if op.Send? then
        CurrentEpochsExist(Run(c, l, before));
        var record := Outgoing(c, op.rnd, Run(c, l, before), op.msg).1;
        if record.None? then [] else Pending(c, l, before) + record.value
      else Pending(c, l, before)
  }

  /** Every datagram handed to the socket holds exactly the records sent since the last one, and
      no record is left over. */
  ghost predicate Bundled(c: Library, l: Layer, ops: seq<Op>)
    requires Table(l)
  {
    && (forall i :: 0 <= i < |ops| && ops[i].Transmit? ==> ops[i].datagram == Pending(c, l, ops[..i]))
    && Pending(c, l, ops) == []
  }

  /** No record fails: the suite and the cipher throw for none of them. */
  ghost predicate Flawless(c: Library, l: Layer, ops: seq<Op>)
    requires Table(l)
  {
    ops == [] ||
    var before, op := ops[..|ops| - 1], ops[|ops| - 1];
    CurrentEpochsExist(Run(c, l, before));
    Flawless(c, l, before) && (op.Send? ==> Protected(c, op.rnd, Run(c, l, before), op.msg).Some?)
  }

  /** The operations lead from `l` to `m` in whole datagrams. */
  ghost predicate Leads(c: Library, l: Layer, ops: seq<Op>, m: Layer) {
    Table(l) && Bundled(c, l, ops) && m == Run(c, l, ops)
  }

  lemma {:induction false} RunConcat(c: Library, l: Layer, a: seq<Op>, b: seq<Op>)
    requires Table(l)
    ensures Run(c, l, a + b) == Run(c, Run(c, l, a), b)
  {
    hide Step;
    if b == [] {
      assert a + b == a;
    } else {
      assert (a + b)[..|a + b| - 1] == a + b[..|b| - 1];
      RunConcat(c, l, a, b[..|b| - 1]);
    }
  }

  lemma RunOneMore(c: Library, l: Layer, ops: seq<Op>, op: Op)
    requires Table(l)
    ensures Run(c, l, ops + [op]) == Step(c, Run(c, l, ops), op)
  {
    hide Step;
    assert (ops + [op])[..|ops|] == ops;
  }

  /** After whole datagrams further operations have only their own records pending. */
  lemma {:induction false} PendingConcat(c: Library, l: Layer, a: seq<Op>, b: seq<Op>)
    requires Table(l) && Pending(c, l, a) == []
    ensures Pending(c, l, a + b) == Pending(c, Run(c, l, a), b)
  {
    hide Run, Outgoing, Table;
    if b == [] {
      assert a + b == a;
    } else {
      assert (a + b)[..|a + b| - 1] == a + b[..|b| - 1];
      RunConcat(c, l, a, b[..|b| - 1]);
      PendingConcat(c, l, a, b[..|b| - 1]);
    }
  }

  lemma {:induction false} FlawlessConcat(c: Library, l: Layer, a: seq<Op>, b: seq<Op>)
    requires Table(l)
    ensures Flawless(c, l, a + b) <==> Flawless(c, l, a) && Flawless(c, Run(c, l, a), b)
  {
    hide Run, Protected, Table;
    if b == [] {
      assert a + b == a;
    } else {
      assert (a + b)[..|a + b| - 1] == a + b[..|b| - 1];
      RunConcat(c, l, a, b[..|b| - 1]);
      FlawlessConcat(c, l, a, b[..|b| - 1]);
    }
  }

  lemma LeadsOn(c: Library, l: Layer, a: seq<Op>, m: Layer, b: seq<Op>, n: Layer)
    requires Leads(c, l, a, m) && Leads(c, m, b, n)
    ensures Leads(c, l, a + b, n)
    ensures Flawless(c, l, a + b) <==> Flawless(c, l, a) && Flawless(c, m, b)
  {
    hide Run, Pending, Table, Flawless;
    RunConcat(c, l, a, b);
    FlawlessConcat(c, l, a, b);
    PendingConcat(c, l, a, b);
    forall i | 0 <= i < |a + b| && (a + b)[i].Transmit?
      ensures (a + b)[i].datagram == Pending(c, l, (a + b)[..i])
    {
      if i < |a| {
        assert (a + b)[..i] == a[..i];
      } else {
        assert (a + b)[..i] == a + b[..i - |a|];
        PendingConcat(c, l, a, b[..i - |a|]);
      }
    }
  }

  lemma LeadsNowhere(c: Library, l: Layer)
    requires Table(l)
    ensures Leads(c, l, [], l) && Flawless(c, l, [])
  {
  }

  lemma LeadsByOne(c: Library, l: Layer, op: Op)
    requires Table(l) && !op.Send? && !op.Transmit?
    ensures Leads(c, l, [op], Step(c, l, op)) && Flawless(c, l, [op])
  {
    hide Step, Table;
    RunOneMore(c, l, [], op);
    assert [] + [op] == [op] && [op][..0] == [] && Run(c, l, []) == l;
    assert Pending(c, l, [op]) == Pending(c, l, []) == [];
  }

  // ---- what the handshake does ----

  lemma OutgoingIsProtected(c: Library, rnd: Entropy, l: Layer, msg: Message)
    requires l.write in l.epochs
    ensures var packet, buf := Protected(c, rnd, l, msg), Outgoing(c, rnd, l, msg).1;
            buf == if packet.Some? then Some(Print(packet.value)) else None
  {
    hide Protected, Print;
  }

  lemma SendsOneMore(c: Library, rnd: Entropy, l: Layer, ops: seq<Op>, msg: Message)
    requires Table(l)
    ensures var now := Run(c, l, ops);
            && now.write in now.epochs
            && var (next, record) := Outgoing(c, rnd, now, msg);
            && Table(next) && Run(c, l, ops + [Send(rnd, msg)]) == next
            && Pending(c, l, ops + [Send(rnd, msg)]) == (if record.None? then [] else Pending(c, l, ops) + record.value)
            && (Flawless(c, l, ops + [Send(rnd, msg)]) <==> Flawless(c, l, ops) && record.Some?)
  {
    hide Outgoing, Table, Run, Protected, Print;
    CurrentEpochsExist(Run(c, l, ops));
    OutgoingIsProtected(c, rnd, Run(c, l, ops), msg);
    OutgoingKeepsTable(c, rnd, Run(c, l, ops), msg);
    RunOneMore(c, l, ops, Send(rnd, msg));
    assert (ops + [Send(rnd, msg)])[..|ops|] == ops;
  }

  /** Sending a flight prints its records one after the other, until one fails. */
  lemma {:induction false} SendingRuns(c: Library, rnd: Entropy, l: Layer, msgs: seq<Message>, done: seq<Op>)
    returns (ops: seq<Op>)
    requires Table(l) && AllSend(done)
    ensures AllSend(ops)
    ensures var (m, buf) := OutgoingAll(c, rnd, Run(c, l, done), msgs);
            && m == Run(c, l, ops)
            && Pending(c, l, ops) == (if buf.None? then [] else Pending(c, l, done) + buf.value)
            && (Flawless(c, l, ops) <==> Flawless(c, l, done) && buf.Some?)
    decreases |msgs|
  {
    hide Outgoing, Table, Run, Pending, Flawless;
    var now := Run(c, l, done);
    if msgs == [] {
      ops := done;
      assert Pending(c, l, done) + [] == Pending(c, l, done);
    } else {
      SendsOneMore(c, rnd, l, done, msgs[0]);
      ops := done + [Send(rnd, msgs[0])];
      var (next, head) := Outgoing(c, rnd, now, msgs[0]);
      if head.Some? {
        ops := SendingRuns(c, rnd, l, msgs[1..], ops);
        var tail := OutgoingAll(c, rnd, next, msgs[1..]).1;
        if tail.Some? {
          assert Pending(c, l, done) + (head.value + tail.value) == (Pending(c, l, done) + head.value) + tail.value;
        }
      }
    }
  }

  /** It did not get stuck over a flight that is left in the queue. */
  predicate Emptied(r: (Endpoint, Status)) {
    r.1.Continues? || r.0.h.outgoing == []
  }

  lemma FinishRuns(cfg: Config, cl: Endpoint, expected: seq<nat>) returns (ops: seq<Op>)
    requires Live(cl)
    ensures AllLocal(ops) && Leads(cfg.library, cl.l, ops, Finish(cfg, cl, expected).0.l)
    ensures Emptied(Finish(cfg, cl, expected)) ==> Flawless(cfg.library, cl.l, ops)
  {
    hide OutgoingAll, Table;
    FlawlessNothing(cfg.library, cl.l);
    NothingOutgoing(cfg.library, cfg.entropy, cl.l);
    ops := SendingRuns(cfg.library, cfg.entropy, cl.l, cl.h.outgoing, []);
    var (l, buf) := OutgoingAll(cfg.library, cfg.entropy, cl.l, cl.h.outgoing);
    if buf.Some? {
      assert [] + buf.value == buf.value;
      ops := Transmitted(cfg.library, cl.l, ops);
    }
  }

  lemma FlawlessNothing(c: Library, l: Layer)
    requires Table(l)
    ensures Flawless(c, l, [])
  {
  }

  lemma NothingOutgoing(c: Library, rnd: Entropy, l: Layer)
    requires Table(l)
    ensures OutgoingAll(c, rnd, l, []).1.Some?
  {
  }

  /** The records that are pending go into one datagram. */
  lemma Transmitted(c: Library, l: Layer, ops: seq<Op>) returns (all: seq<Op>)
    requires Table(l) && AllSend(ops)
    ensures AllLocal(all)
    ensures var m := Run(c, l, ops); Leads(c, l, all, m.(sent := m.sent + [Pending(c, l, ops)]))
    ensures Flawless(c, l, all) <==> Flawless(c, l, ops)
  {
    hide Run, Table, Pending, Protected;
    var op := Transmit(Pending(c, l, ops));
    all := ops + [op];
    assert all[..|ops|] == ops;
    RunOneMore(c, l, ops, op);
    NothingPending(c, l, all);
  }

  lemma NothingPending(c: Library, l: Layer, ops: seq<Op>)
    requires Table(l) && ops != [] && ops[|ops| - 1].Transmit?
    ensures Pending(c, l, ops) == []
  {
  }

  lemma ConfigureRuns(c: Library, l: Layer, e: nat, conn: ConnState)
    requires Table(l) && e in l.epochs
    ensures Leads(c, l, [Configure(e, conn)], WithConn(l, e, conn)) && Flawless(c, l, [Configure(e, conn)])
  {
    hide Table, Leads, Flawless;
    LeadsByOne(c, l, Configure(e, conn));
  }

  lemma ServerHelloRuns(cfg: Config, cl: Endpoint, m: Handshake) returns (ops: seq<Op>)
    requires Live(cl)
    ensures AllLocal(ops) && Leads(cfg.library, cl.l, ops, HandleServerHello(cfg, cl, m).l)
    ensures Flawless(cfg.library, cl.l, ops)
  {
    hide Table, RandomBytes, NumberOf, Leads, Flawless;
    CurrentEpochsExist(cl.l);
    var c := cfg.library;
    var r, n, w := HandleServerHello(cfg, cl, m).l, NextEpochNr(cl.l), cl.l.write;
    var c0 := cl.l.epochs[n].conn.(serverRandom := Some(RandomBytes(m)), suite := cfg.suites(NumberOf(Field(m, 3))));
    var l1 := WithConn(cl.l, n, c0);
    var l2 := WithConn(l1, w, r.epochs[w].conn);
    WithConnKeepsTable(cl.l, n, c0);
    WithConnKeepsTable(l1, w, r.epochs[w].conn);
    ConfigureRuns(c, cl.l, n, c0);
    ConfigureRuns(c, l1, w, r.epochs[w].conn);
    ConfigureRuns(c, l2, w + 1, r.epochs[w + 1].conn);
    LeadsOn(c, cl.l, [Configure(n, c0)], l1, [Configure(w, r.epochs[w].conn)], l2);
    ops := [Configure(n, c0)] + [Configure(w, r.epochs[w].conn)];
    LeadsOn(c, cl.l, ops, l2, [Configure(w + 1, r.epochs[w + 1].conn)], r);
    ops := ops + [Configure(w + 1, r.epochs[w + 1].conn)];
  }

  lemma AnswerRuns(cfg: Config, cl: Endpoint, identity: bytes) returns (ops: seq<Op>)
    requires Live(cl)
    ensures AllLocal(ops) && Leads(cfg.library, cl.l, ops, Answer(cfg, cl, identity).0.l)
    ensures Emptied(Answer(cfg, cl, identity)) ==> Flawless(cfg.library, cl.l, ops)
  {
    hide Table, VerifyData, Finish, RecordsOf, PrintFragment, ToFragment, Serialize, Leads, Flawless;
    CurrentEpochsExist(cl.l);
    ops := [];
    LeadsNowhere(cfg.library, cl.l);
    var h := Enqueue(Begin(cl.h), ClientKeyExchange(identity));
    var verifyData := VerifyData(cfg.library, cl.l.epochs[cl.l.write + 1].conn, h.transcript, "client finished");
    if verifyData.Some? {
      ops := FinishRuns(cfg, Endpoint(Enqueue(h, FinishedMessage(verifyData.value)), cl.l), [FINISHED]);
    }
  }

  lemma ServerHelloDoneRuns(cfg: Config, cl: Endpoint) returns (ops: seq<Op>)
    requires Live(cl) && cfg.library.HmacLaw()
    ensures AllLocal(ops) && Leads(cfg.library, cl.l, ops, HandleServerHelloDone(cfg, cl).0.l)
    ensures Emptied(HandleServerHelloDone(cfg, cl)) ==> Flawless(cfg.library, cl.l, ops)
  {
    hide Table, WithMasterSecret, PreMasterSecret, Answer, Leads, Flawless;
    CurrentEpochsExist(cl.l);
    ops := [];
    LeadsNowhere(cfg.library, cl.l);
    var n := NextEpochNr(cl.l);
    var conn := cl.l.epochs[n].conn;
    if conn.suite.Some? && conn.suite.value.keyExchange == Psk && cfg.psk.Some? {
      var keyed := WithMasterSecret(cfg.library, conn, PreMasterSecret(cfg.psk.value.1));
      if keyed.Some? {
        var l := WithConn(cl.l, n, keyed.value);
        WithConnKeepsTable(cl.l, n, keyed.value);
        ConfigureRuns(cfg.library, cl.l, n, keyed.value);
        var rest := AnswerRuns(cfg, cl.(l := l), cfg.psk.value.0);
        LeadsOn(cfg.library, cl.l, [Configure(n, keyed.value)], l, rest, Answer(cfg, cl.(l := l), cfg.psk.value.0).0.l);
        ops := [Configure(n, keyed.value)] + rest;
      }
    }
  }

  lemma HandleOneRuns(cfg: Config, cl: Endpoint, m: Handshake) returns (ops: seq<Op>)
    requires Live(cl) && cfg.library.HmacLaw()
    ensures AllLocal(ops) && Leads(cfg.library, cl.l, ops, HandleOne(cfg, cl, m).0.l)
    ensures Emptied(HandleOne(cfg, cl, m)) ==> Flawless(cfg.library, cl.l, ops)
  {
    hide Table, HandleServerHello, HandleServerHelloDone, HandleServerKeyExchange, Leads, Flawless;
    ops := [];
    LeadsNowhere(cfg.library, cl.l);
    if m.msgType == SERVER_HELLO {
      ops := ServerHelloRuns(cfg, cl, m);
    } else if m.msgType == SERVER_HELLO_DONE {
      ops := ServerHelloDoneRuns(cfg, cl);
    }
  }

  lemma {:induction false} ServerFlightRuns(cfg: Config, cl: Endpoint, ms: seq<Handshake>) returns (ops: seq<Op>)
    requires Live(cl) && cfg.library.HmacLaw()
    ensures AllLocal(ops) && Leads(cfg.library, cl.l, ops, HandleServerFlight(cfg, cl, ms).0.l)
    ensures Emptied(HandleServerFlight(cfg, cl, ms)) ==> Flawless(cfg.library, cl.l, ops)
    decreases |ms|
  {
    hide Table, HandleOne, Leads, Flawless;
    if ms == [] {
      ops := [];
      LeadsNowhere(cfg.library, cl.l);
    } else {
      HandleOneKeepsTable(cfg, cl, ms[0]);
      ops := HandleOneRuns(cfg, cl, ms[0]);
      var (next, status) := HandleOne(cfg, cl, ms[0]);
      if status.Continues? {
        var rest := ServerFlightRuns(cfg, next, ms[1..]);
        LeadsOn(cfg.library, cl.l, ops, next.l, rest, HandleServerFlight(cfg, next, ms[1..]).0.l);
        ops := ops + rest;
      }
    }
  }

  lemma HelloVerifyRuns(cfg: Config, cl: Endpoint, hvr: Handshake) returns (ops: seq<Op>)
    requires Live(cl)
    ensures AllLocal(ops) && Leads(cfg.library, cl.l, ops, HandleHelloVerify(cfg, cl, hvr).0.l)
    ensures Emptied(HandleHelloVerify(cfg, cl, hvr)) ==> Flawless(cfg.library, cl.l, ops)
  {
    hide Table, Finish, RecordsOf, PrintFragment, ToFragment, WithCookie, Leads, Flawless;
    ops := [];
    LeadsNowhere(cfg.library, cl.l);
    if cl.h.lastFlight != [] {
      var hello := WithCookie(cl.h.lastFlight[0], BytesOf(Field(hvr, 1)));
      ops := FinishRuns(cfg, cl.(h := Enqueue(Begin(cl.h), hello)), [SERVER_HELLO_DONE]);
    }
  }

  lemma DispatchRuns(cfg: Config, cl: Endpoint, ms: seq<Handshake>) returns (ops: seq<Op>)
    requires Live(cl) && cfg.library.HmacLaw() && ms != []
    ensures AllLocal(ops) && Leads(cfg.library, cl.l, ops, Dispatch(cfg, cl, ms).l)
    ensures Dispatch(cfg, cl, ms).h.outgoing == [] ==> Flawless(cfg.library, cl.l, ops)
  {
    hide Table, HandleHelloVerify, HandleServerFlight, VerifyData, Hashed, PrintFragment, Leads, Flawless;
    var taken, last := cl.(h := Taken(cl.h, ms)), ms[|ms| - 1];
    ops := [];
    LeadsNowhere(cfg.library, cl.l);
    if last.msgType == HELLO_VERIFY_REQUEST {
      ops := HelloVerifyRuns(cfg, taken, last);
    } else if last.msgType == SERVER_HELLO_DONE {
      ops := ServerFlightRuns(cfg, taken, ms);
    }
  }

  /** An incoming fragment changes the record layer only by configuring it and by sending whole
      datagrams: it receives nothing and advances no read epoch. If it leaves nothing in the queue,
      no record failed. */
  lemma ProcessingRuns(cfg: Config, cl: Endpoint, f: Fragment, g: Garbage) returns (ops: seq<Op>)
    requires Live(cl) && cfg.library.HmacLaw()
    ensures AllLocal(ops) && Leads(cfg.library, cl.l, ops, ProcessIncoming(cfg, cl, f, g).0.l)
    ensures ProcessIncoming(cfg, cl, f, g).0.h.outgoing == [] ==> Flawless(cfg.library, cl.l, ops)
  {
    hide Table, Store, Dispatch, Leads, Flawless;
    ops := [];
    LeadsNowhere(cfg.library, cl.l);
    H.StoreFrame(cl.h, f, g);
    var (h, status) := Store(cl.h, f, g);
    if status.Continues? && FlightReady(h) {
      ops := DispatchRuns(cfg, cl.(h := h), Stored(h));
    }
  }

  lemma StartRuns(cfg: Config, random: Value, suiteIds: seq<int>) returns (ops: seq<Op>)
    ensures Table(FRESH_LAYER)
    ensures AllLocal(ops) && Leads(cfg.library, FRESH_LAYER, ops, Start(cfg, FRESH_LAYER, random, suiteIds).0.l)
    ensures Emptied(Start(cfg, FRESH_LAYER, random, suiteIds)) ==> Flawless(cfg.library, FRESH_LAYER, ops)
  {
    hide Finish, RecordsOf, PrintFragment, ToFragment, RandomBytes, Leads, Flawless;
    FreshLayerTable();
    var hello := ClientHello(random, suiteIds);
    var conn := FRESH_LAYER.epochs[1].conn.(clientRandom := Some(RandomBytes(hello)));
    var l := WithConn(FRESH_LAYER, 1, conn);
    WithConnKeepsTable(FRESH_LAYER, 1, conn);
    ConfigureRuns(cfg.library, FRESH_LAYER, 1, conn);
    var cl := Endpoint(Enqueue(Begin(RESET), hello), l);
    var rest := FinishRuns(cfg, cl, [SERVER_HELLO_DONE, HELLO_VERIFY_REQUEST]);
    LeadsOn(cfg.library, FRESH_LAYER, [Configure(1, conn)], l, rest,
            Finish(cfg, cl, [SERVER_HELLO_DONE, HELLO_VERIFY_REQUEST]).0.l);
    ops := [Configure(1, conn)] + rest;
  }
}
