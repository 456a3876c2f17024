/** A whole handshake on the wire: the client's session and an honest server's record layer. */
module HonestHandshake {
  import opened Bytes
  import opened Codec
  import opened Crypto
  import opened Protection
  import opened Packets
  import opened ConnectionStates
  import opened AntiReplay
  import opened AntiReplayProofs
  import opened Records
  import opened LayerChanges
  import opened ClearFlights
  import R = RecordProofs
  import T = Transfer
  import opened Fragments
  import opened Handshakes
  import opened Handlers
  import H = HandlerProofs
  import A = FlightAssembly
  import K = KeyAgreement
  import opened Completion
  import opened HonestServer
  import opened Sizes
  import opened Sessions
  import opened SessionProofs

  // ---- what a session hears ----

  /** A message that the session handles without an exception. */
  ghost predicate Smooth(msg: Message) {
    msg == CCS_MESSAGE || exists m :: Short(m) && msg == Whole(m)
  }

  lemma WholeIsHeard(cfg: Config, s: Session, m: Handshake, g: Garbage)
    requires Open(cfg, s) && Short(m)
    ensures EventsOfMessage(Whole(m), g) == [H.Incoming(ToFragment(m), g)]
    ensures OnMessage(cfg, s, Whole(m), g).1
  {
    hide Body, FlightReady, Dispatch, Live, FromFragment, PrintFragment;
    ShortFits(m);
    ParsePrintedFragment(ToFragment(m), g);
    FromFragmentInverts(m, g);
  }

  lemma CcsIsHeard(cfg: Config, s: Session, g: Garbage)
    requires Open(cfg, s)
    ensures EventsOfMessage(CCS_MESSAGE, g) == [H.OnLayer(R.ReadAdvance)]
    ensures OnMessage(cfg, s, CCS_MESSAGE, g).1
  {
    hide AdvanceRead;
  }

  lemma {:induction false} AllReached(cfg: Config, s: Session, msgs: seq<Message>, gs: nat -> Garbage, i: nat)
    requires Open(cfg, s) && i <= |msgs| && forall j :: 0 <= j < |msgs| ==> Smooth(msgs[j])
    ensures OnMessages(cfg, s, msgs, gs, i).1 == |msgs|
    decreases |msgs| - i
  {
    hide OnMessage, Live, EventsOfMessage, Whole, Short;
    if i < |msgs| {
      OnMessageKeepsOpen(cfg, s, msgs[i], gs(i));
      if msgs[i] == CCS_MESSAGE {
        CcsIsHeard(cfg, s, gs(i));
      } else {
        var m :| Short(m) && msgs[i] == Whole(m);
        WholeIsHeard(cfg, s, m, gs(i));
      }
      AllReached(cfg, OnMessage(cfg, s, msgs[i], gs(i)).0, msgs, gs, i + 1);
    }
  }

  /** The events of a datagram whose messages are all handled. */
  function Heard(g: Garbage, buf: bytes, msgs: seq<Message>, gs: nat -> Garbage): seq<H.Event> {
    [H.OnLayer(R.Recv(g, buf))] + EventsOfMessages(msgs, gs, 0, |msgs|)
  }

  lemma SessionHears(cfg: Config, s: Session, g: Garbage, buf: bytes, msgs: seq<Message>, gs: nat -> Garbage)
    requires Open(cfg, s) && Messages(Receive(cfg.library, g, s.cl.l, buf).1) == msgs
    requires forall j :: 0 <= j < |msgs| ==> Smooth(msgs[j])
    ensures Step(cfg, s, Datagram(buf, g, gs)).cl == H.Run(cfg, s.cl, Heard(g, buf, msgs, gs))
  {
    hide Receive, Table, OnMessages, EventsOfMessages, Smooth, H.Run;
    R.StepKeepsTable(cfg.library, s.cl.l, R.Recv(g, buf));
    var received := s.(cl := s.cl.(l := Receive(cfg.library, g, s.cl.l, buf).0));
    AllReached(cfg, received, msgs, gs, 0);
    InputIsRun(cfg, s, Datagram(buf, g, gs));
  }

  lemma OneMoreHeard(evs: seq<H.Event>, ev: H.Event)
    requires K.Calm(evs) && (ev.OnLayer? ==> CalmOp(ev.op))
    ensures K.Calm(evs + [ev])
    ensures A.Incomings(evs + [ev]) == A.Incomings(evs) + if ev.Incoming? then [ev.f] else []
    ensures K.PeerCcs(evs + [ev]) == K.PeerCcs(evs) + if ev.OnLayer? && ev.op.ReadAdvance? then 1 else 0
  {
    assert (evs + [ev])[..|evs|] == evs;
  }

  lemma DatagramHeard(g: Garbage, buf: bytes)
    ensures var evs := [H.OnLayer(R.Recv(g, buf))]; K.Calm(evs) && A.Incomings(evs) == [] && K.PeerCcs(evs) == 0
  {
    OneMoreHeard([], H.OnLayer(R.Recv(g, buf)));
    assert [] + [H.OnLayer(R.Recv(g, buf))] == [H.OnLayer(R.Recv(g, buf))];
  }

  lemma EventsOfWhole(m: Handshake, g: Garbage)
    requires Short(m)
    ensures EventsOfMessage(Whole(m), g) == [H.Incoming(ToFragment(m), g)]
  {
    hide Body, PrintFragment;
    ShortFits(m);
    ParsePrintedFragment(ToFragment(m), g);
  }

  lemma HeardOne(g: Garbage, buf: bytes, m: Handshake, gs: nat -> Garbage)
    requires Short(m)
    ensures var evs := Heard(g, buf, [Whole(m)], gs);
            evs == [H.OnLayer(R.Recv(g, buf)), H.Incoming(ToFragment(m), gs(0))] && Hears(evs, [m], 0)
  {
    hide EventsOfMessage, ToFragment, Whole, K.Calm, A.Incomings, K.PeerCcs;
    EventsOfWhole(m, gs(0));
    assert EventsOfMessages([Whole(m)], gs, 1, 1) == [];
    assert EventsOfMessages([Whole(m)], gs, 0, 1) == [H.Incoming(ToFragment(m), gs(0))];
    DatagramHeard(g, buf);
    OneMoreHeard([H.OnLayer(R.Recv(g, buf))], H.Incoming(ToFragment(m), gs(0)));
    assert [H.OnLayer(R.Recv(g, buf))] + [H.Incoming(ToFragment(m), gs(0))] == Heard(g, buf, [Whole(m)], gs);
    assert [] + [ToFragment(m)] == Wholes([m]);
  }

  lemma HeardTwo(g: Garbage, buf: bytes, a: Handshake, b: Handshake, gs: nat -> Garbage)
    requires Short(a) && Short(b)
    ensures var evs := Heard(g, buf, [Whole(a), Whole(b)], gs);
            && evs == [H.OnLayer(R.Recv(g, buf)), H.Incoming(ToFragment(a), gs(0))] + [H.Incoming(ToFragment(b), gs(1))]
            && Hears(evs, [a, b], 0)
  {
    hide EventsOfMessage, ToFragment, Whole, K.Calm, A.Incomings, K.PeerCcs;
    var msgs := [Whole(a), Whole(b)];
    EventsOfWhole(a, gs(0));
    EventsOfWhole(b, gs(1));
    assert EventsOfMessages(msgs, gs, 2, 2) == [];
    assert EventsOfMessages(msgs, gs, 1, 2) == [H.Incoming(ToFragment(b), gs(1))];
    HeardOne(g, buf, a, gs);
    OneMoreHeard(Heard(g, buf, [Whole(a)], gs), H.Incoming(ToFragment(b), gs(1)));
    assert Wholes([a]) + [ToFragment(b)] == Wholes([a, b]);
  }

  lemma HeardLast(g: Garbage, buf: bytes, m: Handshake, gs: nat -> Garbage)
    requires Short(m)
    ensures var evs := Heard(g, buf, [CCS_MESSAGE, Whole(m)], gs);
            && evs == [H.OnLayer(R.Recv(g, buf)), H.OnLayer(R.ReadAdvance)] + [H.Incoming(ToFragment(m), gs(1))]
            && Hears(evs, [m], 1)
  {
    hide ToFragment, Whole, K.Calm, A.Incomings, K.PeerCcs;
    var msgs := [CCS_MESSAGE, Whole(m)];
    EventsOfWhole(m, gs(1));
    assert EventsOfMessage(CCS_MESSAGE, gs(0)) == [H.OnLayer(R.ReadAdvance)];
    hide EventsOfMessage;
    assert EventsOfMessages(msgs, gs, 2, 2) == [];
    assert EventsOfMessages(msgs, gs, 1, 2) == [H.Incoming(ToFragment(m), gs(1))];
    DatagramHeard(g, buf);
    var two := [H.OnLayer(R.Recv(g, buf)), H.OnLayer(R.ReadAdvance)];
    OneMoreHeard([H.OnLayer(R.Recv(g, buf))], H.OnLayer(R.ReadAdvance));
    assert [H.OnLayer(R.Recv(g, buf))] + [H.OnLayer(R.ReadAdvance)] == two;
    OneMoreHeard(two, H.Incoming(ToFragment(m), gs(1)));
    assert [] + [] + [ToFragment(m)] == Wholes([m]);
  }

  // ---- receiving in the clear ----

  /** Numbers that have not moved the window. */
  predicate Low(ns: seq<int>) {
    forall i :: 0 <= i < |ns| ==> ns[i] < WIDTH
  }

  lemma {:induction false} LowIsUnaligned(ns: seq<int>)
    requires Low(ns)
    ensures NoAlignedJump(WIDTH - 1, ns) && Highest(WIDTH - 1, ns) == WIDTH - 1
  {
    if ns != [] {
      LowIsUnaligned(ns[..|ns| - 1]);
    }
  }

  lemma LowAccepts(ns: seq<int>, q: int)
    requires Low(ns)
    ensures Marks(FRESH, ns).Ok() && (Marks(FRESH, ns).MayReceive(q) <==> 0 <= q < 2 * WIDTH && q !in ns)
  {
    hide Window.MayReceive, Window.Mark;
    LowIsUnaligned(ns);
    UnalignedRunIsClean(WIDTH - 1, {}, ns);
    CeilingIsHighest(FRESH, ns);
    CleanRunAccepts(ns, q);
  }

  lemma {:induction false} MarkKeepsSent(l: Layer, ps: seq<Packet>)
    requires Table(l) && Known(l, ps)
    ensures MarkAll(l, ps).sent == l.sent
    decreases |ps|
  {
    hide Table, Window.Mark;
    if ps != [] {
      MarkKeepsTable(l, ps[0]);
      MarkKeepsSent(MarkOne(l, ps[0]), ps[1..]);
    }
  }

  lemma {:induction false} DecryptKeepsSent(c: Library, l: Layer, ps: seq<Packet>)
    requires Known(l, ps)
    ensures DecryptAll(c, l, ps).0.sent == l.sent
    decreases |ps|
  {
    hide Decrypt;
    if ps != [] {
      DecryptKeepsSent(c, Touch(l, ps[0].epoch), ps[1..]);
    }
  }

  lemma ReceiveKeepsSent(c: Library, g: Garbage, l: Layer, buf: bytes)
    requires Table(l)
    ensures Receive(c, g, l, buf).0.sent == l.sent
  {
    hide Table, ParseAll, Filter, MarkAll, DecryptAll;
    var admitted := Filter(l, ParseAll(buf, 0, g));
    FilterIsKnown(l, ParseAll(buf, 0, g));
    DecryptAllKnown(c, l, admitted);
    DecryptKeepsSent(c, l, admitted);
    MarkKeepsSent(DecryptAll(c, l, admitted).0, DecryptAll(c, l, admitted).1);
  }

  /** What receiving records of epoch 0 in the clear does to a layer. */
  ghost predicate HeardInClear(c: Library, g: Garbage, l: Layer, ps: seq<Packet>, msgs: seq<Message>)
    requires Table(l)
  {
    var (m, out) := Receive(c, g, l, T.PrintAll(ps));
    && out == T.WireAll(ps) && Messages(out) == msgs
    && Table(m) && m.read == l.read && m.write == l.write && m.sent == l.sent && m.epochs.Keys == l.epochs.Keys
    && 0 in l.epochs && 1 in l.epochs
    && m.epochs[0].conn == l.epochs[0].conn.(decipher := m.epochs[0].conn.decipher)
    && m.epochs[0].conn.DecipherInUse() == l.epochs[0].conn.DecipherInUse()
    && m.epochs[0].writeSeq == l.epochs[0].writeSeq && m.epochs[1] == l.epochs[1]
    && l.epochs[0].window.Ok() && m.epochs[0].window == Marks(l.epochs[0].window, R.NumbersOf(0, T.WireAll(ps)))
    && R.NumbersOf(1, T.WireAll(ps)) == []
    && forall q :: q in R.NumbersOf(0, T.WireAll(ps)) ==> exists i :: 0 <= i < |ps| && ps[i].seqNum == q
  }

  lemma {:induction false} NumberIsFrom(e: nat, ps: seq<Packet>, q: int)
    requires q in R.NumbersOf(e, ps)
    ensures exists i :: 0 <= i < |ps| && ps[i].seqNum == q
  {
    var last := |ps| - 1;
    if q in R.NumbersOf(e, ps[..last]) {
      NumberIsFrom(e, ps[..last], q);
      var i :| 0 <= i < last && ps[..last][i].seqNum == q;
      assert ps[i].seqNum == q;
    } else {
      assert ps[last].seqNum == q;
    }
  }

  lemma HearsInClear(c: Library, g: Garbage, l: Layer, ps: seq<Packet>, msgs: seq<Message>)
    requires Table(l) && l.read == 0 && 0 in l.epochs && 1 in l.epochs && Welcome(l, ps)
    requires l.epochs[0].conn.DecipherInUse().Some? && l.epochs[0].conn.DecipherInUse().value.suite.kind.NullCipher?
    requires |ps| == |msgs| && forall i :: 0 <= i < |ps| ==> Message(ps[i].typ, ps[i].fragment) == msgs[i]
    ensures HeardInClear(c, g, l, ps, msgs)
  {
    hide Receive, Table, ParseAll, Filter, T.PrintAll, T.WireAll, Window.MayReceive, Wire, R.Selected;
    var buf := T.PrintAll(ps);
    ClearArrives(c, g, l, ps);
    R.StepKeepsTable(c, l, R.Recv(g, buf));
    ReceiveChanges(c, g, l, buf, 0);
    ReceiveChanges(c, g, l, buf, 1);
    ReceiveKeepsSent(c, g, l, buf);
    R.ReceiveDelivers(c, g, l, buf);
    R.NoNumbers(1, T.WireAll(ps));
    assert Messages(T.WireAll(ps)) == msgs;
    NothingMarked(c, g, l, buf);
    forall q | q in R.NumbersOf(0, T.WireAll(ps))
      ensures exists i :: 0 <= i < |ps| && ps[i].seqNum == q
    {
      NumberIsFrom(0, T.WireAll(ps), q);
    }
  }

  /** Without records of epoch 1 a datagram changes nothing there. */
  lemma NothingMarked(c: Library, g: Garbage, l: Layer, buf: bytes)
    requires Table(l) && 1 in l.epochs && !Reads(l, R.Recv(g, buf), 1)
    requires R.NumbersOf(1, Receive(c, g, l, buf).1) == []
    ensures var m := Receive(c, g, l, buf).0; 1 in m.epochs && m.epochs[1] == l.epochs[1]
  {
    hide Receive, Reads, R.Selected, Window.MayReceive;
    R.StepKeepsTable(c, l, R.Recv(g, buf));
    ReceiveChanges(c, g, l, buf, 1);
    R.ReceiveDelivers(c, g, l, buf);
  }

  // ---- the server ----

  const SERVER_STATE := FRESH_STATE.(entity := Server)

  const SERVER_LAYER := Layer(map[0 := FreshEpoch(0).(conn := SERVER_STATE),
                                  1 := FreshEpoch(1).(conn := SERVER_STATE)], 0, 0, [])

  /** A layer receives a datagram: what it becomes and what it delivers. */
  function Listens(c: Library, g: Garbage, l: Layer, buf: bytes): (r: (Layer, seq<Message>))
    requires Table(l)
    ensures Table(r.0)
  {
    R.StepKeepsTable(c, l, R.Recv(g, buf));
    var (m, ps) := Receive(c, g, l, buf);
    (m, Messages(ps))
  }

  /** A layer sends some messages in one datagram. */
  function Speaks(c: Library, rnd: Entropy, l: Layer, msgs: seq<Message>): (r: (Layer, bytes))
    requires Table(l)
    ensures Table(r.0)
  {
    var (m, buf) := OutgoingAll(c, rnd, l, msgs);
    (m, if buf.Some? then buf.value else [])
  }

  /** Before the keys: `n` records were sent, and those with the numbers `ns` were received. */
  ghost predicate Plainly(l: Layer, n: nat, ns: seq<int>) {
    && Table(l) && l.read == 0 && l.write == 0 && 0 in l.epochs && 1 in l.epochs
    && l.epochs[0].conn == SERVER_STATE.(decipher := l.epochs[0].conn.decipher)
    && l.epochs[0].conn.DecipherInUse() == Some(Delegate(NULL_SUITE, None, Server))
    && l.epochs[0].writeSeq == n - 1 && l.epochs[0].window == Marks(FRESH, ns) && Low(ns)
    && l.epochs[1] == FreshEpoch(1).(conn := SERVER_STATE)
  }

  lemma ServerIsPlain()
    ensures Plainly(SERVER_LAYER, 0, [])
  {
  }

  /** Records in the clear that can still be received. */
  predicate Sendable(ps: seq<Packet>, ns: seq<int>) {
    forall i :: 0 <= i < |ps| ==>
      && ps[i].epoch == 0 && 0 <= ps[i].typ < 256 && |ps[i].fragment| <= MAX_FRAGMENT
      && 0 <= ps[i].seqNum < WIDTH && ps[i].seqNum !in ns
  }

  predicate Carry(ps: seq<Packet>, msgs: seq<Message>) {
    |ps| == |msgs| && forall i :: 0 <= i < |ps| ==> Message(ps[i].typ, ps[i].fragment) == msgs[i]
  }

  lemma SendableIsWelcome(l: Layer, ps: seq<Packet>, ns: seq<int>)
    requires Sendable(ps, ns) && Low(ns) && 0 in l.epochs && l.epochs[0].window == Marks(FRESH, ns)
    ensures Welcome(l, ps)
  {
    hide Window.MayReceive;
    forall i | 0 <= i < |ps|
      ensures T.Free(l.epochs[0].window, ps[i].seqNum)
    {
      LowAccepts(ns, ps[i].seqNum);
    }
  }

  /** The server receives what the client sends in the clear. */
  lemma ServerListens(c: Library, g: Garbage, l: Layer, n: nat, ns: seq<int>, ps: seq<Packet>, msgs: seq<Message>)
    returns (all: seq<int>)
    requires Plainly(l, n, ns) && Sendable(ps, ns) && Carry(ps, msgs)
    ensures var (m, heard) := Listens(c, g, l, T.PrintAll(ps)); heard == msgs && Plainly(m, n, all)
    ensures forall q :: q in all ==> q in ns || exists i :: 0 <= i < |ps| && ps[i].seqNum == q
  {
    hide Table, Receive, T.PrintAll, T.WireAll, Window.Mark, Sendable;
    SendableIsWelcome(l, ps, ns);
    HearsInClear(c, g, l, ps, msgs);
    var more := R.NumbersOf(0, T.WireAll(ps));
    all := ns + more;
    R.MarksConcat(FRESH, ns, more);
    AllLow(ps, ns, more);
  }

  lemma AllLow(ps: seq<Packet>, ns: seq<int>, more: seq<int>)
    requires Sendable(ps, ns) && Low(ns) && forall q :: q in more ==> exists i :: 0 <= i < |ps| && ps[i].seqNum == q
    ensures Low(ns + more)
  {
    forall i | 0 <= i < |more|
      ensures more[i] < WIDTH
    {
      assert more[i] in more;
    }
  }

  /** The server speaks in the clear. */
  lemma ServerSpeaks(c: Library, rnd: Entropy, l: Layer, n: nat, ns: seq<int>, msgs: seq<Message>)
    requires Plainly(l, n, ns) && NoCcs(msgs)
    ensures var (m, buf) := Speaks(c, rnd, l, msgs);
            Plainly(m, n + |msgs|, ns) && buf == T.PrintAll(ClearRecords(l, msgs))
    ensures Carry(ClearRecords(l, msgs), msgs)
    ensures forall i :: 0 <= i < |msgs| ==>
              ClearRecords(l, msgs)[i] == Packet(msgs[i].typ, -2, -1, 0, n + i, msgs[i].data)
  {
    hide Table, T.PrintAll, Marks, OutgoingAll;
    ClearDatagram(c, rnd, l, msgs);
  }
}
