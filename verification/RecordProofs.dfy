/** What the record layer guarantees over whole runs of its operations. */
module RecordProofs {
  import opened Bytes
  import opened Crypto
  import opened Packets
  import opened Protection
  import opened ConnectionStates
  import opened AntiReplay
  import opened AntiReplayProofs
  import opened Records

  // ---- runs ----

  /** The operations on a record layer; `Configure` stands for every change that the
      handshake makes to the connection state of an epoch, `Transmit` for handing a datagram
      to the socket. */
  datatype Op =
    | Recv(g: Garbage, buf: bytes)
    | Send(rnd: Entropy, msg: Message)
    | ReadAdvance
    | WriteAdvance
    | Configure(e: nat, conn: ConnState)
    | Transmit(datagram: bytes)

  function Step(c: Library, l: Layer, op: Op): Layer
    requires Table(l)
  {
    match op
    case Recv(g, buf) => Receive(c, g, l, buf).0
    case Send(rnd, msg) => CurrentEpochsExist(l); Outgoing(c, rnd, l, msg).0
    case ReadAdvance => AdvanceRead(l)
    case WriteAdvance => AdvanceWrite(l)
    case Configure(e, conn) => if e in l.epochs then WithConn(l, e, conn) else l
    case Transmit(datagram) => l.(sent := l.sent + [datagram])
  }

  /** The records handed upwards by one operation. */
  function Delivered(c: Library, l: Layer, op: Op): seq<Packet>
    requires Table(l)
  {
    if op.Recv? then Receive(c, op.g, l, op.buf).1 else []
  }

  lemma {:induction false} MarkAllKeepsTable(l: Layer, ps: seq<Packet>)
    requires Table(l) && Known(l, ps)
    ensures Table(MarkAll(l, ps)) && MarkAll(l, ps).epochs.Keys == l.epochs.Keys
    ensures MarkAll(l, ps).read == l.read && MarkAll(l, ps).write == l.write
    decreases |ps|
  {
    hide Table, Window.Mark;
    if ps != [] {
      MarkKeepsTable(l, ps[0]);
      MarkAllKeepsTable(MarkOne(l, ps[0]), ps[1..]);
    }
  }

  lemma StepKeepsTable(c: Library, l: Layer, op: Op)
    requires Table(l)
    ensures Table(Step(c, l, op))
  {
    match op
    case Recv(g, buf) =>
      hide Table, Filter, ParseAll, MarkAll, DecryptAll;
      var admitted := Filter(l, ParseAll(buf, 0, g));
      FilterIsKnown(l, ParseAll(buf, 0, g));
      DecryptAllKnown(c, l, admitted);
      var (l1, records) := DecryptAll(c, l, admitted);
      MarkAllKeepsTable(l1, records);
    case Send(rnd, msg) => OutgoingKeepsTable(c, rnd, l, msg);
    case ReadAdvance => AdvancingKeepsTable(l);
    case WriteAdvance => AdvancingKeepsTable(l);
    case Configure(e, conn) =>
    case Transmit(datagram) => SentKeepsTable(l, l.sent + [datagram]);
  }

  ghost function Run(c: Library, l: Layer, ops: seq<Op>): (r: Layer)
    requires Table(l)
    ensures Table(r)
  {
    if ops == [] then l
    else
      StepKeepsTable(c, Run(c, l, ops[..|ops| - 1]), ops[|ops| - 1]);
      Step(c, Run(c, l, ops[..|ops| - 1]), ops[|ops| - 1])
  }

  /** Over every run the epochs are exactly 0 .. max(read, write) + 1, so the index test of
      `receive` asks for membership and the next epochs always exist. */
  lemma EpochTable(c: Library, ops: seq<Op>, e: int)
    ensures Table(FRESH_LAYER)
    ensures var l := Run(c, FRESH_LAYER, ops);
            && |l.epochs| == Max(l.read, l.write) + 2
            && (0 <= e < |l.epochs| <==> e >= 0 && e in l.epochs)
            && l.read + 1 in l.epochs && l.write + 1 in l.epochs
  {
    FreshLayerTable();
    var l := Run(c, FRESH_LAYER, ops);
    TableSize(l);
    CurrentEpochsExist(l);
  }

  // ---- what one call of receive delivers ----

  predicate SameHeader(p: Packet, q: Packet) {
    p == q.(fragment := p.fragment)
  }

  /** `a` is an order-preserving selection from `b`, up to the fragments. */
  ghost predicate Selected(a: seq<Packet>, b: seq<Packet>)
    decreases |b|
  {
    a == [] || (b != [] && ((SameHeader(a[0], b[0]) && Selected(a[1..], b[1..])) || Selected(a, b[1..])))
  }

  lemma {:induction false} FilterSelects(l: Layer, ps: seq<Packet>)
    ensures Selected(Filter(l, ps), ps)
    ensures forall p :: p in Filter(l, ps) ==> Admits(l, p)
  {
    if ps != [] {
      FilterSelects(l, ps[1..]);
      if Admits(l, ps[0]) {
        assert Filter(l, ps)[1..] == Filter(l, ps[1..]);
      } else {
        assert Filter(l, ps) == Filter(l, ps[1..]);
      }
    }
  }

  lemma {:induction false} DecryptSelects(c: Library, l: Layer, ps: seq<Packet>)
    requires Known(l, ps)
    ensures Selected(DecryptAll(c, l, ps).1, ps)
    ensures forall p :: p in DecryptAll(c, l, ps).1 ==> exists q :: q in ps && SameHeader(p, q)
    decreases |ps|
  {
    hide Decrypt;
    if ps != [] {
      var next := Touch(l, ps[0].epoch);
      DecryptSelects(c, next, ps[1..]);
      var out, rest := DecryptAll(c, l, ps).1, DecryptAll(c, next, ps[1..]).1;
      if DecryptOne(c, l, ps[0]).Some? {
        assert out[0] == DecryptOne(c, l, ps[0]).value && out[1..] == rest;
        assert SameHeader(out[0], ps[0]);
      } else {
        assert out == rest;
      }
      forall p | p in out
        ensures exists q :: q in ps && SameHeader(p, q)
      {
        if p in rest {
          var q :| q in ps[1..] && SameHeader(p, q);
          assert q in ps;
        } else {
          assert SameHeader(p, ps[0]);
        }
      }
    }
  }

  lemma {:induction false} SelectedTransitive(a: seq<Packet>, b: seq<Packet>, d: seq<Packet>)
    requires Selected(a, b) && Selected(b, d)
    ensures Selected(a, d)
    decreases |d|
  {
    if a != [] {
      if SameHeader(b[0], d[0]) && Selected(b[1..], d[1..]) {
        if SameHeader(a[0], b[0]) && Selected(a[1..], b[1..]) {
          SelectedTransitive(a[1..], b[1..], d[1..]);
        } else {
          SelectedTransitive(a, b[1..], d[1..]);
        }
      } else {
        SelectedTransitive(a, b, d[1..]);
      }
    }
  }

  /** The sequence numbers among some records that belong to epoch `e`. */
  function NumbersOf(e: nat, ps: seq<Packet>): seq<int> {
    if ps == [] then []
    else NumbersOf(e, ps[..|ps| - 1]) + if ps[|ps| - 1].epoch == e then [ps[|ps| - 1].seqNum] else []
  }

  lemma {:induction false} NumbersOfConcat(e: nat, a: seq<Packet>, b: seq<Packet>)
    ensures NumbersOf(e, a + b) == NumbersOf(e, a) + NumbersOf(e, b)
  {
    if b == [] {
      assert a + b == a;
    } else {
      assert (a + b)[..|a + b| - 1] == a + b[..|b| - 1];
      NumbersOfConcat(e, a, b[..|b| - 1]);
    }
  }

  lemma {:induction false} MarksConcat(w: Window, a: seq<int>, b: seq<int>)
    requires w.Ok()
    ensures Marks(w, a + b) == Marks(Marks(w, a), b)
  {
    hide Window.Mark;
    if b == [] {
      assert a + b == a;
    } else {
      assert (a + b)[..|a + b| - 1] == a + b[..|b| - 1];
      MarksConcat(w, a, b[..|b| - 1]);
    }
  }

  /** Marking a batch applies, to each window, the numbers of its own epoch in order. */
  lemma {:induction false} MarkAllWindows(l: Layer, ps: seq<Packet>, e: nat)
    requires Table(l) && Known(l, ps) && e in l.epochs
    ensures e in MarkAll(l, ps).epochs
    ensures l.epochs[e].window.Ok() && MarkAll(l, ps).epochs[e].window == Marks(l.epochs[e].window, NumbersOf(e, ps))
    decreases |ps|
  {
    hide Window.Mark;
    if ps == [] {
    } else {
      MarkKeepsTable(l, ps[0]);
      var l1 := MarkOne(l, ps[0]);
      MarkAllWindows(l1, ps[1..], e);
      var w := l.epochs[e].window;
      var first := NumbersOf(e, [ps[0]]);
      assert [ps[0]] + ps[1..] == ps && [ps[0]][..0] == [];
      NumbersOfConcat(e, [ps[0]], ps[1..]);
      assert NumbersOf(e, []) == [];
      assert first == if ps[0].epoch == e then [ps[0].seqNum] else [];
      assert Marks(w, []) == w && [ps[0].seqNum][..0] == [];
      assert Marks(w, first) == l1.epochs[e].window;
      MarksConcat(w, first, NumbersOf(e, ps[1..]));
    }
  }

  lemma {:induction false} DecryptKeepsWindows(c: Library, l: Layer, ps: seq<Packet>)
    requires Known(l, ps)
    ensures var m := DecryptAll(c, l, ps).0;
            && m.epochs.Keys == l.epochs.Keys && m.read == l.read && m.write == l.write
            && forall e: nat :: e in l.epochs ==>
                 && m.epochs[e].window == l.epochs[e].window && m.epochs[e].writeSeq == l.epochs[e].writeSeq
                 && m.epochs[e].conn.(decipher := None) == l.epochs[e].conn.(decipher := None)
    decreases |ps|
  {
    hide Decrypt;
    if ps != [] {
      DecryptKeepsWindows(c, Touch(l, ps[0].epoch), ps[1..]);
    }
  }

  /** `receive` hands up an order-preserving selection of the records it parsed, each of
      which its window admitted beforehand; every window changes by exactly the delivered
      records of its epoch, so a record that fails to decipher leaves no trace. */
  lemma ReceiveDelivers(c: Library, g: Garbage, l: Layer, buf: bytes)
    requires Table(l)
    ensures var (m, records) := Receive(c, g, l, buf);
            && Selected(records, ParseAll(buf, 0, g))
            && Known(l, records)
            && (forall p :: p in records ==> p.epoch >= l.read && l.epochs[p.epoch].window.MayReceive(p.seqNum))
            && m.epochs.Keys == l.epochs.Keys && m.read == l.read && m.write == l.write
            && forall e: nat :: e in l.epochs ==>
                 && l.epochs[e].window.Ok()
                 && m.epochs[e].window == Marks(l.epochs[e].window, NumbersOf(e, records))
  {
    hide Table, Window.MayReceive, ParseAll, Marks, DecryptAll, MarkAll, Admits, Selected, NumbersOf, Filter;
    ReceiveSelects(c, g, l, buf);
    ReceiveMarks(c, g, l, buf);
  }

  lemma ReceiveSelects(c: Library, g: Garbage, l: Layer, buf: bytes)
    requires Table(l)
    ensures var records := Receive(c, g, l, buf).1;
            && Selected(records, ParseAll(buf, 0, g)) && Known(l, records)
            && forall p :: p in records ==> p.epoch >= l.read && l.epochs[p.epoch].window.MayReceive(p.seqNum)
  {
    hide Table, Window.MayReceive, ParseAll, DecryptAll, MarkAll, Admits, Selected, Filter;
    var parsed := ParseAll(buf, 0, g);
    var admitted := Filter(l, parsed);
    FilterIsKnown(l, parsed);
    FilterSelects(l, parsed);
    DecryptAllKnown(c, l, admitted);
    DecryptSelects(c, l, admitted);
    var records := DecryptAll(c, l, admitted).1;
    SelectedTransitive(records, admitted, parsed);
    RecordsWereAdmitted(c, l, admitted);
  }

  lemma ReceiveMarks(c: Library, g: Garbage, l: Layer, buf: bytes)
    requires Table(l)
    ensures var (m, records) := Receive(c, g, l, buf);
            && m.epochs.Keys == l.epochs.Keys && m.read == l.read && m.write == l.write
            && forall e: nat :: e in l.epochs ==>
                 && l.epochs[e].window.Ok()
                 && m.epochs[e].window == Marks(l.epochs[e].window, NumbersOf(e, records))
  {
    hide Table, Window.MayReceive, ParseAll, Marks, DecryptAll, MarkAll, Admits, NumbersOf, Filter;
    var parsed := ParseAll(buf, 0, g);
    var admitted := Filter(l, parsed);
    FilterIsKnown(l, parsed);
    DecryptAllKnown(c, l, admitted);
    DecryptKeepsWindows(c, l, admitted);
    var (l1, records) := DecryptAll(c, l, admitted);
    MarkAllKeepsTable(l1, records);
    forall e: nat | e in l.epochs
      ensures l.epochs[e].window.Ok()
      ensures e in MarkAll(l1, records).epochs
      ensures MarkAll(l1, records).epochs[e].window == Marks(l.epochs[e].window, NumbersOf(e, records))
    {
      MarkAllWindows(l1, records, e);
    }
  }

  lemma RecordsWereAdmitted(c: Library, l: Layer, admitted: seq<Packet>)
    requires Known(l, admitted) && forall p :: p in admitted ==> Admits(l, p)
    ensures forall p :: p in DecryptAll(c, l, admitted).1 ==>
              p.epoch >= l.read && p.epoch in l.epochs && l.epochs[p.epoch].window.MayReceive(p.seqNum)
  {
    hide Window.MayReceive, DecryptAll;
    DecryptSelects(c, l, admitted);
    forall p | p in DecryptAll(c, l, admitted).1
      ensures p.epoch >= l.read && p.epoch in l.epochs && l.epochs[p.epoch].window.MayReceive(p.seqNum)
    {
      var q :| q in admitted && SameHeader(p, q);
      assert Admits(l, q);
    }
  }

  // ---- no record is delivered twice ----

  /** Record number `q` of epoch `e` can no longer be admitted. */
  predicate Gone(l: Layer, e: int, q: int)
    requires Table(l)
  {
    e >= 0 && e in l.epochs && Spent(l.epochs[e].window, q)
  }

  /** Delivery spends the number of every delivered record, for good. */
  lemma StepSpends(c: Library, l: Layer, op: Op, e: int, q: int)
    requires Table(l) && Table(Step(c, l, op))
    requires Gone(l, e, q) || exists p :: p in Delivered(c, l, op) && p.epoch == e && p.seqNum == q
    ensures Gone(Step(c, l, op), e, q)
  {
    if op.Recv? {
      hide Receive, Table, Spent;
      ReceiveDelivers(c, op.g, l, op.buf);
      var records := Receive(c, op.g, l, op.buf).1;
      if p :| p in records && p.epoch == e && p.seqNum == q {
        InNumbers(e, records, p);
      }
      MarksSpend(l.epochs[e].window, NumbersOf(e, records), q);
    } else {
      hide Protected, Spent;
    }
  }

  lemma {:induction false} InNumbers(e: nat, ps: seq<Packet>, p: Packet)
    requires p in ps && p.epoch == e
    ensures p.seqNum in NumbersOf(e, ps)
  {
    var last := |ps| - 1;
    if p != ps[last] {
      assert ps == ps[..last] + [ps[last]];
      InNumbers(e, ps[..last], p);
    }
  }

  lemma {:induction false} RunSpends(c: Library, ops: seq<Op>, i: nat, p: Packet)
    requires i < |ops| && p in Delivered(c, Run(c, FRESH_LAYER, ops[..i]), ops[i])
    ensures Gone(Run(c, FRESH_LAYER, ops), p.epoch, p.seqNum)
    decreases |ops|
  {
    hide Gone, Step, Delivered;
    var last := |ops| - 1;
    var before := Run(c, FRESH_LAYER, ops[..last]);
    StepKeepsTable(c, before, ops[last]);
    if i < last {
      assert ops[..last][..i] == ops[..i];
      RunSpends(c, ops[..last], i, p);
    }
    StepSpends(c, before, ops[last], p.epoch, p.seqNum);
  }

  /** In every run of the record layer, a record delivered by one call of `receive` is never
      delivered by a later one (section 4.1.2.6 of RFC 6347). */
  lemma NoRedelivery(c: Library, ops: seq<Op>, i: nat, j: nat, p: Packet, q: Packet)
    requires i < j < |ops|
    requires p in Delivered(c, Run(c, FRESH_LAYER, ops[..i]), ops[i])
    requires q in Delivered(c, Run(c, FRESH_LAYER, ops[..j]), ops[j])
    ensures (p.epoch, p.seqNum) != (q.epoch, q.seqNum)
  {
    FreshLayerTable();
    hide Receive, Table, Spent, Run;
    assert ops[..j][..i] == ops[..i];
    RunSpends(c, ops[..j], i, p);
    var l := Run(c, FRESH_LAYER, ops[..j]);
    ReceiveDelivers(c, ops[j].g, l, ops[j].buf);
    if p.epoch == q.epoch && p.seqNum == q.seqNum {
      SpentIsRefused(l.epochs[q.epoch].window, q.seqNum);
    }
  }

  /** The records of epoch `e` delivered in a run, in order. */
  ghost function History(c: Library, ops: seq<Op>, e: nat): seq<int>
  {
    if ops == [] then []
    else
      var last := |ops| - 1;
      History(c, ops[..last], e) + NumbersOf(e, Delivered(c, Run(c, FRESH_LAYER, ops[..last]), ops[last]))
  }

  /** Over every run each window is the fresh one marked with exactly the delivered numbers
      of its epoch, in order of delivery. */
  lemma {:induction false} WindowIsHistory(c: Library, ops: seq<Op>, e: nat)
    ensures var l := Run(c, FRESH_LAYER, ops);
            if e in l.epochs then l.epochs[e].window == Marks(FRESH, History(c, ops, e)) else History(c, ops, e) == []
    decreases |ops|
  {
    hide Receive, Window.Mark;
    if ops != [] {
      var last := |ops| - 1;
      var before, op := Run(c, FRESH_LAYER, ops[..last]), ops[last];
      WindowIsHistory(c, ops[..last], e);
      StepKeepsTable(c, before, op);
      var numbers := NumbersOf(e, Delivered(c, before, op));
      StepMarks(c, before, op, e);
      MarksConcat(FRESH, History(c, ops[..last], e), numbers);
      assert History(c, ops, e) == History(c, ops[..last], e) + numbers;
    }
  }

  lemma StepMarks(c: Library, l: Layer, op: Op, e: nat)
    requires Table(l) && Table(Step(c, l, op))
    ensures var m := Step(c, l, op);
            var numbers := NumbersOf(e, Delivered(c, l, op));
            && (e in l.epochs ==>
                  e in m.epochs && l.epochs[e].window.Ok() && m.epochs[e].window == Marks(l.epochs[e].window, numbers))
            && (e !in l.epochs ==> numbers == [] && (e in m.epochs ==> m.epochs[e].window == Marks(FRESH, [])))
  {
    hide Window.Mark;
    if op.Recv? {
      hide Receive;
      ReceiveDelivers(c, op.g, l, op.buf);
      if e !in l.epochs {
        NoNumbers(e, Receive(c, op.g, l, op.buf).1);
      }
    } else {
      hide Protected;
    }
  }

  lemma {:induction false} NoNumbers(e: nat, ps: seq<Packet>)
    requires forall i :: 0 <= i < |ps| ==> ps[i].epoch != e
    ensures NumbersOf(e, ps) == []
  {
    if ps != [] {
      NoNumbers(e, ps[..|ps| - 1]);
    }
  }
}
