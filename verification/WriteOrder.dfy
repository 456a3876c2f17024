/** The numbering of outgoing records over whole runs (section 4.1 of RFC 6347). */
module WriteOrder {
  import opened Bytes
  import opened BitConverter
  import opened Crypto
  import opened Packets
  import opened Protection
  import opened AntiReplay
  import opened Records
  import opened RecordProofs

  type Number = (nat, int)

  /** The (epoch, sequence number) pairs taken by a run, in order. */
  ghost function Taken(c: Library, ops: seq<Op>): seq<Number> {
    if ops == [] then []
    else
      var last := |ops| - 1;
      var l := Run(c, FRESH_LAYER, ops[..last]);
      CurrentEpochsExist(l);
      Taken(c, ops[..last]) + if ops[last].Send? then [(l.write, Plain(l, ops[last].msg).seqNum)] else []
  }

  function CountOf(ns: seq<Number>, e: nat): nat {
    if ns == [] then 0 else CountOf(ns[..|ns| - 1], e) + if ns[|ns| - 1].0 == e then 1 else 0
  }

  predicate Before(a: Number, b: Number) {
    a.0 < b.0 || (a.0 == b.0 && a.1 < b.1)
  }

  /** Each record has the next number of its epoch, and epochs never go back. */
  ghost predicate Ordered(ns: seq<Number>) {
    && (forall i, j :: 0 <= i < j < |ns| ==> Before(ns[i], ns[j]))
    && (forall i :: 0 <= i < |ns| ==> ns[i].1 == CountOf(ns[..i], ns[i].0))
  }

  /** The counters of a layer agree with the numbers taken so far. */
  ghost predicate Agrees(l: Layer, ns: seq<Number>) {
    && (forall e: nat :: e in l.epochs ==> l.epochs[e].writeSeq + 1 == CountOf(ns, e))
    && (forall i :: 0 <= i < |ns| ==> ns[i].0 <= l.write && ns[i].1 < CountOf(ns, ns[i].0))
  }

  lemma {:induction false} NoneLater(ns: seq<Number>, e: nat)
    requires forall i :: 0 <= i < |ns| ==> ns[i].0 < e
    ensures CountOf(ns, e) == 0
  {
    if ns != [] {
      NoneLater(ns[..|ns| - 1], e);
    }
  }

  /** Operations other than sending leave the counters alone. */
  lemma QuietStep(c: Library, l: Layer, op: Op)
    requires Table(l) && !op.Send?
    ensures var m := Step(c, l, op);
            && m.write >= l.write
            && (forall e: nat :: e in m.epochs ==>
                  if e in l.epochs then m.epochs[e].writeSeq == l.epochs[e].writeSeq
                  else e > l.write && m.epochs[e].writeSeq == -1)
  {
    if op.Recv? {
      hide Filter, ParseAll, MarkAll, DecryptAll, Table;
      var admitted := Filter(l, ParseAll(op.buf, 0, op.g));
      FilterIsKnown(l, ParseAll(op.buf, 0, op.g));
      DecryptAllKnown(c, l, admitted);
      DecryptKeepsWindows(c, l, admitted);
      var (l1, records) := DecryptAll(c, l, admitted);
      MarkAllKeepsTable(l1, records);
      MarkAllKeepsCounters(l1, records);
    }
  }

  lemma {:induction false} MarkAllKeepsCounters(l: Layer, ps: seq<Packet>)
    requires Table(l) && Known(l, ps)
    ensures forall e: nat :: e in l.epochs ==>
              e in MarkAll(l, ps).epochs && MarkAll(l, ps).epochs[e].writeSeq == l.epochs[e].writeSeq
    decreases |ps|
  {
    hide Table, Window.Mark;
    if ps != [] {
      MarkKeepsTable(l, ps[0]);
      MarkAllKeepsCounters(MarkOne(l, ps[0]), ps[1..]);
    }
  }

  lemma SendingStep(c: Library, l: Layer, op: Op)
    requires Table(l) && op.Send?
    ensures l.write in l.epochs
    ensures var m := Step(c, l, op);
            && m.write >= l.write
            && (forall e: nat :: e in m.epochs ==>
                  if e == l.write then m.epochs[e].writeSeq == l.epochs[e].writeSeq + 1
                  else if e in l.epochs then m.epochs[e].writeSeq == l.epochs[e].writeSeq
                  else e > l.write && m.epochs[e].writeSeq == -1)
  {
    hide Protected;
    CurrentEpochsExist(l);
  }

  lemma {:induction false} Invariant(c: Library, ops: seq<Op>)
    ensures Ordered(Taken(c, ops)) && Agrees(Run(c, FRESH_LAYER, ops), Taken(c, ops))
  {
    FreshLayerTable();
    hide Step, Table;
    if ops == [] {
      assert Agrees(FRESH_LAYER, []);
    } else {
      var last := |ops| - 1;
      var l, op, ns := Run(c, FRESH_LAYER, ops[..last]), ops[last], Taken(c, ops[..last]);
      Invariant(c, ops[..last]);
      StepKeepsTable(c, l, op);
      if op.Send? {
        SendingStep(c, l, op);
        CurrentEpochsExist(l);
        Appends(l, Step(c, l, op), ns);
      } else {
        QuietStep(c, l, op);
        Stays(l, Step(c, l, op), ns);
        assert Taken(c, ops) == ns;
      }
    }
  }

  lemma Stays(l: Layer, m: Layer, ns: seq<Number>)
    requires Agrees(l, ns) && m.write >= l.write
    requires forall e: nat :: e in m.epochs ==>
               if e in l.epochs then m.epochs[e].writeSeq == l.epochs[e].writeSeq
               else e > l.write && m.epochs[e].writeSeq == -1
    ensures Agrees(m, ns)
  {
    forall e: nat | e in m.epochs
      ensures m.epochs[e].writeSeq + 1 == CountOf(ns, e)
    {
      if e !in l.epochs {
        NoneLater(ns, e);
      }
    }
  }

  lemma Appends(l: Layer, m: Layer, ns: seq<Number>)
    requires l.write in l.epochs && Agrees(l, ns) && Ordered(ns) && m.write >= l.write
    requires forall e: nat :: e in m.epochs ==>
               if e == l.write then m.epochs[e].writeSeq == l.epochs[e].writeSeq + 1
               else if e in l.epochs then m.epochs[e].writeSeq == l.epochs[e].writeSeq
               else e > l.write && m.epochs[e].writeSeq == -1
    ensures var next := ns + [(l.write, l.epochs[l.write].writeSeq + 1)]; Ordered(next) && Agrees(m, next)
  {
    var n := (l.write, l.epochs[l.write].writeSeq + 1);
    var next := ns + [n];
    assert next[..|ns|] == ns;
    forall e: nat
      ensures CountOf(next, e) == CountOf(ns, e) + if e == l.write then 1 else 0
    {
    }
    forall e: nat | e in m.epochs
      ensures m.epochs[e].writeSeq + 1 == CountOf(next, e)
    {
      if e !in l.epochs {
        NoneLater(ns, e);
      }
    }
    forall i | 0 <= i < |next|
      ensures next[i].1 == CountOf(next[..i], next[i].0)
    {
      if i < |ns| {
        assert next[..i] == ns[..i];
      }
    }
  }

  /** In every run the numbers taken increase strictly, and within each epoch they are
      0, 1, 2, ... without a gap. */
  lemma TakenInOrder(c: Library, ops: seq<Op>, i: nat, j: nat)
    requires i < j < |Taken(c, ops)|
    ensures var ns := Taken(c, ops);
            && Before(ns[i], ns[j])
            && ns[i].1 == CountOf(ns[..i], ns[i].0) && ns[j].1 == CountOf(ns[..j], ns[j].0)
  {
    Invariant(c, ops);
  }

  /** Below 2^32 records in each of fewer than 2^16 epochs no two records carry the same
      number on the wire, although the codec keeps only 32 bits of it. */
  lemma DistinctOnTheWire(c: Library, ops: seq<Op>, i: nat, j: nat, p: Packet, q: Packet)
    requires i < j < |Taken(c, ops)|
    requires (p.epoch, p.seqNum) == Taken(c, ops)[i] && (q.epoch, q.seqNum) == Taken(c, ops)[j]
    requires p.epoch < 65536 && q.epoch < 65536 && p.seqNum < TWO32 && q.seqNum < TWO32
    ensures (Wire(p).epoch, Wire(p).seqNum) != (Wire(q).epoch, Wire(q).seqNum)
  {
    TakenInOrder(c, ops, i, j);
    Small(p.epoch, 65536);
    Small(q.epoch, 65536);
    Small(p.seqNum, TWO32);
    Small(q.seqNum, TWO32);
  }

  /** A record, protected or not, carries on the wire the type of its message, the version of its epoch
      and the number that was taken for it. */
  lemma EmittedNumber(c: Library, rnd: Entropy, l: Layer, msg: Message)
    requires Table(l) && l.write in l.epochs && Protected(c, rnd, l, msg).Some?
    ensures var p, e := Protected(c, rnd, l, msg).value, l.epochs[l.write];
            && Outgoing(c, rnd, l, msg).1 == Some(Print(p))
            && p.typ == msg.typ && p.epoch == l.write && p.seqNum == e.writeSeq + 1
            && p.major == e.conn.major && p.minor == e.conn.minor
  {
    var conn := l.epochs[l.write].conn;
    if !conn.suite.value.kind.NullCipher? {
      var d := conn.CipherInUse().value;
      EncryptKeepsHeader(c, d, Plain(l, msg),
                         Draw(rnd, l.write, l.epochs[l.write].writeSeq + 1, RecordIvLength(d.suite)));
    }
  }

  /** A record of an epoch with a cipher starts with random bytes that are drawn for it alone, as many as
      its cipher asks for: the one that is cached, or else the one of the suite. */
  lemma IvIsDrawn(c: Library, rnd: Entropy, l: Layer, msg: Message, i: nat)
    requires l.write in l.epochs && Protected(c, rnd, l, msg).Some?
    ensures var e, f := l.epochs[l.write], Protected(c, rnd, l, msg).value.fragment;
            && e.conn.suite.Some?
            && var used := if e.conn.cipher.Some? then e.conn.cipher.value.suite else e.conn.suite.value;
            var length := match used.kind
              case NullCipher => 0
              case BlockCipher(p, _) => p.recordIvLength
              case AeadCipher(p) => p.recordIvLength;
            && (e.conn.suite.value.kind.NullCipher? || used.kind.NullCipher? ==> f == msg.data)
            && (!e.conn.suite.value.kind.NullCipher? && i < length ==>
                  |f| >= length && f[i] == rnd(l.write, e.writeSeq + 1, i))
  {
  }

  /** The first record after a ChangeCipherSpec is record 0 of the epoch it opened; so is a
      Finished, which the handshake always sends right behind its ChangeCipherSpec. */
  lemma RecordAfterChangeCipherSpec(c: Library, ops: seq<Op>, rnd: Entropy, ccs: Message, msg: Message)
    requires ccs.typ == CHANGE_CIPHER_SPEC
    ensures var l := Run(c, FRESH_LAYER, ops);
            l.write in l.epochs &&
            var m := Outgoing(c, rnd, l, ccs).0;
            Outgoing(c, rnd, l, ccs).1.Some? ==>
              && m.write == l.write + 1 && m.write in m.epochs
              && Plain(m, msg).epoch == l.write + 1 && Plain(m, msg).seqNum == 0
  {
    var l, ns := Run(c, FRESH_LAYER, ops), Taken(c, ops);
    CurrentEpochsExist(l);
    Invariant(c, ops);
    NoneLater(ns, l.write + 1);
    FirstOfNextEpoch(c, rnd, l, ccs, msg);
  }

  lemma FirstOfNextEpoch(c: Library, rnd: Entropy, l: Layer, ccs: Message, msg: Message)
    requires Table(l) && l.write in l.epochs && l.write + 1 in l.epochs && ccs.typ == CHANGE_CIPHER_SPEC
    ensures var m := Outgoing(c, rnd, l, ccs).0;
            Outgoing(c, rnd, l, ccs).1.Some? ==>
              && m.write == l.write + 1 && m.write in m.epochs
              && Plain(m, msg).epoch == l.write + 1
              && Plain(m, msg).seqNum == l.epochs[l.write + 1].writeSeq + 1
  {
    hide Protected;
  }
}
