/** Flights that are sent in the clear, record by record. */
module ClearFlights {
  import opened Bytes
  import opened BitConverter
  import opened Crypto
  import opened Packets
  import opened ConnectionStates
  import opened AntiReplay
  import opened Records
  import opened LayerChanges
  import opened Transfer

  /** The records for some messages in a plain write epoch: its next numbers, the data as it is. */
  function ClearRecords(l: Layer, msgs: seq<Message>): seq<Packet>
    requires l.write in l.epochs
  {
    var e := l.epochs[l.write];
    seq(|msgs|, i requires 0 <= i < |msgs| =>
      Packet(msgs[i].typ, e.conn.major, e.conn.minor, l.write, e.writeSeq + 1 + i, msgs[i].data))
  }

  /** The layer after `n` numbers of the write epoch were taken. */
  function Counted(l: Layer, n: nat): Layer
    requires l.write in l.epochs
  {
    l.(epochs := l.epochs[l.write := l.epochs[l.write].(writeSeq := l.epochs[l.write].writeSeq + n)])
  }

  /** A plain epoch sends a message as it is, with the next number. */
  lemma PlainIsSent(c: Library, rnd: Entropy, l: Layer, msg: Message)
    requires Table(l) && l.write in l.epochs && l.epochs[l.write].conn.suite == Some(NULL_SUITE)
    ensures Protected(c, rnd, l, msg) == Some(Plain(l, msg))
    ensures msg.typ != CHANGE_CIPHER_SPEC ==> Outgoing(c, rnd, l, msg) == (Numbered(l), Some(Print(Plain(l, msg))))
    ensures msg.typ == CHANGE_CIPHER_SPEC ==>
              Outgoing(c, rnd, l, msg) == (AdvanceWrite(Numbered(l)), Some(Print(Plain(l, msg))))
    ensures Numbered(l) == Counted(l, 1)
  {
  }

  /** In the clear a flight is never lost: the datagram consists of exactly its records. */
  lemma {:induction false} ClearDatagram(c: Library, rnd: Entropy, l: Layer, msgs: seq<Message>)
    requires Table(l) && NoCcs(msgs) && l.write in l.epochs && l.epochs[l.write].conn.suite == Some(NULL_SUITE)
    ensures OutgoingAll(c, rnd, l, msgs) == (Counted(l, |msgs|), Some(PrintAll(ClearRecords(l, msgs))))
    decreases |msgs|
  {
    hide Table, Print, Outgoing, Plain;
    if msgs == [] {
      assert Counted(l, 0) == l by {
        NothingCounted(l);
      }
    } else {
      PlainIsSent(c, rnd, l, msgs[0]);
      OutgoingKeepsTable(c, rnd, l, msgs[0]);
      var next := Counted(l, 1);
      ClearDatagram(c, rnd, next, msgs[1..]);
      FirstClearRecord(l, msgs);
      CountedOn(l, |msgs| - 1);
    }
  }

  lemma NothingCounted(l: Layer)
    requires l.write in l.epochs
    ensures Counted(l, 0) == l
  {
    assert l.epochs[l.write := l.epochs[l.write]] == l.epochs;
  }

  lemma CountedOn(l: Layer, n: nat)
    requires l.write in l.epochs
    ensures Counted(Counted(l, 1), n) == Counted(l, 1 + n)
  {
    assert Counted(Counted(l, 1), n).epochs == Counted(l, 1 + n).epochs;
  }

  lemma FirstClearRecord(l: Layer, msgs: seq<Message>)
    requires l.write in l.epochs && msgs != []
    ensures ClearRecords(l, msgs)[0] == Plain(l, msgs[0])
    ensures ClearRecords(l, msgs)[1..] == ClearRecords(Counted(l, 1), msgs[1..])
  {
  }

  /** The records can be admitted by a receiver that still reads epoch 0. */
  predicate Welcome(r: Layer, ps: seq<Packet>)
    requires 0 in r.epochs
  {
    forall i :: 0 <= i < |ps| ==>
      && ps[i].epoch == 0 && 0 <= ps[i].typ < 256 && |ps[i].fragment| <= MAX_FRAGMENT
      && Free(r.epochs[0].window, ps[i].seqNum)
  }

  /** Records in the clear arrive at a receiver that does not protect epoch 0. */
  lemma ClearArrives(c: Library, g: Garbage, r: Layer, ps: seq<Packet>)
    requires Table(r) && r.read == 0 && 0 in r.epochs && Welcome(r, ps)
    requires r.epochs[0].conn.DecipherInUse().Some? && r.epochs[0].conn.DecipherInUse().value.suite.kind.NullCipher?
    ensures Receive(c, g, r, PrintAll(ps)).1 == WireAll(ps)
    ensures Filter(r, ParseAll(PrintAll(ps), 0, g)) == WireAll(ps)
    ensures Messages(WireAll(ps)) == seq(|ps|, i requires 0 <= i < |ps| => Message(ps[i].typ, ps[i].fragment))
    ensures forall i :: 0 <= i < |ps| ==> WireAll(ps)[i].epoch == 0 && WireAll(ps)[i].seqNum == ps[i].seqNum
  {
    hide ParseAll, DecryptAll, MarkAll, Table, Print, Filter, Window.MayReceive, Admits, DecryptOne, Wire, PrintAll;
    ParsesAll(ps, [], g);
    assert [] + PrintAll(ps) == PrintAll(ps);
    var arrived := WireAll(ps);
    forall i | 0 <= i < |ps|
      ensures arrived[i].epoch == 0 && arrived[i].seqNum == ps[i].seqNum
      ensures Admits(r, arrived[i]) && DecryptOne(c, r, arrived[i]) == Some(arrived[i])
      ensures MessageOf(arrived[i]) == Message(ps[i].typ, ps[i].fragment)
    {
      OneIsWelcome(c, r, ps[i]);
    }
    FilterKeepsAll(r, arrived);
    FilterIsKnown(r, arrived);
    DecryptsAll(c, r, arrived, arrived);
  }

  lemma OneIsWelcome(c: Library, r: Layer, p: Packet)
    requires Table(r) && r.read == 0 && 0 in r.epochs && p.epoch == 0 && 0 <= p.typ < 256
             && Free(r.epochs[0].window, p.seqNum)
    requires r.epochs[0].conn.DecipherInUse().Some? && r.epochs[0].conn.DecipherInUse().value.suite.kind.NullCipher?
    ensures Wire(p).epoch == 0 && Admits(r, Wire(p)) && DecryptOne(c, r, Wire(p)) == Some(Wire(p))
    ensures Wire(p).seqNum == p.seqNum && MessageOf(Wire(p)) == Message(p.typ, p.fragment)
  {
    hide Window.MayReceive, Table;
    TableSize(r);
    Small(p.typ, 256);
    Small(p.seqNum, TWO32);
  }
}
