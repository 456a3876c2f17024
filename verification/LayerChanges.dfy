/** What the operations of a record layer leave alone in its connection states. */
module LayerChanges {
  import opened Bytes
  import opened Crypto
  import opened Packets
  import opened Protection
  import opened ConnectionStates
  import opened Records
  import R = RecordProofs
  import W = WriteOrder

  // ---- connection states ----

  /** The same parameters; delegates may have been cached, but none that is used has changed. */
  predicate Cached(a: ConnState, b: ConnState) {
    && b == a.(cipher := b.cipher, decipher := b.decipher)
    && b.CipherInUse() == a.CipherInUse() && b.DecipherInUse() == a.DecipherInUse()
  }

  lemma CachedFields(a: ConnState, b: ConnState)
    requires Cached(a, b)
    ensures b.entity == a.entity && b.suite == a.suite && b.keys == a.keys && b.masterSecret == a.masterSecret
    ensures b.clientRandom == a.clientRandom && b.serverRandom == a.serverRandom
    ensures b.CipherInUse() == a.CipherInUse() && b.DecipherInUse() == a.DecipherInUse()
    ensures b.cipher.Some? ==> b.cipher == a.CipherInUse()
    ensures b.decipher.Some? ==> b.decipher == a.DecipherInUse()
  {
  }

  // ---- layers ----

  /** Parameters and delegates in use are kept and epochs that are new have the default ones. */
  ghost predicate Discreet(l: Layer, m: Layer) {
    && (forall e: nat :: e in l.epochs ==> e in m.epochs && Cached(l.epochs[e].conn, m.epochs[e].conn))
    && (forall e: nat :: e in m.epochs && e !in l.epochs ==> Cached(FRESH_STATE, m.epochs[e].conn))
  }

  /** The epoch has not been written in: cipher and counter are as before, or as in a new epoch. */
  predicate Unwritten(l: Layer, m: Layer, e: nat)
    requires e in m.epochs
  {
    && m.epochs[e].conn.cipher == (if e in l.epochs then l.epochs[e].conn.cipher else None)
    && m.epochs[e].writeSeq == if e in l.epochs then l.epochs[e].writeSeq else -1
  }

  /** Discreet, and nothing was written but in the current write epoch, which has not changed. */
  ghost predicate Quiet(l: Layer, m: Layer) {
    && Discreet(l, m) && m.write == l.write
    && forall e: nat :: e in m.epochs && e != l.write ==> Unwritten(l, m, e)
  }

  lemma DiscreetTransitive(a: Layer, b: Layer, d: Layer)
    requires Discreet(a, b) && Discreet(b, d)
    ensures Discreet(a, d)
  {
  }

  lemma DiscreetReflexive(l: Layer)
    ensures Discreet(l, l)
  {
  }

  lemma QuietTransitive(a: Layer, b: Layer, d: Layer)
    requires Quiet(a, b) && Quiet(b, d)
    ensures Quiet(a, d)
  {
    hide Cached;
    DiscreetTransitive(a, b, d);
  }

  lemma QuietReflexive(l: Layer)
    ensures Quiet(l, l)
  {
  }

  // ---- receiving ----

  /** The operation deciphers a record of epoch `e`. */
  ghost predicate Reads(l: Layer, op: R.Op, e: nat) {
    op.Recv? && Among(Filter(l, ParseAll(op.buf, 0, op.g)), e)
  }

  predicate Among(ps: seq<Packet>, e: nat) {
    exists i :: 0 <= i < |ps| && ps[i].epoch == e
  }

  lemma {:induction false} DecryptAllDecipher(c: Library, l: Layer, ps: seq<Packet>, e: nat)
    requires Known(l, ps) && e in l.epochs
    ensures var m := DecryptAll(c, l, ps).0;
            && e in m.epochs
            && m.epochs[e].conn.decipher
               == if Among(ps, e) then l.epochs[e].conn.DecipherInUse() else l.epochs[e].conn.decipher
    decreases |ps|
  {
    hide Decrypt;
    if ps != [] {
      var next := Touch(l, ps[0].epoch);
      DecryptAllDecipher(c, next, ps[1..], e);
      assert Among(ps, e) <==> ps[0].epoch == e || Among(ps[1..], e) by {
        if Among(ps, e) {
          var i :| 0 <= i < |ps| && ps[i].epoch == e;
          assert i > 0 ==> ps[1..][i - 1].epoch == e;
        }
        if Among(ps[1..], e) {
          var i :| 0 <= i < |ps| - 1 && ps[1..][i].epoch == e;
          assert ps[i + 1].epoch == e;
        }
      }
      SeesTheSame(l, ps[0].epoch, e);
    }
  }

  lemma SeesTheSame(l: Layer, read: nat, e: nat)
    requires read in l.epochs && e in l.epochs
    ensures var conn, next := l.epochs[e].conn, Touch(l, read).epochs[e].conn;
            && next.DecipherInUse() == conn.DecipherInUse()
            && next.decipher == if read == e then conn.DecipherInUse() else conn.decipher
  {
  }

  lemma {:induction false} MarkAllKeepsConn(l: Layer, ps: seq<Packet>)
    requires Table(l) && Known(l, ps)
    ensures forall e: nat :: e in l.epochs ==>
              e in MarkAll(l, ps).epochs && MarkAll(l, ps).epochs[e].conn == l.epochs[e].conn
    decreases |ps|
  {
    hide Table;
    if ps != [] {
      MarkKeepsTable(l, ps[0]);
      MarkKeepsConn(l, ps[0]);
      MarkAllKeepsConn(MarkOne(l, ps[0]), ps[1..]);
    }
  }

  lemma MarkKeepsConn(l: Layer, p: Packet)
    requires Table(l) && p.epoch >= 0 && p.epoch in l.epochs
    ensures forall e: nat :: e in l.epochs ==>
              e in MarkOne(l, p).epochs && MarkOne(l, p).epochs[e].conn == l.epochs[e].conn
  {
  }

  /** What receiving does to the connection state of one epoch. */
  lemma ReceiveChanges(c: Library, g: Garbage, l: Layer, buf: bytes, e: nat)
    requires Table(l) && e in l.epochs
    ensures var m := Receive(c, g, l, buf).0;
            && m.read == l.read && m.write == l.write && m.epochs.Keys == l.epochs.Keys
            && m.epochs[e].writeSeq == l.epochs[e].writeSeq
            && var a, b := l.epochs[e].conn, m.epochs[e].conn;
            && b == a.(decipher := if Reads(l, R.Recv(g, buf), e) then a.DecipherInUse() else a.decipher)
  {
    hide Table, ParseAll, Filter, MarkAll, DecryptAll, Among;
    var admitted := Filter(l, ParseAll(buf, 0, g));
    FilterIsKnown(l, ParseAll(buf, 0, g));
    DecryptAllKnown(c, l, admitted);
    R.DecryptKeepsWindows(c, l, admitted);
    DecryptAllDecipher(c, l, admitted, e);
    var (l1, records) := DecryptAll(c, l, admitted);
    R.MarkAllKeepsTable(l1, records);
    MarkAllKeepsConn(l1, records);
    W.MarkAllKeepsCounters(l1, records);
    assert l1.epochs[e].conn == l.epochs[e].conn.(decipher := l1.epochs[e].conn.decipher) by {
      SameButDecipher(l.epochs[e].conn, l1.epochs[e].conn);
    }
  }

  lemma SameButDecipher(a: ConnState, b: ConnState)
    requires b.(decipher := None) == a.(decipher := None)
    ensures b == a.(decipher := b.decipher)
  {
    assert b == b.(decipher := None).(decipher := b.decipher);
    assert a.(decipher := b.decipher) == a.(decipher := None).(decipher := b.decipher);
  }

  lemma ReceiveIsQuiet(c: Library, g: Garbage, l: Layer, buf: bytes)
    requires Table(l)
    ensures var m := Receive(c, g, l, buf).0; Quiet(l, m) && m.read == l.read
  {
    hide Receive, Table, Reads;
    CurrentEpochsExist(l);
    ReceiveChanges(c, g, l, buf, l.read);
    var m := Receive(c, g, l, buf).0;
    forall e: nat | e in l.epochs
      ensures e in m.epochs && Cached(l.epochs[e].conn, m.epochs[e].conn) && Unwritten(l, m, e)
    {
      ReceiveChanges(c, g, l, buf, e);
    }
  }

  // ---- calm operations ----

  /** What the record layer does beside the handshake: receiving and transmitting datagrams,
      following the peer's ChangeCipherSpec, and sending anything but a ChangeCipherSpec. */
  predicate CalmOp(op: R.Op) {
    op.Recv? || op.ReadAdvance? || op.Transmit? || (op.Send? && op.msg.typ != CHANGE_CIPHER_SPEC)
  }

  lemma CalmStep(c: Library, l: Layer, op: R.Op)
    requires Table(l) && CalmOp(op)
    ensures var m := R.Step(c, l, op); Quiet(l, m) && m.read == l.read + if op.ReadAdvance? then 1 else 0
  {
    hide Receive, Protected;
    match op
    case Recv(g, buf) => ReceiveIsQuiet(c, g, l, buf);
    case Send(rnd, msg) => CurrentEpochsExist(l);
    case ReadAdvance =>
    case Transmit(datagram) =>
  }

  /** The decipher delegate of an epoch is cached by reading it and changed by nothing else. */
  lemma CalmDecipher(c: Library, l: Layer, op: R.Op, e: nat)
    requires Table(l) && CalmOp(op) && e in l.epochs
    ensures var m := R.Step(c, l, op);
            && e in m.epochs
            && m.epochs[e].conn.decipher
               == if Reads(l, op, e) then l.epochs[e].conn.DecipherInUse() else l.epochs[e].conn.decipher
  {
    hide Receive, Protected, Among, Table;
    match op
    case Recv(g, buf) => ReceiveChanges(c, g, l, buf, e);
    case Send(rnd, msg) => CurrentEpochsExist(l);
    case ReadAdvance =>
    case Transmit(datagram) =>
  }

  // ---- sending ----

  predicate NoCcs(msgs: seq<Message>) {
    forall i :: 0 <= i < |msgs| ==> msgs[i].typ != CHANGE_CIPHER_SPEC
  }

  lemma {:induction false} SendingIsQuiet(c: Library, rnd: Entropy, l: Layer, msgs: seq<Message>)
    requires Table(l) && NoCcs(msgs)
    ensures var m := OutgoingAll(c, rnd, l, msgs).0; Quiet(l, m) && m.read == l.read
    decreases |msgs|
  {
    hide Outgoing, Table, Quiet;
    if msgs == [] {
      QuietReflexive(l);
    } else {
      CurrentEpochsExist(l);
      OutgoingKeepsTable(c, rnd, l, msgs[0]);
      CalmStep(c, l, R.Send(rnd, msgs[0]));
      var l1 := Outgoing(c, rnd, l, msgs[0]).0;
      SendingIsQuiet(c, rnd, l1, msgs[1..]);
      QuietTransitive(l, l1, OutgoingAll(c, rnd, l1, msgs[1..]).0);
    }
  }

  lemma OutgoingIsDiscreet(c: Library, rnd: Entropy, l: Layer, msg: Message)
    requires Table(l) && l.write in l.epochs
    ensures var m := Outgoing(c, rnd, l, msg).0; Discreet(l, m) && m.read == l.read
  {
    hide Protected;
  }

  /** Sending a flight, ChangeCipherSpec included, keeps the parameters of every epoch. */
  lemma {:induction false} SendingIsDiscreet(c: Library, rnd: Entropy, l: Layer, msgs: seq<Message>)
    requires Table(l)
    ensures var m := OutgoingAll(c, rnd, l, msgs).0; Discreet(l, m) && m.read == l.read
    decreases |msgs|
  {
    hide Outgoing, Table, Discreet;
    if msgs == [] {
      DiscreetReflexive(l);
    } else {
      CurrentEpochsExist(l);
      OutgoingKeepsTable(c, rnd, l, msgs[0]);
      OutgoingIsDiscreet(c, rnd, l, msgs[0]);
      var l1 := Outgoing(c, rnd, l, msgs[0]).0;
      SendingIsDiscreet(c, rnd, l1, msgs[1..]);
      DiscreetTransitive(l, l1, OutgoingAll(c, rnd, l1, msgs[1..]).0);
    }
  }
}
