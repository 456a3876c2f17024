/** A flight written by one record layer is read by another as the same messages. */
module Transfer {
  import opened Bytes
  import opened BitConverter
  import opened Crypto
  import opened Packets
  import opened Protection
  import opened ConnectionStates
  import opened AntiReplay
  import opened Records

  /** The receiver's delegate for an epoch undoes the sender's. */
  ghost predicate Joined(s: ConnState, r: ConnState) {
    && s.suite.Some? && r.DecipherInUse().Some?
    && var rd := r.DecipherInUse().value;
       if s.suite.value.kind.NullCipher? then rd.suite.kind.NullCipher?
       else
         && s.CipherInUse().Some?
         && var d := s.CipherInUse().value;
            || (d.suite.kind.NullCipher? && rd.suite.kind.NullCipher?)
            || (d.keys.Some? && rd == Delegate(d.suite, d.keys, Peer(d.end)))
  }

  /** Epoch `e` can carry `n` more records: the receiver knows the epoch and has not left it,
      the keys match, and the numbers to come are unmarked, near enough and below 2^32. */
  ghost predicate Channel(s: Layer, r: Layer, e: nat, n: nat) {
    && e in s.epochs && e in r.epochs && r.read <= e < 65536
    && Joined(s.epochs[e].conn, r.epochs[e].conn)
    && forall q: int :: s.epochs[e].writeSeq < q <= s.epochs[e].writeSeq + n ==> Free(r.epochs[e].window, q)
  }

  predicate Free(w: Window, q: int) {
    0 <= q < TWO32 && w.MayReceive(q)
  }

  predicate IsCcs(m: Message) {
    m.typ == CHANGE_CIPHER_SPEC
  }

  /** Every record of the flight stays within the length limit of a ciphertext. */
  ghost predicate Fits(c: Library, rnd: Entropy, s: Layer, msgs: seq<Message>)
    requires Table(s)
    decreases |msgs|
  {
    msgs == [] ||
    (CurrentEpochsExist(s);
     OutgoingKeepsTable(c, rnd, s, msgs[0]);
     && (Protected(c, rnd, s, msgs[0]).Some? ==> |Protected(c, rnd, s, msgs[0]).value.fragment| <= MAX_FRAGMENT)
     && Fits(c, rnd, Outgoing(c, rnd, s, msgs[0]).0, msgs[1..]))
  }

  ghost predicate Ready(c: Library, rnd: Entropy, s: Layer, r: Layer, msgs: seq<Message>) {
    && Table(s) && Table(r)
    && Channel(s, r, s.write, |msgs|)
    && ((exists m :: m in msgs && IsCcs(m)) ==> Channel(s, r, s.write + 1, |msgs|))
    && (forall i, j :: 0 <= i < j < |msgs| ==> !(IsCcs(msgs[i]) && IsCcs(msgs[j])))
    && (forall m :: m in msgs ==> 0 <= m.typ < 256)
    && Fits(c, rnd, s, msgs)
  }

  lemma JoinedRecord(c: Library, rnd: Entropy, s: Layer, r: ConnState, msg: Message)
    requires c.Lawful() && s.write in s.epochs && Joined(s.epochs[s.write].conn, r)
    ensures var sent := Protected(c, rnd, s, msg);
            && sent.Some?
            && sent.value == Plain(s, msg).(fragment := sent.value.fragment)
            && Decrypt(c, r.DecipherInUse().value, Wire(sent.value)) == Some(Wire(Plain(s, msg)))
  {
    hide BlockEncrypt, BlockDecrypt, AeadEncrypt, AeadDecrypt, Library.Lawful;
    var conn, p := s.epochs[s.write].conn, Plain(s, msg);
    if !conn.suite.value.kind.NullCipher? {
      var d := conn.CipherInUse().value;
      if !d.suite.kind.NullCipher? {
        var iv := Draw(rnd, p.epoch, p.seqNum, RecordIvLength(d.suite));
        ProtectionRoundTrip(c, d.suite, d.keys.value, d.end, p, iv);
      }
    }
  }

  /** Reading `Cipher` once does not change what it returns later. */
  lemma StaysJoined(s: ConnState, r: ConnState)
    requires Joined(s, r)
    ensures Joined(s.(cipher := s.CipherInUse()), r)
  {
  }

  lemma NextIsReady(c: Library, rnd: Entropy, s: Layer, r: Layer, msgs: seq<Message>)
    requires msgs != [] && Ready(c, rnd, s, r, msgs) && s.write in s.epochs
    requires Protected(c, rnd, s, msgs[0]).Some?
    ensures Ready(c, rnd, Outgoing(c, rnd, s, msgs[0]).0, r, msgs[1..])
  {
    hide Protected, Free, Joined;
    OutgoingKeepsTable(c, rnd, s, msgs[0]);
    CurrentEpochsExist(s);
    StaysJoined(s.epochs[s.write].conn, r.epochs[s.write].conn);
    var s1, rest := Outgoing(c, rnd, s, msgs[0]).0, msgs[1..];
    assert forall m :: m in rest ==> m in msgs;
    if IsCcs(msgs[0]) {
      assert forall m :: m in rest ==> !IsCcs(m);
      NextEpochChannel(c, rnd, s, r, msgs[0], |msgs|);
    } else {
      SameEpochChannel(c, rnd, s, r, msgs[0], |msgs|);
    }
  }

  lemma NextEpochChannel(c: Library, rnd: Entropy, s: Layer, r: Layer, msg: Message, n: nat)
    requires Table(s) && s.write in s.epochs && n > 0 && IsCcs(msg) && Protected(c, rnd, s, msg).Some?
    requires Channel(s, r, s.write + 1, n)
    ensures var s1 := Outgoing(c, rnd, s, msg).0; Channel(s1, r, s1.write, n - 1)
  {
    hide Protected, Free, Joined;
    var s1 := Outgoing(c, rnd, s, msg).0;
    assert s1.write == s.write + 1 && s1.epochs[s.write + 1] == s.epochs[s.write + 1];
    ShorterChannel(s, s1, r, s.write + 1, n, 0);
  }

  /** A channel stays one for fewer records, also after some of them were sent. */
  lemma ShorterChannel(s: Layer, s1: Layer, r: Layer, e: nat, n: nat, used: nat)
    requires used <= 1 <= n && Channel(s, r, e, n) && e in s1.epochs
    requires s1.epochs[e].writeSeq == s.epochs[e].writeSeq + used
    requires Joined(s1.epochs[e].conn, r.epochs[e].conn)
    ensures Channel(s1, r, e, n - 1)
  {
    hide Joined, Free;
  }

  lemma SameEpochChannel(c: Library, rnd: Entropy, s: Layer, r: Layer, msg: Message, n: nat)
    requires Table(s) && s.write in s.epochs && n > 0 && !IsCcs(msg) && Protected(c, rnd, s, msg).Some?
    requires Channel(s, r, s.write, n)
    ensures var s1 := Outgoing(c, rnd, s, msg).0;
            && s1.write == s.write && Channel(s1, r, s1.write, n - 1)
            && (Channel(s, r, s.write + 1, n) ==> Channel(s1, r, s1.write + 1, n - 1))
  {
    hide Protected, Free, Joined;
    StaysJoined(s.epochs[s.write].conn, r.epochs[s.write].conn);
    var s1 := Outgoing(c, rnd, s, msg).0;
    ShorterChannel(s, s1, r, s.write, n, 1);
    if Channel(s, r, s.write + 1, n) {
      ShorterChannel(s, s1, r, s.write + 1, n, 0);
    }
  }

  // ---- the sender's side ----

  function PrintAll(ps: seq<Packet>): bytes {
    if ps == [] then [] else Print(ps[0]) + PrintAll(ps[1..])
  }

  /** Record `sent` will be admitted by `r` and decipher to `plain`, which carries `msg`. */
  ghost predicate Carries(c: Library, r: Layer, msg: Message, plain: Packet, sent: Packet) {
    && |sent.fragment| <= MAX_FRAGMENT
    && Admits(r, Wire(sent))
    && DecryptOne(c, r, Wire(sent)) == Some(Wire(plain))
    && MessageOf(Wire(plain)) == msg
  }

  lemma HeadIsCarried(c: Library, rnd: Entropy, s: Layer, r: Layer, msgs: seq<Message>)
    requires c.Lawful() && msgs != [] && Ready(c, rnd, s, r, msgs) && s.write in s.epochs
    ensures Protected(c, rnd, s, msgs[0]).Some?
    ensures Carries(c, r, msgs[0], Plain(s, msgs[0]), Protected(c, rnd, s, msgs[0]).value)
  {
    hide Protected, Window.MayReceive, Decrypt;
    JoinedRecord(c, rnd, s, r.epochs[s.write].conn, msgs[0]);
    var sent := Protected(c, rnd, s, msgs[0]).value;
    assert Free(r.epochs[s.write].window, s.epochs[s.write].writeSeq + 1);
    Small(sent.epoch, 65536);
    Small(sent.seqNum, TWO32);
    Small(msgs[0].typ, 256);
    TableSize(r);
    assert msgs[0] in msgs;
  }

  lemma {:induction false} SendsAll(c: Library, rnd: Entropy, s: Layer, r: Layer, msgs: seq<Message>)
    returns (plain: seq<Packet>, sent: seq<Packet>)
    requires c.Lawful() && Ready(c, rnd, s, r, msgs)
    ensures |plain| == |sent| == |msgs|
    ensures OutgoingAll(c, rnd, s, msgs).1 == Some(PrintAll(sent))
    ensures forall i :: 0 <= i < |msgs| ==> Carries(c, r, msgs[i], plain[i], sent[i])
    decreases |msgs|
  {
    hide Ready, Protected, Carries, Print;
    if msgs == [] {
      plain, sent := [], [];
    } else {
      assert Table(s) by {
        ReadyHasTable(c, rnd, s, r, msgs);
      }
      CurrentEpochsExist(s);
      HeadIsCarried(c, rnd, s, r, msgs);
      NextIsReady(c, rnd, s, r, msgs);
      plain, sent := SendsAll(c, rnd, Outgoing(c, rnd, s, msgs[0]).0, r, msgs[1..]);
      plain, sent := [Plain(s, msgs[0])] + plain, [Protected(c, rnd, s, msgs[0]).value] + sent;
    }
  }

  lemma ReadyHasTable(c: Library, rnd: Entropy, s: Layer, r: Layer, msgs: seq<Message>)
    requires Ready(c, rnd, s, r, msgs)
    ensures Table(s) && Table(r)
  {
  }

  // ---- the receiver's side ----

  function WireAll(ps: seq<Packet>): seq<Packet> {
    seq(|ps|, i requires 0 <= i < |ps| => Wire(ps[i]))
  }

  /** The parse loop recovers every record boundary. */
  lemma {:induction false} ParsesAll(ps: seq<Packet>, pre: bytes, g: Garbage)
    requires forall i :: 0 <= i < |ps| ==> |ps[i].fragment| <= MAX_FRAGMENT
    ensures ParseAll(pre + PrintAll(ps), |pre|, g) == WireAll(ps)
    decreases |ps|
  {
    hide Print, Parse;
    if ps != [] {
      var head, tail := Print(ps[0]), PrintAll(ps[1..]);
      ParsePrinted(ps[0], pre, tail, g);
      PacketLength(ps[0]);
      assert pre + (head + tail) == pre + head + tail;
      ParsesAll(ps[1..], pre + head, g);
      assert WireAll(ps) == [Wire(ps[0])] + WireAll(ps[1..]);
    }
  }

  /** Bytes behind the last record that are too few for another header are ignored; the records in
      front of them are not lost. */
  lemma {:induction false} TailIsIgnored(ps: seq<Packet>, pre: bytes, tail: bytes, g: Garbage)
    requires (forall i :: 0 <= i < |ps| ==> |ps[i].fragment| <= MAX_FRAGMENT) && |tail| < 13
    ensures ParseAll(pre + PrintAll(ps) + tail, |pre|, g) == WireAll(ps)
    decreases |ps|
  {
    hide Print, Parse;
    if ps == [] {
      assert pre + [] + tail == pre + tail;
      ParseLayout(pre + tail, |pre|, g);
    } else {
      var head, rest := Print(ps[0]), PrintAll(ps[1..]);
      ParsePrinted(ps[0], pre, rest + tail, g);
      PacketLength(ps[0]);
      assert pre + (head + rest) + tail == pre + head + (rest + tail) == (pre + head) + rest + tail;
      TailIsIgnored(ps[1..], pre + head, tail, g);
      assert WireAll(ps) == [Wire(ps[0])] + WireAll(ps[1..]);
    }
  }

  lemma {:induction false} FilterKeepsAll(l: Layer, ps: seq<Packet>)
    requires forall i :: 0 <= i < |ps| ==> Admits(l, ps[i])
    ensures Filter(l, ps) == ps
  {
    if ps != [] {
      FilterKeepsAll(l, ps[1..]);
    }
  }

  /** Caching a decipher delegate does not change what any record deciphers to. */
  lemma TouchKeepsDecryption(c: Library, l: Layer, e: nat, p: Packet)
    requires e in l.epochs && p.epoch >= 0 && p.epoch in l.epochs
    ensures DecryptOne(c, Touch(l, e), p) == DecryptOne(c, l, p)
  {
    hide Decrypt;
  }

  lemma {:induction false} DecryptsAll(c: Library, l: Layer, ps: seq<Packet>, out: seq<Packet>)
    requires Known(l, ps) && |out| == |ps|
    requires forall i :: 0 <= i < |ps| ==> DecryptOne(c, l, ps[i]) == Some(out[i])
    ensures DecryptAll(c, l, ps).1 == out
    decreases |ps|
  {
    hide Decrypt, DecryptOne;
    if ps != [] {
      var next := Touch(l, ps[0].epoch);
      forall i | 0 <= i < |ps|
        ensures DecryptOne(c, next, ps[i]) == Some(out[i])
      {
        TouchKeepsDecryption(c, l, ps[0].epoch, ps[i]);
      }
      DecryptsAll(c, next, ps[1..], out[1..]);
      assert out == [out[0]] + out[1..];
    }
  }

  /** End to end: a flight with at most one ChangeCipherSpec, written into one datagram, is
      returned by the peer's `receive` as exactly the same messages in the same order. */
  lemma FlightTransfer(c: Library, rnd: Entropy, s: Layer, r: Layer, msgs: seq<Message>, g: Garbage)
    requires c.Lawful() && Ready(c, rnd, s, r, msgs)
    ensures var (s1, datagram) := OutgoingAll(c, rnd, s, msgs);
            && datagram.Some?
            && SendFlight(c, rnd, s, msgs) == (s1.(sent := s1.sent + [datagram.value]), true)
            && Messages(Receive(c, g, r, datagram.value).1) == msgs
  {
    hide Ready, OutgoingAll, ParseAll, Filter, DecryptAll, MarkAll, Table;
    ReadyHasTable(c, rnd, s, r, msgs);
    var plain, sent := SendsAll(c, rnd, s, r, msgs);
    ParsesAll(sent, [], g);
    assert [] + PrintAll(sent) == PrintAll(sent);
    var arrived := WireAll(sent);
    FilterKeepsAll(r, arrived);
    FilterIsKnown(r, arrived);
    DecryptsAll(c, r, arrived, WireAll(plain));
  }

  function Copies<T>(x: T, n: nat): seq<T> {
    seq(n, _ => x)
  }

  /** De-duplication does not hold inside one datagram, which is filtered as a whole before any
      record is marked: a record that would be delivered is delivered as often as it is repeated. */
  lemma RepeatedInOneDatagram(c: Library, r: Layer, msg: Message, plain: Packet, sent: Packet, n: nat, g: Garbage)
    requires Table(r) && Carries(c, r, msg, plain, sent)
    ensures Messages(Receive(c, g, r, PrintAll(Copies(sent, n))).1) == Copies(msg, n)
  {
    hide ParseAll, Filter, DecryptAll, MarkAll, Table, Admits, PrintAll, DecryptOne;
    var datagram := PrintAll(Copies(sent, n));
    ParsesAll(Copies(sent, n), [], g);
    assert [] + datagram == datagram;
    var arrived := WireAll(Copies(sent, n));
    FilterKeepsAll(r, arrived);
    FilterIsKnown(r, arrived);
    DecryptsAll(c, r, arrived, Copies(Wire(plain), n));
  }

  // ---- what one datagram delivers ----

  /** What becomes of a record in the state the datagram meets. */
  function Delivery(c: Library, l: Layer, p: Packet): (r: Option<Packet>)
    ensures r.Some? ==> (r.value.epoch, r.value.seqNum) == (p.epoch, p.seqNum)
  {
    if Admits(l, p) then DecryptOne(c, l, p) else None
  }

  /** The records of a datagram that are admitted and decipher. */
  function Deliverable(c: Library, l: Layer, ps: seq<Packet>): seq<Packet> {
    if ps == [] then [] else (if Delivery(c, l, ps[0]).Some? then [ps[0]] else []) + Deliverable(c, l, ps[1..])
  }

  lemma {:induction false} PipelineIsPointwise(c: Library, l: Layer, now: Layer, ps: seq<Packet>)
    requires Known(now, Filter(l, ps))
    requires forall p :: p in ps && Admits(l, p) ==>
               p.epoch in now.epochs && DecryptOne(c, now, p) == DecryptOne(c, l, p)
    ensures var out, from := DecryptAll(c, now, Filter(l, ps)).1, Deliverable(c, l, ps);
            |out| == |from| && forall i :: 0 <= i < |out| ==> Some(out[i]) == Delivery(c, l, from[i])
    decreases |ps|
  {
    hide Admits, DecryptOne;
    AdmittedAreKnown(l);
    if ps != [] {
      var rest := ps[1..];
      assert forall p :: p in rest ==> p in ps;
      if Admits(l, ps[0]) {
        var next := Touch(now, ps[0].epoch);
        assert Filter(l, ps)[0] == ps[0] && Filter(l, ps)[1..] == Filter(l, rest);
        FilterIsKnown(l, rest);
        forall p | p in rest && Admits(l, p)
          ensures p.epoch in next.epochs && DecryptOne(c, next, p) == DecryptOne(c, l, p)
        {
          TouchKeepsDecryption(c, now, ps[0].epoch, p);
        }
        PipelineIsPointwise(c, l, next, rest);
      } else {
        assert Filter(l, ps) == Filter(l, rest);
        PipelineIsPointwise(c, l, now, rest);
      }
    }
  }

  /** Which records of a datagram are delivered: those of an epoch from the one that is read to the one
      behind both current ones, whose number the window of that epoch accepts and that decipher with the
      delegate that was cached for it, or else with its suite and keys. */
  lemma DeliveredIff(c: Library, l: Layer, p: Packet, q: Packet)
    requires Table(l)
    ensures Delivery(c, l, p) == Some(q)
       <==> && l.read <= p.epoch <= (if l.read > l.write then l.read else l.write) + 1
            && p.epoch as nat in l.epochs
            && var e := l.epochs[p.epoch];
            && e.window.MayReceive(p.seqNum)
            && if e.conn.decipher.Some? then Decrypt(c, e.conn.decipher.value, p) == Some(q)
               else e.conn.suite.Some?
                    && Decrypt(c, Delegate(e.conn.suite.value, e.conn.keys, e.conn.entity), p) == Some(q)
  {
    hide Decrypt, Window.MayReceive;
    TableSize(l);
  }

  predicate Distinct(p: Packet, q: Packet) {
    (p.epoch, p.seqNum) != (q.epoch, q.seqNum)
  }

  /** One call delivers each deliverable record of the datagram once for each time it occurs,
      in order, so no number is delivered twice by one call exactly when no two deliverable
      records carry the same. */
  lemma OnceInOneDatagramIff(c: Library, g: Garbage, l: Layer, buf: bytes)
    requires Table(l)
    ensures var out, from := Receive(c, g, l, buf).1, Deliverable(c, l, ParseAll(buf, 0, g));
            && |out| == |from| && (forall i :: 0 <= i < |out| ==> Some(out[i]) == Delivery(c, l, from[i]))
            && ((forall i, j :: 0 <= i < j < |out| ==> Distinct(out[i], out[j]))
                <==> (forall i, j :: 0 <= i < j < |from| ==> Distinct(from[i], from[j])))
  {
    hide ParseAll, MarkAll, Table, Admits, DecryptOne, Delivery;
    var ps := ParseAll(buf, 0, g);
    FilterIsKnown(l, ps);
    AdmittedAreKnown(l);
    PipelineIsPointwise(c, l, l, ps);
    var out, from := Receive(c, g, l, buf).1, Deliverable(c, l, ps);
    assert forall i :: 0 <= i < |out| ==> (out[i].epoch, out[i].seqNum) == (from[i].epoch, from[i].seqNum);
  }

  lemma AdmittedAreKnown(l: Layer)
    ensures forall p :: Admits(l, p) ==> p.epoch >= 0 && p.epoch in l.epochs
  {
  }
}
