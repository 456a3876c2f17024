/** What the client says, byte by byte: its two ClientHellos and its answer. */
module Hellos {
  import opened Bytes
  import opened BitConverter
  import opened Codec
  import opened Crypto
  import opened Packets
  import opened Records
  import opened LayerChanges
  import opened ClearFlights
  import opened Fragments
  import opened Handshakes
  import opened Handlers
  import opened Transcripts
  import opened KeyAgreement
  import opened MessageBytes
  import opened Sessions
  import T = Transfer

  /** A random as the client draws it: the time and 28 bytes. */
  function Random(time: int, rest: bytes): Value {
    VStruct([VNum(Num(time)), VBuf(rest)])
  }

  /** The ClientHello with a cookie, as the message number `n`. */
  function Hello(time: int, rest: bytes, ids: seq<int>, cookie: bytes, n: nat): Handshake {
    WithCookie(ClientHello(Random(time, rest), ids), cookie).(seqNum := n)
  }

  // ---- the body of a ClientHello ----

  /** The body of a ClientHello: DTLS 1.2, the 32 bytes of the random, no session id, the cookie
      behind its length, the cipher suites behind their length, the null compression method alone, and
      no extensions. */
  function HelloBody(time: int, rest: bytes, cookie: bytes, suites: bytes): bytes {
    [254, 253] + ((Encode(Num(time), 4) + rest) + ([0] + ((Encode(Num(|cookie|), 1) + cookie)
    + ((Encode(Num(|suites|), 2) + suites) + [1, 0]))))
  }

  /** The suites in two bytes each, in the order they are given. */
  ghost predicate Lists(suites: bytes, ids: seq<int>) {
    && |suites| == 2 * |ids|
    && forall i :: 0 <= i < |ids| ==> suites[2 * i..2 * i + 2] == Encode(Num(ids[i]), 2)
  }

  lemma OneMoreField(fs: seq<Spec>, vs: seq<Value>)
    requires fs != [] && AllTyped(fs, vs)
    ensures SerializeFields(fs, vs) == Serialize(fs[0], vs[0]) + SerializeFields(fs[1..], vs[1..])
  {
  }

  lemma {:induction false} SuitesPrint(ids: seq<int>) returns (suites: bytes)
    ensures var vs := seq(|ids|, i requires 0 <= i < |ids| => VNum(Num(ids[i])));
            SerializeItems(NumSpec(2), vs) == suites
    ensures |suites| == 2 * |ids|
    ensures forall i :: 0 <= i < |ids| ==> suites[2 * i..2 * i + 2] == Encode(Num(ids[i]), 2)
  {
    hide Encode;
    var vs := seq(|ids|, i requires 0 <= i < |ids| => VNum(Num(ids[i])));
    if ids == [] {
      suites := [];
    } else {
      var tail := SuitesPrint(ids[1..]);
      suites := Encode(Num(ids[0]), 2) + tail;
      assert vs[1..] == seq(|ids[1..]|, i requires 0 <= i < |ids[1..]| => VNum(Num(ids[1..][i])));
      forall i | 0 <= i < |ids|
        ensures suites[2 * i..2 * i + 2] == Encode(Num(ids[i]), 2)
      {
        if i > 0 {
          assert suites[2 * i..2 * i + 2] == tail[2 * (i - 1)..2 * (i - 1) + 2];
        }
      }
    }
  }

  lemma VersionOfHello()
    ensures VersionBytes(-2, -3) == [254, 253] && VersionBytes(-2, -1) == [254, 255]
  {
  }

  function HelloSpecs(): seq<Spec> {
    [VERSION_SPEC, RANDOM, BufSpec(0, 32), COOKIE, VecSpec(NumSpec(2), 2, 65534, false),
     VecSpec(NumSpec(1), 1, 255, false), EXTENSIONS]
  }

  function HelloValues(time: int, rest: bytes, ids: seq<int>, cookie: bytes): seq<Value> {
    [VStruct([VNum(Num(-2)), VNum(Num(-3))]), Random(time, rest), VBuf([]), VBuf(cookie),
     VVec(seq(|ids|, i requires 0 <= i < |ids| => VNum(Num(ids[i])))), VVec([VNum(Num(0))]), VVec([])]
  }

  lemma HelloShape(time: int, rest: bytes, ids: seq<int>, cookie: bytes, n: nat)
    ensures Hello(time, rest, ids, cookie, n)
         == Handshake(1, n, VStruct(HelloValues(time, rest, ids, cookie)))
    ensures BodySpec(1) == Some(StructSpec(HelloSpecs()))
  {
    assert ClientHello(Random(time, rest), ids).body.fields[3 := VBuf(cookie)] == HelloValues(time, rest, ids, cookie);
  }

  /** What a ClientHello consists of. The first one is the one with the empty cookie. */
  lemma ClientHelloBytes(time: int, rest: bytes, ids: seq<int>, cookie: bytes, n: nat) returns (suites: bytes)
    ensures Lists(suites, ids)
    ensures var m := Hello(time, rest, ids, cookie, n);
            && m.msgType == 1 && m.seqNum == n && Sound(m)
            && Body(m) == HelloBody(time, rest, cookie, suites)
            && RandomBytes(m) == Encode(Num(time), 4) + rest && ClientCookie(m) == cookie
  {
    hide Encode, Typed, Serialize, SerializeFields, Hello;
    suites := SuitesPrint(ids);
    HelloShape(time, rest, ids, cookie, n);
    HelloIsTyped(time, rest, ids, cookie);
    RandomIsPrinted(time, rest);
    HelloFields(time, rest, ids, cookie, suites);
    var m := Hello(time, rest, ids, cookie, n);
    BodyIsFields(m, HelloSpecs());
    SevenFields(HelloSpecs(), HelloValues(time, rest, ids, cookie));
  }

  lemma BodyIsFields(m: Handshake, fs: seq<Spec>)
    requires BodySpec(m.msgType) == Some(StructSpec(fs)) && m.body.VStruct? && AllTyped(fs, m.body.fields)
    ensures Sound(m) && Body(m) == SerializeFields(fs, m.body.fields)
  {
    hide SerializeFields, BodySpec;
  }

  lemma RandomIsPrinted(time: int, rest: bytes)
    ensures Typed(RANDOM, Random(time, rest)) && Serialize(RANDOM, Random(time, rest)) == Encode(Num(time), 4) + rest
  {
    hide Encode;
    TwoFields(NumSpec(4), BufSpec(28, 28), VNum(Num(time)), VBuf(rest));
  }

  lemma HelloIsTyped(time: int, rest: bytes, ids: seq<int>, cookie: bytes)
    ensures AllTyped(HelloSpecs(), HelloValues(time, rest, ids, cookie))
  {
    var vs := HelloValues(time, rest, ids, cookie);
    assert Typed(VERSION_SPEC, vs[0]) && Typed(RANDOM, vs[1]);
  }

  lemma HelloFields(time: int, rest: bytes, ids: seq<int>, cookie: bytes, suites: bytes)
    requires var vs := seq(|ids|, i requires 0 <= i < |ids| => VNum(Num(ids[i])));
             SerializeItems(NumSpec(2), vs) == suites && |suites| == 2 * |ids|
    requires AllTyped(HelloSpecs(), HelloValues(time, rest, ids, cookie))
    ensures var fs, vs := HelloSpecs(), HelloValues(time, rest, ids, cookie);
            && Serialize(fs[0], vs[0]) == [254, 253] && Serialize(fs[2], vs[2]) == [0]
            && Serialize(fs[3], vs[3]) == Encode(Num(|cookie|), 1) + cookie
            && Serialize(fs[4], vs[4]) == Encode(Num(2 * |ids|), 2) + suites
            && Serialize(fs[5], vs[5]) == [1, 0] && Serialize(fs[6], vs[6]) == []
  {
    Prefixes();
    VersionPrints(-2, -3);
    VersionOfHello();
    OneNull();
    hide SerializeFields, SerializeItems;
  }

  lemma OneNull()
    ensures SerializeItems(NumSpec(1), [VNum(Num(0))]) == [0] && Encode(Num(0), 1) == [0] && Encode(Num(1), 1) == [1]
  {
    var one := VNum(Num(0));
    assert [one][1..] == [] && SerializeItems(NumSpec(1), [one]) == Encode(Num(0), 1) + [];
  }

  lemma SevenFields(fs: seq<Spec>, vs: seq<Value>)
    requires |fs| == 7 && AllTyped(fs, vs) && Serialize(fs[6], vs[6]) == []
    ensures SerializeFields(fs, vs)
         == Serialize(fs[0], vs[0]) + (Serialize(fs[1], vs[1]) + (Serialize(fs[2], vs[2])
            + (Serialize(fs[3], vs[3]) + (Serialize(fs[4], vs[4]) + Serialize(fs[5], vs[5])))))
  {
    hide Serialize, Typed;
    OneMoreField(fs, vs);
    OneMoreField(fs[1..], vs[1..]);
    var f2, v2 := fs[2..], vs[2..];
    assert fs[1..][1..] == f2 && vs[1..][1..] == v2;
    FiveFields(f2, v2);
    assert Serialize(f2[3], v2[3]) + Serialize(f2[4], v2[4]) == Serialize(fs[5], vs[5]) + [] == Serialize(fs[5], vs[5]);
  }

  // ---- on the wire ----

  /** As much of a body as one record takes: 1280 bytes without the headers of IP, UDP and handshake. */
  function Cut(body: bytes): bytes {
    if |body| <= 1240 then body else body[..1240]
  }

  /** The record of a message: a handshake record that announces the whole length of its body. */
  lemma RecordBytes(m: Handshake)
    ensures var cut := Cut(Body(m));
            FirstRecord(m) == Message(22, Encode(Num(m.msgType), 1) + (Encode(Num(|Body(m)|), 3)
                              + (Encode(Num(m.seqNum), 2) + (Encode(Num(0), 3) + (Encode(Num(|cut|), 3) + cut)))))
    ensures Body(m) != [] ==> RecordsOf(m) == [FirstRecord(m)]
  {
    hide Encode, Body;
    var body := Body(m);
    assert body[..|body|] == body;
    FragmentLayout(Fragment(m.msgType, |body|, m.seqNum, 0, Cut(body)));
    if body != [] {
      OneRecord(m);
    }
  }

  /** A datagram with one record of epoch 0 in the clear, before a version was negotiated: a handshake
      record of DTLS 1.0 with number `q`, and in it the message number `n` of some type. */
  function PlainDatagram(q: int, msgType: byte, n: nat, body: bytes): bytes {
    [22] + ([254, 255] + ([0, 0] + (Encode(Num(q), 6) + (Encode(Num(12 + |Cut(body)|), 2)
    + ([msgType] + (Encode(Num(|body|), 3) + (Encode(Num(n), 2) + ([0, 0, 0]
    + (Encode(Num(|Cut(body)|), 3) + Cut(body))))))))))
  }

  /** A message that is sent in the clear goes out in a datagram of its own, with the next number. */
  lemma DatagramInClear(l: Layer, r: Layer, m: Handshake)
    requires SentInClear(l, r, m) && Body(m) != [] && m.msgType < 256
    requires l.epochs[0].conn.major == -2 && l.epochs[0].conn.minor == -1
    ensures r.sent == l.sent + [PlainDatagram(l.epochs[0].writeSeq + 1, m.msgType, m.seqNum, Body(m))]
  {
    hide Body, FirstRecord, T.PrintAll, RecordsOf, PlainDatagram;
    RecordBytes(m);
    var msg := FirstRecord(m);
    var p := Packet(msg.typ, -2, -1, 0, l.epochs[0].writeSeq + 1, msg.data);
    assert ClearRecords(l, RecordsOf(m)) == [p];
    PrintsAlone(p);
    PlainRecordBytes(p, m);
  }

  lemma PlainRecordBytes(p: Packet, m: Handshake)
    requires p == Packet(22, -2, -1, 0, p.seqNum, FirstRecord(m).data) && m.msgType < 256
    ensures Print(p) == PlainDatagram(p.seqNum, m.msgType, m.seqNum, Body(m))
  {
    SmallNumbers();
    OneByteNumber(m.msgType);
    VersionOfHello();
    hide Encode, Body, FirstRecord, Print, Cut;
    RecordBytes(m);
    PacketPrints(p);
  }

  lemma OneByteNumber(b: byte)
    ensures Encode(Num(b), 1) == [b]
  {
    Small(b, TWO32);
  }

  lemma SmallNumbers()
    ensures Encode(Num(22), 1) == [22] && Encode(Num(0), 2) == [0, 0] && Encode(Num(0), 3) == [0, 0, 0]
  {
  }

  lemma PrintsAlone(p: Packet)
    ensures T.PrintAll([p]) == Print(p)
  {
    hide Print;
    assert [p][1..] == [] && T.PrintAll([]) == [] && Print(p) + [] == Print(p);
  }

  lemma HelloInClear(l: Layer, r: Layer, time: int, rest: bytes, ids: seq<int>, cookie: bytes, n: nat)
    returns (suites: bytes)
    requires SentInClear(l, r, Hello(time, rest, ids, cookie, n))
    requires l.epochs[0].conn.major == -2 && l.epochs[0].conn.minor == -1
    ensures Lists(suites, ids)
    ensures r.sent
         == l.sent + [PlainDatagram(l.epochs[0].writeSeq + 1, 1, n, HelloBody(time, rest, cookie, suites))]
  {
    hide Body, Hello, SentInClear, PlainDatagram;
    suites := ClientHelloBytes(time, rest, ids, cookie, n);
    assert HelloBody(time, rest, cookie, suites) != [];
    DatagramInClear(l, r, Hello(time, rest, ids, cookie, n));
  }

  /** The first datagram of every session, from its first byte to its last: record 0 of epoch 0 with
      handshake message 0, a ClientHello that offers exactly the suites of the client. The random it
      carries is the one that epoch 1 remembers for its keys. */
  lemma FirstDatagram(cfg: Config, time: int, rest: bytes, ids: seq<int>) returns (suites: bytes)
    requires cfg.library.HmacLaw()
    ensures Lists(suites, ids)
    ensures var l := Opened(cfg, Random(time, rest), ids).cl.l;
            && l.sent == [PlainDatagram(0, 1, 0, HelloBody(time, rest, [], suites))]
            && 1 in l.epochs && l.epochs[1].conn.clientRandom == Some(Encode(Num(time), 4) + rest)
  {
    hide ClientHello, RandomBytes, SentInClear, Blank, FirstLayer, PlainDatagram, HelloBody, Table, Keyless,
         Unprotected;
    var hello := ClientHelloBytes(time, rest, ids, [], 0);
    var random := Random(time, rest);
    var m := ClientHello(random, ids);
    FirstHello(time, rest, ids);
    StartIsEarly(cfg, random, ids);
    FirstLayerIsFresh(RandomBytes(m));
    suites := HelloInClear(FirstLayer(RandomBytes(m)), Opened(cfg, random, ids).cl.l, time, rest, ids, [], 0);
  }

  lemma FirstHello(time: int, rest: bytes, ids: seq<int>)
    ensures Hello(time, rest, ids, [], 0) == ClientHello(Random(time, rest), ids)
    ensures ClientHello(Random(time, rest), ids).msgType == 1
  {
    var hello := ClientHello(Random(time, rest), ids);
    assert hello.body.fields[3 := VBuf([])] == hello.body.fields;
  }

  lemma FirstLayerIsFresh(random: bytes)
    ensures var l := FirstLayer(random);
            0 in l.epochs && l.sent == [] && l.epochs[0].conn.major == -2 && l.epochs[0].conn.minor == -1
            && l.epochs[0].writeSeq == -1
  {
  }

  /** The answer to a HelloVerifyRequest is the first ClientHello with nothing but the cookie changed,
      as handshake message 1 and the next record: the same version, random and suites. */
  lemma SecondDatagram(cfg: Config, cl: Endpoint, ms: seq<Handshake>, time: int, rest: bytes, ids: seq<int>)
    returns (suites: bytes)
    requires Live(cl) && cfg.library.HmacLaw() && Early(cl.l, Encode(Num(time), 4) + rest) && cl.h.outgoing == []
    requires cl.h.lastFlight == [ClientHello(Random(time, rest), ids)] && cl.h.lastSent == 0
    requires ms != [] && ms[|ms| - 1].msgType == 3
    requires 0 in cl.l.epochs && cl.l.epochs[0].conn.major == -2 && cl.l.epochs[0].conn.minor == -1
    ensures Lists(suites, ids)
    ensures Dispatch(cfg, cl, ms).l.sent
         == cl.l.sent + [PlainDatagram(cl.l.epochs[0].writeSeq + 1, 1, 1,
                                       HelloBody(time, rest, BytesOf(Field(ms[|ms| - 1], 1)), suites))]
  {
    hide Encode, ClientHello, SentInClear, Dispatch, Table, Early, Quiet, CookieHello, Hello, Live, Repeats, BytesOf,
         Library.HmacLaw, PlainDatagram, HelloBody;
    FirstHello(time, rest, ids);
    HelloIsRepeated(cfg, cl, ms, Encode(Num(time), 4) + rest);
    CookieIsAdded(cl.h, ms[|ms| - 1], time, rest, ids);
    suites := HelloInClear(cl.l, Dispatch(cfg, cl, ms).l, time, rest, ids, BytesOf(Field(ms[|ms| - 1], 1)), 1);
  }

  lemma CookieIsAdded(h: Handler, hvr: Handshake, time: int, rest: bytes, ids: seq<int>)
    requires h.lastFlight == [ClientHello(Random(time, rest), ids)] && h.lastSent == 0
    ensures CookieHello(h, hvr) == Hello(time, rest, ids, BytesOf(Field(hvr, 1)), 1)
  {
  }

  /** The answer to the server's flight, with the keys computed: the handshake messages 16 and 20 of
      the ClientKeyExchange and the Finished, and the ChangeCipherSpec of one byte. */
  lemma AnswerBytes(identity: bytes, verifyData: bytes, n: nat)
    ensures var raw := Encode(Num(|identity|), 2) + identity;
            FirstRecord(ClientKeyExchange(identity).(seqNum := n))
            == Message(22, [16] + (Encode(Num(|raw|), 3) + (Encode(Num(n), 2) + ([0, 0, 0]
               + (Encode(Num(|Cut(raw)|), 3) + Cut(raw))))))
    ensures FirstRecord(FinishedMessage(verifyData).(seqNum := n))
            == Message(22, [20] + (Encode(Num(|verifyData|), 3) + (Encode(Num(n), 2) + ([0, 0, 0]
               + (Encode(Num(|Cut(verifyData)|), 3) + Cut(verifyData))))))
    ensures CCS_MESSAGE == Message(20, [1])
  {
    SmallNumbers();
    assert Encode(Num(16), 1) == [16] && Encode(Num(20), 1) == [20];
    hide Encode;
    KeyExchangeBody(identity, n);
    ClientKeyExchangeLayout(identity);
    FinishedBody(verifyData, n);
    RecordBytes(ClientKeyExchange(identity).(seqNum := n));
    RecordBytes(FinishedMessage(verifyData).(seqNum := n));
  }
}
