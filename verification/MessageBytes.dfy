/** The handshake messages of src/DTLS/Handshake.ts byte by byte. */
module MessageBytes {
  import opened Bytes
  import opened BitConverter
  import opened Codec
  import opened Crypto
  import opened Packets
  import opened Records
  import opened Fragments
  import opened Handshakes
  import opened Handlers

  // ---- sizes of length prefixes ----

  lemma Prefixes()
    ensures Fit(32) == 1 && Fit(255) == 1 && Fit(65534) == 2 && Fit(65535) == 2 && Fit(0xFF_FFFF) == 3
  {
    assert Shifts(255) == 1 && Shifts(65535) == 2;
  }

  // ---- parsing, field by field ----

  /** The first field of a list that was parsed, and what is left. */
  lemma HeadField(fs: seq<Spec>, buf: bytes, offset: nat, g: Garbage) returns (n: nat)
    requires fs != [] && DeserializeFields(fs, buf, offset, g).List?
    ensures var r := DeserializeFields(fs, buf, offset, g);
            && r.vs != [] && n <= r.n && Deserialize(fs[0], buf, offset, g) == Read(r.vs[0], n)
            && DeserializeFields(fs[1..], buf, offset + n, g) == List(r.vs[1..], r.n - n)
  {
    hide Deserialize;
    n := Deserialize(fs[0], buf, offset, g).n;
  }

  /** The first two bytes are a version, whatever follows. */
  lemma VersionField(buf: bytes, offset: nat, g: Garbage)
    requires offset + 2 <= |buf|
    ensures Deserialize(VERSION_SPEC, buf, offset, g)
            == Read(VStruct([VNum(Num(buf[offset])), VNum(Num(buf[offset + 1]))]), 2)
  {
    hide Deserialize;
    UnfoldVersion(buf, offset, g);
    OneByte(buf, offset);
    OneByte(buf, offset + 1);
  }

  lemma OneByte(buf: bytes, offset: nat)
    requires offset < |buf|
    ensures Decode(buf, 1, offset) == Num(buf[offset])
  {
    var b := buf[offset..offset + 1];
    assert b[..0] == [] && BitConverter.Value([]) == 0;
  }

  /** Two bytes as a number. */
  function Pair(buf: bytes, offset: nat): nat
    requires offset + 2 <= |buf|
  {
    (buf[offset] as nat) * 256 + buf[offset + 1] as nat
  }

  lemma TwoBytes(buf: bytes, offset: nat)
    requires offset + 2 <= |buf|
    ensures Decode(buf, 2, offset) == Num(Pair(buf, offset))
  {
    var b := buf[offset..offset + 2];
    assert b[..1][..0] == [] && BitConverter.Value([]) == 0 && BitConverter.Value(b[..1]) == buf[offset];
  }

  /** A random is 32 bytes. */
  lemma RandomField(buf: bytes, offset: nat, g: Garbage)
    requires offset + 32 <= |buf|
    ensures var r := Deserialize(RANDOM, buf, offset, g);
            && r.Read? && r.n == 32 && Typed(RANDOM, r.v) && Serialize(RANDOM, r.v) == buf[offset..offset + 32]
  {
    hide Deserialize, Serialize, CopyOut;
    RandomParses(buf, offset, g);
    var rest := CopyOut(buf, offset + 4, 28, g);
    assert rest == buf[offset + 4..offset + 32] by {
      RestIsThere(buf, offset + 4, g);
    }
    RandomPrints(buf[offset..offset + 4], rest);
    FourBytes(buf, offset);
    assert buf[offset..offset + 4] + rest == buf[offset..offset + 32];
  }

  lemma RestIsThere(buf: bytes, offset: nat, g: Garbage)
    requires offset + 28 <= |buf|
    ensures CopyOut(buf, offset, 28, g) == buf[offset..offset + 28]
  {
  }

  lemma FourBytes(buf: bytes, offset: nat)
    requires offset + 4 <= |buf|
    ensures Decode(buf, 4, offset) == Num(BitConverter.Value(buf[offset..offset + 4]))
  {
  }

  lemma RandomParses(buf: bytes, offset: nat, g: Garbage)
    ensures Deserialize(RANDOM, buf, offset, g)
            == if offset + 4 > |buf| then Fails
               else Read(VStruct([VNum(Decode(buf, 4, offset)), VBuf(CopyOut(buf, offset + 4, 28, g))]), 32)
  {
    hide CopyOut, Decode;
    var a, b := NumSpec(4), BufSpec(28, 28);
    var time, rest := VNum(Decode(buf, 4, offset)), VBuf(CopyOut(buf, offset + 4, 28, g));
    UnfoldFields(a, [b], buf, offset, g);
    UnfoldFields(b, [], buf, offset + 4, g);
    assert [a] + [b] == RANDOM.fields && [b] + [] == [b];
    assert [rest] + [] == [rest] && [time] + [rest] == [time, rest];
    NoMoreFields(buf, g);
    hide DeserializeFields;
    StructFields(RANDOM.fields, buf, offset, g);
  }

  lemma RandomPrints(head: bytes, rest: bytes)
    requires |head| == 4
    ensures var v := VStruct([VNum(Num(BitConverter.Value(head))), VBuf(rest)]);
            Typed(RANDOM, v) && Serialize(RANDOM, v) == head + rest
  {
    hide BigEndian;
    ReencodeValue(head);
    PowFour();
    Small(BitConverter.Value(head), TWO32);
    TwoFields(NumSpec(4), BufSpec(28, 28), VNum(Num(BitConverter.Value(head))), VBuf(rest));
  }

  lemma StructFields(fs: seq<Spec>, buf: bytes, offset: nat, g: Garbage)
    ensures var r := DeserializeFields(fs, buf, offset, g);
            Deserialize(StructSpec(fs), buf, offset, g) == if r.ListFails? then Fails else Read(VStruct(r.vs), r.n)
  {
  }

  /** The first four fields of a list that was parsed. */
  lemma FourFields(fs: seq<Spec>, buf: bytes, g: Garbage) returns (n0: nat, n1: nat, n2: nat, n3: nat)
    requires |fs| >= 4 && DeserializeFields(fs, buf, 0, g).List?
    ensures var vs := DeserializeFields(fs, buf, 0, g).vs;
            && |vs| >= 4
            && Deserialize(fs[0], buf, 0, g) == Read(vs[0], n0) && Deserialize(fs[1], buf, n0, g) == Read(vs[1], n1)
            && Deserialize(fs[2], buf, n0 + n1, g) == Read(vs[2], n2)
            && Deserialize(fs[3], buf, n0 + n1 + n2, g) == Read(vs[3], n3)
  {
    hide Deserialize, DeserializeFields;
    n0 := HeadField(fs, buf, 0, g);
    n1 := HeadField(fs[1..], buf, n0, g);
    n2 := HeadField(fs[1..][1..], buf, n0 + n1, g);
    n3 := HeadField(fs[1..][1..][1..], buf, n0 + n1 + n2, g);
  }

  // ---- which messages are parsed ----

  /** The body of each type of message that is parsed, as its class lists it. */
  lemma BodySpecs(msgType: nat)
    ensures Parseable(msgType) <==> msgType in {0, 1, 2, 3, 12, 14, 20}
    ensures Parseable(msgType) ==>
              var version := StructSpec([NumSpec(1), NumSpec(1)]);
              var random := StructSpec([NumSpec(4), BufSpec(28, 28)]);
              var extensions := VecSpec(StructSpec([NumSpec(2), BufSpec(0, 65535)]), 0, 65535, true);
              BodySpec(msgType) == Some(StructSpec(
                match msgType
                case 1 => [version, random, BufSpec(0, 32), BufSpec(0, 255), VecSpec(NumSpec(2), 2, 65534, false),
                           VecSpec(NumSpec(1), 1, 255, false), extensions]
                case 2 => [version, random, BufSpec(0, 32), NumSpec(2), NumSpec(1), extensions]
                case 3 => [version, BufSpec(0, 255)]
                case 12 => [RestSpec]
                case 20 => [RestSpec]
                case _ => []))
  {
  }

  /** `fromFragment` returns a message exactly for a whole message of a type in its table whose body
      parses: a HelloRequest, ServerHelloDone, ServerKeyExchange or Finished always does, a
      HelloVerifyRequest if its version and the length of its cookie are there. */
  lemma FromFragmentIff(f: Fragment, g: Garbage)
    ensures FromFragment(f, g).Some?
       <==> && f.offset == 0 && f.total <= |f.data| && f.msgType in {0, 1, 2, 3, 12, 14, 20}
            && !Deserialize(BodySpec(f.msgType).value, f.data, 0, g).Fails?
    ensures f.offset == 0 && f.total <= |f.data| ==>
              && (f.msgType in {0, 14} ==> FromFragment(f, g) == Some(Handshake(f.msgType, f.seqNum, VStruct([]))))
              && (f.msgType in {12, 20} ==>
                    FromFragment(f, g) == Some(Handshake(f.msgType, f.seqNum, VStruct([VBuf(f.data)]))))
              && (f.msgType == 3 ==> (FromFragment(f, g).Some? <==> |f.data| >= 3))
    ensures FromFragment(f, g).Some? ==>
              FromFragment(f, g).value.msgType == f.msgType && FromFragment(f, g).value.seqNum == f.seqNum
  {
    BodySpecs(f.msgType);
    RawFields(f.data, g);
    NoMoreFields(f.data, g);
    VerifyRequestParses(f.data, g);
    hide Deserialize, DeserializeFields;
  }

  lemma RawFields(buf: bytes, g: Garbage)
    ensures Deserialize(StructSpec([RestSpec]), buf, 0, g) == Read(VStruct([VBuf(buf)]), |buf|)
    ensures Deserialize(StructSpec([]), buf, 0, g) == Read(VStruct([]), 0)
  {
    UnfoldFields(RestSpec, [], buf, 0, g);
    assert [RestSpec] + [] == [RestSpec] && [VBuf(buf)] + [] == [VBuf(buf)] && buf[0..] == buf;
  }

  lemma VerifyRequestParses(buf: bytes, g: Garbage)
    ensures !Deserialize(StructSpec([VERSION_SPEC, COOKIE]), buf, 0, g).Fails? <==> |buf| >= 3
  {
    hide CopyOut;
    Prefixes();
    UnfoldVersion(buf, 0, g);
    UnfoldFields(VERSION_SPEC, [COOKIE], buf, 0, g);
    UnfoldFields(COOKIE, [], buf, 2, g);
    assert [VERSION_SPEC] + [COOKIE] == [VERSION_SPEC, COOKIE] && [COOKIE] + [] == [COOKIE];
  }

  // ---- what the handlers read ----

  /** The cookie of a HelloVerifyRequest that arrived in full: what follows the version and one byte
      of length. */
  lemma CookieOf(f: Fragment, g: Garbage)
    requires f.msgType == 3 && f.offset == 0 && f.total <= |f.data| && |f.data| >= 3 && 3 + f.data[2] <= |f.data|
    ensures FromFragment(f, g).Some?
    ensures BytesOf(Field(FromFragment(f, g).value, 1)) == f.data[3..3 + f.data[2]]
  {
    FromFragmentIff(f, g);
    var buf := f.data;
    Prefixes();
    assert BodySpec(3).value.fields == [VERSION_SPEC, COOKIE];
    var n := HeadField([VERSION_SPEC, COOKIE], buf, 0, g);
    VersionField(buf, 0, g);
    assert [VERSION_SPEC, COOKIE][1..] == [COOKIE];
    var k := HeadField([COOKIE], buf, 2, g);
    OneByte(buf, 2);
    assert CopyOut(buf, 3, buf[2], g) == buf[3..3 + buf[2]];
  }

  /** Where a ServerHello that parses has its version, random and cipher suite, whatever its session
      id and extensions. */
  lemma ServerHelloFields(f: Fragment, g: Garbage)
    requires f.msgType == 2 && FromFragment(f, g).Some?
    ensures |f.data| >= 35
    ensures var m, d := FromFragment(f, g).value, f.data;
            var at: nat := 35 + d[34] as int;
            && Field(m, 0) == Some(VStruct([VNum(Num(d[0])), VNum(Num(d[1]))]))
            && RandomBytes(m) == d[2..34]
            && NumberOf(Field(m, 3)) == if at + 2 <= |d| then Pair(d, at) else 0
  {
    hide Deserialize, DeserializeFields, CopyOut, Serialize;
    var fs, buf := BodySpec(2).value.fields, f.data;
    StructFields(fs, buf, 0, g);
    var n0, n1, n2, n3 := FourFields(fs, buf, g);
    UnfoldVersion(buf, 0, g);
    RandomParses(buf, 2, g);
    SessionIdTakes(buf, 34, g);
    VersionField(buf, 0, g);
    RandomField(buf, 2, g);
    OneByte(buf, 34);
    SuiteField(buf, 34 + n2, g);
  }

  lemma SessionIdTakes(buf: bytes, offset: nat, g: Garbage)
    ensures var r := Deserialize(BufSpec(0, 32), buf, offset, g);
            r.Read? ==> offset < |buf| && Decode(buf, 1, offset).Num? && r.n == 1 + Decode(buf, 1, offset).v
  {
    hide CopyOut;
    Prefixes();
  }

  lemma SuiteField(buf: bytes, offset: nat, g: Garbage)
    ensures var r := Deserialize(NumSpec(2), buf, offset, g);
            && r.Read? && r.v.VNum?
            && NumberOf(Some(r.v)) == if offset + 2 <= |buf| then Pair(buf, offset) else 0
  {
    if offset + 2 <= |buf| {
      TwoBytes(buf, offset);
    }
  }

  /** What a ServerHello that parses does to the record layer: its random and cipher suite go to the
      next epoch, its version to the current and the next write epoch, and nothing else changes. */
  lemma ServerHelloSets(cfg: Config, cl: Endpoint, f: Fragment, g: Garbage)
    requires Table(cl.l) && f.msgType == 2 && FromFragment(f, g).Some?
    ensures |f.data| >= 35
    ensures var m, d, l := FromFragment(f, g).value, f.data, cl.l;
            var r := HandleServerHello(cfg, cl, m);
            var at: nat := 35 + d[34] as int;
            var suite := if at + 2 <= |d| then Pair(d, at) else 0;
            var next := if l.read > l.write then l.read + 1 else l.write + 1;
            && r.h == cl.h && r.l == l.(epochs := r.l.epochs) && r.l.epochs.Keys == l.epochs.Keys
            && forall e: nat :: e in l.epochs ==>
                 && r.l.epochs[e] == l.epochs[e].(conn := r.l.epochs[e].conn)
                 && var a, b := l.epochs[e].conn, r.l.epochs[e].conn;
                 && b == a.(major := b.major, minor := b.minor, serverRandom := b.serverRandom, suite := b.suite)
                 && (b.major, b.minor) == (if e == l.write || e == l.write + 1 then (d[0] as int, d[1] as int)
                                           else (a.major, a.minor))
                 && (b.serverRandom, b.suite) == (if e == next then (Some(d[2..34]), cfg.suites(suite))
                                                  else (a.serverRandom, a.suite))
  {
    hide FromFragment, RandomBytes, NumberOf, HandleServerHello, Table, Field;
    ServerHelloFields(f, g);
    CurrentEpochsExist(cl.l);
    HelloSets(cfg, cl, FromFragment(f, g).value, f.data[0] as int, f.data[1] as int);
  }

  lemma HelloSets(cfg: Config, cl: Endpoint, m: Handshake, major: int, minor: int)
    requires Table(cl.l) && Field(m, 0) == Some(VStruct([VNum(Num(major)), VNum(Num(minor))]))
    ensures var l, r := cl.l, HandleServerHello(cfg, cl, m);
            var next := if l.read > l.write then l.read + 1 else l.write + 1;
            && r.h == cl.h && r.l == l.(epochs := r.l.epochs) && r.l.epochs.Keys == l.epochs.Keys
            && forall e: nat :: e in l.epochs ==>
                 var a := l.epochs[e].conn;
                 var b := if e == next then
                            a.(serverRandom := Some(RandomBytes(m)), suite := cfg.suites(NumberOf(Field(m, 3))))
                          else a;
                 r.l.epochs[e] == l.epochs[e].(conn := if e == l.write || e == l.write + 1
                                                       then b.(major := major, minor := minor) else b)
  {
    hide RandomBytes, NumberOf, Field;
    CurrentEpochsExist(cl.l);
    NumberOfNum(major);
    NumberOfNum(minor);
  }

  lemma NumberOfNum(x: int)
    ensures NumberOf(Some(VNum(Num(x)))) == x
  {
  }

  /** A ServerKeyExchange makes the handler throw exactly if no suite is known, or for PSK if its body
      has not even the two bytes of the length of the hint. */
  lemma KeyExchangeThrowsIff(cl: Endpoint, f: Fragment, g: Garbage)
    requires Table(cl.l) && f.msgType == 12 && f.offset == 0 && f.total <= |f.data|
    ensures FromFragment(f, g).Some? && NextEpochNr(cl.l) in cl.l.epochs
    ensures var suite := cl.l.epochs[NextEpochNr(cl.l)].conn.suite;
            HandleServerKeyExchange(cl, FromFragment(f, g).value)
            == if suite.None? || (suite.value.keyExchange == Psk && |f.data| < 2) then Threw else Continues
  {
    FromFragmentIff(f, g);
    CurrentEpochsExist(cl.l);
    HintParsesIff(f.data);
  }

  lemma HintParsesIff(raw: bytes)
    ensures Deserialize(PSK_IDENTITY, raw, 0, _ => 0).Fails? <==> |raw| < 2
  {
    hide CopyOut;
    Prefixes();
    var g: Garbage := _ => 0;
    UnfoldFields(BufSpec(0, 65535), [], raw, 0, g);
    assert [BufSpec(0, 65535)] + [] == [BufSpec(0, 65535)];
  }

  /** Which messages enter the transcript: all but HelloRequests, HelloVerifyRequests and ClientHellos
      without a cookie. */
  lemma HashedIff(m: Handshake)
    ensures NeedsToHash(m) <==> m.msgType !in {0, 3} && (m.msgType == 1 ==> BytesOf(Field(m, 3)) != [])
  {
  }

  // ---- handshake headers ----

  /** A handshake record is parsed exactly if the twelve bytes of its header are there. The fragment
      then takes the length it announces, of which the part past the record is garbage. */
  lemma FragmentParsesIff(data: bytes, g: Garbage)
    ensures ParseFragment(data, g).Some? <==> |data| >= 12
    ensures |data| >= 12 ==>
              && Decode(data, 1, 0).Num? && Decode(data, 3, 1).Num? && Decode(data, 2, 4).Num?
              && Decode(data, 3, 6).Num? && Decode(data, 3, 9).Num?
              && ParseFragment(data, g) == Some(Fragment(
                   Decode(data, 1, 0).v, Decode(data, 3, 1).v, Decode(data, 2, 4).v, Decode(data, 3, 6).v,
                   CopyOut(data, 12, Decode(data, 3, 9).v, g)))
              && Copied(ParseFragment(data, g).value.data, data, 12, g)
  {
    hide Deserialize, DeserializeFields, CopyOut, Copied;
    var fs := FRAGMENT_SPEC.fields;
    NumbersOf(data, g);
    StructFields(fs, data, 0, g);
    UnfoldFields(fs[4], [], data, 9, g);
    UnfoldFields(fs[3], [fs[4]], data, 6, g);
    UnfoldFields(fs[2], [fs[3], fs[4]], data, 4, g);
    UnfoldFields(fs[1], [fs[2], fs[3], fs[4]], data, 1, g);
    UnfoldFields(fs[0], fs[1..], data, 0, g);
    NoMoreFields(data, g);
    assert [fs[4]] + [] == [fs[4]] && [fs[3]] + [fs[4]] == [fs[3], fs[4]];
    assert [fs[2]] + [fs[3], fs[4]] == [fs[2], fs[3], fs[4]] && [fs[1]] + [fs[2], fs[3], fs[4]] == fs[1..];
    assert [fs[0]] + fs[1..] == fs;
    var length := Decode(data, 3, 9);
    if length.Num? {
      CopyOutCopies(data, 12, length.v, g);
      var v := VBuf(CopyOut(data, 12, length.v, g));
      assert [v] + [] == [v];
      assert DeserializeFields([fs[4]], data, 9, g) == List([v], 3 + length.v);
    }
  }

  lemma NumbersOf(data: bytes, g: Garbage)
    ensures Deserialize(NumSpec(1), data, 0, g) == Read(VNum(Decode(data, 1, 0)), 1)
    ensures Deserialize(NumSpec(3), data, 1, g) == Read(VNum(Decode(data, 3, 1)), 3)
    ensures Deserialize(NumSpec(2), data, 4, g) == Read(VNum(Decode(data, 2, 4)), 2)
    ensures Deserialize(NumSpec(3), data, 6, g) == Read(VNum(Decode(data, 3, 6)), 3)
    ensures var length := Decode(data, 3, 9);
            && (length.Num? <==> |data| >= 12)
            && Deserialize(BufSpec(0, 0xFF_FFFF), data, 9, g)
               == if length.NaN? then Fails else Read(VBuf(CopyOut(data, 12, length.v, g)), 3 + length.v)
  {
    hide CopyOut;
    Prefixes();
  }
}
