/** The record headers of src/DTLS/DTLSCompressed.ts, DTLSCiphertext.ts and src/TLS/AEADCipher.ts. */
module Packets {
  import opened Bytes
  import opened BitConverter
  import opened Codec
  import opened CodecProofs

  /** A record before or after protection. Header fields are the in-memory numbers, which
      may be negative (`~1`) or too large for their place on the wire. */
  datatype Packet = Packet(typ: int, major: int, minor: int, epoch: int, seqNum: int, fragment: bytes)

  const HEADER_LENGTH := 13

  const VERSION_SPEC := StructSpec([NumSpec(1), NumSpec(1)])

  /** MACHeader and AdditionalData share this layout. */
  const MAC_HEADER_SPEC := StructSpec([NumSpec(2), NumSpec(6), NumSpec(1), VERSION_SPEC, NumSpec(2)])

  const CIPHERTEXT_SPEC := StructSpec([NumSpec(1), VERSION_SPEC, NumSpec(2), NumSpec(6), BufSpec(0, MAX_FRAGMENT)])

  const MAX_FRAGMENT := 2048 + 16384

  function Numeric(x: int): Value {
    VNum(Num(x))
  }

  function MacHeaderValue(p: Packet, length: int): Value {
    VStruct([Numeric(p.epoch), Numeric(p.seqNum), Numeric(p.typ), VStruct([Numeric(p.major), Numeric(p.minor)]),
             Numeric(length)])
  }

  /** The bytes authenticated in front of the fragment. */
  function MacHeader(p: Packet, length: int): bytes {
    Serialize(MAC_HEADER_SPEC, MacHeaderValue(p, length))
  }

  function PacketValue(p: Packet): Value {
    VStruct([Numeric(p.typ), VStruct([Numeric(p.major), Numeric(p.minor)]), Numeric(p.epoch), Numeric(p.seqNum),
             VBuf(p.fragment)])
  }

  function Print(p: Packet): bytes {
    Serialize(CIPHERTEXT_SPEC, PacketValue(p))
  }

  /** The packet as its receiver sees it: every header field reduced to its size. */
  function Wire(p: Packet): Packet {
    Packet(p.typ % 256, p.major % 256, p.minor % 256, p.epoch % 65536, p.seqNum % TWO32, p.fragment)
  }

  lemma Powers()
    ensures Pow256(1) == 256 && Pow256(2) == 65536 && Pow256(4) == TWO32
  {
    PowFour();
  }

  lemma TwoFields(a: Spec, b: Spec, v: Value, w: Value)
    requires Typed(a, v) && Typed(b, w)
    ensures SerializeFields([a, b], [v, w]) == Serialize(a, v) + Serialize(b, w)
  {
    assert [a, b][1..] == [b] && [v, w][1..] == [w] && [b][1..] == [] && [w][1..] == [];
    assert SerializeFields([b], [w]) == Serialize(b, w) + [];
  }

  function VersionBytes(major: int, minor: int): bytes {
    Encode(Num(major), 1) + Encode(Num(minor), 1)
  }

  lemma VersionPrints(major: int, minor: int)
    ensures Serialize(VERSION_SPEC, VStruct([Numeric(major), Numeric(minor)])) == VersionBytes(major, minor)
  {
    TwoFields(NumSpec(1), NumSpec(1), Numeric(major), Numeric(minor));
  }

  lemma FiveFields(fs: seq<Spec>, vs: seq<Value>)
    requires |fs| == 5 && AllTyped(fs, vs)
    ensures SerializeFields(fs, vs)
         == Serialize(fs[0], vs[0]) + (Serialize(fs[1], vs[1]) + (Serialize(fs[2], vs[2])
            + (Serialize(fs[3], vs[3]) + Serialize(fs[4], vs[4]))))
  {
    hide Serialize, Typed;
    TwoFields(fs[3], fs[4], vs[3], vs[4]);
    var f1, v1 := fs[1..], vs[1..];
    var f2, v2 := f1[1..], v1[1..];
    var f3, v3 := f2[1..], v2[1..];
    assert f3 == [fs[3], fs[4]] && v3 == [vs[3], vs[4]];
    assert SerializeFields(f2, v2) == Serialize(fs[2], vs[2]) + SerializeFields(f3, v3);
    assert SerializeFields(f1, v1) == Serialize(fs[1], vs[1]) + SerializeFields(f2, v2);
  }

  /** The layout of the authenticated header, field by field. */
  lemma MacHeaderPrints(p: Packet, length: int)
    ensures MacHeader(p, length)
         == Encode(Num(p.epoch), 2) + (Encode(Num(p.seqNum), 6) + (Encode(Num(p.typ), 1)
            + (VersionBytes(p.major, p.minor) + Encode(Num(length), 2))))
  {
    VersionPrints(p.major, p.minor);
    assert Typed(VERSION_SPEC, MacHeaderValue(p, length).fields[3]);
    FiveFields(MAC_HEADER_SPEC.fields, MacHeaderValue(p, length).fields);
  }

  /** Sender and receiver authenticate the same header bytes, although the receiver only has
      the header that came through the lossy number codec. */
  lemma MacHeaderSurvivesWire(p: Packet, length: int)
    ensures MacHeader(Wire(p), length) == MacHeader(p, length)
  {
    hide Encode;
    Powers();
    MacHeaderPrints(p, length);
    MacHeaderPrints(Wire(p), length);
    EncodeIsIdempotent(p.epoch, 2);
    EncodeIsIdempotent(p.seqNum, 6);
    EncodeIsIdempotent(p.typ, 1);
    EncodeIsIdempotent(p.major, 1);
    EncodeIsIdempotent(p.minor, 1);
  }

  lemma PacketPrints(p: Packet)
    ensures Print(p)
         == Encode(Num(p.typ), 1) + (VersionBytes(p.major, p.minor) + (Encode(Num(p.epoch), 2)
            + (Encode(Num(p.seqNum), 6) + (Encode(Num(|p.fragment|), 2) + p.fragment))))
  {
    VersionPrints(p.major, p.minor);
    assert Typed(VERSION_SPEC, PacketValue(p).fields[1]);
    FiveFields(CIPHERTEXT_SPEC.fields, PacketValue(p).fields);
    MaxFragmentPrefix();
  }

  lemma MaxFragmentPrefix()
    ensures Fit(MAX_FRAGMENT) == 2
  {
    assert Shifts(72) == 1;
    assert Shifts(MAX_FRAGMENT) == 1 + Shifts(72);
  }

  lemma PacketLength(p: Packet)
    ensures |Print(p)| == HEADER_LENGTH + |p.fragment|
  {
    PacketPrints(p);
  }

  lemma PrintsLikeItsWireForm(p: Packet)
    ensures Print(Wire(p)) == Print(p)
  {
    hide Encode;
    Powers();
    PacketPrints(p);
    PacketPrints(Wire(p));
    EncodeIsIdempotent(p.epoch, 2);
    EncodeIsIdempotent(p.seqNum, 6);
    EncodeIsIdempotent(p.typ, 1);
    EncodeIsIdempotent(p.major, 1);
    EncodeIsIdempotent(p.minor, 1);
  }

  /** A packet parsed from a buffer, or `None` when the parser threw. */
  function Parse(buf: bytes, offset: nat, g: Garbage): Option<(Packet, nat)> {
    match Deserialize(CIPHERTEXT_SPEC, buf, offset, g)
    case Fails => None
    case Read(v, n) => if PacketShaped(v) then Some((PacketOf(v), n)) else None
  }

  /** `DTLSCiphertext.from`. */
  method ReadPacket(buf: bytes, offset: nat, g: Garbage) returns (r: Option<(Packet, nat)>)
    ensures r == Parse(buf, offset, g)
  {
    var parsed := ReadStruct(CIPHERTEXT_SPEC.fields, buf, offset, g);
    r := if parsed.Read? && PacketShaped(parsed.v) then Some((PacketOf(parsed.v), parsed.n)) else None;
  }

  /** The fields of a parsed packet are numbers, not NaN, in the places the spec says. */
  predicate PacketShaped(v: Value) {
    && v.VStruct? && |v.fields| == 5
    && v.fields[0].VNum? && v.fields[0].n.Num?
    && v.fields[1].VStruct? && |v.fields[1].fields| == 2
    && v.fields[1].fields[0].VNum? && v.fields[1].fields[0].n.Num?
    && v.fields[1].fields[1].VNum? && v.fields[1].fields[1].n.Num?
    && v.fields[2].VNum? && v.fields[2].n.Num?
    && v.fields[3].VNum? && v.fields[3].n.Num?
    && v.fields[4].VBuf?
  }

  function PacketOf(v: Value): Packet
    requires PacketShaped(v)
  {
    Packet(v.fields[0].n.v, v.fields[1].fields[0].n.v, v.fields[1].fields[1].n.v, v.fields[2].n.v, v.fields[3].n.v,
           v.fields[4].b)
  }

  lemma UnfoldFields(f: Spec, fs: seq<Spec>, buf: bytes, offset: nat, g: Garbage)
    ensures DeserializeFields([f] + fs, buf, offset, g)
         == var r := Deserialize(f, buf, offset, g);
            if r.Fails? then ListFails else Prepend([r.v], r.n, DeserializeFields(fs, buf, offset + r.n, g))
  {
    assert ([f] + fs)[1..] == fs;
  }

  lemma UnfoldVersion(buf: bytes, offset: nat, g: Garbage)
    ensures Deserialize(VERSION_SPEC, buf, offset, g)
         == Read(VStruct([VNum(Decode(buf, 1, offset)), VNum(Decode(buf, 1, offset + 1))]), 2)
  {
    hide Decode;
    var one := NumSpec(1);
    UnfoldFields(one, [one], buf, offset, g);
    UnfoldFields(one, [], buf, offset + 1, g);
    assert [one] + [one] == VERSION_SPEC.fields && [one] + [] == [one];
    var a, b := VNum(Decode(buf, 1, offset)), VNum(Decode(buf, 1, offset + 1));
    assert DeserializeFields([one], buf, offset + 1, g) == List([b], 1);
    assert [a] + [b] == [a, b];
  }

  /** Parsing a record succeeds exactly when all 13 header bytes are there. The record then
      takes the length it announces, of which the part past the buffer is garbage. */
  lemma ParseLayout(buf: bytes, offset: nat, g: Garbage)
    ensures Parse(buf, offset, g).Some? <==> offset + HEADER_LENGTH <= |buf|
    ensures offset + HEADER_LENGTH <= |buf| ==>
              var length := Decode(buf, 2, offset + 11);
              && length.Num?
              && Parse(buf, offset, g) == Some((
                   Packet(Decode(buf, 1, offset).v, Decode(buf, 1, offset + 1).v, Decode(buf, 1, offset + 2).v,
                          Decode(buf, 2, offset + 3).v, Decode(buf, 6, offset + 5).v,
                          CopyOut(buf, offset + HEADER_LENGTH, length.v, g)),
                   HEADER_LENGTH + length.v))
              && Copied(Parse(buf, offset, g).value.0.fragment, buf, offset + 13, g)
  {
    hide Deserialize, DeserializeFields, CopyOut, Copied;
    var fs := CIPHERTEXT_SPEC.fields;
    LayoutOfStruct(buf, offset, g);
    UnfoldFields(fs[4], [], buf, offset + 11, g);
    UnfoldFields(fs[3], [fs[4]], buf, offset + 5, g);
    UnfoldFields(fs[2], [fs[3], fs[4]], buf, offset + 3, g);
    UnfoldFields(fs[1], [fs[2], fs[3], fs[4]], buf, offset + 1, g);
    UnfoldFields(fs[0], fs[1..], buf, offset, g);
    assert [fs[4]] + [] == [fs[4]] && [fs[3]] + [fs[4]] == [fs[3], fs[4]];
    assert [fs[2]] + [fs[3], fs[4]] == [fs[2], fs[3], fs[4]] && [fs[1]] + [fs[2], fs[3], fs[4]] == fs[1..];
    assert [fs[0]] + fs[1..] == fs;
    var length := Decode(buf, 2, offset + 11);
    if length.Num? {
      CopyOutCopies(buf, offset + HEADER_LENGTH, length.v, g);
      var v := VBuf(CopyOut(buf, offset + HEADER_LENGTH, length.v, g));
      assert [v] + [] == [v];
      assert DeserializeFields([fs[4]], buf, offset + 11, g) == List([v], 2 + length.v);
    }
  }

  /** The bytes are those of the buffer, and past its end whatever the memory held. */
  ghost predicate Copied(b: bytes, buf: bytes, start: nat, g: Garbage) {
    forall k :: 0 <= k < |b| ==> b[k] == if start + k < |buf| then buf[start + k] else g(start + k)
  }

  lemma CopyOutCopies(buf: bytes, start: nat, length: nat, g: Garbage)
    ensures |CopyOut(buf, start, length, g)| == length && Copied(CopyOut(buf, start, length, g), buf, start, g)
  {
  }

  /** The single fields of a record at their offsets. */
  lemma LayoutOfStruct(buf: bytes, offset: nat, g: Garbage)
    ensures var fields := DeserializeFields(CIPHERTEXT_SPEC.fields, buf, offset, g);
            Deserialize(CIPHERTEXT_SPEC, buf, offset, g)
            == if fields.ListFails? then Fails else Read(VStruct(fields.vs), fields.n)
    ensures forall at: nat :: DeserializeFields([], buf, at, g) == List([], 0)
    ensures Deserialize(NumSpec(1), buf, offset, g) == Read(VNum(Decode(buf, 1, offset)), 1)
    ensures Deserialize(VERSION_SPEC, buf, offset + 1, g)
         == Read(VStruct([VNum(Decode(buf, 1, offset + 1)), VNum(Decode(buf, 1, offset + 2))]), 2)
    ensures Deserialize(NumSpec(2), buf, offset + 3, g) == Read(VNum(Decode(buf, 2, offset + 3)), 2)
    ensures Deserialize(NumSpec(6), buf, offset + 5, g) == Read(VNum(Decode(buf, 6, offset + 5)), 6)
    ensures var length := Decode(buf, 2, offset + 11);
            && (length.Num? <==> offset + HEADER_LENGTH <= |buf|)
            && Deserialize(BufSpec(0, MAX_FRAGMENT), buf, offset + 11, g)
            == if length.NaN? then Fails
               else Read(VBuf(CopyOut(buf, offset + HEADER_LENGTH, length.v, g)), 2 + length.v)
  {
    hide CopyOut, DeserializeFields;
    MaxFragmentPrefix();
    UnfoldVersion(buf, offset + 1, g);
    NoMoreFields(buf, g);
  }

  lemma NoMoreFields(buf: bytes, g: Garbage)
    ensures forall at: nat :: DeserializeFields([], buf, at, g) == List([], 0)
  {
  }

  /** A printed record is recovered from any place in a datagram, in its wire form. */
  lemma ParsePrinted(p: Packet, pre: bytes, suf: bytes, g: Garbage)
    requires |p.fragment| <= MAX_FRAGMENT
    ensures Parse(pre + Print(p) + suf, |pre|, g) == Some((Wire(p), HEADER_LENGTH + |p.fragment|))
  {
    var w := Wire(p);
    PrintsLikeItsWireForm(p);
    PacketLength(p);
    WireIsWellFormed(p);
    RoundTrip(CIPHERTEXT_SPEC, PacketValue(w), pre, suf, g);
    assert Missing(CIPHERTEXT_SPEC, PacketValue(w), |pre| + |Print(w)| + |suf| == 0) == 0;
  }

  lemma WireIsWellFormed(p: Packet)
    requires |p.fragment| <= MAX_FRAGMENT
    ensures WellFormedSpec(CIPHERTEXT_SPEC) && !Open(CIPHERTEXT_SPEC)
    ensures Typed(CIPHERTEXT_SPEC, PacketValue(Wire(p)))
    ensures WellFormed(CIPHERTEXT_SPEC, PacketValue(Wire(p)))
  {
    Powers();
    var v := PacketValue(Wire(p));
    assert WellFormedSpec(VERSION_SPEC);
    assert Typed(VERSION_SPEC, v.fields[1]);
    assert WellFormed(VERSION_SPEC, v.fields[1]);
  }
}
