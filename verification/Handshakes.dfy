/** The handshake messages of src/DTLS/Handshake.ts and their bodies. */
module Handshakes {
  import opened Bytes
  import opened BitConverter
  import opened Codec
  import opened CodecProofs
  import opened Fragments
  import opened Packets

  const CLIENT_HELLO := 1
  const SERVER_HELLO := 2
  const HELLO_VERIFY_REQUEST := 3
  const SERVER_KEY_EXCHANGE := 12
  const SERVER_HELLO_DONE := 14
  const CLIENT_KEY_EXCHANGE := 16
  const FINISHED := 20
  const HELLO_REQUEST := 0

  const RANDOM := StructSpec([NumSpec(4), BufSpec(28, 28)])
  const EXTENSION := StructSpec([NumSpec(2), BufSpec(0, 65535)])
  const EXTENSIONS := VecSpec(EXTENSION, 0, 65535, true)
  const RAW := StructSpec([RestSpec])
  const COOKIE := BufSpec(0, 255)
  const PSK_IDENTITY := StructSpec([BufSpec(0, 65535)])
  const PRE_MASTER_SECRET := StructSpec([BufSpec(0, 65535), BufSpec(0, 65535)])

  /** The body of each message type; the bodies of other types cannot be printed or parsed. */
  function BodySpec(msgType: nat): Option<Spec> {
    if msgType == HELLO_REQUEST || msgType == SERVER_HELLO_DONE then Some(StructSpec([]))
    else if msgType == CLIENT_HELLO then
      Some(StructSpec([VERSION_SPEC, RANDOM, BufSpec(0, 32), COOKIE, VecSpec(NumSpec(2), 2, 65534, false),
                       VecSpec(NumSpec(1), 1, 255, false), EXTENSIONS]))
    else if msgType == SERVER_HELLO then
      Some(StructSpec([VERSION_SPEC, RANDOM, BufSpec(0, 32), NumSpec(2), NumSpec(1), EXTENSIONS]))
    else if msgType == HELLO_VERIFY_REQUEST then Some(StructSpec([VERSION_SPEC, COOKIE]))
    else if msgType in {SERVER_KEY_EXCHANGE, CLIENT_KEY_EXCHANGE, FINISHED} then Some(RAW)
    else None
  }

  /** The lookup table `HandshakeMessages`, which has no ClientKeyExchange. */
  predicate Parseable(msgType: nat) {
    BodySpec(msgType).Some? && msgType != CLIENT_KEY_EXCHANGE
  }

  datatype Handshake = Handshake(msgType: nat, seqNum: nat, body: Value)

  /** The message has the fields of its class. */
  predicate Sound(m: Handshake) {
    BodySpec(m.msgType).Some? && Typed(BodySpec(m.msgType).value, m.body)
  }

  function Body(m: Handshake): bytes {
    if Sound(m) then Serialize(BodySpec(m.msgType).value, m.body) else []
  }

  function ToFragment(m: Handshake): Fragment {
    Fragment(m.msgType, |Body(m)|, m.seqNum, 0, Body(m))
  }

  /** `Handshake.fromFragment`; `None` when it throws. */
  function FromFragment(f: Fragment, g: Garbage): Option<Handshake> {
    if f.IsFragmented() || !Parseable(f.msgType) then None
    else
      match Deserialize(BodySpec(f.msgType).value, f.data, 0, g)
      case Fails => None
      case Read(v, _) => Some(Handshake(f.msgType, f.seqNum, v))
  }

  // ---- the fragment header ----

  const FRAGMENT_SPEC := StructSpec([NumSpec(1), NumSpec(3), NumSpec(2), NumSpec(3), BufSpec(0, 0xFF_FFFF)])

  function FragmentValue(f: Fragment): Value {
    VStruct([VNum(Num(f.msgType)), VNum(Num(f.total)), VNum(Num(f.seqNum)), VNum(Num(f.offset)), VBuf(f.data)])
  }

  function PrintFragment(f: Fragment): bytes {
    Serialize(FRAGMENT_SPEC, FragmentValue(f))
  }

  /** The handshake header of section 4.2.2 of RFC 6347, field by field. */
  lemma FragmentLayout(f: Fragment)
    ensures PrintFragment(f)
         == Encode(Num(f.msgType), 1) + (Encode(Num(f.total), 3) + (Encode(Num(f.seqNum), 2)
            + (Encode(Num(f.offset), 3) + (Encode(Num(|f.data|), 3) + f.data))))
  {
    FiveFields(FRAGMENT_SPEC.fields, FragmentValue(f).fields);
    assert Shifts(255) == 1 && Shifts(0xFFFF) == 2;
  }

  predicate FragmentShaped(v: Value) {
    && v.VStruct? && |v.fields| == 5
    && (forall i :: 0 <= i < 4 ==> v.fields[i].VNum? && v.fields[i].n.Num? && v.fields[i].n.v >= 0)
    && v.fields[4].VBuf?
  }

  /** `TLSStruct.from(FragmentedHandshake.spec, data)`; `None` when it throws. */
  function ParseFragment(data: bytes, g: Garbage): Option<Fragment> {
    match Deserialize(FRAGMENT_SPEC, data, 0, g)
    case Fails => None
    case Read(v, _) =>
      if FragmentShaped(v)
      then Some(Fragment(v.fields[0].n.v, v.fields[1].n.v, v.fields[2].n.v, v.fields[3].n.v, v.fields[4].b))
      else None
  }

  /** The fields fit into their places on the wire. */
  predicate FitsHeader(f: Fragment) {
    f.msgType < 256 && f.total < 0x100_0000 && f.seqNum < 65536 && f.offset < 0x100_0000 && |f.data| < 0x100_0000
  }

  lemma ParsePrintedFragment(f: Fragment, g: Garbage)
    requires FitsHeader(f)
    ensures ParseFragment(PrintFragment(f), g) == Some(f)
  {
    hide Open, WellFormed, WellFormedSpec, Typed, Serialize, Deserialize;
    FragmentValueFits(f);
    RoundTrip(FRAGMENT_SPEC, FragmentValue(f), [], [], g);
    ClosedMissesNothing(FRAGMENT_SPEC, FragmentValue(f), |PrintFragment(f)| == 0);
    assert [] + PrintFragment(f) + [] == PrintFragment(f);
  }

  lemma FragmentValueFits(f: Fragment)
    requires FitsHeader(f)
    ensures WellFormedSpec(FRAGMENT_SPEC) && !Open(FRAGMENT_SPEC)
    ensures Typed(FRAGMENT_SPEC, FragmentValue(f))
    ensures WellFormed(FRAGMENT_SPEC, FragmentValue(f))
  {
    assert Pow256(1) == 256 && Pow256(2) == 65536 && Pow256(3) == 0x100_0000;
    assert !Open(FRAGMENT_SPEC.fields[4]);
  }

  // ---- fields the handler looks at ----

  function Field(m: Handshake, i: nat): Option<Value> {
    if m.body.VStruct? && i < |m.body.fields| then Some(m.body.fields[i]) else None
  }

  function BytesOf(v: Option<Value>): bytes {
    if v.Some? && v.value.VBuf? then v.value.b else []
  }

  /** A number field; a NaN behaves like 0 wherever it is written out again. */
  function NumberOf(v: Option<Value>): int {
    if v.Some? && v.value.VNum? && v.value.n.Num? then v.value.n.v else 0
  }

  function ClientCookie(m: Handshake): bytes {
    BytesOf(Field(m, 3))
  }

  function WithCookie(m: Handshake, cookie: bytes): Handshake {
    if m.body.VStruct? && |m.body.fields| > 3 then m.(body := VStruct(m.body.fields[3 := VBuf(cookie)])) else m
  }

  function RandomBytes(m: Handshake): bytes {
    var r := Field(m, 1);
    if r.Some? && Typed(RANDOM, r.value) then Serialize(RANDOM, r.value) else []
  }

  /** `needsToHashMessage`. */
  predicate NeedsToHash(m: Handshake) {
    if m.msgType == HELLO_VERIFY_REQUEST || m.msgType == HELLO_REQUEST then false
    else if m.msgType == CLIENT_HELLO then ClientCookie(m) != []
    else true
  }

  // ---- canonical messages ----

  /** A message whose body is a well-formed value, as an honest peer builds it. */
  ghost predicate Canonical(m: Handshake) {
    && Parseable(m.msgType) && Sound(m)
    && WellFormed(BodySpec(m.msgType).value, m.body)
  }

  lemma BodySpecsAreWellFormed(msgType: nat)
    requires BodySpec(msgType).Some?
    ensures WellFormedSpec(BodySpec(msgType).value)
  {
    assert WellFormedSpec(VERSION_SPEC) && WellFormedSpec(RANDOM) && WellFormedSpec(EXTENSION);
    assert !Open(VERSION_SPEC) && !Open(RANDOM) && !Open(EXTENSION);
    assert WellFormedSpec(EXTENSIONS) && WellFormedSpec(NumSpec(2)) && WellFormedSpec(NumSpec(1));
    assert WellFormedSpec(RestSpec);
  }

  /** Parsing the whole encoding of a canonical message gives the message back. */
  lemma FromFragmentInverts(m: Handshake, g: Garbage)
    requires Canonical(m)
    ensures FromFragment(ToFragment(m), g) == Some(m)
  {
    BodySpecsAreWellFormed(m.msgType);
    RoundTrip(BodySpec(m.msgType).value, m.body, [], [], g);
    assert [] + Body(m) + [] == Body(m);
  }
}
