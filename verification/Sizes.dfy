/** Handshake messages that fit into one record. */
module Sizes {
  import opened Bytes
  import opened BitConverter
  import opened Codec
  import opened CodecProofs
  import opened Packets
  import opened Records
  import opened Fragments
  import opened Handshakes
  import opened Handlers
  import opened Transcripts
  import opened Completion

  /** A record with a whole, unfragmented message. */
  function Whole(m: Handshake): Message {
    Message(HANDSHAKE, Encoding(m))
  }

  /** The message fits into one record and its header. */
  ghost predicate Short(m: Handshake) {
    Canonical(m) && |Body(m)| <= 1000 && m.msgType < 256 && m.seqNum < 65536
  }

  lemma EncodingLength(f: Fragment)
    ensures |PrintFragment(f)| == 12 + |f.data|
  {
    FragmentLayout(f);
  }

  lemma ShortFits(m: Handshake)
    requires Short(m)
    ensures FitsHeader(ToFragment(m)) && |Whole(m).data| <= 1012
  {
    hide Body, PrintFragment, Canonical;
    EncodingLength(ToFragment(m));
  }

  lemma OneFieldLength(s: Spec, v: Value)
    requires Typed(s, v)
    ensures |SerializeFields([s], [v])| == |Serialize(s, v)|
  {
    assert [s][1..] == [] && [v][1..] == [];
    assert SerializeFields([s], [v]) == Serialize(s, v) + [];
  }

  lemma CookieRequestIsShort(cookie: bytes)
    requires |cookie| < 256
    ensures Short(CookieRequest(cookie))
  {
    CookieRequestIsCanonical(cookie);
    var v := CookieRequest(cookie).body;
    VersionPrints(254, 253);
    TwoFields(VERSION_SPEC, COOKIE, v.fields[0], v.fields[1]);
    assert Shifts(255) == 1;
  }

  lemma RandomLength(v: Value)
    requires RandomValue(v)
    ensures |Serialize(RANDOM, v)| == 32
  {
    assert RANDOM.fields == [NumSpec(4), BufSpec(28, 28)];
    assert v.fields == [v.fields[0], v.fields[1]];
    assert WellFormed(RANDOM.fields[1], v.fields[1]);
    TwoFields(NumSpec(4), BufSpec(28, 28), v.fields[0], v.fields[1]);
  }

  lemma FirstField(fs: seq<Spec>, vs: seq<Value>)
    requires AllTyped(fs, vs) && fs != []
    ensures AllTyped(fs[1..], vs[1..])
            && SerializeFields(fs, vs) == Serialize(fs[0], vs[0]) + SerializeFields(fs[1..], vs[1..])
  {
    hide Serialize, Typed;
  }

  lemma HelloLength(random: Value, suiteId: nat)
    requires RandomValue(random) && suiteId < 65536
    ensures |Body(ServerHello(random, suiteId))| == 38
  {
    ServerHelloIsCanonical(random, suiteId);
    var fs, vs := BodySpec(SERVER_HELLO).value.fields, ServerHello(random, suiteId).body.fields;
    var f1, v1 := fs[1..], vs[1..];
    VersionPrints(254, 253);
    RandomLength(random);
    assert AllTyped(fs, vs) && AllTyped(f1, v1);
    FiveFields(f1, v1);
    assert forall i :: 0 <= i < 5 ==> f1[i] == fs[i + 1] && v1[i] == vs[i + 1];
    assert Shifts(32) == 1;
    assert |Serialize(fs[0], vs[0])| == 2 && |Serialize(fs[1], vs[1])| == 32 && |Serialize(fs[2], vs[2])| == 1;
    assert |Serialize(fs[3], vs[3])| == 2 && |Serialize(fs[4], vs[4])| == 1 && Serialize(fs[5], vs[5]) == [];
    assert |SerializeFields(f1, v1)| == 36;
    FirstField(fs, vs);
    assert Sound(ServerHello(random, suiteId));
    assert Body(ServerHello(random, suiteId)) == SerializeFields(fs, vs);
  }

  lemma HelloIsShort(random: Value, suiteId: nat)
    requires RandomValue(random) && suiteId < 65536
    ensures Short(ServerHello(random, suiteId))
  {
    hide Canonical, Body, RandomValue;
    ServerHelloIsCanonical(random, suiteId);
    HelloLength(random, suiteId);
  }

  lemma EndingsAreShort(verifyData: bytes)
    requires |verifyData| < 256
    ensures Short(HELLO_DONE) && Short(ServerFinished(verifyData))
  {
    EndingsAreCanonical(verifyData);
    OneFieldLength(RestSpec, VBuf(verifyData));
  }

  /** The client's records are short too. */
  lemma RecordsAreShort(m: Handshake)
    ensures |RecordsOf(m)| <= 1
    ensures forall i :: 0 <= i < |RecordsOf(m)| ==>
              RecordsOf(m)[i].typ == HANDSHAKE && |RecordsOf(m)[i].data| <= 12 + MAX_FRAGMENT_LENGTH
  {
    hide Body, PrintFragment;
    var fs := Split(ToFragment(m), MAX_FRAGMENT_LENGTH).value;
    forall i | 0 <= i < |fs|
      ensures |PrintFragment(fs[i])| <= 12 + MAX_FRAGMENT_LENGTH
    {
      EncodingLength(fs[i]);
    }
  }
}
