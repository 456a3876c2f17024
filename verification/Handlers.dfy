/** The state of src/DTLS/HandshakeHandler.ts and what its methods do to it. */
module Handlers {
  import opened Bytes
  import opened BitConverter
  import opened Codec
  import opened Crypto
  import opened Prfs
  import opened ConnectionStates
  import opened Packets
  import opened Records
  import opened Fragments
  import opened Handshakes

  /** The calls of the `finishedCallback`: success, the two failures that carry an alert, and
      an exception caught while a flight was handled. */
  datatype Outcome = Connected | HandshakeFailure | DecryptError | HandlerThrew

  /** The fields of a handler. `expected` is `None` for null. */
  datatype Handler = Handler(
    isHandshaking: bool,
    lastProcessed: int,
    lastSent: int,
    lastFlight: seq<Handshake>,
    incomplete: seq<Fragment>,
    complete: map<nat, Handshake>,
    expected: Option<seq<nat>>,
    transcript: seq<bytes>,
    outgoing: seq<Message>,
    flightBegun: bool,
    outcomes: seq<Outcome>)

  /** A handler together with the record layer it drives. */
  datatype Endpoint = Endpoint(h: Handler, l: Layer)

  /** Everything the handler reads but does not change: the suite table, the first entry of
      the `psk` option, and the foreign functions with the bytes they draw. */
  datatype Config = Config(
    library: Library, entropy: Entropy, suites: int -> Option<CipherSuite>, psk: Option<(bytes, bytes)>)

  ghost predicate Live(cl: Endpoint) {
    Table(cl.l) && cl.h.lastSent >= -1
  }

  datatype Status = Continues | Returned | Threw

  const CCS_MESSAGE := Message(CHANGE_CIPHER_SPEC, [1])

  // ---- sending flights ----

  function Begin(h: Handler): Handler {
    h.(flightBegun := true, lastFlight := [])
  }

  /** The records for one message: all that `split` returns for the default length. */
  function RecordsOf(m: Handshake): seq<Message> {
    var fs := Split(ToFragment(m), MAX_FRAGMENT_LENGTH).value;
    seq(|fs|, i requires 0 <= i < |fs| => Message(HANDSHAKE, PrintFragment(fs[i])))
  }

  /** One round of the loop in `sendFlight_processPartial`. */
  function Enqueue(h: Handler, m: Handshake): Handler
    requires h.lastSent >= -1
  {
    var numbered := m.(seqNum := h.lastSent + 1);
    h.(lastSent := h.lastSent + 1,
       lastFlight := h.lastFlight + [numbered],
       transcript := if NeedsToHash(numbered) then h.transcript + [PrintFragment(ToFragment(numbered))]
         else h.transcript,
       outgoing := h.outgoing + (if m.msgType == FINISHED then [CCS_MESSAGE] else []) + RecordsOf(numbered))
  }

  /** `sendFlight_finish`; the status tells whether sending threw. */
  function Finish(cfg: Config, cl: Endpoint, expected: seq<nat>): (Endpoint, Status)
    requires Table(cl.l)
  {
    var (l, ok) := SendFlight(cfg.library, cfg.entropy, cl.l, cl.h.outgoing);
    if ok then (Endpoint(cl.h.(expected := Some(expected), outgoing := [], flightBegun := false), l), Continues)
    else (Endpoint(cl.h.(expected := Some(expected)), l), Threw)
  }

  // ---- verify data ----

  /** `computeVerifyData` with a given connection state; `None` when it throws. */
  function VerifyData(c: Library, conn: ConnState, transcript: seq<bytes>, usage: string): Option<bytes> {
    if conn.suite.None? || conn.suite.value.prf.None? || conn.masterSecret.None? then None
    else
      var h := conn.suite.value.prf.value;
      Some(Expand(c, h, conn.masterSecret.value, usage, c.hash(h, Concat(transcript)),
                  conn.suite.value.verifyDataLength))
  }

  /** The verify data of section 7.4.9 of RFC 5246: the PRF of the master secret over the usage
      and the hash of all handshake messages so far, in the length the suite sets. */
  lemma VerifyDataIsPrf(c: Library, conn: ConnState, transcript: seq<bytes>, usage: string)
    requires c.HmacLaw()
    ensures var v := VerifyData(c, conn, transcript, usage);
            && (v.Some? <==> conn.suite.Some? && conn.suite.value.prf.Some? && conn.masterSecret.Some?)
            && (v.Some? ==>
                  && var s := conn.suite.value;
                  && v.value == P(c, s.prf.value, conn.masterSecret.value,
                                  Ascii(usage) + c.hash(s.prf.value, Concat(transcript)), s.verifyDataLength)
                  && |v.value| == s.verifyDataLength)
  {
    hide P;
    if conn.suite.Some? && conn.suite.value.prf.Some? && conn.masterSecret.Some? {
      var s := conn.suite.value;
      PIsBlockStream(c, s.prf.value, conn.masterSecret.value,
                     Ascii(usage) + c.hash(s.prf.value, Concat(transcript)), s.verifyDataLength);
    }
  }

  // ---- the flight handlers ----

  /** HelloVerifyRequest: the stored ClientHello is sent again with the cookie. */
  function HandleHelloVerify(cfg: Config, cl: Endpoint, hvr: Handshake): (Endpoint, Status)
    requires Live(cl)
  {
    if cl.h.lastFlight == [] then (cl, Threw)
    else
      var hello := WithCookie(cl.h.lastFlight[0], BytesOf(Field(hvr, 1)));
      Finish(cfg, cl.(h := Enqueue(Begin(cl.h), hello)), [SERVER_HELLO_DONE])
  }

  /** ServerHello: the parameters go to the next epoch, the version also to the current one. */
  function HandleServerHello(cfg: Config, cl: Endpoint, m: Handshake): Endpoint
    requires Table(cl.l)
  {
    CurrentEpochsExist(cl.l);
    var n := NextEpochNr(cl.l);
    var l1 := WithConn(cl.l, n, cl.l.epochs[n].conn.(
                         serverRandom := Some(RandomBytes(m)), suite := cfg.suites(NumberOf(Field(m, 3)))));
    var version := Field(m, 0);
    var major := if version.Some? && version.value.VStruct? && |version.value.fields| == 2
                 then NumberOf(Some(version.value.fields[0])) else 0;
    var minor := if version.Some? && version.value.VStruct? && |version.value.fields| == 2
                 then NumberOf(Some(version.value.fields[1])) else 0;
    var l2 := WithConn(l1, l1.write, l1.epochs[l1.write].conn.(major := major, minor := minor));
    cl.(l := WithConn(l2, l2.write + 1, l2.epochs[l2.write + 1].conn.(major := major, minor := minor)))
  }

  function HandleServerKeyExchange(cl: Endpoint, m: Handshake): Status
    requires Table(cl.l)
  {
    CurrentEpochsExist(cl.l);
    var suite := cl.l.epochs[NextEpochNr(cl.l)].conn.suite;
    if suite.None? then Threw
    else if suite.value.keyExchange != Psk then Continues
    else if Deserialize(PSK_IDENTITY, BytesOf(Field(m, 0)), 0, _ => 0).Fails? then Threw
    else Continues
  }

  function ClientKeyExchange(identity: bytes): Handshake {
    var raw := Serialize(PSK_IDENTITY, VStruct([VBuf(identity)]));
    Handshake(CLIENT_KEY_EXCHANGE, 0, VStruct([VBuf(raw)]))
  }

  /** `new PreMasterSecret(null, psk).serialize()`: as many zeros as the key has bytes, then the key. */
  function PreMasterSecret(psk: bytes): bytes {
    var zeros: bytes := seq(|psk|, _ => 0);
    Serialize(PRE_MASTER_SECRET, VStruct([VBuf(zeros), VBuf(psk)]))
  }

  /** The premaster secret of section 2 of RFC 4279: N zeros and the key of N bytes, each
      with its length in two bytes. */
  lemma PreMasterSecretLayout(psk: bytes)
    ensures var zeros: bytes := seq(|psk|, _ => 0);
            PreMasterSecret(psk) == (Encode(Num(|psk|), 2) + zeros) + (Encode(Num(|psk|), 2) + psk)
  {
    TwoBytesOfLength();
    var zeros: bytes := seq(|psk|, _ => 0);
    TwoFields(BufSpec(0, 65535), BufSpec(0, 65535), VBuf(zeros), VBuf(psk));
  }

  /** The body of a ClientKeyExchange is the identity behind its length in two bytes. */
  lemma ClientKeyExchangeLayout(identity: bytes)
    ensures Body(ClientKeyExchange(identity)) == Encode(Num(|identity|), 2) + identity
  {
    TwoBytesOfLength();
    var id, raw := VBuf(identity), Serialize(PSK_IDENTITY, VStruct([VBuf(identity)]));
    assert [BufSpec(0, 65535)][1..] == [] && [id][1..] == [];
    assert SerializeFields([BufSpec(0, 65535)], [id]) == Serialize(BufSpec(0, 65535), id) + [];
    assert [RestSpec][1..] == [] && [VBuf(raw)][1..] == [];
    assert SerializeFields([RestSpec], [VBuf(raw)]) == Serialize(RestSpec, VBuf(raw)) + [];
    assert Sound(ClientKeyExchange(identity));
  }

  lemma TwoBytesOfLength()
    ensures Fit(65535) == 2
  {
    assert Shifts(255) == 1;
  }

  function FinishedMessage(verifyData: bytes): Handshake {
    Handshake(FINISHED, 0, VStruct([VBuf(verifyData)]))
  }

  /** ClientKeyExchange and Finished, once the keys are computed. */
  function Answer(cfg: Config, cl: Endpoint, identity: bytes): (Endpoint, Status)
    requires Live(cl)
  {
    CurrentEpochsExist(cl.l);
    var h := Enqueue(Begin(cl.h), ClientKeyExchange(identity));
    var verifyData := VerifyData(cfg.library, cl.l.epochs[cl.l.write + 1].conn, h.transcript, "client finished");
    if verifyData.None? then (Endpoint(h, cl.l), Threw)
    else Finish(cfg, Endpoint(Enqueue(h, FinishedMessage(verifyData.value)), cl.l), [FINISHED])
  }

  /** The client's reaction to a ServerHelloDone: keys, ClientKeyExchange, Finished. */
  function HandleServerHelloDone(cfg: Config, cl: Endpoint): (Endpoint, Status)
    requires Live(cl) && cfg.library.HmacLaw()
  {
    CurrentEpochsExist(cl.l);
    var n := NextEpochNr(cl.l);
    var conn := cl.l.epochs[n].conn;
    if conn.suite.None? then (cl, Threw)
    else if conn.suite.value.keyExchange != Psk
      then (cl.(h := cl.h.(outcomes := cl.h.outcomes + [HandshakeFailure])), Returned)
    else if cfg.psk.None? then (cl, Threw)
    else
      var keyed := WithMasterSecret(cfg.library, conn, PreMasterSecret(cfg.psk.value.1));
      if keyed.None? then (cl, Threw)
      else
        Answer(cfg, cl.(l := WithConn(cl.l, n, keyed.value)), cfg.psk.value.0)
  }

  function HandleOne(cfg: Config, cl: Endpoint, m: Handshake): (Endpoint, Status)
    requires Live(cl) && cfg.library.HmacLaw()
  {
    if m.msgType == SERVER_HELLO then (HandleServerHello(cfg, cl, m), Continues)
    else if m.msgType == SERVER_KEY_EXCHANGE then (cl, HandleServerKeyExchange(cl, m))
    else if m.msgType == SERVER_HELLO_DONE then HandleServerHelloDone(cfg, cl)
    else (cl, Continues)
  }

  /** The loop of the ServerHelloDone handler over the messages of the flight. */
  function HandleServerFlight(cfg: Config, cl: Endpoint, ms: seq<Handshake>): (r: (Endpoint, Status))
    requires Live(cl) && cfg.library.HmacLaw()
    ensures Live(r.0)
    decreases |ms|
  {
    if ms == [] then (cl, Continues)
    else
      HandleOneKeepsTable(cfg, cl, ms[0]);
      var (next, status) := HandleOne(cfg, cl, ms[0]);
      if status.Continues? then HandleServerFlight(cfg, next, ms[1..]) else (next, status)
  }

  lemma HandleServerHelloKeepsTable(cfg: Config, cl: Endpoint, m: Handshake)
    requires Table(cl.l)
    ensures Table(HandleServerHello(cfg, cl, m).l) && HandleServerHello(cfg, cl, m).h == cl.h
  {
  }

  lemma HandleOneKeepsTable(cfg: Config, cl: Endpoint, m: Handshake)
    requires Live(cl) && cfg.library.HmacLaw()
    ensures Live(HandleOne(cfg, cl, m).0)
  {
    hide HandleServerHello, HandleServerKeyExchange, HandleServerHelloDone;
    HandleServerHelloKeepsTable(cfg, cl, m);
    HandleServerHelloDoneKeepsTable(cfg, cl);
  }

  lemma HandleServerHelloDoneKeepsTable(cfg: Config, cl: Endpoint)
    requires Live(cl) && cfg.library.HmacLaw()
    ensures var r := HandleServerHelloDone(cfg, cl).0; Live(r)
  {
    hide WithMasterSecret, VerifyData, PreMasterSecret, ClientKeyExchange, RecordsOf, NeedsToHash, SendFlight;
  }

  /** Finished: the data received must equal the data expected. */
  function HandleFinished(cfg: Config, cl: Endpoint, m: Handshake): (Endpoint, Status)
    requires Table(cl.l)
  {
    CurrentEpochsExist(cl.l);
    var expected := VerifyData(cfg.library, cl.l.epochs[cl.l.read].conn, cl.h.transcript, "server finished");
    if expected.None? then (cl, Threw)
    else
      var outcome := if BytesOf(Field(m, 0)) == expected.value then Connected else DecryptError;
      (cl.(h := cl.h.(isHandshaking := false, outcomes := cl.h.outcomes + [outcome])), Continues)
  }

  /** The `handle` table, indexed by the type of the last message; other entries are undefined. */
  function Handle(cfg: Config, cl: Endpoint, ms: seq<Handshake>): (r: (Endpoint, Status))
    requires Live(cl) && cfg.library.HmacLaw() && ms != []
    ensures Live(r.0)
  {
    hide HandleServerFlight;
    var last := ms[|ms| - 1];
    if last.msgType == HELLO_VERIFY_REQUEST then HandleHelloVerify(cfg, cl, last)
    else if last.msgType == SERVER_HELLO_DONE then HandleServerFlight(cfg, cl, ms)
    else if last.msgType == FINISHED then HandleFinished(cfg, cl, last)
    else (cl, Threw)
  }

  // ---- incoming messages ----

  const SEQ_NUMS := 65536

  /** The keys of `completeMessages` below `n`, ascending as `Object.keys` lists them. */
  function KeysBelow(m: map<nat, Handshake>, n: nat): seq<nat> {
    if n == 0 then [] else KeysBelow(m, n - 1) + if n - 1 in m then [n - 1] else []
  }

  lemma {:induction false} KeysBelowAreKeys(m: map<nat, Handshake>, n: nat)
    ensures forall i :: 0 <= i < |KeysBelow(m, n)| ==> KeysBelow(m, n)[i] in m && KeysBelow(m, n)[i] < n
  {
    if n > 0 {
      KeysBelowAreKeys(m, n - 1);
    }
  }

  function Values(m: map<nat, Handshake>, keys: seq<nat>): seq<Handshake>
    requires forall i :: 0 <= i < |keys| ==> keys[i] in m
  {
    seq(|keys|, i requires 0 <= i < |keys| => m[keys[i]])
  }

  predicate Consecutive(last: int, keys: seq<nat>) {
    forall i :: 0 <= i < |keys| ==> keys[i] == last + 1 + i
  }

  function Without(fs: seq<Fragment>, ref: Fragment): seq<Fragment> {
    if fs == [] then []
    else (if fs[0].SameMessage(ref) then [] else [fs[0]]) + Without(fs[1..], ref)
  }

  /** The first half of `processIncomingMessage`: store the message or the fragment. The status
      is `Continues` when the flight has to be checked and `Returned` when not. */
  function Store(h: Handler, f: Fragment, g: Garbage): (Handler, Status) {
    if f.IsFragmented() then
      var h1 := h.(incomplete := h.incomplete + [f]);
      var all := FindAll(h1.incomplete, f);
      if IsComplete(all) == Some(true) then
        var whole := Reassemble(all, g).value;
        var m := FromFragment(whole, g);
        if m.None? then (h1, Threw)
        else (h1.(complete := h1.complete[whole.seqNum := m.value], incomplete := Without(h1.incomplete, f)), Continues)
      else (h1, Returned)
    else
      var m := FromFragment(f, g);
      if m.None? then (h, Threw) else (h.(complete := h.complete[f.seqNum := m.value]), Continues)
  }

  function Keys(h: Handler): seq<nat> {
    KeysBelow(h.complete, SEQ_NUMS)
  }

  /** The stored messages in ascending order. */
  function Stored(h: Handler): seq<Handshake> {
    KeysBelowAreKeys(h.complete, SEQ_NUMS);
    Values(h.complete, Keys(h))
  }

  /** The flight is the expected one and has no gap. */
  predicate FlightReady(h: Handler) {
    && Keys(h) != [] && Consecutive(h.lastProcessed, Keys(h))
    && h.expected.Some? && Stored(h)[|Stored(h)| - 1].msgType in h.expected.value
  }

  function Hashed(ms: seq<Handshake>): seq<bytes> {
    if ms == [] then []
    else (if NeedsToHash(ms[0]) then [PrintFragment(ToFragment(ms[0]))] else []) + Hashed(ms[1..])
  }

  /** The messages that enter the transcript before the flight is handled. */
  function BeforeHandling(ms: seq<Handshake>): seq<Handshake>
    requires ms != []
  {
    if ms[|ms| - 1].msgType == FINISHED then ms[..|ms| - 1] else ms
  }

  /** The handler at the moment the flight is handed over. */
  function Taken(h: Handler, ms: seq<Handshake>): Handler
    requires ms != []
  {
    h.(expected := None, lastProcessed := ms[|ms| - 1].seqNum, complete := map[],
       transcript := h.transcript + Hashed(BeforeHandling(ms)))
  }

  function Dispatch(cfg: Config, cl: Endpoint, ms: seq<Handshake>): Endpoint
    requires Live(cl) && cfg.library.HmacLaw() && ms != []
  {
    var (next, status) := Handle(cfg, cl.(h := Taken(cl.h, ms)), ms);
    if status.Threw? then next.(h := next.h.(isHandshaking := false, outcomes := next.h.outcomes + [HandlerThrew]))
    else if ms[|ms| - 1].msgType == FINISHED then
      next.(h := next.h.(transcript := next.h.transcript + [PrintFragment(ToFragment(ms[|ms| - 1]))]))
    else next
  }

  /** `processIncomingMessage`; the flag is false when an exception leaves it. */
  function ProcessIncoming(cfg: Config, cl: Endpoint, f: Fragment, g: Garbage): (Endpoint, bool)
    requires Live(cl) && cfg.library.HmacLaw()
  {
    var (h, status) := Store(cl.h, f, g);
    var stored := cl.(h := h);
    if status.Threw? then (stored, false)
    else if status.Continues? && FlightReady(h) then (Dispatch(cfg, stored, Stored(h)), true)
    else (stored, true)
  }

  /** The flight that processing `f` hands to the `handle` table, if any. */
  function Dispatched(h: Handler, f: Fragment, g: Garbage): Option<seq<Handshake>> {
    var (h1, status) := Store(h, f, g);
    if status.Continues? && FlightReady(h1) then Some(Stored(h1)) else None
  }

  lemma ProcessKeepsTable(cfg: Config, cl: Endpoint, f: Fragment, g: Garbage)
    requires Live(cl) && cfg.library.HmacLaw()
    ensures var r := ProcessIncoming(cfg, cl, f, g).0; Live(r)
  {
    hide Handle, FlightReady, FromFragment, IsComplete, Reassemble;
  }

  // ---- the start of a session ----

  function ClientHello(random: Value, suiteIds: seq<int>): Handshake {
    Handshake(CLIENT_HELLO, 0, VStruct([
      VStruct([VNum(Num(-2)), VNum(Num(-3))]), random, VBuf([]), VBuf([]),
      VVec(seq(|suiteIds|, i requires 0 <= i < |suiteIds| => VNum(Num(suiteIds[i])))), VVec([VNum(Num(0))]), VVec([])]))
  }

  /** The fields before the first call of `renegotiate`. */
  const IDLE := Handler(false, -1, -1, [], [], map[], None, [], [], false, [])

  /** The variables that `renegotiate` resets; queued messages and outcomes stay. */
  function Reset(h: Handler): Handler {
    h.(isHandshaking := true, lastProcessed := -1, lastSent := -1, incomplete := [], complete := map[],
       expected := Some([]), transcript := [])
  }

  /** `renegotiate`. */
  function Restart(cfg: Config, cl: Endpoint, random: Value, suiteIds: seq<int>): (Endpoint, Status)
    requires Table(cl.l)
  {
    CurrentEpochsExist(cl.l);
    var hello := ClientHello(random, suiteIds);
    var n := NextEpochNr(cl.l);
    var l1 := WithConn(cl.l, n, cl.l.epochs[n].conn.(clientRandom := Some(RandomBytes(hello))));
    Finish(cfg, Endpoint(Enqueue(Begin(Reset(cl.h)), hello), l1), [SERVER_HELLO_DONE, HELLO_VERIFY_REQUEST])
  }

  /** What the constructor makes of a record layer. */
  function Start(cfg: Config, l: Layer, random: Value, suiteIds: seq<int>): (Endpoint, Status)
    requires Table(l)
  {
    Restart(cfg, Endpoint(IDLE, l), random, suiteIds)
  }

  const RESET := Reset(IDLE)

  lemma StartIsLive(cfg: Config, l: Layer, random: Value, suiteIds: seq<int>)
    requires Table(l)
    ensures Live(Start(cfg, l, random, suiteIds).0)
  {
    hide SendFlight, RecordsOf, PrintFragment, ToFragment, RandomBytes;
  }
}
