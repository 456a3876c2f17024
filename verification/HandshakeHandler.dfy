/** src/DTLS/HandshakeHandler.ts: the handshake handler object of a client. */
module HandshakeHandlers {
  import opened Bytes
  import opened Codec
  import opened Crypto
  import opened Prfs
  import opened ConnectionStates
  import opened Records
  import opened RecordLayers
  import opened Fragments
  import opened Handshakes
  import opened Handlers

  lemma {:induction false} HashedAppends(ms: seq<Handshake>, m: Handshake)
    ensures Hashed(ms + [m]) == Hashed(ms) + if NeedsToHash(m) then [PrintFragment(ToFragment(m))] else []
  {
    hide NeedsToHash, PrintFragment, ToFragment;
    if ms == [] {
      assert [] + [m] == [m];
      assert Hashed([m]) == (if NeedsToHash(m) then [PrintFragment(ToFragment(m))] else []) + [];
    } else {
      assert (ms + [m])[1..] == ms[1..] + [m];
      HashedAppends(ms[1..], m);
    }
  }

  class ClientHandshakeHandler {
    const recordLayer: RecordLayer
    const suites: int -> Option<CipherSuite>
    const psk: Option<(bytes, bytes)>
    var isHandshaking: bool
    var lastProcessedSeqNum: int
    var lastSentSeqNum: int
    var lastFlight: seq<Handshake>
    var incompleteMessages: seq<Fragment>
    var completeMessages: map<nat, Handshake>
    var expectedResponses: Option<seq<nat>>
    var allHandshakeData: seq<bytes>
    var bufferedOutgoingMessages: seq<Message>
    var sendFlightBeginWasCalled: bool
    var outcomes: seq<Outcome>

    ghost function Value(): Handler
      reads this
    {
      Handler(isHandshaking, lastProcessedSeqNum, lastSentSeqNum, lastFlight, incompleteMessages, completeMessages,
              expectedResponses, allHandshakeData, bufferedOutgoingMessages, sendFlightBeginWasCalled, outcomes)
    }

    ghost function Options(): Config {
      Config(recordLayer.library, recordLayer.random, suites, psk)
    }

    ghost predicate Separate()
      reads recordLayer
    {
      this !in recordLayer.Repr
    }

    ghost predicate Valid()
      reads this, recordLayer, recordLayer.Repr
    {
      && Separate() && recordLayer.Valid()
      && lastSentSeqNum >= -1 && recordLayer.library.HmacLaw()
    }

    ghost function State(): (cl: Endpoint)
      requires Valid()
      reads this, recordLayer, recordLayer.Repr
      ensures Live(cl)
    {
      Endpoint(Value(), recordLayer.Value())
    }

    // ---- the transcript ----

    /** `bufferHandshakeData`, applied to those of the messages that need to be hashed. */
    method BufferHandshakeData(messages: seq<Handshake>)
      modifies this`allHandshakeData
      ensures allHandshakeData == old(allHandshakeData) + Hashed(messages)
    {
      hide NeedsToHash, PrintFragment, ToFragment;
      for i := 0 to |messages|
        invariant allHandshakeData == old(allHandshakeData) + Hashed(messages[..i])
      {
        HashedAppends(messages[..i], messages[i]);
        assert messages[..i + 1] == messages[..i] + [messages[i]];
        if NeedsToHash(messages[i]) {
          allHandshakeData := allHandshakeData + [PrintFragment(ToFragment(messages[i]))];
        }
      }
      assert messages[..|messages|] == messages;
    }

    method ComputeVerifyData(conn: ConnectionState, usage: string) returns (r: Option<bytes>)
      requires recordLayer.library.HmacLaw()
      ensures r == VerifyData(recordLayer.library, conn.Value(), allHandshakeData, usage)
    {
      hide P;
      if conn.cipherSuite.None? || conn.cipherSuite.value.prf.None? || conn.masterSecret.None? {
        return None;
      }
      var h := conn.cipherSuite.value.prf.value;
      var handshakeHash := recordLayer.library.hash(h, Concat(allHandshakeData));
      var verifyData := ComputeP(recordLayer.library, h, conn.masterSecret.value, Ascii(usage) + handshakeHash,
                                 conn.cipherSuite.value.verifyDataLength);
      r := Some(verifyData);
    }

    // ---- sending flights ----

    method SendFlightBegin()
      modifies this`sendFlightBeginWasCalled, this`lastFlight
      ensures Value() == Begin(old(Value()))
    {
      sendFlightBeginWasCalled := true;
      lastFlight := [];
    }

    /** `sendFlight_processPartial` for one message, as every caller uses it; it throws unless the
        flight was begun. */
    method SendFlightProcessPartial(handshake: Handshake) returns (status: Status)
      requires lastSentSeqNum >= -1
      modifies this`lastSentSeqNum, this`lastFlight, this`allHandshakeData, this`bufferedOutgoingMessages
      ensures status == if old(sendFlightBeginWasCalled) then Continues else Threw
      ensures Value() == (if status.Continues? then Enqueue(old(Value()), handshake) else old(Value()))
              && lastSentSeqNum >= -1
    {
      hide PrintFragment, ToFragment, NeedsToHash;
      if !sendFlightBeginWasCalled {
        return Threw;
      }
      status := Continues;
      if handshake.msgType == FINISHED {
        bufferedOutgoingMessages := bufferedOutgoingMessages + [CCS_MESSAGE];
      }
      lastSentSeqNum := lastSentSeqNum + 1;
      var numbered := handshake.(seqNum := lastSentSeqNum);
      lastFlight := lastFlight + [numbered];
      var fragment := ToFragment(numbered);
      if NeedsToHash(numbered) {
        allHandshakeData := allHandshakeData + [PrintFragment(fragment)];
      }
      var fragments := ComputeSplit(fragment, MAX_FRAGMENT_LENGTH);
      bufferedOutgoingMessages := bufferedOutgoingMessages +
        seq(|fragments.value|,
            i requires 0 <= i < |fragments.value| => Message(HANDSHAKE, PrintFragment(fragments.value[i])));
    }

    method SendFlightFinish(expected: seq<nat>) returns (status: Status)
      requires Valid()
      modifies this, recordLayer.Repr
      ensures Valid() && fresh(recordLayer.Repr - old(recordLayer.Repr))
      ensures (State(), status) == Finish(Options(), old(State()), expected)
    {
      hide Records.SendFlight, Table, RecordLayer.Owns, RecordLayer.Value;
      expectedResponses := Some(expected);
      var ok := recordLayer.SendFlight(bufferedOutgoingMessages);
      if !ok {
        return Threw;
      }
      bufferedOutgoingMessages := [];
      sendFlightBeginWasCalled := false;
      status := Continues;
    }
 
    method SendFlight(handshake: Handshake, expected: seq<nat>) returns (status: Status)
      requires Valid()
      modifies this, recordLayer.Repr
      ensures Valid() && fresh(recordLayer.Repr - old(recordLayer.Repr))
      ensures (State(), status)
           == Finish(Options(), old(State()).(h := Enqueue(Begin(old(Value())), handshake)), expected)
    {
      hide Finish, Enqueue, Table, RecordLayer.Owns, RecordLayer.Value;
      SendFlightBegin();
      status := SendFlightProcessPartial(handshake);
      label Queued:
      status := SendFlightFinish(expected);
    }

    // ---- the start ----

    constructor (recordLayer: RecordLayer, suites: int -> Option<CipherSuite>, psk: Option<(bytes, bytes)>,
                 random: Value, suiteIds: seq<int>)
      requires recordLayer.Valid() && recordLayer.library.HmacLaw()
      modifies recordLayer.Repr
      ensures Valid() && this.recordLayer == recordLayer && fresh(recordLayer.Repr - old(recordLayer.Repr))
      ensures this.suites == suites && this.psk == psk
      ensures State() == Start(Options(), old(recordLayer.Value()), random, suiteIds).0
    {
      hide Restart, Table, RecordLayer.Owns, RecordLayer.Value;
      this.recordLayer, this.suites, this.psk := recordLayer, suites, psk;
      isHandshaking, lastProcessedSeqNum, lastSentSeqNum := false, -1, -1;
      lastFlight, incompleteMessages, completeMessages := [], [], map[];
      expectedResponses, allHandshakeData, bufferedOutgoingMessages := None, [], [];
      sendFlightBeginWasCalled, outcomes := false, [];
      new;
      var status := Renegotiate(random, suiteIds);
    }

    method Renegotiate(random: Value, suiteIds: seq<int>) returns (status: Status)
      requires Valid()
      modifies this, recordLayer.Repr
      ensures Valid() && fresh(recordLayer.Repr - old(recordLayer.Repr))
      ensures (State(), status) == Restart(Options(), old(State()), random, suiteIds)
    {
      hide Finish, Table, ClientHello, Enqueue, RecordLayer.Owns, RecordLayer.Value;
      ResetVariables();
      var hello := ClientHello(random, suiteIds);
      RememberClientRandom(RandomBytes(hello));
      status := SendFlight(hello, [SERVER_HELLO_DONE, HELLO_VERIFY_REQUEST]);
    }

    method ResetVariables()
      modifies this`isHandshaking, this`lastProcessedSeqNum, this`lastSentSeqNum, this`incompleteMessages,
               this`completeMessages, this`expectedResponses, this`allHandshakeData
      ensures Value() == Reset(old(Value()))
    {
      isHandshaking := true;
      lastProcessedSeqNum, lastSentSeqNum := -1, -1;
      incompleteMessages, completeMessages, expectedResponses, allHandshakeData := [], map[], Some([]), [];
    }

    method RememberClientRandom(random: bytes)
      requires Valid()
      modifies recordLayer.Repr
      ensures Valid() && recordLayer.Repr == old(recordLayer.Repr)
      ensures var l := old(recordLayer.Value()); var n := NextEpochNr(l);
              n in l.epochs && recordLayer.Value() == WithConn(l, n, l.epochs[n].conn.(clientRandom := Some(random)))
    {
      hide Table, RecordLayer.Owns, RecordLayer.Value;
      var n := recordLayer.NextEpochNr();
      recordLayer.EpochIsOwned(n);
      ghost var l := recordLayer.Value();
      CurrentEpochsExist(l);
      ghost var conn := l.epochs[n].conn.(clientRandom := Some(random));
      WithConnKeepsTable(l, n, conn);
      recordLayer.epochs[n].connectionState.clientRandom := Some(random);
      recordLayer.OnlyEpoch(n);
      assert recordLayer.Value() == WithConn(l, n, conn);
    }

    // ---- the flight handlers ----

    method HandleHelloVerifyRequest(hvr: Handshake) returns (status: Status)
      requires Valid()
      modifies this, recordLayer.Repr
      ensures Valid() && fresh(recordLayer.Repr - old(recordLayer.Repr))
      ensures (State(), status) == HandleHelloVerify(Options(), old(State()), hvr)
    {
      hide Finish, Enqueue, WithCookie, Table, RecordLayer.Owns, RecordLayer.Value;
      if |lastFlight| == 0 {
        return Threw;
      }
      var hello := WithCookie(lastFlight[0], BytesOf(Field(hvr, 1)));
      status := SendFlight(hello, [SERVER_HELLO_DONE]);
    }

    /** The random and the suite go to the next epoch. */
    method RememberParameters(hello: Handshake)
      requires Valid()
      modifies recordLayer.Repr
      ensures Valid() && recordLayer.Repr == old(recordLayer.Repr)
      ensures var l := old(recordLayer.Value()); var n := NextEpochNr(l);
              n in l.epochs && recordLayer.Value() == WithConn(l, n, l.epochs[n].conn.(
                                 serverRandom := Some(RandomBytes(hello)), suite := suites(NumberOf(Field(hello, 3)))))
    {
      hide Table, RecordLayer.Owns, RecordLayer.Value, RandomBytes, NumberOf;
      var n := recordLayer.NextEpochNr();
      recordLayer.EpochIsOwned(n);
      ghost var l := recordLayer.Value();
      CurrentEpochsExist(l);
      ghost var conn := l.epochs[n].conn.(serverRandom := Some(RandomBytes(hello)),
                                          suite := suites(NumberOf(Field(hello, 3))));
      WithConnKeepsTable(l, n, conn);
      var state := recordLayer.epochs[n].connectionState;
      state.serverRandom := Some(RandomBytes(hello));
      state.cipherSuite := suites(NumberOf(Field(hello, 3)));
      recordLayer.OnlyEpoch(n);
      assert recordLayer.Value() == WithConn(l, n, conn);
    }

    /** `epoch.connectionState.protocolVersion = version`. */
    method RememberVersion(e: nat, major: int, minor: int)
      requires Valid() && e in recordLayer.Value().epochs
      modifies recordLayer.Repr
      ensures Valid() && recordLayer.Repr == old(recordLayer.Repr)
      ensures var l := old(recordLayer.Value());
              recordLayer.Value() == WithConn(l, e, l.epochs[e].conn.(major := major, minor := minor))
    {
      hide Table, RecordLayer.Owns, RecordLayer.Value;
      recordLayer.EpochIsOwned(e);
      ghost var l := recordLayer.Value();
      ghost var conn := l.epochs[e].conn.(major := major, minor := minor);
      WithConnKeepsTable(l, e, conn);
      var state := recordLayer.epochs[e].connectionState;
      state.major, state.minor := major, minor;
      recordLayer.OnlyEpoch(e);
      assert recordLayer.Value() == WithConn(l, e, conn);
    }

    method HandleServerHello(hello: Handshake)
      requires Valid()
      modifies recordLayer.Repr
      ensures Valid() && recordLayer.Repr == old(recordLayer.Repr)
      ensures State() == Handlers.HandleServerHello(Options(), old(State()), hello)
    {
      hide Table, RecordLayer.Owns, RecordLayer.Value, RandomBytes, NumberOf;
      CurrentEpochsExist(recordLayer.Value());
      RememberParameters(hello);
      var version := Field(hello, 0);
      var major, minor := 0, 0;
      if version.Some? && version.value.VStruct? && |version.value.fields| == 2 {
        major, minor := NumberOf(Some(version.value.fields[0])), NumberOf(Some(version.value.fields[1]));
      }
      recordLayer.EpochIsOwned(0);
      var writeEpoch := recordLayer.writeEpochNr;
      RememberVersion(writeEpoch, major, minor);
      RememberVersion(writeEpoch + 1, major, minor);
    }

    method HandleServerKeyExchange(m: Handshake) returns (status: Status)
      requires Valid()
      ensures status == Handlers.HandleServerKeyExchange(State(), m)
    {
      hide Table, RecordLayer.Owns, RecordLayer.Value, Deserialize;
      CurrentEpochsExist(recordLayer.Value());
      var n := recordLayer.NextEpochNr();
      recordLayer.EpochIsOwned(n);
      var suite := recordLayer.epochs[n].connectionState.cipherSuite;
      if suite.None? {
        return Threw;
      }
      if suite.value.keyExchange == Psk {
        var parsed := Deserialize(PSK_IDENTITY, BytesOf(Field(m, 0)), 0, _ => 0);
        if parsed.Fails? {
          return Threw;
        }
      }
      status := Continues;
    }

    /** `computeMasterSecret` of the next epoch's connection state. */
    method ComputeKeys(preMaster: bytes) returns (ok: bool)
      requires Valid()
      modifies recordLayer.Repr
      ensures Valid() && recordLayer.Repr == old(recordLayer.Repr)
      ensures var l := old(recordLayer.Value());
              var n := NextEpochNr(l);
              && n in l.epochs
              && var keyed := WithMasterSecret(recordLayer.library, l.epochs[n].conn, preMaster);
              && ok == keyed.Some?
              && recordLayer.Value() == if ok then WithConn(l, n, keyed.value) else l
    {
      hide Table, RecordLayer.Owns, RecordLayer.Value, WithMasterSecret;
      var n := recordLayer.NextEpochNr();
      recordLayer.EpochIsOwned(n);
      ghost var l := recordLayer.Value();
      CurrentEpochsExist(l);
      ghost var keyed := WithMasterSecret(recordLayer.library, l.epochs[n].conn, preMaster);
      ghost var conn := if keyed.Some? then keyed.value else l.epochs[n].conn;
      WithConnKeepsTable(l, n, conn);
      ok := recordLayer.epochs[n].connectionState.ComputeMasterSecret(recordLayer.library, preMaster);
      recordLayer.OnlyEpoch(n);
      assert recordLayer.Value() == WithConn(l, n, conn);
      assert WithConn(l, n, l.epochs[n].conn).epochs == l.epochs;
    }

    method SendAnswer(identity: bytes) returns (status: Status)
      requires Valid()
      modifies this, recordLayer.Repr
      ensures Valid() && fresh(recordLayer.Repr - old(recordLayer.Repr))
      ensures (State(), status) == Answer(Options(), old(State()), identity)
    {
      hide Table, RecordLayer.Owns, RecordLayer.Value, VerifyData, Enqueue, Finish, Serialize;
      SendFlightBegin();
      status := SendFlightProcessPartial(ClientKeyExchange(identity));
      recordLayer.EpochIsOwned(recordLayer.writeEpochNr + 1);
      CurrentEpochsExist(recordLayer.Value());
      var verifyData := ComputeVerifyData(recordLayer.epochs[recordLayer.writeEpochNr + 1].connectionState,
                                          "client finished");
      if verifyData.None? {
        return Threw;
      }
      status := SendFlightProcessPartial(FinishedMessage(verifyData.value));
      status := SendFlightFinish([FINISHED]);
    }

    method HandleServerHelloDone() returns (status: Status)
      requires Valid()
      modifies this, recordLayer.Repr
      ensures Valid() && fresh(recordLayer.Repr - old(recordLayer.Repr))
      ensures (State(), status) == Handlers.HandleServerHelloDone(Options(), old(State()))
    {
      hide Table, RecordLayer.Owns, RecordLayer.Value, WithMasterSecret, Answer, PreMasterSecret;
      CurrentEpochsExist(recordLayer.Value());
      var n := recordLayer.NextEpochNr();
      recordLayer.EpochIsOwned(n);
      var suite := recordLayer.epochs[n].connectionState.cipherSuite;
      if suite.None? {
        return Threw;
      }
      if suite.value.keyExchange != Psk {
        outcomes := outcomes + [HandshakeFailure];
        return Returned;
      }
      if psk.None? {
        return Threw;
      }
      var ok := ComputeKeys(PreMasterSecret(psk.value.1));
      if !ok {
        return Threw;
      }
      status := SendAnswer(psk.value.0);
    }

    method HandleServerHelloDoneFlight(messages: seq<Handshake>) returns (status: Status)
      requires Valid()
      modifies this, recordLayer.Repr
      ensures Valid() && fresh(recordLayer.Repr - old(recordLayer.Repr))
      ensures (State(), status) == HandleServerFlight(Options(), old(State()), messages)
    {
      hide Table, RecordLayer.Owns, RecordLayer.Value, HandleOne;
      ghost var before := State();
      assert messages[0..] == messages;
      for i := 0 to |messages|
        invariant Valid() && fresh(recordLayer.Repr - old(recordLayer.Repr))
        invariant HandleServerFlight(Options(), before, messages)
                  == HandleServerFlight(Options(), State(), messages[i..])
      {
        ghost var rest := messages[i..];
        assert rest[0] == messages[i] && rest[1..] == messages[i + 1..];
        status := HandleMessage(messages[i]);
        if !status.Continues? {
          return;
        }
      }
      status := Continues;
    }

    method HandleMessage(m: Handshake) returns (status: Status)
      requires Valid()
      modifies this, recordLayer.Repr
      ensures Valid() && fresh(recordLayer.Repr - old(recordLayer.Repr))
      ensures (State(), status) == HandleOne(Options(), old(State()), m)
    {
      hide Table, RecordLayer.Owns, RecordLayer.Value, Handlers.HandleServerHello, Handlers.HandleServerKeyExchange,
           Handlers.HandleServerHelloDone;
      status := Continues;
      if m.msgType == SERVER_HELLO {
        HandleServerHello(m);
      } else if m.msgType == SERVER_KEY_EXCHANGE {
        status := HandleServerKeyExchange(m);
      } else if m.msgType == SERVER_HELLO_DONE {
        status := HandleServerHelloDone();
      }
    }

    method HandleFinished(finished: Handshake) returns (status: Status)
      requires Valid()
      modifies this
      ensures Valid() && recordLayer.Repr == old(recordLayer.Repr)
      ensures (State(), status) == Handlers.HandleFinished(Options(), old(State()), finished)
    {
      hide Table, RecordLayer.Owns, RecordLayer.Value, VerifyData;
      CurrentEpochsExist(recordLayer.Value());
      recordLayer.EpochIsOwned(recordLayer.readEpochNr);
      var expected := ComputeVerifyData(recordLayer.epochs[recordLayer.readEpochNr].connectionState, "server finished");
      if expected.None? {
        return Threw;
      }
      isHandshaking := false;
      outcomes := outcomes + [if BytesOf(Field(finished, 0)) == expected.value then Connected else DecryptError];
      status := Continues;
    }

    /** The `handle` table. */
    method Handle(messages: seq<Handshake>) returns (status: Status)
      requires Valid() && messages != []
      modifies this, recordLayer.Repr
      ensures Valid() && fresh(recordLayer.Repr - old(recordLayer.Repr))
      ensures (State(), status) == Handlers.Handle(Options(), old(State()), messages)
    {
      hide Table, RecordLayer.Owns, RecordLayer.Value, HandleHelloVerify, HandleServerFlight, Handlers.HandleFinished;
      var last := messages[|messages| - 1];
      if last.msgType == HELLO_VERIFY_REQUEST {
        status := HandleHelloVerifyRequest(last);
      } else if last.msgType == SERVER_HELLO_DONE {
        status := HandleServerHelloDoneFlight(messages);
      } else if last.msgType == FINISHED {
        status := HandleFinished(last);
      } else {
        status := Threw;
      }
    }

    // ---- incoming messages ----

    /** `tryAssembleFragments`. */
    method TryAssembleFragments(reference: Fragment, g: Garbage) returns (status: Status)
      modifies this`completeMessages, this`incompleteMessages
      ensures var all := FindAll(old(incompleteMessages), reference);
              if IsComplete(all) == Some(true) then
                && Reassemble(all, g).Some?
                && var whole := Reassemble(all, g).value; var m := FromFragment(whole, g);
                && status == (if m.None? then Threw else Continues)
                && completeMessages
                   == (if m.None? then old(completeMessages) else old(completeMessages)[whole.seqNum := m.value])
                && incompleteMessages
                   == (if m.None? then old(incompleteMessages) else Without(old(incompleteMessages), reference))
              else
                && status == Returned && completeMessages == old(completeMessages)
                && incompleteMessages == old(incompleteMessages)
    {
      hide IsComplete, FromFragment;
      var allFragments := FindAll(incompleteMessages, reference);
      var complete := ComputeIsComplete(allFragments);
      if complete != Some(true) {
        return Returned;
      }
      NothingIsIncomplete();
      var reassembled := ComputeReassemble(allFragments, g);
      var m := FromFragment(reassembled.value, g);
      if m.None? {
        return Threw;
      }
      completeMessages := completeMessages[reassembled.value.seqNum := m.value];
      incompleteMessages := Without(incompleteMessages, reference);
      status := Continues;
    }

    static lemma NothingIsIncomplete()
      ensures IsComplete([]) == Some(false)
    {
    }

    /** The first part of `processIncomingMessage`; `Continues` says that the flight is to be checked. */
    method StoreMessage(msg: Fragment, g: Garbage) returns (status: Status)
      modifies this`completeMessages, this`incompleteMessages
      ensures (Value(), status) == Store(old(Value()), msg, g)
    {
      hide IsComplete, FromFragment, Reassemble;
      if msg.IsFragmented() {
        incompleteMessages := incompleteMessages + [msg];
        status := TryAssembleFragments(msg, g);
      } else {
        var m := FromFragment(msg, g);
        if m.None? {
          return Threw;
        }
        completeMessages := completeMessages[msg.seqNum := m.value];
        status := Continues;
      }
    }

    /** `Object.keys(this.completeMessages)`, which lists integer keys in ascending order. */
    method CompleteMsgIndices() returns (keys: seq<nat>)
      ensures keys == KeysBelow(completeMessages, SEQ_NUMS)
      ensures forall i :: 0 <= i < |keys| ==> keys[i] in completeMessages
    {
      keys := [];
      for k := 0 to SEQ_NUMS
        invariant keys == KeysBelow(completeMessages, k)
      {
        if k in completeMessages {
          keys := keys + [k];
        }
      }
      KeysBelowAreKeys(completeMessages, SEQ_NUMS);
    }

    /** No gap between the last processed number and the stored ones. */
    method IsSequence(keys: seq<nat>) returns (b: bool)
      ensures b == Consecutive(lastProcessedSeqNum, keys)
    {
      for i := 0 to |keys|
        invariant forall j :: 0 <= j < i ==> keys[j] == lastProcessedSeqNum + 1 + j
      {
        if keys[i] != (if i == 0 then lastProcessedSeqNum else keys[i - 1]) + 1 {
          return false;
        }
      }
      b := true;
    }

    /** `processIncomingMessage`; false when an exception leaves it. */
    method ProcessIncomingMessage(msg: Fragment, g: Garbage) returns (ok: bool)
      requires Valid()
      modifies this, recordLayer.Repr
      ensures Valid() && fresh(recordLayer.Repr - old(recordLayer.Repr))
      ensures (State(), ok) == ProcessIncoming(Options(), old(State()), msg, g)
    {
      hide Table, RecordLayer.Owns, RecordLayer.Value, Store, Dispatch;
      var status := StoreMessage(msg, g);
      if !status.Continues? {
        return !status.Threw?;
      }
      var keys := CompleteMsgIndices();
      var isComplete := IsSequence(keys);
      ok := true;
      if !isComplete || |keys| == 0 || expectedResponses.None? {
        return;
      }
      var messages := Values(completeMessages, keys);
      assert messages == Stored(Value());
      if messages[|messages| - 1].msgType in expectedResponses.value {
        DispatchFlight(messages);
      }
    }

    /** What precedes the call of the handler. */
    method TakeFlight(messages: seq<Handshake>)
      requires messages != []
      modifies this`expectedResponses, this`lastProcessedSeqNum, this`completeMessages, this`allHandshakeData
      ensures Value() == Taken(old(Value()), messages)
    {
      hide Hashed;
      var lastMsg := messages[|messages| - 1];
      expectedResponses := None;
      lastProcessedSeqNum := lastMsg.seqNum;
      completeMessages := map[];
      if lastMsg.msgType == FINISHED {
        BufferHandshakeData(messages[..|messages| - 1]);
      } else {
        BufferHandshakeData(messages);
      }
    }

    /** Hands a complete flight to its handler. */
    method DispatchFlight(messages: seq<Handshake>)
      requires Valid() && messages != []
      modifies this, recordLayer.Repr
      ensures Valid() && fresh(recordLayer.Repr - old(recordLayer.Repr))
      ensures State() == Dispatch(Options(), old(State()), messages)
    {
      hide Table, RecordLayer.Owns, RecordLayer.Value, Handlers.Handle, Taken, PrintFragment, ToFragment;
      var lastMsg := messages[|messages| - 1];
      TakeFlight(messages);
      var status := Handle(messages);
      if status.Threw? {
        isHandshaking := false;
        outcomes := outcomes + [HandlerThrew];
        return;
      }
      if lastMsg.msgType == FINISHED {
        allHandshakeData := allHandshakeData + [PrintFragment(ToFragment(lastMsg))];
      }
    }
  }
}
