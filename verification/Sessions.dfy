/** The socket of src/dtls.ts: what it does with a datagram and with data to be sent. */
module Sessions {
  import opened Bytes
  import opened Codec
  import opened Crypto
  import opened Records
  import opened RecordLayers
  import opened Handshakes
  import opened Handlers
  import opened HandshakeHandlers
  import R = RecordProofs

  /** A client with its socket: `finished` is `_handshakeFinished`, `emitted` lists the data of
      the "message" events. */
  datatype Session = Session(cl: Endpoint, finished: bool, buffered: seq<bytes>, emitted: seq<bytes>)

  ghost predicate Open(cfg: Config, s: Session) {
    Live(s.cl) && cfg.library.HmacLaw()
  }

  /** The finished callback: on success everything that was buffered is emitted. */
  function Callback(s: Session, news: seq<Outcome>): Session {
    if Connected in news then s.(finished := true, emitted := s.emitted + s.buffered, buffered := []) else s
  }

  /** The outcomes that `b` adds to those of `a`. */
  function News(a: seq<Outcome>, b: seq<Outcome>): seq<Outcome> {
    if |a| <= |b| then b[|a|..] else []
  }

  /** One round of the loop in `udp_onMessage`; the flag is false when an exception leaves it. */
  function OnMessage(cfg: Config, s: Session, msg: Message, g: Garbage): (Session, bool)
    requires Open(cfg, s)
  {
    if msg.typ == HANDSHAKE then
      var f := ParseFragment(msg.data, g);
      if f.None? then (s, false)
      else
        var (cl, ok) := ProcessIncoming(cfg, s.cl, f.value, g);
        (Callback(s.(cl := cl), News(s.cl.h.outcomes, cl.h.outcomes)), ok)
    else if msg.typ == CHANGE_CIPHER_SPEC then (s.(cl := s.cl.(l := AdvanceRead(s.cl.l))), true)
    else if msg.typ == APPLICATION_DATA then
      (if s.finished then s.(emitted := s.emitted + [msg.data]) else s.(buffered := s.buffered + [msg.data]), true)
    else (s, true)
  }

  lemma OnMessageKeepsOpen(cfg: Config, s: Session, msg: Message, g: Garbage)
    requires Open(cfg, s)
    ensures Open(cfg, OnMessage(cfg, s, msg, g).0)
  {
    hide ProcessIncoming, Table, ParseFragment, AdvanceRead;
    AdvancingKeepsTable(s.cl.l);
    if msg.typ == HANDSHAKE {
      var f := ParseFragment(msg.data, g);
      if f.Some? {
        ProcessKeepsTable(cfg, s.cl, f.value, g);
      }
    }
  }

  /** The loop from message `i` on, and how many messages it looked at in all. */
  function OnMessages(cfg: Config, s: Session, msgs: seq<Message>, gs: nat -> Garbage, i: nat): (r: (Session, nat))
    requires Open(cfg, s) && i <= |msgs|
    ensures Open(cfg, r.0) && i <= r.1 <= |msgs|
    decreases |msgs| - i
  {
    if i == |msgs| then (s, i)
    else
      OnMessageKeepsOpen(cfg, s, msgs[i], gs(i));
      var (next, ok) := OnMessage(cfg, s, msgs[i], gs(i));
      if ok then OnMessages(cfg, next, msgs, gs, i + 1) else (next, i + 1)
  }

  /** What reaches a socket: a datagram, or data its user wants to send. */
  datatype Input = Datagram(buf: bytes, g: Garbage, gs: nat -> Garbage) | Data(data: bytes)

  /** `udp_onMessage`. */
  function OnDatagram(cfg: Config, s: Session, buf: bytes, g: Garbage, gs: nat -> Garbage): (r: Session)
    requires Open(cfg, s)
    ensures Open(cfg, r)
  {
    R.StepKeepsTable(cfg.library, s.cl.l, R.Recv(g, buf));
    var (l, records) := Receive(cfg.library, g, s.cl.l, buf);
    OnMessages(cfg, s.(cl := s.cl.(l := l)), Messages(records), gs, 0).0
  }

  /** `send`, which throws before the handshake is finished. */
  function OnData(cfg: Config, s: Session, data: bytes): (r: Session)
    requires Open(cfg, s)
    ensures Open(cfg, r)
  {
    if !s.finished then s
    else s.(cl := s.cl.(l := Send(cfg.library, cfg.entropy, s.cl.l, Message(APPLICATION_DATA, data)).0))
  }

  function Step(cfg: Config, s: Session, input: Input): (r: Session)
    requires Open(cfg, s)
    ensures Open(cfg, r)
  {
    match input
    case Datagram(buf, g, gs) => OnDatagram(cfg, s, buf, g, gs)
    case Data(data) => OnData(cfg, s, data)
  }

  ghost function Run(cfg: Config, s: Session, inputs: seq<Input>): (r: Session)
    requires Open(cfg, s)
    ensures Open(cfg, r)
  {
    if inputs == [] then s else Step(cfg, Run(cfg, s, inputs[..|inputs| - 1]), inputs[|inputs| - 1])
  }

  /** A session right after its handshake was started. */
  function Opened(cfg: Config, random: Value, suiteIds: seq<int>): (s: Session)
    requires cfg.library.HmacLaw()
    ensures Open(cfg, s)
  {
    FreshLayerTable();
    StartIsLive(cfg, FRESH_LAYER, random, suiteIds);
    Session(Start(cfg, FRESH_LAYER, random, suiteIds).0, false, [], [])
  }

  class Socket {
    const recordLayer: RecordLayer
    const handshakeHandler: ClientHandshakeHandler
    var handshakeFinished: bool
    var bufferedMessages: seq<bytes>
    var emitted: seq<bytes>

    ghost function Options(): Config {
      handshakeHandler.Options()
    }

    ghost predicate Valid()
      reads this, handshakeHandler, recordLayer, recordLayer.Repr
    {
      handshakeHandler.recordLayer == recordLayer && handshakeHandler.Valid() && this !in recordLayer.Repr
    }

    ghost function State(): (s: Session)
      requires Valid()
      reads this, handshakeHandler, recordLayer, recordLayer.Repr
      ensures Open(Options(), s)
    {
      Session(handshakeHandler.State(), handshakeFinished, bufferedMessages, emitted)
    }

    /** What `udp_onListening` sets up: the record layer and the handshake handler. */
    constructor (library: Library, entropy: Entropy, suites: int -> Option<CipherSuite>, psk: Option<(bytes, bytes)>,
                 random: Value, suiteIds: seq<int>)
      requires library.HmacLaw()
      ensures Valid() && fresh(recordLayer.Repr + {handshakeHandler})
              && Options() == Config(library, entropy, suites, psk)
      ensures State() == Opened(Options(), random, suiteIds)
    {
      hide Start, Table, RecordLayer.Owns, RecordLayer.Value;
      var layer := new RecordLayer(library, entropy);
      recordLayer := layer;
      handshakeHandler := new ClientHandshakeHandler(layer, suites, psk, random, suiteIds);
      handshakeFinished, bufferedMessages, emitted := false, [], [];
    }

    method FinishedCallback(news: seq<Outcome>)
      requires Valid()
      modifies this
      ensures Valid() && State() == Callback(old(State()), news)
    {
      hide RecordLayer.Owns, RecordLayer.Value, Table;
      if Connected in news {
        handshakeFinished := true;
        for i := 0 to |bufferedMessages|
          invariant Valid() && handshakeFinished && bufferedMessages == old(bufferedMessages)
          invariant emitted == old(emitted) + bufferedMessages[..i]
          invariant handshakeHandler.State() == old(handshakeHandler.State())
        {
          emitted := emitted + [bufferedMessages[i]];
        }
        bufferedMessages := [];
      }
    }

    method HandleMessage(msg: Message, g: Garbage) returns (ok: bool)
      requires Valid()
      modifies this, handshakeHandler, recordLayer.Repr
      ensures Valid() && fresh(recordLayer.Repr - old(recordLayer.Repr))
      ensures (State(), ok) == OnMessage(Options(), old(State()), msg, g)
    {
      hide RecordLayer.Owns, RecordLayer.Value, Table, ParseFragment, ProcessIncoming, Callback, AdvanceRead;
      ok := true;
      if msg.typ == HANDSHAKE {
        var f := ParseFragment(msg.data, g);
        if f.None? {
          return false;
        }
        var before := handshakeHandler.outcomes;
        ok := handshakeHandler.ProcessIncomingMessage(f.value, g);
        FinishedCallback(News(before, handshakeHandler.outcomes));
      } else if msg.typ == CHANGE_CIPHER_SPEC {
        recordLayer.EpochIsOwned(0);
        recordLayer.AdvanceReadEpoch();
      } else if msg.typ == APPLICATION_DATA {
        if !handshakeFinished {
          bufferedMessages := bufferedMessages + [msg.data];
        } else {
          emitted := emitted + [msg.data];
        }
      }
    }

    /** `udp_onMessage`. */
    method UdpOnMessage(buf: bytes, g: Garbage, gs: nat -> Garbage)
      requires Valid()
      modifies this, handshakeHandler, recordLayer.Repr
      ensures Valid() && fresh(recordLayer.Repr - old(recordLayer.Repr))
      ensures State() == OnDatagram(Options(), old(State()), buf, g, gs)
    {
      hide RecordLayer.Owns, RecordLayer.Value, Table, Receive, OnMessage;
      var messages := recordLayer.Receive(g, buf);
      ghost var received := State();
      for i := 0 to |messages|
        invariant Valid() && fresh(recordLayer.Repr - old(recordLayer.Repr))
        invariant OnMessages(Options(), received, messages, gs, 0) == OnMessages(Options(), State(), messages, gs, i)
      {
        var ok := HandleMessage(messages[i], gs(i));
        if !ok {
          return;
        }
      }
    }

    /** `send`; false when it throws. */
    method SendData(data: bytes) returns (ok: bool)
      requires Valid()
      modifies recordLayer.Repr
      ensures Valid() && fresh(recordLayer.Repr - old(recordLayer.Repr))
      ensures State() == OnData(Options(), old(State()), data)
      ensures ok ==> handshakeFinished
      ensures !old(handshakeFinished) ==> !ok && State() == old(State())
    {
      hide RecordLayer.Owns, RecordLayer.Value, Table, Records.Send;
      if !handshakeFinished {
        return false;
      }
      ok := recordLayer.Send(Message(APPLICATION_DATA, data));
    }
  }
}
