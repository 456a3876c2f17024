/** Guarantees over whole sessions, from datagrams to the data handed to the application. */
module SessionProofs {
  import opened Bytes
  import opened Codec
  import opened Records
  import opened Fragments
  import opened Handshakes
  import opened Handlers
  import opened MessageBytes
  import opened Sessions
  import K = KeyAgreement
  import H = HandlerProofs
  import R = RecordProofs

  // ---- a session is a run of the handler ----

  function EventsOfMessage(msg: Message, g: Garbage): seq<H.Event> {
    if msg.typ == HANDSHAKE then
      var f := ParseFragment(msg.data, g);
      if f.None? then [] else [H.Incoming(f.value, g)]
    else if msg.typ == CHANGE_CIPHER_SPEC then [H.OnLayer(R.ReadAdvance)]
    else []
  }

  function EventsOfMessages(msgs: seq<Message>, gs: nat -> Garbage, i: nat, n: nat): seq<H.Event>
    requires n <= |msgs|
    decreases n - i
  {
    if i >= n then [] else EventsOfMessage(msgs[i], gs(i)) + EventsOfMessages(msgs, gs, i + 1, n)
  }

  /** The handler events that one input amounts to. */
  function EventsOf(cfg: Config, s: Session, input: Input): seq<H.Event>
    requires Open(cfg, s)
  {
    match input
    case Datagram(buf, g, gs) =>
      R.StepKeepsTable(cfg.library, s.cl.l, R.Recv(g, buf));
      var (l, records) := Receive(cfg.library, g, s.cl.l, buf);
      var msgs := Messages(records);
      [H.OnLayer(R.Recv(g, buf))]
      + EventsOfMessages(msgs, gs, 0, OnMessages(cfg, s.(cl := s.cl.(l := l)), msgs, gs, 0).1)
    case Data(data) =>
      var msg := Message(APPLICATION_DATA, data);
      CurrentEpochsExist(s.cl.l);
      var (l, buf) := Outgoing(cfg.library, cfg.entropy, s.cl.l, msg);
      if !s.finished then []
      else [H.OnLayer(R.Send(cfg.entropy, msg))] + if buf.Some? then [H.OnLayer(R.Transmit(buf.value))] else []
  }

  ghost function Events(cfg: Config, s: Session, inputs: seq<Input>): seq<H.Event>
    requires Open(cfg, s)
  {
    if inputs == [] then []
    else
      var last := |inputs| - 1;
      Events(cfg, s, inputs[..last]) + EventsOf(cfg, Run(cfg, s, inputs[..last]), inputs[last])
  }

  lemma {:induction false} HandlerRunConcat(cfg: Config, cl: Endpoint, a: seq<H.Event>, b: seq<H.Event>)
    requires Live(cl) && cfg.library.HmacLaw()
    ensures H.Run(cfg, cl, a + b) == H.Run(cfg, H.Run(cfg, cl, a), b)
  {
    hide H.Step, Live;
    if b == [] {
      assert a + b == a;
    } else {
      assert (a + b)[..|a + b| - 1] == a + b[..|b| - 1];
      HandlerRunConcat(cfg, cl, a, b[..|b| - 1]);
    }
  }

  lemma HandlerRunOne(cfg: Config, cl: Endpoint, ev: H.Event)
    requires Live(cl) && cfg.library.HmacLaw()
    ensures H.Run(cfg, cl, [ev]) == H.Step(cfg, cl, ev)
  {
    hide H.Step, Live;
    assert [ev][..0] == [];
  }

  lemma MessageIsRun(cfg: Config, s: Session, msg: Message, g: Garbage)
    requires Open(cfg, s)
    ensures OnMessage(cfg, s, msg, g).0.cl == H.Run(cfg, s.cl, EventsOfMessage(msg, g))
  {
    hide ProcessIncoming, ParseFragment, Table, AdvanceRead;
    if EventsOfMessage(msg, g) != [] {
      HandlerRunOne(cfg, s.cl, EventsOfMessage(msg, g)[0]);
    }
  }

  lemma {:induction false} MessagesAreRun(cfg: Config, s: Session, msgs: seq<Message>, gs: nat -> Garbage, i: nat)
    requires Open(cfg, s) && i <= |msgs|
    ensures var (r, n) := OnMessages(cfg, s, msgs, gs, i);
            r.cl == H.Run(cfg, s.cl, EventsOfMessages(msgs, gs, i, n))
    decreases |msgs| - i
  {
    hide OnMessage, EventsOfMessage, H.Run, Live;
    if i == |msgs| {
      NoEvents(cfg, s.cl);
    } else {
      OnMessageKeepsOpen(cfg, s, msgs[i], gs(i));
      MessageIsRun(cfg, s, msgs[i], gs(i));
      var (next, ok) := OnMessage(cfg, s, msgs[i], gs(i));
      var head := EventsOfMessage(msgs[i], gs(i));
      if ok {
        MessagesAreRun(cfg, next, msgs, gs, i + 1);
        HandlerRunConcat(cfg, s.cl, head, EventsOfMessages(msgs, gs, i + 1, OnMessages(cfg, next, msgs, gs, i + 1).1));
      } else {
        assert EventsOfMessages(msgs, gs, i + 1, i + 1) == [];
        assert head + [] == head;
      }
    }
  }

  lemma NoEvents(cfg: Config, cl: Endpoint)
    requires Live(cl) && cfg.library.HmacLaw()
    ensures H.Run(cfg, cl, []) == cl
  {
  }

  lemma InputIsRun(cfg: Config, s: Session, input: Input)
    requires Open(cfg, s)
    ensures Step(cfg, s, input).cl == H.Run(cfg, s.cl, EventsOf(cfg, s, input))
  {
    hide Table, Receive, OnMessages, EventsOfMessages, H.Run, Outgoing;
    match input
    case Datagram(buf, g, gs) =>
      var ev := H.OnLayer(R.Recv(g, buf));
      H.StepKeepsLive(cfg, s.cl, ev);
      HandlerRunOne(cfg, s.cl, ev);
      var (l, records) := Receive(cfg.library, g, s.cl.l, buf);
      var msgs := Messages(records);
      var received := s.(cl := s.cl.(l := l));
      MessagesAreRun(cfg, received, msgs, gs, 0);
      HandlerRunConcat(cfg, s.cl, [ev], EventsOfMessages(msgs, gs, 0, OnMessages(cfg, received, msgs, gs, 0).1));
    case Data(data) =>
      var msg := Message(APPLICATION_DATA, data);
      CurrentEpochsExist(s.cl.l);
      OutgoingKeepsTable(cfg.library, cfg.entropy, s.cl.l, msg);
      var (l, buf) := Outgoing(cfg.library, cfg.entropy, s.cl.l, msg);
      NoEvents(cfg, s.cl);
      var ev := H.OnLayer(R.Send(cfg.entropy, msg));
      HandlerRunOne(cfg, s.cl, ev);
      if s.finished {
        if buf.Some? {
          HandlerRunOne(cfg, s.cl.(l := l), H.OnLayer(R.Transmit(buf.value)));
          HandlerRunConcat(cfg, s.cl, [ev], [H.OnLayer(R.Transmit(buf.value))]);
        } else {
          assert [ev] + [] == [ev];
        }
      }
  }

  /** What happens to a client in a session is a run of handler events, so that everything
      proved of such runs holds of sessions. */
  lemma {:induction false} SessionIsRun(cfg: Config, s: Session, inputs: seq<Input>)
    requires Open(cfg, s)
    ensures Run(cfg, s, inputs).cl == H.Run(cfg, s.cl, Events(cfg, s, inputs))
  {
    hide Step, EventsOf, H.Run, Live;
    if inputs == [] {
      NoEvents(cfg, s.cl);
    } else {
      var last := |inputs| - 1;
      var before := Run(cfg, s, inputs[..last]);
      SessionIsRun(cfg, s, inputs[..last]);
      InputIsRun(cfg, before, inputs[last]);
      HandlerRunConcat(cfg, s.cl, Events(cfg, s, inputs[..last]), EventsOf(cfg, before, inputs[last]));
    }
  }

  /** In a session only the handshake itself sends a ChangeCipherSpec: the runs of sessions are
      among those for which the epochs were proved to agree. */
  lemma {:induction false} SessionIsCalm(cfg: Config, s: Session, inputs: seq<Input>)
    requires Open(cfg, s)
    ensures K.Calm(Events(cfg, s, inputs))
  {
    hide Step, EventsOf, Open;
    if inputs != [] {
      var last := |inputs| - 1;
      SessionIsCalm(cfg, s, inputs[..last]);
      InputIsCalm(cfg, Run(cfg, s, inputs[..last]), inputs[last]);
    }
  }

  lemma InputIsCalm(cfg: Config, s: Session, input: Input)
    requires Open(cfg, s)
    ensures K.Calm(EventsOf(cfg, s, input))
  {
    hide Table, Receive, OnMessages, EventsOfMessages, Outgoing;
    if input.Datagram? {
      R.StepKeepsTable(cfg.library, s.cl.l, R.Recv(input.g, input.buf));
      var (l, records) := Receive(cfg.library, input.g, s.cl.l, input.buf);
      var msgs := Messages(records);
      MessagesAreCalm(msgs, input.gs, 0, OnMessages(cfg, s.(cl := s.cl.(l := l)), msgs, input.gs, 0).1);
    }
  }

  lemma {:induction false} MessagesAreCalm(msgs: seq<Message>, gs: nat -> Garbage, i: nat, n: nat)
    requires n <= |msgs|
    ensures K.Calm(EventsOfMessages(msgs, gs, i, n))
    decreases n - i
  {
    hide ParseFragment;
    if i < n {
      MessagesAreCalm(msgs, gs, i + 1, n);
    }
  }

  // ---- how far the loop over a datagram gets ----

  /** The session after `n` messages, whatever became of them. */
  function Through(cfg: Config, s: Session, msgs: seq<Message>, gs: nat -> Garbage, n: nat): (r: Session)
    requires Open(cfg, s) && n <= |msgs|
    ensures Open(cfg, r)
  {
    if n == 0 then s
    else
      var before := Through(cfg, s, msgs, gs, n - 1);
      OnMessageKeepsOpen(cfg, before, msgs[n - 1], gs(n - 1));
      OnMessage(cfg, before, msgs[n - 1], gs(n - 1)).0
  }

  /** The handler throws away a fragment with an exception: the message it completes cannot be parsed. */
  predicate Unparseable(h: Handler, f: Fragment, g: Garbage) {
    if f.offset == 0 && f.total <= |f.data| then FromFragment(f, g) == None
    else
      var all := FindAll(h.incomplete + [f], f);
      IsComplete(all) == Some(true) && FromFragment(Reassemble(all, g).value, g) == None
  }

  /** The message ends the loop with an exception: a handshake record whose header is cut short, or
      one that completes a message that cannot be parsed. */
  predicate Refused(s: Session, msg: Message, g: Garbage) {
    FragmentParsesIff(msg.data, g);
    msg.typ == 22 && (|msg.data| < 12 || Unparseable(s.cl.h, ParseFragment(msg.data, g).value, g))
  }

  lemma UnparseableIsRefused(cfg: Config, cl: Endpoint, f: Fragment, g: Garbage)
    requires Live(cl) && cfg.library.HmacLaw()
    ensures ProcessIncoming(cfg, cl, f, g).1 <==> !Unparseable(cl.h, f, g)
  {
    hide FromFragment, IsComplete, Reassemble, FindAll, FlightReady, Dispatch, Table;
  }

  lemma EndsLoopIff(cfg: Config, s: Session, msg: Message, g: Garbage)
    requires Open(cfg, s)
    ensures OnMessage(cfg, s, msg, g).1 <==> !Refused(s, msg, g)
  {
    hide ProcessIncoming, ParseFragment, AdvanceRead, Unparseable, Table, Callback;
    FragmentParsesIff(msg.data, g);
    var f := ParseFragment(msg.data, g);
    if f.Some? {
      UnparseableIsRefused(cfg, s.cl, f.value, g);
    }
  }

  /** How many messages of a datagram are handled, counted from message `i` on: up to and including
      the first that is refused. */
  function Reached(cfg: Config, s: Session, msgs: seq<Message>, gs: nat -> Garbage, i: nat): (n: nat)
    requires Open(cfg, s) && i <= |msgs|
    ensures i <= n <= |msgs|
    decreases |msgs| - i
  {
    if i == |msgs| then i
    else if Refused(Through(cfg, s, msgs, gs, i), msgs[i], gs(i)) then i + 1
    else Reached(cfg, s, msgs, gs, i + 1)
  }

  lemma {:induction false} LoopReaches(cfg: Config, s: Session, msgs: seq<Message>, gs: nat -> Garbage, i: nat)
    requires Open(cfg, s) && i <= |msgs|
    ensures var n := Reached(cfg, s, msgs, gs, i);
            OnMessages(cfg, Through(cfg, s, msgs, gs, i), msgs, gs, i) == (Through(cfg, s, msgs, gs, n), n)
    decreases |msgs| - i
  {
    hide OnMessage, Live, Refused;
    if i < |msgs| {
      var now := Through(cfg, s, msgs, gs, i);
      OnMessageKeepsOpen(cfg, now, msgs[i], gs(i));
      EndsLoopIff(cfg, now, msgs[i], gs(i));
      if !Refused(now, msgs[i], gs(i)) {
        LoopReaches(cfg, s, msgs, gs, i + 1);
      }
    }
  }

  lemma {:induction false} ReachedIsFirst(cfg: Config, s: Session, msgs: seq<Message>, gs: nat -> Garbage, i: nat)
    requires Open(cfg, s) && i <= |msgs|
    ensures var n := Reached(cfg, s, msgs, gs, i);
            && (forall j :: i <= j < n - 1 ==> !Refused(Through(cfg, s, msgs, gs, j), msgs[j], gs(j)))
            && (n < |msgs| ==> n > i && Refused(Through(cfg, s, msgs, gs, n - 1), msgs[n - 1], gs(n - 1)))
    decreases |msgs| - i
  {
    hide Refused, Through;
    if i < |msgs| && !Refused(Through(cfg, s, msgs, gs, i), msgs[i], gs(i)) {
      ReachedIsFirst(cfg, s, msgs, gs, i + 1);
    }
  }

  /** Every message of a datagram is handled, in order, up to and including the first that is
      refused; without such a message all are. */
  lemma AllAreHandled(cfg: Config, s: Session, msgs: seq<Message>, gs: nat -> Garbage)
    requires Open(cfg, s)
    ensures var (r, n) := OnMessages(cfg, s, msgs, gs, 0);
            && n <= |msgs| && r == Through(cfg, s, msgs, gs, n)
            && (forall j :: 0 <= j < n - 1 ==> !Refused(Through(cfg, s, msgs, gs, j), msgs[j], gs(j)))
            && (n < |msgs| ==> n > 0 && Refused(Through(cfg, s, msgs, gs, n - 1), msgs[n - 1], gs(n - 1)))
  {
    hide Refused, OnMessage, Live;
    LoopReaches(cfg, s, msgs, gs, 0);
    ReachedIsFirst(cfg, s, msgs, gs, 0);
  }

  /** What a message does that is no handshake message: a ChangeCipherSpec moves the read epoch, data
      are emitted or kept for later, and everything else is ignored. */
  lemma OtherMessages(cfg: Config, s: Session, msg: Message, g: Garbage)
    requires Open(cfg, s) && msg.typ != 22
    ensures var (r, ok) := OnMessage(cfg, s, msg, g);
            && ok && r.finished == s.finished && r.cl.h == s.cl.h
            && (if msg.typ == 20 then r.cl.l.read == s.cl.l.read + 1 && r.cl.l.write == s.cl.l.write
                else r.cl.l == s.cl.l)
            && r.emitted == s.emitted + (if msg.typ == 23 && s.finished then [msg.data] else [])
            && r.buffered == s.buffered + if msg.typ == 23 && !s.finished then [msg.data] else []
  {
    hide Table;
    assert s.emitted + [] == s.emitted && s.buffered + [] == s.buffered;
  }

  // ---- application data ----

  function DataIn(msgs: seq<Message>): seq<bytes> {
    if msgs == [] then []
    else DataIn(msgs[..|msgs| - 1]) + if msgs[|msgs| - 1].typ == APPLICATION_DATA then [msgs[|msgs| - 1].data] else []
  }

  /** The application data that one input delivers, up to the first message that is refused. */
  function DataOf(cfg: Config, s: Session, input: Input): seq<bytes>
    requires Open(cfg, s)
  {
    if input.Data? then []
    else
      R.StepKeepsTable(cfg.library, s.cl.l, R.Recv(input.g, input.buf));
      var (l, records) := Receive(cfg.library, input.g, s.cl.l, input.buf);
      var msgs := Messages(records);
      DataIn(msgs[..Reached(cfg, s.(cl := s.cl.(l := l)), msgs, input.gs, 0)])
  }

  ghost function AllData(cfg: Config, s: Session, inputs: seq<Input>): seq<bytes>
    requires Open(cfg, s)
  {
    if inputs == [] then []
    else AllData(cfg, s, inputs[..|inputs| - 1])
         + DataOf(cfg, Run(cfg, s, inputs[..|inputs| - 1]), inputs[|inputs| - 1])
  }

  /** `data` is all the application data so far: withheld until the handshake has succeeded,
      from then on emitted. */
  predicate Accounts(s: Session, data: seq<bytes>) {
    && (s.finished <==> Connected in s.cl.h.outcomes)
    && s.emitted == (if s.finished then data else [])
    && s.buffered == if s.finished then [] else data
  }

  lemma MessageAccounts(cfg: Config, s: Session, msg: Message, g: Garbage, data: seq<bytes>)
    requires Open(cfg, s) && Accounts(s, data)
    ensures Accounts(OnMessage(cfg, s, msg, g).0, data + DataIn([msg]))
  {
    hide ProcessIncoming, ParseFragment, Table, Callback;
    assert [msg][..0] == [] && DataIn([msg]) == DataIn([]) + if msg.typ == APPLICATION_DATA then [msg.data] else [];
    assert data + [] == data && [] + data == data;
    if msg.typ == HANDSHAKE {
      var f := ParseFragment(msg.data, g);
      if f.Some? {
        HandshakeAccounts(cfg, s, f.value, g, data);
      }
    }
  }

  /** The callback for the outcomes that a handshake message adds. */
  lemma HandshakeAccounts(cfg: Config, s: Session, f: Fragment, g: Garbage, data: seq<bytes>)
    requires Open(cfg, s) && Accounts(s, data)
    ensures var cl := ProcessIncoming(cfg, s.cl, f, g).0;
            Accounts(Callback(s.(cl := cl), News(s.cl.h.outcomes, cl.h.outcomes)), data)
  {
    hide ProcessIncoming, Live;
    OutcomesGrow(cfg, s.cl, f, g);
    var a, b := s.cl.h.outcomes, ProcessIncoming(cfg, s.cl, f, g).0.h.outcomes;
    assert b == a + News(a, b);
    assert data + [] == data && [] + data == data;
  }

  lemma OutcomesGrow(cfg: Config, cl: Endpoint, f: Fragment, g: Garbage)
    requires Live(cl) && cfg.library.HmacLaw()
    ensures cl.h.outcomes <= ProcessIncoming(cfg, cl, f, g).0.h.outcomes
  {
    hide Store, Table, Dispatch;
    H.StoreFrame(cl.h, f, g);
    var (h, status) := Store(cl.h, f, g);
    if status.Continues? && FlightReady(h) {
      H.DispatchEffect(cfg, cl.(h := h), Stored(h));
    }
  }

  lemma {:induction false} DataInAppends(msgs: seq<Message>, i: nat)
    requires i < |msgs|
    ensures DataIn(msgs[..i + 1]) == DataIn(msgs[..i]) + DataIn([msgs[i]])
  {
    var one := [msgs[i]];
    assert msgs[..i + 1][..i] == msgs[..i] && one[..0] == [];
    assert DataIn(one) == DataIn([]) + if msgs[i].typ == APPLICATION_DATA then [msgs[i].data] else [];
  }

  lemma {:induction false} MessagesAccount(cfg: Config, s: Session, msgs: seq<Message>, gs: nat -> Garbage, i: nat,
                                           data: seq<bytes>)
    requires Open(cfg, s) && i <= |msgs| && Accounts(s, data + DataIn(msgs[..i]))
    ensures var (r, n) := OnMessages(cfg, s, msgs, gs, i);
            Accounts(r, data + DataIn(msgs[..n]))
    decreases |msgs| - i
  {
    hide OnMessage, Live, DataIn, Accounts;
    if i < |msgs| {
      OnMessageKeepsOpen(cfg, s, msgs[i], gs(i));
      DataInAppends(msgs, i);
      MessageAccounts(cfg, s, msgs[i], gs(i), data + DataIn(msgs[..i]));
      assert data + DataIn(msgs[..i]) + DataIn([msgs[i]]) == data + DataIn(msgs[..i + 1]);
      var (next, ok) := OnMessage(cfg, s, msgs[i], gs(i));
      if ok {
        MessagesAccount(cfg, next, msgs, gs, i + 1, data);
      }
    }
  }

  lemma InputAccounts(cfg: Config, s: Session, input: Input, data: seq<bytes>)
    requires Open(cfg, s) && Accounts(s, data)
    ensures Accounts(Step(cfg, s, input), data + DataOf(cfg, s, input))
  {
    hide Table, Receive, OnMessages, DataIn, Records.Send, Reached;
    if input.Data? {
      assert data + [] == data;
    } else {
      R.StepKeepsTable(cfg.library, s.cl.l, R.Recv(input.g, input.buf));
      var (l, records) := Receive(cfg.library, input.g, s.cl.l, input.buf);
      var msgs := Messages(records);
      NoData(msgs);
      assert data + [] == data;
      MessagesAccount(cfg, s.(cl := s.cl.(l := l)), msgs, input.gs, 0, data);
      LoopReaches(cfg, s.(cl := s.cl.(l := l)), msgs, input.gs, 0);
    }
  }

  lemma NoData(msgs: seq<Message>)
    ensures DataIn(msgs[..0]) == []
  {
  }

  /** In a finished session a datagram without handshake records hands over all the data of its records,
      in order. */
  lemma DatagramIsEmitted(cfg: Config, s: Session, buf: bytes, g: Garbage, gs: nat -> Garbage)
    requires Open(cfg, s) && s.finished && Connected in s.cl.h.outcomes && s.buffered == []
    requires forall p :: p in Receive(cfg.library, g, s.cl.l, buf).1 ==> p.typ != 22
    ensures OnDatagram(cfg, s, buf, g, gs).emitted
         == s.emitted + DataIn(Messages(Receive(cfg.library, g, s.cl.l, buf).1))
  {
    hide Receive, Table, OnMessages, Reached, DataIn;
    R.StepKeepsTable(cfg.library, s.cl.l, R.Recv(g, buf));
    var (l, records) := Receive(cfg.library, g, s.cl.l, buf);
    var received := s.(cl := s.cl.(l := l));
    InputAccounts(cfg, s, Datagram(buf, g, gs), s.emitted);
    NoneRefused(cfg, received, Messages(records), gs, 0);
    assert Messages(records)[..|records|] == Messages(records);
    FinishedStays(cfg, received, Messages(records), gs, 0);
  }

  lemma {:induction false} NoneRefused(cfg: Config, s: Session, msgs: seq<Message>, gs: nat -> Garbage, i: nat)
    requires Open(cfg, s) && i <= |msgs| && forall j :: 0 <= j < |msgs| ==> msgs[j].typ != 22
    ensures Reached(cfg, s, msgs, gs, i) == |msgs|
    decreases |msgs| - i
  {
    hide Through, Unparseable;
    if i < |msgs| {
      NoneRefused(cfg, s, msgs, gs, i + 1);
    }
  }

  lemma {:induction false} FinishedStays(cfg: Config, s: Session, msgs: seq<Message>, gs: nat -> Garbage, i: nat)
    requires Open(cfg, s) && s.finished && i <= |msgs|
    ensures OnMessages(cfg, s, msgs, gs, i).0.finished
    decreases |msgs| - i
  {
    hide Live, ProcessIncoming, ParseFragment;
    if i < |msgs| {
      OnMessageKeepsOpen(cfg, s, msgs[i], gs(i));
      FinishedStays(cfg, OnMessage(cfg, s, msgs[i], gs(i)).0, msgs, gs, i + 1);
    }
  }

  /** Conservation of application data over whole sessions: nothing is handed to the
      application before the handshake has succeeded, and afterwards exactly all the data that
      arrived, before or after, in the order of arrival. */
  lemma {:induction false} DataIsConserved(cfg: Config, random: Value, suiteIds: seq<int>, inputs: seq<Input>)
    requires cfg.library.HmacLaw()
    ensures var s := Opened(cfg, random, suiteIds);
            var (r, data) := (Run(cfg, s, inputs), AllData(cfg, s, inputs));
            && (r.finished <==> Connected in r.cl.h.outcomes)
            && r.emitted == (if r.finished then data else [])
            && r.buffered == if r.finished then [] else data
  {
    hide Step, DataOf;
    var s := Opened(cfg, random, suiteIds);
    if inputs == [] {
      NothingYet(cfg, random, suiteIds);
    } else {
      hide Opened;
      var last := |inputs| - 1;
      DataIsConserved(cfg, random, suiteIds, inputs[..last]);
      InputAccounts(cfg, Run(cfg, s, inputs[..last]), inputs[last], AllData(cfg, s, inputs[..last]));
    }
  }

  lemma NothingYet(cfg: Config, random: Value, suiteIds: seq<int>)
    requires cfg.library.HmacLaw()
    ensures Opened(cfg, random, suiteIds).cl.h.outcomes == []
  {
    hide SendFlight, RecordsOf, PrintFragment, ToFragment, RandomBytes;
  }

  /** The datagrams among the inputs, without what the user wanted to send. */
  function Datagrams(inputs: seq<Input>): seq<Input> {
    if inputs == [] then []
    else
      var last := inputs[|inputs| - 1];
      Datagrams(inputs[..|inputs| - 1]) + if last.Datagram? then [last] else []
  }

  lemma FinishedForGood(cfg: Config, s: Session, input: Input)
    requires Open(cfg, s) && s.finished
    ensures Step(cfg, s, input).finished
  {
    hide Table, Receive, OnMessages, Records.Send;
    if input.Datagram? {
      R.StepKeepsTable(cfg.library, s.cl.l, R.Recv(input.g, input.buf));
      var (l, records) := Receive(cfg.library, input.g, s.cl.l, input.buf);
      FinishedStays(cfg, s.(cl := s.cl.(l := l)), Messages(records), input.gs, 0);
    }
  }

  /** Until the handshake has succeeded the user sends nothing, in the clear or otherwise: the session
      is the same as if he had not tried. */
  lemma {:induction false} DataWaits(cfg: Config, random: Value, suiteIds: seq<int>, inputs: seq<Input>)
    requires cfg.library.HmacLaw() && Connected !in Run(cfg, Opened(cfg, random, suiteIds), inputs).cl.h.outcomes
    ensures var s := Opened(cfg, random, suiteIds);
            Run(cfg, s, inputs) == Run(cfg, s, Datagrams(inputs))
  {
    hide Opened, OnDatagram, Table;
    if inputs != [] {
      var s, before, last := Opened(cfg, random, suiteIds), inputs[..|inputs| - 1], inputs[|inputs| - 1];
      DataIsConserved(cfg, random, suiteIds, inputs);
      DataIsConserved(cfg, random, suiteIds, before);
      if Run(cfg, s, before).finished {
        FinishedForGood(cfg, Run(cfg, s, before), last);
      }
      DataWaits(cfg, random, suiteIds, before);
      if last.Datagram? {
        assert Datagrams(inputs)[..|Datagrams(before)|] == Datagrams(before);
      } else {
        assert Datagrams(inputs) == Datagrams(before);
      }
    }
  }

  // ---- no data without a verified Finished ----

  /** In any run that reaches success there is a step at which the flight of the server's
      Finished was handled and its verify data matched. */
  lemma {:induction false} SuccessHasAStep(cfg: Config, cl: Endpoint, evs: seq<H.Event>) returns (k: nat)
    requires Live(cl) && cfg.library.HmacLaw() && H.Expectable(cl.h.expected)
    requires Connected !in cl.h.outcomes && Connected in H.Run(cfg, cl, evs).h.outcomes
    ensures k < |evs|
    ensures var at := H.Run(cfg, cl, evs[..k]); Verified(cfg, at, evs[k])
    decreases |evs|
  {
    hide H.Step, Live, Verified;
    var last := |evs| - 1;
    var before := H.Run(cfg, cl, evs[..last]);
    if Connected in before.h.outcomes {
      k := SuccessHasAStep(cfg, cl, evs[..last]);
      assert evs[..last][..k] == evs[..k];
    } else {
      k := last;
      H.RunProgress(cfg, cl, evs[..last]);
      MatchIsVerified(cfg, before, evs[last]);
    }
  }

  /** The event completes the server's final flight, whose Finished carries the verify data
      computed over the transcript. */
  ghost predicate Verified(cfg: Config, cl: Endpoint, ev: H.Event) {
    && cl.h.expected == Some([FINISHED]) && |H.FlightOf(cl, ev)| == 1 && H.FlightOf(cl, ev)[0] != []
    && var flight := H.FlightOf(cl, ev)[0];
       var last := flight[|flight| - 1];
    && last.msgType == FINISHED && cl.l.read in cl.l.epochs
    && VerifyData(cfg.library, cl.l.epochs[cl.l.read].conn,
                  cl.h.transcript + Hashed(flight[..|flight| - 1]), "server finished") == Some(BytesOf(Field(last, 0)))
  }

  lemma MatchIsVerified(cfg: Config, cl: Endpoint, ev: H.Event)
    requires Live(cl) && cfg.library.HmacLaw() && H.Expectable(cl.h.expected)
    requires Connected !in cl.h.outcomes && Connected in H.Step(cfg, cl, ev).h.outcomes
    ensures Verified(cfg, cl, ev)
  {
    hide H.Step, H.FlightOf, VerifyData, Hashed, Live;
    H.SuccessNeedsMatchingFinished(cfg, cl, ev);
  }

  /** Whatever data a session emits, it emits only after it handled a server Finished that
      matched its own verify data, and after at most three flights. */
  lemma EmissionNeedsVerifiedFinished(cfg: Config, random: Value, suiteIds: seq<int>, inputs: seq<Input>)
    requires cfg.library.HmacLaw()
    requires Run(cfg, Opened(cfg, random, suiteIds), inputs).emitted != []
    ensures var s := Opened(cfg, random, suiteIds);
            var evs := Events(cfg, s, inputs);
            && |H.Flights(cfg, s.cl, evs)| <= 3
            && exists k :: 0 <= k < |evs| && Verified(cfg, H.Run(cfg, s.cl, evs[..k]), evs[k])
  {
    hide Live, Verified, H.Run, Step, EventsOf, DataOf;
    var s := Opened(cfg, random, suiteIds);
    DataIsConserved(cfg, random, suiteIds, inputs);
    SessionIsRun(cfg, s, inputs);
    NothingYet(cfg, random, suiteIds);
    StartExpects(cfg, random, suiteIds);
    hide Opened;
    var evs := Events(cfg, s, inputs);
    H.RunProgress(cfg, s.cl, evs);
    var k := SuccessHasAStep(cfg, s.cl, evs);
  }

  lemma StartExpects(cfg: Config, random: Value, suiteIds: seq<int>)
    requires cfg.library.HmacLaw()
    ensures H.Expectable(Opened(cfg, random, suiteIds).cl.h.expected)
  {
    hide SendFlight, RecordsOf, PrintFragment, ToFragment, RandomBytes;
  }
}
