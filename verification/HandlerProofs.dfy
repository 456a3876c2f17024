/** Progress and order of the handshake over arbitrary runs. */
module HandlerProofs {
  import opened Bytes
  import opened ConnectionStates
  import opened Records
  import R = RecordProofs
  import opened Fragments
  import opened Handshakes
  import opened Handlers

  // ---- runs ----

  /** What can happen to a client: an incoming handshake fragment, or any record layer operation. */
  datatype Event = Incoming(f: Fragment, g: Garbage) | OnLayer(op: R.Op)

  function Step(cfg: Config, cl: Endpoint, ev: Event): Endpoint
    requires Live(cl) && cfg.library.HmacLaw()
  {
    match ev
    case Incoming(f, g) => ProcessIncoming(cfg, cl, f, g).0
    case OnLayer(op) => cl.(l := R.Step(cfg.library, cl.l, op))
  }

  lemma StepKeepsLive(cfg: Config, cl: Endpoint, ev: Event)
    requires Live(cl) && cfg.library.HmacLaw()
    ensures Live(Step(cfg, cl, ev))
  {
    hide ProcessIncoming, Table;
    match ev
    case Incoming(f, g) => ProcessKeepsTable(cfg, cl, f, g);
    case OnLayer(op) => R.StepKeepsTable(cfg.library, cl.l, op);
  }

  ghost function Run(cfg: Config, cl: Endpoint, evs: seq<Event>): (r: Endpoint)
    requires Live(cl) && cfg.library.HmacLaw()
    ensures Live(r)
  {
    if evs == [] then cl
    else
      var before := Run(cfg, cl, evs[..|evs| - 1]);
      StepKeepsLive(cfg, before, evs[|evs| - 1]);
      Step(cfg, before, evs[|evs| - 1])
  }

  /** The flights handed to the handlers during a run, in order. */
  ghost function Flights(cfg: Config, cl: Endpoint, evs: seq<Event>): seq<seq<Handshake>>
    requires Live(cl) && cfg.library.HmacLaw()
  {
    if evs == [] then []
    else
      var last := |evs| - 1;
      Flights(cfg, cl, evs[..last]) + FlightOf(Run(cfg, cl, evs[..last]), evs[last])
  }

  function FlightOf(cl: Endpoint, ev: Event): seq<seq<Handshake>> {
    if ev.Incoming? && Dispatched(cl.h, ev.f, ev.g).Some? then [Dispatched(cl.h, ev.f, ev.g).value] else []
  }

  // ---- which fields the handlers leave alone ----

  /** Fields that only `processIncomingMessage` itself changes. */
  predicate SameQueues(a: Handler, b: Handler) {
    a.lastProcessed == b.lastProcessed && a.complete == b.complete && a.incomplete == b.incomplete
  }

  /** The outcomes may have grown, but not by a success. */
  predicate NoSuccess(a: Handler, b: Handler) {
    && |a.outcomes| <= |b.outcomes| && b.outcomes[..|a.outcomes|] == a.outcomes
    && forall i :: |a.outcomes| <= i < |b.outcomes| ==> b.outcomes[i] != Connected
  }

  lemma HelloVerifyFrame(cfg: Config, cl: Endpoint, m: Handshake)
    requires Live(cl) && cl.h.expected.None?
    ensures var r := HandleHelloVerify(cfg, cl, m).0;
            SameQueues(cl.h, r.h) && NoSuccess(cl.h, r.h) && r.h.expected in {None, Some([SERVER_HELLO_DONE])}
  {
    hide SendFlight, RecordsOf, NeedsToHash, PrintFragment;
  }

  lemma ServerHelloDoneFrame(cfg: Config, cl: Endpoint)
    requires Live(cl) && cfg.library.HmacLaw()
    ensures var r := HandleServerHelloDone(cfg, cl).0;
            SameQueues(cl.h, r.h) && NoSuccess(cl.h, r.h) && r.h.expected in {cl.h.expected, Some([FINISHED])}
  {
    hide WithMasterSecret, VerifyData, PreMasterSecret, ClientKeyExchange, RecordsOf, NeedsToHash, SendFlight,
         PrintFragment, Table;
  }

  lemma {:induction false} ServerFlightFrame(cfg: Config, cl: Endpoint, ms: seq<Handshake>)
    requires Live(cl) && cfg.library.HmacLaw()
    ensures var r := HandleServerFlight(cfg, cl, ms).0;
            SameQueues(cl.h, r.h) && NoSuccess(cl.h, r.h) && r.h.expected in {cl.h.expected, Some([FINISHED])}
    decreases |ms|
  {
    hide HandleServerHello, HandleServerHelloDone, HandleServerKeyExchange, Table;
    if ms != [] {
      HandleOneKeepsTable(cfg, cl, ms[0]);
      ServerHelloDoneFrame(cfg, cl);
      HandleServerHelloKeepsTable(cfg, cl, ms[0]);
      var (next, status) := HandleOne(cfg, cl, ms[0]);
      if status.Continues? {
        ServerFlightFrame(cfg, next, ms[1..]);
      }
    }
  }

  /** What dispatching a flight does to the queue, the expectation and the outcomes. */
  lemma DispatchEffect(cfg: Config, cl: Endpoint, ms: seq<Handshake>)
    requires Live(cl) && cfg.library.HmacLaw() && ms != []
    ensures var last, r := ms[|ms| - 1], Dispatch(cfg, cl, ms);
            && r.h.lastProcessed == last.seqNum && r.h.complete == map[] && r.h.incomplete == cl.h.incomplete
            && (last.msgType == HELLO_VERIFY_REQUEST ==> r.h.expected in {None, Some([SERVER_HELLO_DONE])})
            && (last.msgType == SERVER_HELLO_DONE ==> r.h.expected in {None, Some([FINISHED])})
            && (last.msgType == FINISHED ==> r.h.expected == None)
            && |cl.h.outcomes| <= |r.h.outcomes| && r.h.outcomes[..|cl.h.outcomes|] == cl.h.outcomes
    ensures var last, r := ms[|ms| - 1], Dispatch(cfg, cl, ms);
            (exists i :: |cl.h.outcomes| <= i < |r.h.outcomes| && r.h.outcomes[i] == Connected) ==>
              && last.msgType == FINISHED && cl.l.read in cl.l.epochs
              && VerifyData(cfg.library, cl.l.epochs[cl.l.read].conn, Taken(cl.h, ms).transcript, "server finished")
                 == Some(BytesOf(Field(last, 0)))
  {
    hide HandleHelloVerify, HandleServerFlight, VerifyData, Hashed, PrintFragment, Table;
    CurrentEpochsExist(cl.l);
    var taken := cl.(h := Taken(cl.h, ms));
    HelloVerifyFrame(cfg, taken, ms[|ms| - 1]);
    ServerFlightFrame(cfg, taken, ms);
  }

  /** A flight that does not end in a Finished adds no success. */
  lemma OnlyFinishedSucceeds(cfg: Config, cl: Endpoint, ms: seq<Handshake>)
    requires Live(cl) && cfg.library.HmacLaw() && ms != []
    requires ms[|ms| - 1].msgType != FINISHED && Connected !in cl.h.outcomes
    ensures Connected !in Dispatch(cfg, cl, ms).h.outcomes
  {
    hide Dispatch, VerifyData, Table;
    DispatchEffect(cfg, cl, ms);
    var a, b := cl.h.outcomes, Dispatch(cfg, cl, ms).h.outcomes;
    assert forall i :: 0 <= i < |a| ==> b[i] == a[i];
  }

  // ---- progress ----

  /** The expectations that occur, from the most to the least that is still to come. */
  predicate Expectable(e: Option<seq<nat>>) {
    e in {None, Some([]), Some([FINISHED]), Some([SERVER_HELLO_DONE]), Some([SERVER_HELLO_DONE, HELLO_VERIFY_REQUEST])}
  }

  function Rank(e: Option<seq<nat>>): nat {
    if e.None? || e == Some([]) then 0
    else if e == Some([FINISHED]) then 1
    else if e == Some([SERVER_HELLO_DONE]) then 2
    else 3
  }

  lemma StoreFrame(h: Handler, f: Fragment, g: Garbage)
    ensures var s := Store(h, f, g).0;
            && s == h.(complete := s.complete, incomplete := s.incomplete)
            && s.complete.Keys <= h.complete.Keys + {f.seqNum}
  {
    hide FromFragment, IsComplete, Without;
    if f.IsFragmented() {
      var all := FindAll(h.incomplete + [f], f);
      FoundAreSame(h.incomplete + [f], f);
      if IsComplete(all) == Some(true) {
        ReassembledNumber(all, f, g);
      }
    }
  }

  lemma {:induction false} FoundAreSame(fs: seq<Fragment>, ref: Fragment)
    ensures forall f :: f in FindAll(fs, ref) <==> f in fs && f.SameMessage(ref)
  {
    if fs != [] {
      FoundAreSame(fs[1..], ref);
      assert fs == [fs[0]] + fs[1..];
    }
  }

  lemma ReassembledNumber(all: seq<Fragment>, ref: Fragment, g: Garbage)
    requires IsComplete(all) == Some(true) && forall f :: f in all ==> f.SameMessage(ref)
    ensures Reassemble(all, g).Some?
    ensures var w := Reassemble(all, g).value;
            w.seqNum == ref.seqNum && w.msgType == ref.msgType && w.total == ref.total
  {
    SortKeepsLength(all);
    assert Sort(all)[0] in multiset(Sort(all));
    assert Sort(all)[0] in all;
  }

  /** What `processIncomingMessage` stores. A whole message that parses replaces an earlier one with its
      number; a fragment joins the queue, unless it completes its message: then the message is stored
      and all its fragments leave the queue. What cannot be parsed changes nothing but the queue. */
  lemma StoreEffect(h: Handler, f: Fragment, g: Garbage)
    ensures var s, queue := Store(h, f, g).0, h.incomplete + [f];
            if f.offset == 0 && f.total <= |f.data| then
              var m := FromFragment(f, g);
              s == if m.Some? then h.(complete := h.complete[f.seqNum := m.value]) else h
            else
              var all := FindAll(queue, f);
              if IsComplete(all) != Some(true) then s == h.(incomplete := queue)
              else
                && Reassemble(all, g).Some?
                && var m := FromFragment(Reassemble(all, g).value, g);
                   if m.None? then s == h.(incomplete := queue)
                   else
                     && s == h.(complete := h.complete[f.seqNum := m.value], incomplete := s.incomplete)
                     && (forall x :: x in s.incomplete <==>
                           x in queue && (x.msgType, x.seqNum, x.total) != (f.msgType, f.seqNum, f.total))
  {
    hide FromFragment, IsComplete, FindAll, Reassemble;
    FoundAreSame(h.incomplete + [f], f);
    if IsComplete(FindAll(h.incomplete + [f], f)) == Some(true) {
      ReassembledNumber(FindAll(h.incomplete + [f], f), f, g);
      OthersAreLeft(h.incomplete + [f], f);
    }
  }

  lemma {:induction false} OthersAreLeft(fs: seq<Fragment>, ref: Fragment)
    ensures forall f :: f in Without(fs, ref) <==> f in fs && !f.SameMessage(ref)
  {
    if fs != [] {
      OthersAreLeft(fs[1..], ref);
      assert fs == [fs[0]] + fs[1..];
    }
  }

  /** What a Finished leads to: success, a decrypt error if its data do not match, or an exception if
      there is nothing to compare them with. In every case the handshake is over, and a Finished that
      was compared has entered the transcript. */
  lemma FinishedOutcome(cfg: Config, cl: Endpoint, ms: seq<Handshake>)
    requires Live(cl) && cfg.library.HmacLaw() && ms != [] && ms[|ms| - 1].msgType == 20 && cl.l.read in cl.l.epochs
    ensures var r, fin := Dispatch(cfg, cl, ms).h, ms[|ms| - 1];
            var expected := VerifyData(cfg.library, cl.l.epochs[cl.l.read].conn,
                                       cl.h.transcript + Hashed(ms[..|ms| - 1]), "server finished");
            && r.isHandshaking == false
            && r.outcomes == cl.h.outcomes + [
                 if expected.None? then HandlerThrew
                 else if BytesOf(Field(fin, 0)) == expected.value then Connected else DecryptError]
            && r.transcript == cl.h.transcript + Hashed(ms[..|ms| - 1])
               + if expected.Some? then [PrintFragment(ToFragment(fin))] else []
  {
    hide VerifyData, PrintFragment, Hashed, Table;
  }

  lemma ReadyIsExpected(h: Handler)
    requires FlightReady(h)
    ensures Stored(h) != [] && h.expected.Some? && Stored(h)[|Stored(h)| - 1].msgType in h.expected.value
  {
  }

  /** Every dispatch strictly lowers the rank; nothing else changes the expectation. */
  lemma StepProgress(cfg: Config, cl: Endpoint, ev: Event)
    requires Live(cl) && cfg.library.HmacLaw() && Expectable(cl.h.expected)
    ensures var r := Step(cfg, cl, ev);
            && Expectable(r.h.expected)
            && (if FlightOf(cl, ev) == [] then r.h.expected == cl.h.expected
                else Rank(r.h.expected) < Rank(cl.h.expected))
  {
    hide Dispatch, Store, Table, Stored, FlightReady, R.Step;
    if ev.Incoming? {
      StoreFrame(cl.h, ev.f, ev.g);
      var (h, status) := Store(cl.h, ev.f, ev.g);
      if status.Continues? && FlightReady(h) {
        ReadyIsExpected(h);
        DispatchEffect(cfg, cl.(h := h), Stored(h));
      }
    }
  }

  /** The expectation only moves down the ranks; from any start at most `Rank` flights are
      dispatched, so never more than three. */
  lemma {:induction false} RunProgress(cfg: Config, cl: Endpoint, evs: seq<Event>)
    requires Live(cl) && cfg.library.HmacLaw() && Expectable(cl.h.expected)
    ensures var r := Run(cfg, cl, evs);
            && Expectable(r.h.expected)
            && |Flights(cfg, cl, evs)| + Rank(r.h.expected) <= Rank(cl.h.expected) <= 3
  {
    hide Step, FlightOf, Live;
    if evs != [] {
      var last := |evs| - 1;
      RunProgress(cfg, cl, evs[..last]);
      StepProgress(cfg, Run(cfg, cl, evs[..last]), evs[last]);
      AtMostOneFlight(Run(cfg, cl, evs[..last]), evs[last]);
    }
  }

  lemma AtMostOneFlight(cl: Endpoint, ev: Event)
    ensures |FlightOf(cl, ev)| <= 1
  {
  }

  /** The only way to success: the expected flight was the server's and its Finished carries
      the verify data computed over the transcript. */
  lemma SuccessNeedsMatchingFinished(cfg: Config, cl: Endpoint, ev: Event)
    requires Live(cl) && cfg.library.HmacLaw() && Expectable(cl.h.expected)
    requires Connected !in cl.h.outcomes && Connected in Step(cfg, cl, ev).h.outcomes
    ensures cl.h.expected == Some([FINISHED]) && |FlightOf(cl, ev)| == 1 && FlightOf(cl, ev)[0] != []
    ensures var flight := FlightOf(cl, ev)[0];
            var last := flight[|flight| - 1];
            && last.msgType == FINISHED && cl.l.read in cl.l.epochs
            && VerifyData(cfg.library, cl.l.epochs[cl.l.read].conn,
                          cl.h.transcript + Hashed(flight[..|flight| - 1]), "server finished")
               == Some(BytesOf(Field(last, 0)))
  {
    hide Dispatch, Store, Table, Hashed, VerifyData;
    StoreFrame(cl.h, ev.f, ev.g);
    var (h, status) := Store(cl.h, ev.f, ev.g);
    DispatchEffect(cfg, cl.(h := h), Stored(h));
  }

  // ---- exactly once and in order ----

  /** Every stored message is filed under its own number. */
  predicate Filed(h: Handler) {
    forall k :: k in h.complete ==> h.complete[k].seqNum == k
  }

  function Numbers(flights: seq<seq<Handshake>>): seq<nat> {
    if flights == [] then [] else Numbers(flights[..|flights| - 1]) + NumbersIn(flights[|flights| - 1])
  }

  function NumbersIn(ms: seq<Handshake>): seq<nat> {
    seq(|ms|, i requires 0 <= i < |ms| => ms[i].seqNum)
  }

  /** 0, 1, ..., n - 1. */
  function UpTo(n: nat): seq<nat> {
    seq(n, i => i)
  }

  lemma StoreFiles(h: Handler, f: Fragment, g: Garbage)
    requires Filed(h)
    ensures Filed(Store(h, f, g).0)
  {
    hide IsComplete, Reassemble;
  }

  lemma StepInOrder(cfg: Config, cl: Endpoint, ev: Event, n: nat)
    requires Live(cl) && cfg.library.HmacLaw()
    requires Filed(cl.h) && cl.h.lastProcessed == n - 1
    ensures var r, fl := Step(cfg, cl, ev), FlightOf(cl, ev);
            && Filed(r.h)
            && (fl == [] ==> r.h.lastProcessed == n - 1)
            && (fl != [] ==> r.h.lastProcessed == n - 1 + |fl[0]| && UpTo(n) + NumbersIn(fl[0]) == UpTo(n + |fl[0]|))
  {
    hide Dispatch, Store, Table, Stored, FlightReady;
    if ev.Incoming? {
      StoreFrame(cl.h, ev.f, ev.g);
      StoreFiles(cl.h, ev.f, ev.g);
      var (h, status) := Store(cl.h, ev.f, ev.g);
      if status.Continues? && FlightReady(h) {
        ReadyInOrder(h, n);
        DispatchEffect(cfg, cl.(h := h), Stored(h));
      }
    }
  }

  /** A flight that is ready continues the numbers handled so far. */
  lemma ReadyInOrder(h: Handler, n: nat)
    requires Filed(h) && h.lastProcessed == n - 1 && FlightReady(h)
    ensures Stored(h) != [] && Stored(h)[|Stored(h)| - 1].seqNum == n - 1 + |Stored(h)|
    ensures UpTo(n) + NumbersIn(Stored(h)) == UpTo(n + |Stored(h)|)
  {
    KeysBelowAreKeys(h.complete, SEQ_NUMS);
  }

  /** Over any run from a fresh handler, with any incoming messages, the flights handed to the
      handlers concatenate to the messages 0, 1, 2, ... without gap or repetition, and
      `lastProcessedSeqNum` is the last of them. */
  lemma {:induction false} HandledInOrder(cfg: Config, cl: Endpoint, evs: seq<Event>)
    requires Live(cl) && cfg.library.HmacLaw()
    requires cl.h.lastProcessed == -1 && cl.h.complete == map[]
    ensures var r, numbers := Run(cfg, cl, evs), Numbers(Flights(cfg, cl, evs));
            && Filed(r.h)
            && r.h.lastProcessed == |numbers| - 1
            && numbers == UpTo(|numbers|)
  {
    hide Step, FlightOf, Live;
    if evs != [] {
      var last := |evs| - 1;
      var before, flights := Run(cfg, cl, evs[..last]), Flights(cfg, cl, evs[..last]);
      HandledInOrder(cfg, cl, evs[..last]);
      StepInOrder(cfg, before, evs[last], |Numbers(flights)|);
      AtMostOneFlight(before, evs[last]);
      var fl := FlightOf(before, evs[last]);
      if fl == [] {
        assert flights + fl == flights;
      } else {
        assert (flights + fl)[..|flights|] == flights && (flights + fl)[|flights|] == fl[0];
      }
    }
  }
}
