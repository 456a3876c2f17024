/** A whole session with an honest server: the handshake, and the data that is sent afterwards. */
module DataExchange {
  import opened Bytes
  import opened BitConverter
  import opened Crypto
  import opened Protection
  import opened AntiReplay
  import opened AntiReplayProofs
  import opened Records
  import opened Handlers
  import opened Sessions
  import opened Completion
  import opened HonestServer
  import opened ProtectedTurns
  import opened Conversations
  import opened Outbound

  /** A client that has sent its Finished is followed by a server that has received it. */
  lemma ServerFollowsOn(c: Library, x: Exchange, l: Layer, d: Delegate, server: Layer)
    requires x.suite.prf.Some? && c.HmacLaw() && CarriesKeys(c, x, l) && HeardFinished(c, x, server) && Writes(l, d)
    ensures Follows(l, server, d, [0])
  {
    hide Exchange.Keys, Table, Marks;
    assert [0][..0] == [] && Highest(WIDTH - 1, []) == WIDTH - 1;
    assert NoAlignedJump(WIDTH - 1, []) && NoAlignedJump(WIDTH - 1, [0]);
  }

  lemma EndsFinished(cfg: Config, x: Exchange, before: seq<Input>, g: Garbage, gs: nat -> Garbage, t: Talk)
    requires cfg.library.HmacLaw() && Connects(cfg, x, before, g, gs, t)
    ensures var done := After(cfg, x, before + ServersTurns(g, gs, t));
            done.finished && done.cl.l.sent == [t.hello, t.again, t.answer]
  {
    hide After;
    assert before + ServersTurns(g, gs, t)
           == before + [Datagram(t.request, g, gs)] + [Datagram(t.flight, g, gs)] + [Datagram(t.finished, g, gs)];
  }

  /** From the first ClientHello to the data. After the handshake with an honest server, whatever the
      user sends, in however many pieces, goes out in one datagram for each piece, and the server,
      which has received nothing but the client's datagrams, delivers exactly these pieces in order. */
  lemma DataReachesServer(cfg: Config, x: Exchange, before: seq<Input>, rnd: Entropy, g: Garbage, gs: nat -> Garbage,
                          ds: seq<bytes>)
    returns (t: Talk, bufs: seq<bytes>)
    requires cfg.library.Lawful() && cfg.library.HmacLaw() && Agreed(cfg, x) && Undisturbed(cfg, x, before)
    requires |ds| < TWO32 && forall i :: 0 <= i < |ds| ==> |ds[i]| <= MAX_PLAINTEXT
    ensures ServerSpeaksSo(cfg.library, rnd, g, x, t) && ServerHearsSo(cfg.library, g, x, t)
            && Connects(cfg, x, before, g, gs, t)
    ensures var r := After(cfg, x, before + ServersTurns(g, gs, t) + DataInputs(ds));
            r.finished && |bufs| == |ds| && r.cl.l.sent == [t.hello, t.again, t.answer] + bufs
    ensures Table(t.second)
    ensures Listen(cfg.library, g, ServerAtEnd(cfg.library, rnd, g, x, t.second, t.answer), bufs).1 == DataMessages(ds)
  {
    hide Opened, Run, Undisturbed, Library.Lawful, ServerSpeaksSo, ServerHearsSo, Connects, CarriesKeys, HeardFinished,
         ServerAtEnd, ServersTurns, DataInputs, DataMessages, Listen, Writes, Follows, RandomValue;
    t := HonestServerConnects(cfg, x, before, rnd, g, gs);
    EndsFinished(cfg, x, before, g, gs, t);
    var inputs, server := before + ServersTurns(g, gs, t), ServerAtEnd(cfg.library, rnd, g, x, t.second, t.answer);
    var l := After(cfg, x, inputs).cl.l;
    var d := FinishedWrites(cfg, x.random, x.suiteIds, inputs);
    ServerFollowsOn(cfg.library, x, l, d, server);
    LastNumber(cfg.library, x, l);
    var all: seq<int>;
    bufs, all := StreamArrives(cfg, x.random, x.suiteIds, inputs, ds, d, server, [0], g);
  }

  lemma LastNumber(c: Library, x: Exchange, l: Layer)
    requires x.suite.prf.Some? && c.HmacLaw() && CarriesKeys(c, x, l)
    ensures 1 in l.epochs && l.epochs[1].writeSeq == 0
  {
  }
}
