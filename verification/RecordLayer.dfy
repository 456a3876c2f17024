/** src/DTLS/RecordLayer.ts: the record layer object and its epoch table. */
module RecordLayers {
  import opened Bytes
  import opened Crypto
  import opened Packets
  import opened Protection
  import opened ConnectionStates
  import opened AntiReplay
  import opened Records

  class Epoch {
    const index: nat
    const connectionState: ConnectionState
    const antiReplayWindow: AntiReplayWindow
    var writeSequenceNumber: int

    /** `createEpoch`. */
    constructor (index: nat)
      ensures this.index == index && fresh(connectionState) && fresh(antiReplayWindow)
      ensures Value() == FreshEpoch(index)
    {
      this.index := index;
      connectionState := new ConnectionState();
      antiReplayWindow := new AntiReplayWindow();
      writeSequenceNumber := -1;
    }

    ghost function Value(): EpochState
      reads this, connectionState, antiReplayWindow
    {
      EpochState(index, connectionState.Value(), writeSequenceNumber, antiReplayWindow.Value())
    }
  }

  class RecordLayer {
    const library: Library
    const random: Entropy
    ghost var Repr: set<object>
    ghost var owner: map<object, nat>
    var epochs: map<nat, Epoch>
    var readEpochNr: nat
    var writeEpochNr: nat
    var udp: seq<bytes>

    /** The layer owns the objects of its epochs, and no two epochs share one. */
    ghost predicate Owns()
      reads this
    {
      && Repr == owner.Keys + {this}
      && forall k: nat {:trigger k in epochs} :: k in epochs ==>
           && epochs[k] in owner && owner[epochs[k]] == k
           && epochs[k].connectionState in owner && owner[epochs[k].connectionState] == k
           && epochs[k].antiReplayWindow in owner && owner[epochs[k].antiReplayWindow] == k
    }

    ghost function Value(): Layer
      requires Owns()
      reads this, Repr
    {
      Layer(map k: nat | k in epochs :: epochs[k].Value(), readEpochNr, writeEpochNr, udp)
    }

    ghost predicate Valid()
      reads this, Repr
    {
      Owns() && Table(Value())
    }

    constructor (library: Library, random: Entropy)
      ensures Valid() && fresh(Repr) && Value() == FRESH_LAYER
      ensures this.library == library && this.random == random
    {
      this.library, this.random := library, random;
      epochs, readEpochNr, writeEpochNr, udp := map[], 0, 0, [];
      Repr, owner := {this}, map[];
      new;
      CreateFirstEpochs();
    }

    /** The current state and the pending state. */
    method CreateFirstEpochs()
      requires Owns() && epochs == map[] && Value() == Layer(map[], 0, 0, [])
      modifies this`epochs, this`Repr, this`owner
      ensures Valid() && fresh(Repr - old(Repr)) && Value() == FRESH_LAYER
    {
      hide Epoch.Value, FreshEpoch, Owns, Table;
      CreateEpoch(0);
      CreateEpoch(1);
      FreshLayerTable();
      assert Value().epochs == FRESH_LAYER.epochs;
    }

    /** `this.epochs[index] = this.createEpoch(index)`. */
    method CreateEpoch(index: nat)
      requires Owns() && index !in epochs
      modifies this`epochs, this`Repr, this`owner
      ensures Owns() && fresh(Repr - old(Repr)) && epochs.Keys == old(epochs).Keys + {index}
      ensures Value() == old(Value()).(epochs := old(Value()).epochs[index := FreshEpoch(index)])
    {
      hide FreshEpoch, Epoch.Value, Owns;
      var e := new Epoch(index);
      Repr := Repr + {e, e.connectionState, e.antiReplayWindow};
      owner := owner[e := index][e.connectionState := index][e.antiReplayWindow := index];
      epochs := epochs[index := e];
      OwnsOneMore(index, e);
      OneMoreEpoch(index);
    }

    twostate lemma OwnsOneMore(index: nat, new e: Epoch)
      requires old(Owns()) && index !in old(epochs) && epochs == old(epochs)[index := e]
      requires Repr == old(Repr) + {e, e.connectionState, e.antiReplayWindow}
      requires owner == old(owner)[e := index][e.connectionState := index][e.antiReplayWindow := index]
      requires e !in old(Repr) && e.connectionState !in old(Repr) && e.antiReplayWindow !in old(Repr)
      ensures Owns()
    {
    }

    twostate lemma OneMoreEpoch(index: nat)
      requires old(Owns()) && Owns() && index !in old(epochs) && index in epochs
      requires epochs == old(epochs)[index := epochs[index]]
      requires readEpochNr == old(readEpochNr) && writeEpochNr == old(writeEpochNr) && udp == old(udp)
      requires forall o :: o in old(Repr) && o != this ==> unchanged(o)
      ensures Value() == old(Value()).(epochs := old(Value()).epochs[index := epochs[index].Value()])
    {
      hide Epoch.Value;
      assert Value().epochs == old(Value()).epochs[index := epochs[index].Value()];
    }

    method NextEpochNr() returns (n: nat)
      ensures n == Max(readEpochNr, writeEpochNr) + 1
    {
      n := if readEpochNr > writeEpochNr then readEpochNr + 1 else writeEpochNr + 1;
    }

    method EnsureNextEpoch()
      requires Owns()
      modifies this`epochs, this`Repr, this`owner
      ensures Owns() && fresh(Repr - old(Repr))
      ensures Value() == Records.EnsureNextEpoch(old(Value()))
    {
      var n := NextEpochNr();
      if n !in epochs {
        CreateEpoch(n);
      }
    }

    /** Moving the counters leaves the values of the epochs alone. */
    twostate lemma SameEpochs()
      requires old(Owns()) && Owns() && epochs == old(epochs)
      requires forall o :: o in old(Repr) && o != this ==> unchanged(o)
      ensures Value() == old(Value()).(read := readEpochNr, write := writeEpochNr, sent := udp)
    {
    }

    method AdvanceReadEpoch()
      requires Valid()
      modifies this`readEpochNr, this`epochs, this`Repr, this`owner
      ensures Valid() && fresh(Repr - old(Repr))
      ensures Value() == AdvanceRead(old(Value()))
    {
      hide Table, Records.EnsureNextEpoch;
      AdvancingKeepsTable(Value());
      readEpochNr := readEpochNr + 1;
      SameEpochs();
      EnsureNextEpoch();
    }

    method AdvanceWriteEpoch()
      requires Valid()
      modifies this`writeEpochNr, this`epochs, this`Repr, this`owner
      ensures Valid() && fresh(Repr - old(Repr))
      ensures Value() == AdvanceWrite(old(Value()))
    {
      hide Table, Records.EnsureNextEpoch;
      AdvancingKeepsTable(Value());
      writeEpochNr := writeEpochNr + 1;
      SameEpochs();
      EnsureNextEpoch();
    }

    /** Changing the objects of one epoch changes one entry of the table. */
    twostate lemma OnlyEpoch(e: nat)
      requires old(Owns()) && e in epochs
      requires epochs == old(epochs) && Repr == old(Repr) && owner == old(owner)
      requires readEpochNr == old(readEpochNr) && writeEpochNr == old(writeEpochNr) && udp == old(udp)
      requires forall o :: (o in Repr && o != this && o != epochs[e] && o != epochs[e].connectionState
                            && o != epochs[e].antiReplayWindow) ==> unchanged(o)
      ensures Owns() && Value() == old(Value()).(epochs := old(Value()).epochs[e := epochs[e].Value()])
    {
      hide Epoch.Value;
      assert Value().epochs == old(Value()).epochs[e := epochs[e].Value()];
    }

    /** Where the table finds one epoch. */
    lemma EpochIsOwned(e: nat)
      requires Owns()
      ensures this in Repr && readEpochNr == Value().read && writeEpochNr == Value().write
      ensures e in epochs <==> e in Value().epochs
      ensures e in epochs ==>
                && Value().epochs[e] == epochs[e].Value()
                && {epochs[e], epochs[e].connectionState, epochs[e].antiReplayWindow} <= Repr
    {
    }

    /** `++epoch.writeSequenceNumber` in the current write epoch. */
    method TakeSequenceNumber() returns (n: int)
      requires Owns() && writeEpochNr in epochs
      modifies epochs[writeEpochNr]
      ensures Owns() && n == old(Value()).epochs[writeEpochNr].writeSeq + 1
      ensures Value() == old(Value()).(epochs := old(Value()).epochs[writeEpochNr :=
                old(Value()).epochs[writeEpochNr].(writeSeq := n)])
    {
      var epoch := epochs[writeEpochNr];
      epoch.writeSequenceNumber := epoch.writeSequenceNumber + 1;
      n := epoch.writeSequenceNumber;
      OnlyEpoch(writeEpochNr);
    }

    method ReadCipher(e: nat) returns (d: Option<Delegate>)
      requires Owns() && e in epochs
      modifies epochs[e].connectionState
      ensures Owns() && d == old(Value()).epochs[e].conn.CipherInUse()
      ensures Value() == WithConn(old(Value()), e, old(Value()).epochs[e].conn.(cipher := d))
    {
      d := epochs[e].connectionState.GetCipher();
      OnlyEpoch(e);
    }

    method ReadDecipher(e: nat) returns (d: Option<Delegate>)
      requires Owns() && e in epochs
      modifies epochs[e].connectionState
      ensures Owns() && d == old(Value()).epochs[e].conn.DecipherInUse()
      ensures Value() == Touch(old(Value()), e)
    {
      d := epochs[e].connectionState.GetDecipher();
      OnlyEpoch(e);
    }

    method MarkAsReceived(p: Packet)
      requires Owns() && p.epoch >= 0 && p.epoch in epochs && epochs[p.epoch].antiReplayWindow.Valid()
      modifies epochs[p.epoch].antiReplayWindow
      ensures Owns() && old(Value()).epochs[p.epoch].window.Ok() && Value() == MarkOne(old(Value()), p)
    {
      hide Window.Mark;
      epochs[p.epoch].antiReplayWindow.MarkAsReceived(p.seqNum);
      OnlyEpoch(p.epoch);
    }

    /** Numbers the message and protects it under the current write epoch. */
    method ProtectOutgoing(msg: Message) returns (packet: Option<Packet>)
      requires Owns() && writeEpochNr in epochs
      modifies epochs[writeEpochNr], epochs[writeEpochNr].connectionState
      ensures Owns() && Value() == Numbered(old(Value()))
      ensures packet == Protected(library, random, old(Value()), msg)
    {
      hide Encrypt, ConnState.CipherInUse, Owns, RecordLayer.Value, Draw;
      ghost var before := Value();
      EpochIsOwned(writeEpochNr);
      var conn := epochs[writeEpochNr].connectionState;
      var suite, major, minor := conn.cipherSuite, conn.major, conn.minor;
      var seqNum := TakeSequenceNumber();
      packet := Some(Packet(msg.typ, major, minor, writeEpochNr, seqNum, msg.data));
      if suite.None? {
        packet := None;
      } else if !suite.value.kind.NullCipher? {
        CipherExists(before.epochs[writeEpochNr].conn);
        var d := ReadCipher(writeEpochNr);
        packet := Encrypt(library, d.value, packet.value,
                          Draw(random, writeEpochNr, seqNum, RecordIvLength(d.value.suite)));
      }
    }

    method ProcessOutgoingMessage(msg: Message) returns (r: Option<bytes>)
      requires Valid()
      modifies Repr
      ensures Valid() && fresh(Repr - old(Repr))
      ensures (Value(), r) == Outgoing(library, random, old(Value()), msg)
    {
      hide Protected, Numbered, Print, Table, AdvanceWrite, Owns, RecordLayer.Value;
      OutgoingKeepsTable(library, random, Value(), msg);
      EpochIsOwned(writeEpochNr);
      CurrentEpochsExist(Value());
      var packet := ProtectOutgoing(msg);
      r := if packet.None? then None else Some(Print(packet.value));
      if packet.Some? && msg.typ == CHANGE_CIPHER_SPEC {
        AdvanceWriteEpoch();
      }
    }

    method Send(msg: Message) returns (ok: bool)
      requires Valid()
      modifies Repr
      ensures Valid() && fresh(Repr - old(Repr))
      ensures (Value(), ok) == Records.Send(library, random, old(Value()), msg)
    {
      hide Outgoing, Table, Owns, RecordLayer.Value;
      CurrentEpochsExist(Value());
      var buf := ProcessOutgoingMessage(msg);
      if buf.None? {
        return false;
      }
      label Sending:
      EpochIsOwned(0);
      udp := udp + [buf.value];
      OnlySent@Sending();
      SentKeepsTable(old@Sending(Value()), udp);
      ok := true;
    }

    /** Handing a datagram to the socket changes nothing else. */
    twostate lemma OnlySent()
      requires old(Owns()) && epochs == old(epochs) && owner == old(owner) && Repr == old(Repr)
      requires readEpochNr == old(readEpochNr) && writeEpochNr == old(writeEpochNr)
      requires forall o :: o in old(Repr) && o != this ==> unchanged(o)
      ensures Owns() && Value() == old(Value()).(sent := udp)
      ensures old(udp) == old(Value()).sent
    {
      SameEpochs();
    }

    method SendFlight(messages: seq<Message>) returns (ok: bool)
      requires Valid()
      modifies Repr
      ensures Valid() && fresh(Repr - old(Repr))
      ensures (Value(), ok) == Records.SendFlight(library, random, old(Value()), messages)
    {
      hide Outgoing, Table;
      ghost var before := Value();
      var buffers: bytes := [];
      assert messages[0..] == messages;
      AfterNoBytes(OutgoingAll(library, random, before, messages));
      for i := 0 to |messages|
        invariant Valid() && fresh(Repr - old(Repr))
        invariant OutgoingAll(library, random, before, messages)
               == AfterBytes(buffers, OutgoingAll(library, random, Value(), messages[i..]))
      {
        ghost var rest := messages[i..];
        assert rest[0] == messages[i] && rest[1..] == messages[i + 1..];
        var buf := ProcessOutgoingMessage(messages[i]);
        if buf.None? {
          return false;
        }
        AfterBytesTwice(buffers, buf.value, OutgoingAll(library, random, Value(), messages[i + 1..]));
        buffers := buffers + buf.value;
      }
      assert buffers + [] == buffers;
      label Sending:
      udp := udp + [buffers];
      OnlySent@Sending();
      SentKeepsTable(old@Sending(Value()), udp);
      ok := true;
    }

    /** The parse loop of `receive`; a parse error ends it. */
    static method ReadPackets(buf: bytes, g: Garbage) returns (packets: seq<Packet>)
      ensures packets == ParseAll(buf, 0, g)
    {
      hide Parse;
      var offset: nat := 0;
      packets := [];
      while offset < |buf|
        invariant ParseAll(buf, 0, g) == packets + ParseAll(buf, offset, g)
        decreases |buf| - offset
      {
        var packet := ReadPacket(buf, offset, g);
        if packet.None? || packet.value.1 <= 0 {
          assert packets + [] == packets;
          return;
        }
        assert packets + ([packet.value.0] + ParseAll(buf, offset + packet.value.1, g))
            == packets + [packet.value.0] + ParseAll(buf, offset + packet.value.1, g);
        packets := packets + [packet.value.0];
        offset := offset + packet.value.1;
      }
    }

    method MayReceive(p: Packet) returns (b: bool)
      requires Valid()
      ensures b == Admits(Value(), p)
    {
      hide Window.MayReceive;
      TableSize(Value());
      assert Value().epochs.Keys == epochs.Keys;
      assert |Value().epochs| == |Value().epochs.Keys| && |epochs| == |epochs.Keys|;
      b := false;
      if 0 <= p.epoch < |epochs| {
        if p.epoch >= readEpochNr {
          b := epochs[p.epoch].antiReplayWindow.MayReceive(p.seqNum);
        }
      }
    }

    method FilterPackets(packets: seq<Packet>) returns (admitted: seq<Packet>)
      requires Valid()
      ensures admitted == Filter(Value(), packets)
    {
      hide Admits, Table;
      admitted := [];
      for i := 0 to |packets|
        invariant admitted == Filter(Value(), packets[..i])
      {
        var b := MayReceive(packets[i]);
        FilterSplits(Value(), packets[..i], packets[i]);
        assert packets[..i + 1] == packets[..i] + [packets[i]];
        if b {
          admitted := admitted + [packets[i]];
        }
      }
      assert packets[..|packets|] == packets;
    }

    /** Deciphers one packet; `None` when that throws. */
    method DecipherPacket(p: Packet) returns (r: Option<Packet>)
      requires Valid() && p.epoch >= 0 && p.epoch in epochs
      modifies epochs[p.epoch].connectionState
      ensures Valid() && epochs == old(epochs) && r == DecryptOne(library, old(Value()), p)
      ensures Value() == Touch(old(Value()), p.epoch)
    {
      hide Decrypt, ConnState.DecipherInUse, Table;
      TouchKeepsTable(Value(), p.epoch);
      var d := ReadDecipher(p.epoch);
      r := if d.None? then None else Decrypt(library, d.value, p);
    }

    method DecipherPackets(packets: seq<Packet>) returns (records: seq<Packet>)
      requires Valid() && Known(Value(), packets)
      modifies Repr
      ensures Valid() && epochs == old(epochs) && Repr == old(Repr)
      ensures (Value(), records) == DecryptAll(library, old(Value()), packets)
    {
      hide Table, DecryptOne, Decrypt, AfterPackets, Touch, Owns, RecordLayer.Value;
      ghost var before := Value();
      records := [];
      assert packets[0..] == packets;
      AfterNoPackets(DecryptAll(library, before, packets));
      for i := 0 to |packets|
        invariant Valid() && epochs == old(epochs) && Repr == old(Repr)
        invariant Known(Value(), packets)
        invariant DecryptAll(library, before, packets)
               == AfterPackets(records, DecryptAll(library, Value(), packets[i..]))
      {
        ghost var rest := packets[i..];
        assert rest[0] == packets[i] && rest[1..] == packets[i + 1..];
        DecryptAllStep(library, Value(), rest);
        AfterPacketsTwice(records, Result(DecryptOne(library, Value(), rest[0])),
                          DecryptAll(library, Touch(Value(), rest[0].epoch), rest[1..]));
        EpochIsOwned(packets[i].epoch);
        TouchKeepsTable(Value(), packets[i].epoch);
        var r := DecipherPacket(packets[i]);
        records := records + Result(r);
      }
      NoPacketsAfter(library, records, Value());
    }

    method MarkPackets(records: seq<Packet>)
      requires Valid() && Known(Value(), records)
      modifies Repr
      ensures Valid() && Value() == MarkAll(old(Value()), records)
      ensures epochs == old(epochs) && Repr == old(Repr)
    {
      hide Window.Mark, Table, Owns, RecordLayer.Value;
      ghost var before := Value();
      assert records[0..] == records;
      for i := 0 to |records|
        invariant Valid() && epochs == old(epochs) && Repr == old(Repr)
        invariant Known(Value(), records)
        invariant MarkAll(before, records) == MarkAll(Value(), records[i..])
      {
        ghost var rest := records[i..];
        assert rest[0] == records[i] && rest[1..] == records[i + 1..];
        MarkKeepsTable(Value(), records[i]);
        EpochIsOwned(records[i].epoch);
        MarkAsReceived(records[i]);
      }
    }

    method Receive(g: Garbage, buf: bytes) returns (messages: seq<Message>)
      requires Valid()
      modifies Repr
      ensures Valid() && Repr == old(Repr)
      ensures var (l, records) := Records.Receive(library, g, old(Value()), buf);
              Value() == l && messages == Messages(records)
    {
      hide Table, MarkAll, DecryptAll, Filter, ParseAll;
      ghost var before := Value();
      var packets := ReadPackets(buf, g);
      var admitted := FilterPackets(packets);
      FilterIsKnown(before, packets);
      DecryptAllKnown(library, before, admitted);
      var records := DecipherPackets(admitted);
      MarkPackets(records);
      messages := Messages(records);
    }
  }
}
