/** Flights are assembled independently of fragmentation and of the order of arrival. */
module FlightAssembly {
  import opened Bytes
  import opened Codec
  import opened Crypto
  import opened Records
  import R = RecordProofs
  import opened Fragments
  import opened FragmentProofs
  import opened Handshakes
  import opened Handlers
  import opened HandlerProofs

  // ---- selecting fragments of a message ----

  lemma {:induction false} FindAllAppend(fs: seq<Fragment>, f: Fragment, ref: Fragment)
    ensures FindAll(fs + [f], ref) == FindAll(fs, ref) + if f.SameMessage(ref) then [f] else []
  {
    if fs == [] {
      assert FindAll([f], ref) == (if f.SameMessage(ref) then [f] else []) + FindAll([], ref);
      assert fs + [f] == [f];
    } else {
      FindAllAppend(fs[1..], f, ref);
      assert (fs + [f])[1..] == fs[1..] + [f];
    }
  }

  lemma {:induction false} FindAllWithout(fs: seq<Fragment>, ref: Fragment, other: Fragment)
    ensures FindAll(Without(fs, ref), other) == if other.SameMessage(ref) then [] else FindAll(fs, other)
  {
    if fs != [] {
      FindAllWithout(fs[1..], ref, other);
      var rest := Without(fs[1..], ref);
      if !fs[0].SameMessage(ref) {
        assert ([fs[0]] + rest)[1..] == rest;
      } else {
        assert [] + rest == rest;
      }
    }
  }

  lemma {:induction false} FindAllByMessage(fs: seq<Fragment>, f: Fragment, g: Fragment)
    requires f.SameMessage(g)
    ensures FindAll(fs, f) == FindAll(fs, g)
  {
    if fs != [] {
      FindAllByMessage(fs[1..], f, g);
    }
  }

  predicate Belongs(f: Fragment, ms: seq<Handshake>) {
    exists i :: 0 <= i < |ms| && f.SameMessage(ToFragment(ms[i]))
  }

  lemma {:induction false} WithoutSelects(fs: seq<Fragment>, ref: Fragment)
    ensures forall f :: f in Without(fs, ref) ==> f in fs
  {
    if fs != [] {
      WithoutSelects(fs[1..], ref);
    }
  }

  lemma {:induction false} ForeignIsNotFound(fs: seq<Fragment>, ref: Fragment)
    requires forall f :: f in fs ==> !f.SameMessage(ref)
    ensures FindAll(fs, ref) == []
  {
    if fs != [] {
      assert fs[0] in fs;
      ForeignIsNotFound(fs[1..], ref);
    }
  }

  // ---- deliveries ----

  /** The fragment is a piece of the encoding of `m`: the whole of it, or a non-empty slice. */
  predicate PieceOf(f: Fragment, m: Handshake) {
    f.SameMessage(ToFragment(m)) && SliceOf(f, Body(m)) && (f.data != [] || Body(m) == [])
  }

  /** Two pieces of one message are the same, or they do not overlap. */
  predicate Fits(f: Fragment, h: Fragment) {
    f == h || f.End() < h.offset || h.End() < f.offset
  }

  /** The flight that is due: numbered from the last processed message, canonically encoded,
      and of an expected type in its final message only. Only messages that were processed
      before may be stored already. */
  ghost predicate Due(h: Handler, ms: seq<Handshake>) {
    && ms != [] && h.lastProcessed >= -1 && h.lastProcessed + |ms| < SEQ_NUMS
    && h.expected.Some? && (forall k :: k in h.complete ==> k <= h.lastProcessed)
    && (forall i :: 0 <= i < |ms| ==> ms[i].seqNum == h.lastProcessed + 1 + i && Canonical(ms[i]))
    && (forall i :: 0 <= i < |ms| ==> (ms[i].msgType in h.expected.value <==> i == |ms| - 1))
    && (forall f :: f in h.incomplete ==> !Belongs(f, ms))
  }

  function IndexOf(h: Handler, f: Fragment): int {
    f.seqNum - h.lastProcessed - 1
  }

  /** The fragment carries the number of a message that was processed before. */
  predicate Old(h: Handler, f: Fragment) {
    f.seqNum <= h.lastProcessed
  }

  /** Pieces of the flight, any of them as often as it may be repeated, and any fragments of
      messages that were processed before. */
  ghost predicate Pieces(h: Handler, ms: seq<Handshake>, arr: seq<Fragment>) {
    && (forall j :: 0 <= j < |arr| && !Old(h, arr[j]) ==>
          IndexOf(h, arr[j]) < |ms| && PieceOf(arr[j], ms[IndexOf(h, arr[j])]))
    && (forall i, j :: 0 <= i < j < |arr| && !Old(h, arr[i]) && arr[i].seqNum == arr[j].seqNum ==> Fits(arr[i], arr[j]))
  }

  function Arrived(arr: seq<Fragment>, m: Handshake): seq<Fragment> {
    FindAll(arr, ToFragment(m))
  }

  /** Every byte of the message has arrived. */
  ghost predicate Done(arr: seq<Fragment>, m: Handshake) {
    Arrived(arr, m) != [] && forall k :: 0 <= k < |Body(m)| ==> Covered(Arrived(arr, m), k)
  }

  ghost predicate AllDone(arr: seq<Fragment>, ms: seq<Handshake>) {
    forall i :: 0 <= i < |ms| ==> Done(arr, ms[i])
  }

  predicate AllPieces(fs: seq<Fragment>, m: Handshake) {
    forall f :: f in fs ==> PieceOf(f, m)
  }

  /** Beside old messages exactly the finished ones are filed, each under its number. */
  ghost predicate FilesDone(start: int, complete: map<nat, Handshake>, ms: seq<Handshake>, arr: seq<Fragment>) {
    && (forall k: nat {:trigger complete[k]} {:trigger k in complete} :: k in complete ==>
          k < start || (k - start < |ms| && complete[k] == ms[k - start]))
    && (forall i {:trigger Done(arr, ms[i])} :: 0 <= i < |ms| ==> (start + i in complete <==> Done(arr, ms[i])))
  }

  /** Of an unfinished message exactly the arrived pieces are queued, in order; of a finished one
      perhaps some that were repeated. */
  ghost predicate QueueOf(incomplete: seq<Fragment>, m: Handshake, arr: seq<Fragment>) {
    if Done(arr, m) then AllPieces(FindAll(incomplete, ToFragment(m)), m)
    else FindAll(incomplete, ToFragment(m)) == Arrived(arr, m)
  }

  ghost predicate QueuesRest(incomplete: seq<Fragment>, ms: seq<Handshake>, arr: seq<Fragment>) {
    forall i {:trigger ms[i]} :: 0 <= i < |ms| ==> QueueOf(incomplete, ms[i], arr)
  }

  /** The queue holds what it held and fragments up to the last number of the flight. */
  predicate QueueGrew(h0: Handler, incomplete: seq<Fragment>, n: nat) {
    forall f :: f in incomplete ==> f in h0.incomplete || f.seqNum <= h0.lastProcessed + n
  }

  /** What the handler holds after some pieces. */
  ghost predicate Holds(h0: Handler, h: Handler, ms: seq<Handshake>, arr: seq<Fragment>) {
    && h == h0.(complete := h.complete, incomplete := h.incomplete)
    && FilesDone(h0.lastProcessed + 1, h.complete, ms, arr)
    && QueuesRest(h.incomplete, ms, arr)
    && QueueGrew(h0, h.incomplete, |ms|)
  }

  lemma HoldsAtStart(h: Handler, ms: seq<Handshake>)
    requires Due(h, ms)
    ensures Holds(h, h, ms, [])
  {
    hide Canonical;
    forall i | 0 <= i < |ms|
      ensures FindAll(h.incomplete, ToFragment(ms[i])) == []
    {
      ForeignIsNotFound(h.incomplete, ToFragment(ms[i]));
    }
  }

  /** The message a due piece belongs to. */
  lemma PieceAt(h: Handler, ms: seq<Handshake>, arr: seq<Fragment>, f: Fragment)
    requires Due(h, ms) && Pieces(h, ms, arr + [f]) && !Old(h, f)
    ensures 0 <= IndexOf(h, f) < |ms| && PieceOf(f, ms[IndexOf(h, f)])
  {
    assert (arr + [f])[|arr|] == f;
  }

  lemma OtherMessage(h: Handler, ms: seq<Handshake>, f: Fragment, i: nat)
    requires Due(h, ms) && i < |ms|
    ensures f.SameMessage(ToFragment(ms[i])) ==> !Old(h, f) && i == IndexOf(h, f)
  {
    hide Canonical;
  }

  /** A fragment of another message changes nothing for a message. */
  lemma OthersStay(h: Handler, ms: seq<Handshake>, arr: seq<Fragment>, f: Fragment, i: nat)
    requires Due(h, ms) && i < |ms| && (Old(h, f) || i != IndexOf(h, f))
    ensures Arrived(arr + [f], ms[i]) == Arrived(arr, ms[i])
    ensures Done(arr + [f], ms[i]) <==> Done(arr, ms[i])
  {
    hide Due;
    FindAllAppend(arr, f, ToFragment(ms[i]));
    OtherMessage(h, ms, f, i);
  }

  lemma DoneStays(arr: seq<Fragment>, f: Fragment, m: Handshake)
    requires Done(arr, m)
    ensures Done(arr + [f], m)
  {
    FindAllAppend(arr, f, ToFragment(m));
    var before, after := Arrived(arr, m), Arrived(arr + [f], m);
    forall k | 0 <= k < |Body(m)|
      ensures Covered(after, k)
    {
      assert Covered(before, k);
      var i :| 0 <= i < |before| && before[i].Covers(k);
      assert after[i] == before[i];
    }
  }

  lemma WholeIsDone(arr: seq<Fragment>, m: Handshake)
    requires ToFragment(m) in arr
    ensures Done(arr, m)
  {
    hide Body;
    var f, found := ToFragment(m), Arrived(arr, m);
    FoundAreSame(arr, f);
    var j :| 0 <= j < |found| && found[j] == f;
    assert forall k :: 0 <= k < |Body(m)| ==> found[j].Covers(k);
  }

  lemma WholeIsMessage(f: Fragment, m: Handshake)
    requires PieceOf(f, m) && !f.IsFragmented()
    ensures f == ToFragment(m)
  {
  }

  lemma ArrivedArePieces(h: Handler, ms: seq<Handshake>, arr: seq<Fragment>, i: nat)
    requires Due(h, ms) && Pieces(h, ms, arr) && i < |ms|
    ensures AllPieces(Arrived(arr, ms[i]), ms[i])
  {
    hide Canonical, Fits, PieceOf;
    FoundAreSame(arr, ToFragment(ms[i]));
    forall f | f in Arrived(arr, ms[i])
      ensures PieceOf(f, ms[i])
    {
      var j :| 0 <= j < |arr| && arr[j] == f;
    }
  }

  /** The arrived pieces of one message are judged complete exactly when all of it has arrived. */
  lemma CompleteIffDone(h: Handler, ms: seq<Handshake>, arr: seq<Fragment>, i: nat)
    requires Due(h, ms) && Pieces(h, ms, arr) && i < |ms| && Body(ms[i]) != [] && Arrived(arr, ms[i]) != []
    ensures IsComplete(Arrived(arr, ms[i])) == Some(true) <==> Done(arr, ms[i])
  {
    hide Due, Pieces, Nested, FindAll;
    var all, m := Arrived(arr, ms[i]), ms[i];
    ArrivedArePieces(h, ms, arr, i);
    FoundAreSame(arr, ToFragment(m));
    forall f, k | f in all && k in all
      ensures !Nested(f, k)
    {
      FoundNotNested(h, ms, arr, i, f, k);
    }
    assert all[0] in all;
    forall j | 0 <= j < |all|
      ensures all[j].SameMessage(all[0])
    {
      assert all[j] in all;
    }
    FlatCompleteIffCovered(all, |Body(m)|);
  }

  lemma FoundNotNested(h: Handler, ms: seq<Handshake>, arr: seq<Fragment>, i: nat, f: Fragment, k: Fragment)
    requires Due(h, ms) && Pieces(h, ms, arr) && i < |ms| && f in Arrived(arr, ms[i]) && k in Arrived(arr, ms[i])
    requires f.data != [] && k.data != []
    ensures !Nested(f, k)
  {
    hide PieceOf, ToFragment, Due;
    FoundAreSame(arr, ToFragment(ms[i]));
    OtherMessage(h, ms, f, i);
    OtherMessage(h, ms, k, i);
    var a :| 0 <= a < |arr| && arr[a] == f;
    var b :| 0 <= b < |arr| && arr[b] == k;
    assert a < b ==> Fits(arr[a], arr[b]);
    assert b < a ==> Fits(arr[b], arr[a]);
  }

  // ---- storing a fragment ----

  lemma DueMessage(h0: Handler, ms: seq<Handshake>, i: nat, g: Garbage)
    requires Due(h0, ms) && i < |ms|
    ensures h0.lastProcessed >= -1 && ms[i].seqNum == h0.lastProcessed + 1 + i
    ensures FromFragment(ToFragment(ms[i]), g) == Some(ms[i])
  {
    FromFragmentInverts(ms[i], g);
  }

  /** The files after a fragment of the flight, or of an old message. */
  lemma FilesNext(h0: Handler, ms: seq<Handshake>, arr: seq<Fragment>, f: Fragment, before: map<nat, Handshake>,
                  next: map<nat, Handshake>, filed: Handshake)
    requires Due(h0, ms) && FilesDone(h0.lastProcessed + 1, before, ms, arr)
    requires next == before || next == before[f.seqNum := filed]
    requires !Old(h0, f) ==> 0 <= IndexOf(h0, f) < |ms| && filed == ms[IndexOf(h0, f)]
                             && (f.seqNum in next <==> Done(arr + [f], filed))
    ensures FilesDone(h0.lastProcessed + 1, next, ms, arr + [f])
  {
    hide Done, Canonical;
    forall i | 0 <= i < |ms| && (Old(h0, f) || i != IndexOf(h0, f))
      ensures Done(arr + [f], ms[i]) <==> Done(arr, ms[i])
    {
      OthersStay(h0, ms, arr, f, i);
    }
  }

  /** The queue after a fragment, which is either not queued, or queued, or removed with all
      that belongs to it. */
  lemma QueueNext(h0: Handler, ms: seq<Handshake>, arr: seq<Fragment>, f: Fragment, before: seq<Fragment>,
                  next: seq<Fragment>)
    requires Due(h0, ms) && Pieces(h0, ms, arr + [f]) && QueuesRest(before, ms, arr) && QueueGrew(h0, before, |ms|)
    requires next in [before, before + [f], Without(before + [f], f)]
    requires !Old(h0, f) ==> 0 <= IndexOf(h0, f) < |ms| && PieceOf(f, ms[IndexOf(h0, f)])
    requires !Old(h0, f) && next != before + [f] ==> Done(arr + [f], ms[IndexOf(h0, f)])
    ensures QueuesRest(next, ms, arr + [f]) && QueueGrew(h0, next, |ms|)
  {
    hide Done, Due, Pieces, PieceOf, QueueOf;
    WithoutSelects(before + [f], f);
    forall i | 0 <= i < |ms|
      ensures QueueOf(next, ms[i], arr + [f])
    {
      if Old(h0, f) || i != IndexOf(h0, f) {
        OtherQueueStays(h0, ms, arr, f, before, next, i);
      } else {
        OwnQueue(h0, ms, arr, f, before, next, i);
      }
    }
  }

  lemma {:induction false} OtherQueueStays(h0: Handler, ms: seq<Handshake>, arr: seq<Fragment>, f: Fragment,
                                           before: seq<Fragment>, next: seq<Fragment>, i: nat)
    requires Due(h0, ms) && i < |ms| && QueueOf(before, ms[i], arr) && (Old(h0, f) || i != IndexOf(h0, f))
    requires next in [before, before + [f], Without(before + [f], f)]
    ensures QueueOf(next, ms[i], arr + [f])
  {
    hide Done, Due, Arrived;
    var ref := ToFragment(ms[i]);
    OthersStay(h0, ms, arr, f, i);
    FindAllAppend(before, f, ref);
    FindAllWithout(before + [f], f, ref);
    OtherMessage(h0, ms, f, i);
  }

  lemma OwnQueue(h0: Handler, ms: seq<Handshake>, arr: seq<Fragment>, f: Fragment, before: seq<Fragment>,
                 next: seq<Fragment>, i: nat)
    requires Due(h0, ms) && Pieces(h0, ms, arr + [f]) && i < |ms| && QueueOf(before, ms[i], arr) && PieceOf(f, ms[i])
    requires next in [before, before + [f], Without(before + [f], f)]
             && (next != before + [f] ==> Done(arr + [f], ms[i]))
    ensures QueueOf(next, ms[i], arr + [f])
  {
    hide Done, Due;
    var ref := ToFragment(ms[i]);
    PiecesPrefix(h0, ms, arr, f);
    ArrivedArePieces(h0, ms, arr, i);
    FindAllAppend(before, f, ref);
    FindAllAppend(arr, f, ref);
    FindAllWithout(before + [f], f, ref);
    if Done(arr, ms[i]) {
      DoneStays(arr, f, ms[i]);
    }
  }

  lemma PiecesPrefix(h: Handler, ms: seq<Handshake>, arr: seq<Fragment>, f: Fragment)
    requires Pieces(h, ms, arr + [f])
    ensures Pieces(h, ms, arr)
  {
    hide PieceOf, Fits;
    forall j | 0 <= j < |arr| && !Old(h, arr[j])
      ensures IndexOf(h, arr[j]) < |ms| && PieceOf(arr[j], ms[IndexOf(h, arr[j])])
    {
      assert (arr + [f])[j] == arr[j];
    }
    forall i, j | 0 <= i < j < |arr| && !Old(h, arr[i]) && arr[i].seqNum == arr[j].seqNum
      ensures Fits(arr[i], arr[j])
    {
      assert (arr + [f])[i] == arr[i] && (arr + [f])[j] == arr[j];
    }
  }

  /** What `Store` does to the two queues, whatever the fragment is. */
  lemma StoreShape(h: Handler, f: Fragment, g: Garbage) returns (filed: Handshake)
    ensures var (next, status) := Store(h, f, g);
            var all := FindAll(h.incomplete + [f], f);
            && next == h.(complete := next.complete, incomplete := next.incomplete)
            && next.complete == (if status.Continues? then h.complete[f.seqNum := filed] else h.complete)
            && (f.IsFragmented() && IsComplete(all) != Some(true) ==>
                  status.Returned? && next.incomplete == h.incomplete + [f])
            && (f.IsFragmented() && IsComplete(all) == Some(true) ==>
                  && Reassemble(all, g).Some?
                  && var m := FromFragment(Reassemble(all, g).value, g);
                  && next.incomplete == (if m.Some? then Without(h.incomplete + [f], f) else h.incomplete + [f])
                  && (status.Continues? <==> m.Some?) && (m.Some? ==> filed == m.value))
            && (!f.IsFragmented() ==>
                  && next.incomplete == h.incomplete
                  && var m := FromFragment(f, g); (status.Continues? <==> m.Some?) && (m.Some? ==> filed == m.value))
  {
    hide IsComplete, Reassemble, FromFragment, Without;
    filed := Handshake(0, 0, VNum(NaN));
    var all := FindAll(h.incomplete + [f], f);
    if f.IsFragmented() {
      if IsComplete(all) == Some(true) {
        FoundAreSame(h.incomplete + [f], f);
        ReassembledNumber(all, f, g);
        var m := FromFragment(Reassemble(all, g).value, g);
        if m.Some? {
          filed := m.value;
        }
      }
    } else {
      var m := FromFragment(f, g);
      if m.Some? {
        filed := m.value;
      }
    }
  }

  /** A fragment of an old message leaves the flight alone. */
  lemma StoreOld(h0: Handler, h: Handler, ms: seq<Handshake>, arr: seq<Fragment>, f: Fragment, g: Garbage)
    requires Due(h0, ms) && Holds(h0, h, ms, arr) && Pieces(h0, ms, arr + [f]) && Old(h0, f)
    ensures Holds(h0, Store(h, f, g).0, ms, arr + [f])
  {
    hide Due, Pieces, QueuesRest, FilesDone, Store, QueueGrew;
    var filed := StoreShape(h, f, g);
    var next := Store(h, f, g).0;
    FilesNext(h0, ms, arr, f, h.complete, next.complete, filed);
    QueueNext(h0, ms, arr, f, h.incomplete, next.incomplete);
  }

  /** A piece of the flight is filed or queued, and filed if it finishes its message. */
  lemma StoreDue(h0: Handler, h: Handler, ms: seq<Handshake>, arr: seq<Fragment>, f: Fragment, g: Garbage)
    requires Due(h0, ms) && Holds(h0, h, ms, arr) && Pieces(h0, ms, arr + [f]) && !Old(h0, f)
    ensures 0 <= IndexOf(h0, f) < |ms|
    ensures var (next, status), m := Store(h, f, g), ms[IndexOf(h0, f)];
            && Holds(h0, next, ms, arr + [f])
            && (Done(arr + [f], m) && !Done(arr, m) ==> status.Continues?)
  {
    hide Due, Pieces, QueuesRest, FilesDone, Store, QueueGrew, Done, PieceOf, FromFragment, IsComplete, Reassemble,
         FindAll, Without;
    PieceAt(h0, ms, arr, f);
    var at := IndexOf(h0, f);
    DueMessage(h0, ms, at, g);
    var filed := StoreShape(h, f, g);
    PieceIsFiled(h0, h, ms, arr, f, g);
    if Done(arr, ms[at]) {
      DoneStays(arr, f, ms[at]);
    }
    var next := Store(h, f, g).0;
    FilesNext(h0, ms, arr, f, h.complete, next.complete, ms[at]);
    QueueNext(h0, ms, arr, f, h.incomplete, next.incomplete);
  }

  /** When a piece of the flight is filed, and as what. */
  lemma PieceIsFiled(h0: Handler, h: Handler, ms: seq<Handshake>, arr: seq<Fragment>, f: Fragment, g: Garbage)
    requires Due(h0, ms) && Holds(h0, h, ms, arr) && Pieces(h0, ms, arr + [f]) && !Old(h0, f)
    requires 0 <= IndexOf(h0, f) < |ms|
    ensures var m, all := ms[IndexOf(h0, f)], FindAll(h.incomplete + [f], f);
            && (!f.IsFragmented() ==> FromFragment(f, g) == Some(m) && Done(arr + [f], m))
            && (f.IsFragmented() && IsComplete(all) == Some(true) ==>
                  Reassemble(all, g).Some? && FromFragment(Reassemble(all, g).value, g) == Some(m)
                    && Done(arr + [f], m))
            && (f.IsFragmented() && IsComplete(all) != Some(true) && Done(arr + [f], m) ==> Done(arr, m))
            && (Done(arr, m) <==> f.seqNum in h.complete)
  {
    hide Due, Pieces, Done, FromFragment, IsComplete, Reassemble, FilesDone;
    PieceAt(h0, ms, arr, f);
    var at := IndexOf(h0, f);
    var m, all := ms[at], FindAll(h.incomplete + [f], f);
    DueMessage(h0, ms, at, g);
    FiledIffDone(h0, h, ms, arr, at);
    assert (arr + [f])[|arr|] == f;
    if !f.IsFragmented() {
      WholeIsMessage(f, m);
      WholeIsDone(arr + [f], m);
    } else {
      QueuedPieces(h0, h, ms, arr, f);
      if IsComplete(all) == Some(true) {
        assert all[0] in all;
        ReassembleIsCorrect(all, Body(m), g);
      }
    }
  }

  lemma FiledIffDone(h0: Handler, h: Handler, ms: seq<Handshake>, arr: seq<Fragment>, at: nat)
    requires Due(h0, ms) && Holds(h0, h, ms, arr) && at < |ms|
    ensures Done(arr, ms[at]) <==> ms[at].seqNum in h.complete
  {
    hide Done, Canonical, QueuesRest;
  }

  /** The queued pieces of a message with one more: all are slices of the message, and unless it
      was finished before they are judged complete exactly if it is finished now. */
  lemma QueuedPieces(h0: Handler, h: Handler, ms: seq<Handshake>, arr: seq<Fragment>, f: Fragment)
    requires Due(h0, ms) && Holds(h0, h, ms, arr) && Pieces(h0, ms, arr + [f]) && !Old(h0, f) && f.IsFragmented()
    requires 0 <= IndexOf(h0, f) < |ms| && PieceOf(f, ms[IndexOf(h0, f)])
    ensures var m, all := ms[IndexOf(h0, f)], FindAll(h.incomplete + [f], f);
            && all != [] && AllPieces(all, m) && (forall x :: x in all ==> SliceOf(x, Body(m)))
            && all[0].total == |Body(m)| && all[0].msgType == m.msgType && all[0].seqNum == m.seqNum
            && (IsComplete(all) == Some(true) ==> Done(arr + [f], m))
            && (!Done(arr, m) ==> (IsComplete(all) == Some(true) <==> Done(arr + [f], m)))
  {
    hide Due, Pieces, Done, FilesDone, IsComplete;
    var at := IndexOf(h0, f);
    var m, ref := ms[at], ToFragment(ms[at]);
    var all := FindAll(h.incomplete + [f], f);
    PiecesPrefix(h0, ms, arr, f);
    ArrivedArePieces(h0, ms, arr, at);
    FindAllByMessage(h.incomplete + [f], f, ref);
    FindAllAppend(h.incomplete, f, ref);
    FindAllAppend(arr, f, ref);
    assert QueueOf(h.incomplete, m, arr);
    assert f in all;
    assert all[0] in all;
    if Done(arr, m) {
      DoneStays(arr, f, m);
    } else {
      assert all == Arrived(arr + [f], m);
      CompleteIffDone(h0, ms, arr + [f], at);
    }
  }

  // ---- when the flight is ready ----

  lemma {:induction false} KeysBelowSorted(m: map<nat, Handshake>, n: nat)
    ensures forall k: nat :: k in KeysBelow(m, n) <==> k in m && k < n
    ensures forall i, j :: 0 <= i < j < |KeysBelow(m, n)| ==> KeysBelow(m, n)[i] < KeysBelow(m, n)[j]
  {
    if n > 0 {
      KeysBelowSorted(m, n - 1);
      KeysBelowAreKeys(m, n - 1);
    }
  }

  /** Ascending numbers from an interval are as many as the interval only if they are all of it. */
  lemma {:induction false} RunsThrough(keys: seq<nat>, start: int, n: nat)
    requires forall i, j :: 0 <= i < j < |keys| ==> keys[i] < keys[j]
    requires forall k: int :: start <= k < start + n ==> k >= 0 && k in keys
    requires forall i :: 0 <= i < |keys| ==> start <= keys[i] < start + n
    ensures |keys| == n && forall i :: 0 <= i < |keys| ==> keys[i] == start + i
    decreases n
  {
    if keys == [] {
      assert n > 0 ==> start in keys;
    } else {
      assert start <= keys[0] < start + n;
      assert start in keys;
      var at :| 0 <= at < |keys| && keys[at] == start;
      assert start <= keys[0];
      assert at == 0;
      forall k: int | start + 1 <= k < start + n
        ensures k in keys[1..]
      {
        assert k in keys;
        var j :| 0 <= j < |keys| && keys[j] == k;
        assert keys[1..][j - 1] == k;
      }
      RunsThrough(keys[1..], start + 1, n - 1);
      forall i | 0 <= i < |keys|
        ensures keys[i] == start + i
      {
        if i > 0 {
          assert keys[1..][i - 1] == keys[i];
        }
      }
    }
  }

  /** An old message is stored again. */
  ghost predicate Blocked(h: Handler) {
    exists k: nat :: k in h.complete && k <= h.lastProcessed && k < SEQ_NUMS
  }

  lemma StoredInFlight(h0: Handler, h: Handler, ms: seq<Handshake>, arr: seq<Fragment>, k: nat)
    requires Holds(h0, h, ms, arr) && !Blocked(h) && k in h.complete && k < SEQ_NUMS
    ensures h0.lastProcessed < k <= h0.lastProcessed + |ms| && h.complete[k] == ms[k - h0.lastProcessed - 1]
  {
    hide Done, QueuesRest, QueueGrew;
    assert k <= h.lastProcessed ==> Blocked(h);
  }

  lemma StoredIffDone(h0: Handler, h: Handler, ms: seq<Handshake>, arr: seq<Fragment>, i: nat)
    requires Due(h0, ms) && Holds(h0, h, ms, arr) && i < |ms|
    ensures h0.lastProcessed >= -1 && (h0.lastProcessed + 1 + i in Keys(h) <==> Done(arr, ms[i]))
  {
    hide Canonical, Done, QueuesRest, QueueGrew, KeysBelow;
    KeysBelowSorted(h.complete, SEQ_NUMS);
  }

  /** The stored keys are an ascending selection from the numbers of the flight. */
  lemma KeysOfHolds(h0: Handler, h: Handler, ms: seq<Handshake>, arr: seq<Fragment>)
    requires Due(h0, ms) && Holds(h0, h, ms, arr) && !Blocked(h)
    ensures var keys, start := Keys(h), h0.lastProcessed + 1;
            && |Stored(h)| == |keys|
            && (forall i, j :: 0 <= i < j < |keys| ==> keys[i] < keys[j])
            && (forall i :: 0 <= i < |keys| ==> start <= keys[i] < start + |ms| && Stored(h)[i] == ms[keys[i] - start])
            && (forall i {:trigger Done(arr, ms[i])} :: 0 <= i < |ms| ==> (start + i in keys <==> Done(arr, ms[i])))
  {
    hide Due, Holds, Done, Blocked, KeysBelow;
    KeysBelowSorted(h.complete, SEQ_NUMS);
    KeysBelowAreKeys(h.complete, SEQ_NUMS);
    var keys, start := Keys(h), h0.lastProcessed + 1;
    forall i | 0 <= i < |keys|
      ensures start <= keys[i] < start + |ms| && Stored(h)[i] == ms[keys[i] - start]
    {
      StoredInFlight(h0, h, ms, arr, keys[i]);
    }
    forall i | 0 <= i < |ms|
      ensures start + i in keys <==> Done(arr, ms[i])
    {
      StoredIffDone(h0, h, ms, arr, i);
    }
  }

  lemma KeyIsPresent(h0: Handler, h: Handler, ms: seq<Handshake>, arr: seq<Fragment>, k: int)
    requires Due(h0, ms) && Holds(h0, h, ms, arr) && AllDone(arr, ms) && !Blocked(h)
    requires h0.lastProcessed + 1 <= k < h0.lastProcessed + 1 + |ms|
    ensures k >= 0 && k in Keys(h)
  {
    hide Canonical, Done, KeysBelow, Holds, Stored, Blocked;
    KeysOfHolds(h0, h, ms, arr);
    assert Done(arr, ms[k - h0.lastProcessed - 1]);
  }

  lemma AllKeysPresent(h0: Handler, h: Handler, ms: seq<Handshake>, arr: seq<Fragment>)
    requires Due(h0, ms) && Holds(h0, h, ms, arr) && AllDone(arr, ms) && !Blocked(h)
    ensures |Keys(h)| == |ms| && forall i :: 0 <= i < |ms| ==> Keys(h)[i] == h0.lastProcessed + 1 + i
    ensures Stored(h) == ms
  {
    hide Due, AllDone, Done, Keys, Holds, Stored, Blocked;
    KeysOfHolds(h0, h, ms, arr);
    var keys, start := Keys(h), h0.lastProcessed + 1;
    assert start >= 0 by {
      DueIsNotEmpty(h0, ms);
    }
    forall k: int | start <= k < start + |ms|
      ensures k >= 0 && k in keys
    {
      KeyIsPresent(h0, h, ms, arr, k);
    }
    RunsThrough(keys, start, |ms|);
    forall i | 0 <= i < |ms|
      ensures Stored(h)[i] == ms[i]
    {
      assert keys[i] == start + i;
    }
  }

  lemma AllDoneIsReady(h0: Handler, h: Handler, ms: seq<Handshake>, arr: seq<Fragment>)
    requires Due(h0, ms) && Holds(h0, h, ms, arr) && AllDone(arr, ms) && !Blocked(h)
    ensures FlightReady(h) && Stored(h) == ms
  {
    hide AllDone, Keys, Stored, Blocked, QueuesRest;
    AllKeysPresent(h0, h, ms, arr);
  }

  lemma ReadyIsAllDone(h0: Handler, h: Handler, ms: seq<Handshake>, arr: seq<Fragment>)
    requires Due(h0, ms) && Holds(h0, h, ms, arr) && FlightReady(h) && !Blocked(h)
    ensures AllDone(arr, ms)
  {
    hide Canonical, Done, QueuesRest, KeysBelow, Blocked;
    KeysOfHolds(h0, h, ms, arr);
    var keys, start := Keys(h), h0.lastProcessed + 1;
    var t := |keys|;
    assert keys[t - 1] == start + t - 1;
    assert Stored(h)[t - 1] == ms[t - 1];
    assert t == |ms|;
    forall i | 0 <= i < |ms|
      ensures Done(arr, ms[i])
    {
      assert keys[i] == start + i;
    }
  }

  /** With an old message stored no flight is ever ready. */
  lemma BlockedIsNotReady(h: Handler)
    requires Blocked(h)
    ensures !FlightReady(h)
  {
    var k: nat :| k in h.complete && k <= h.lastProcessed && k < SEQ_NUMS;
    KeysBelowSorted(h.complete, SEQ_NUMS);
    var j :| 0 <= j < |Keys(h)| && Keys(h)[j] == k;
    assert Keys(h)[0] <= Keys(h)[j];
  }

  /** The flight is judged complete and expected exactly when all of it has arrived and no old
      message is stored; then the stored messages are the flight, in sequence order. */
  lemma ReadyIffAllDone(h0: Handler, h: Handler, ms: seq<Handshake>, arr: seq<Fragment>)
    requires Due(h0, ms) && Holds(h0, h, ms, arr)
    ensures FlightReady(h) <==> AllDone(arr, ms) && !Blocked(h)
    ensures AllDone(arr, ms) && !Blocked(h) ==> Stored(h) == ms
  {
    hide Due, Holds, FlightReady, AllDone, Blocked, Stored;
    if Blocked(h) {
      BlockedIsNotReady(h);
    } else {
      if AllDone(arr, ms) {
        AllDoneIsReady(h0, h, ms, arr);
      }
      if FlightReady(h) {
        ReadyIsAllDone(h0, h, ms, arr);
      }
    }
  }

  // ---- whole arrivals ----

  /** The fragments among some events, in order. */
  function Incomings(evs: seq<Event>): seq<Fragment> {
    if evs == [] then []
    else Incomings(evs[..|evs| - 1]) + if evs[|evs| - 1].Incoming? then [evs[|evs| - 1].f] else []
  }

  /** The record layer after the layer operations among some events. */
  ghost function LayerRun(c: Library, l: Layer, evs: seq<Event>): (r: Layer)
    requires Table(l)
    ensures Table(r)
  {
    if evs == [] then l
    else
      var before, ev := LayerRun(c, l, evs[..|evs| - 1]), evs[|evs| - 1];
      if ev.OnLayer? then R.StepKeepsTable(c, before, ev.op); R.Step(c, before, ev.op) else before
  }

  lemma StoreStep(h0: Handler, h: Handler, ms: seq<Handshake>, arr: seq<Fragment>, f: Fragment, g: Garbage)
    requires Due(h0, ms) && Holds(h0, h, ms, arr) && Pieces(h0, ms, arr + [f])
    ensures var (next, status) := Store(h, f, g);
            && Holds(h0, next, ms, arr + [f])
            && (AllDone(arr + [f], ms) && !AllDone(arr, ms) ==> !Old(h0, f) && status.Continues?)
  {
    hide Due, Pieces, Holds, Store, Done;
    if Old(h0, f) {
      StoreOld(h0, h, ms, arr, f, g);
      forall i | 0 <= i < |ms|
        ensures Done(arr + [f], ms[i]) <==> Done(arr, ms[i])
      {
        OthersStay(h0, ms, arr, f, i);
      }
    } else {
      StoreDue(h0, h, ms, arr, f, g);
      forall i | 0 <= i < |ms| && i != IndexOf(h0, f)
        ensures Done(arr + [f], ms[i]) <==> Done(arr, ms[i])
      {
        OthersStay(h0, ms, arr, f, i);
      }
    }
  }

  lemma StillMissing(h: Handler, ms: seq<Handshake>, arr: seq<Fragment>, f: Fragment)
    requires !AllDone(arr + [f], ms)
    ensures !AllDone(arr, ms)
  {
    hide Done;
    var i :| 0 <= i < |ms| && !Done(arr + [f], ms[i]);
    if Done(arr, ms[i]) {
      DoneStays(arr, f, ms[i]);
    }
  }

  /** While pieces of the flight are missing, nothing is dispatched. */
  lemma {:induction false} WaitsForAll(cfg: Config, cl: Endpoint, ms: seq<Handshake>, evs: seq<Event>)
    requires Live(cl) && cfg.library.HmacLaw() && Due(cl.h, ms)
    requires Pieces(cl.h, ms, Incomings(evs)) && !AllDone(Incomings(evs), ms)
    ensures var r := Run(cfg, cl, evs);
            && Holds(cl.h, r.h, ms, Incomings(evs)) && r.l == LayerRun(cfg.library, cl.l, evs)
            && Flights(cfg, cl, evs) == []
  {
    hide Due, Pieces, AllDone, Holds, Store, FlightReady, Dispatch, Live, R.Step;
    if evs == [] {
      HoldsAtStart(cl.h, ms);
    } else {
      var before, ev := evs[..|evs| - 1], evs[|evs| - 1];
      var arr := Incomings(before);
      if ev.Incoming? {
        PiecesPrefix(cl.h, ms, arr, ev.f);
        StillMissing(cl.h, ms, arr, ev.f);
        WaitsForAll(cfg, cl, ms, before);
        var mid := Run(cfg, cl, before);
        StoreStep(cl.h, mid.h, ms, arr, ev.f, ev.g);
        ReadyIffAllDone(cl.h, Store(mid.h, ev.f, ev.g).0, ms, arr + [ev.f]);
      } else {
        assert Incomings(evs) == arr;
        WaitsForAll(cfg, cl, ms, before);
      }
    }
  }

  /** The last event brings the last missing piece of the flight. */
  ghost predicate Completes(h: Handler, ms: seq<Handshake>, evs: seq<Event>) {
    && Pieces(h, ms, Incomings(evs))
    && evs != [] && evs[|evs| - 1].Incoming?
    && AllDone(Incomings(evs), ms) && !AllDone(Incomings(evs[..|evs| - 1]), ms)
  }

  /** The endpoint at the moment the flight is handed over. */
  ghost function AtHandover(cfg: Config, cl: Endpoint, evs: seq<Event>): (r: Endpoint)
    requires Live(cl) && cfg.library.HmacLaw()
    ensures Live(r)
  {
    Endpoint(cl.h.(incomplete := Run(cfg, cl, evs).h.incomplete), LayerRun(cfg.library, cl.l, evs))
  }

  lemma HandoverOf(cfg: Config, cl: Endpoint, evs: seq<Event>)
    requires Live(cl) && cfg.library.HmacLaw()
    ensures var at := AtHandover(cfg, cl, evs);
            at.l == LayerRun(cfg.library, cl.l, evs) && at.h == cl.h.(incomplete := at.h.incomplete)
  {
    hide Run, LayerRun;
  }

  /** A due flight that has arrived in full, in whatever pieces and order, with repetitions and
      with fragments of old messages in between, is dispatched if and only if no old message was
      stored again. */
  lemma DispatchedIffNotBlocked(cfg: Config, cl: Endpoint, ms: seq<Handshake>, evs: seq<Event>)
    requires Live(cl) && cfg.library.HmacLaw() && Due(cl.h, ms) && Completes(cl.h, ms, evs)
    ensures Flights(cfg, cl, evs[..|evs| - 1]) == []
    ensures Flights(cfg, cl, evs) == if Blocked(Run(cfg, cl, evs[..|evs| - 1]).h) then [] else [ms]
  {
    hide Due, Pieces, AllDone, Holds, Store, FlightReady, Live, Blocked, Dispatch;
    LastPiece(cfg, cl, ms, evs);
  }

  lemma LastPiece(cfg: Config, cl: Endpoint, ms: seq<Handshake>, evs: seq<Event>)
    requires Live(cl) && cfg.library.HmacLaw() && Due(cl.h, ms) && Completes(cl.h, ms, evs)
    ensures var before, ev := evs[..|evs| - 1], evs[|evs| - 1];
            var mid := Run(cfg, cl, before);
            var (next, status) := Store(mid.h, ev.f, ev.g);
            && Flights(cfg, cl, before) == [] && mid.l == LayerRun(cfg.library, cl.l, evs)
            && Holds(cl.h, next, ms, Incomings(evs)) && status.Continues?
            && (FlightReady(next) <==> !Blocked(mid.h)) && (FlightReady(next) ==> Stored(next) == ms)
  {
    hide Due, Pieces, AllDone, Holds, Store, FlightReady, Live, Blocked, Dispatch, R.Step, Stored;
    var before, ev := evs[..|evs| - 1], evs[|evs| - 1];
    var arr := Incomings(before);
    PiecesPrefix(cl.h, ms, arr, ev.f);
    WaitsForAll(cfg, cl, ms, before);
    var mid := Run(cfg, cl, before);
    StoreStep(cl.h, mid.h, ms, arr, ev.f, ev.g);
    var next := Store(mid.h, ev.f, ev.g).0;
    ReadyIffAllDone(cl.h, next, ms, arr + [ev.f]);
    SameBlocks(cl.h, mid.h, next, ms, arr, ev.f, ev.g);
  }

  /** A piece of the flight does not change whether an old message is stored. */
  lemma SameBlocks(h0: Handler, h: Handler, next: Handler, ms: seq<Handshake>, arr: seq<Fragment>, f: Fragment,
                   g: Garbage)
    requires Holds(h0, h, ms, arr) && next == Store(h, f, g).0 && !Old(h0, f)
    ensures Blocked(next) <==> Blocked(h)
  {
    hide FilesDone, QueuesRest, QueueGrew, Store;
    var filed := StoreShape(h, f, g);
    assert forall k: nat :: k != f.seqNum ==> (k in next.complete <==> k in h.complete);
    if Blocked(next) {
      var k: nat :| k in next.complete && k <= next.lastProcessed && k < SEQ_NUMS;
      assert k in h.complete;
    }
    if Blocked(h) {
      var k: nat :| k in h.complete && k <= h.lastProcessed && k < SEQ_NUMS;
      assert k in next.complete;
    }
  }

  /** Flight assembly. However the messages of a due flight are cut into pieces, in whatever
      order and how often the pieces arrive, interleaved with any work of the record layer and,
      unless one of them is stored, fragments of old messages: the flight is dispatched once, on
      its last missing piece, with the same messages in sequence order. */
  lemma FlightIsAssembled(cfg: Config, cl: Endpoint, ms: seq<Handshake>, evs: seq<Event>)
    requires Live(cl) && cfg.library.HmacLaw() && Due(cl.h, ms) && Completes(cl.h, ms, evs)
    requires !Blocked(Run(cfg, cl, evs[..|evs| - 1]).h)
    ensures Flights(cfg, cl, evs) == [ms] && Flights(cfg, cl, evs[..|evs| - 1]) == []
    ensures Run(cfg, cl, evs) == Dispatch(cfg, AtHandover(cfg, cl, evs), ms)
    ensures QueueGrew(cl.h, Run(cfg, cl, evs).h.incomplete, |ms|)
  {
    hide Due, Pieces, AllDone, Store, FlightReady, Live, Blocked, Dispatch, Completes, FilesDone, QueuesRest, QueueGrew,
         Run;
    DispatchedIffNotBlocked(cfg, cl, ms, evs);
    var next := HandedOver(cfg, cl, ms, evs);
    DispatchKeepsQueue(cfg, next, ms);
    SameDispatch(cfg, AtHandover(cfg, cl, evs), next, ms);
  }

  lemma HandedOver(cfg: Config, cl: Endpoint, ms: seq<Handshake>, evs: seq<Event>) returns (next: Endpoint)
    requires Live(cl) && cfg.library.HmacLaw() && Due(cl.h, ms) && Completes(cl.h, ms, evs)
    requires !Blocked(Run(cfg, cl, evs[..|evs| - 1]).h)
    ensures Live(next) && ms != [] && Run(cfg, cl, evs) == Dispatch(cfg, next, ms)
    ensures next.l == LayerRun(cfg.library, cl.l, evs)
    ensures next.h == cl.h.(complete := next.h.complete, incomplete := next.h.incomplete)
    ensures QueueGrew(cl.h, next.h.incomplete, |ms|)
  {
    hide Due, Pieces, AllDone, Store, FlightReady, Blocked, Dispatch, FilesDone, QueuesRest, QueueGrew, Table;
    LastPiece(cfg, cl, ms, evs);
    var mid, ev := Run(cfg, cl, evs[..|evs| - 1]), evs[|evs| - 1];
    next := Endpoint(Store(mid.h, ev.f, ev.g).0, mid.l);
    DueIsNotEmpty(cl.h, ms);
  }

  lemma DueIsNotEmpty(h: Handler, ms: seq<Handshake>)
    requires Due(h, ms)
    ensures ms != [] && h.lastProcessed >= -1
  {
  }

  lemma DispatchKeepsQueue(cfg: Config, cl: Endpoint, ms: seq<Handshake>)
    requires Live(cl) && cfg.library.HmacLaw() && ms != []
    ensures Dispatch(cfg, cl, ms).h.incomplete == cl.h.incomplete
  {
    hide Dispatch, VerifyData, Table;
    DispatchEffect(cfg, cl, ms);
  }

  /** Dispatching does not look at the stored messages beyond the flight itself. */
  lemma SameDispatch(cfg: Config, a: Endpoint, b: Endpoint, ms: seq<Handshake>)
    requires Live(a) && Live(b) && cfg.library.HmacLaw() && ms != []
    requires a.l == b.l && b.h == a.h.(complete := b.h.complete)
    ensures Dispatch(cfg, a, ms) == Dispatch(cfg, b, ms)
  {
    hide Handle;
    assert Taken(a.h, ms) == Taken(b.h, ms);
  }

  // ---- repeated messages ----

  /** A message that was processed before and is stored again blocks the handshake for good:
      over every run no flight is dispatched any more, nothing is decided, and it stays stored. */
  lemma {:induction false} BlockedForGood(cfg: Config, cl: Endpoint, evs: seq<Event>, k: nat)
    requires Live(cl) && cfg.library.HmacLaw() && k in cl.h.complete && k <= cl.h.lastProcessed && k < SEQ_NUMS
    ensures Flights(cfg, cl, evs) == []
    ensures var r := Run(cfg, cl, evs).h;
            && r == cl.h.(complete := r.complete, incomplete := r.incomplete)
            && k in r.complete && Blocked(r)
  {
    hide Store, FlightReady, Dispatch, Live, R.Step;
    if evs != [] {
      var before, ev := evs[..|evs| - 1], evs[|evs| - 1];
      BlockedForGood(cfg, cl, before, k);
      if ev.Incoming? {
        var mid := Run(cfg, cl, before);
        var filed := StoreShape(mid.h, ev.f, ev.g);
        var next := Store(mid.h, ev.f, ev.g).0;
        assert k in next.complete;
        BlockedIsNotReady(next);
      }
    }
  }
}
