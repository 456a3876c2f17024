/** Completeness and reassembly of handshake messages (section 4.2.3 of RFC 6347). */
module FragmentProofs {
  import opened Bytes
  import opened Fragments

  predicate Ordered(rs: seq<Fragment>) {
    forall i, j :: 0 <= i < j < |rs| ==> rs[i].offset <= rs[j].offset
  }

  lemma {:induction false} InsertOrdered(f: Fragment, s: seq<Fragment>)
    requires Ordered(s)
    ensures Ordered(Insert(f, s))
  {
    if s != [] && f.offset > s[0].offset {
      InsertOrdered(f, s[1..]);
      InsertKeepsAll(f, s[1..]);
      var rest := Insert(f, s[1..]);
      forall j | 0 <= j < |rest|
        ensures s[0].offset <= rest[j].offset
      {
        assert rest[j] in multiset(rest);
        assert rest[j] == f || rest[j] in multiset(s[1..]);
      }
    }
  }

  lemma {:induction false} SortOrdered(fs: seq<Fragment>)
    ensures Ordered(Sort(fs))
  {
    if fs != [] {
      SortOrdered(fs[1..]);
      InsertOrdered(fs[0], Sort(fs[1..]));
    }
  }

  lemma SortHasSame(fs: seq<Fragment>, f: Fragment)
    ensures f in Sort(fs) <==> f in fs
  {
    SortKeepsLength(fs);
    assert f in Sort(fs) <==> f in multiset(Sort(fs));
    assert f in fs <==> f in multiset(fs);
  }

  predicate Covered(fs: seq<Fragment>, k: int) {
    exists i :: 0 <= i < |fs| && fs[i].Covers(k)
  }

  /** Without holes, the first i ranges cover everything up to the end of range i - 1. */
  lemma {:induction false} PrefixCovers(rs: seq<Fragment>, total: nat, i: nat, k: int)
    requires NoHoles(rs, total) && i < |rs| && 0 <= k <= rs[i].End()
    ensures exists j :: 0 <= j <= i && rs[j].Covers(k)
    decreases i
  {
    assert Continues(rs, i, total);
    if rs[i].offset <= k {
      assert rs[i].Covers(k);
    } else {
      PrefixCovers(rs, total, i - 1, k);
    }
  }

  /** A message judged complete has no byte missing, whatever the fragments are. */
  lemma CompleteCovers(fs: seq<Fragment>, k: int)
    requires IsComplete(fs) == Some(true) && 0 <= k < fs[0].total
    ensures Covered(fs, k) && Covered(Sort(fs), k)
  {
    assert fs != [] && NoHoles(Sort(fs), fs[0].total);
    hide Sort, IsComplete, Fragment.Covers;
    SortKeepsLength(fs);
    var rs := Sort(fs);
    assert Continues(rs, |rs| - 1, fs[0].total);
    PrefixCovers(rs, fs[0].total, |rs| - 1, k);
    var j :| 0 <= j < |rs| && rs[j].Covers(k);
    SortHasSame(fs, rs[j]);
    var i :| 0 <= i < |fs| && fs[i] == rs[j];
  }

  /** The fragment is a slice of `body`. */
  predicate SliceOf(f: Fragment, body: bytes) {
    f.offset + |f.data| <= |body| && f.data == body[f.offset..f.offset + |f.data|]
  }

  lemma {:induction false} OverlayLength(b: bytes, fs: seq<Fragment>)
    ensures |OverlayAll(b, fs)| == |b|
  {
    if fs != [] {
      OverlayLength(b, fs[..|fs| - 1]);
    }
  }

  /** A covered byte comes from the last fragment that covers it, not from the old contents. */
  lemma {:induction false} OverlayAt(b: bytes, b': bytes, fs: seq<Fragment>, k: nat)
    requires |b| == |b'| && k < |b| && Covered(fs, k)
    ensures |OverlayAll(b, fs)| == |OverlayAll(b', fs)| == |b|
    ensures OverlayAll(b, fs)[k] == OverlayAll(b', fs)[k]
    ensures exists f :: f in fs && f.Covers(k) && OverlayAll(b, fs)[k] == f.data[k - f.offset]
  {
    OverlayLength(b, fs);
    OverlayLength(b', fs);
    var last := |fs| - 1;
    OverlayLength(b, fs[..last]);
    OverlayLength(b', fs[..last]);
    if fs[last].Covers(k) {
      assert fs[last] in fs;
    } else {
      var i :| 0 <= i < |fs| && fs[i].Covers(k);
      assert fs[..last][i].Covers(k);
      OverlayAt(b, b', fs[..last], k);
    }
  }

  /** No uninitialised memory reaches a message that was judged complete. */
  lemma ReassembleIgnoresGarbage(fs: seq<Fragment>, g: Garbage, g': Garbage)
    requires IsComplete(fs) == Some(true)
    ensures Reassemble(fs, g) == Reassemble(fs, g')
  {
    SortKeepsLength(fs);
    var rs := Sort(fs);
    SortHasSame(fs, rs[0]);
    var n := rs[0].total;
    assert n == fs[0].total;
    var a, b := OverlayAll(Uninitialised(n, g), rs), OverlayAll(Uninitialised(n, g'), rs);
    OverlayLength(Uninitialised(n, g), rs);
    OverlayLength(Uninitialised(n, g'), rs);
    forall k | 0 <= k < n
      ensures a[k] == b[k]
    {
      CompleteCovers(fs, k);
      OverlayAt(Uninitialised(n, g), Uninitialised(n, g'), rs, k);
    }
    assert a == b;
  }

  lemma ByteIsRestored(fs: seq<Fragment>, body: bytes, start: bytes, k: nat)
    requires IsComplete(fs) == Some(true) && fs[0].total == |body| == |start| && k < |body|
    requires forall f :: f in fs ==> SliceOf(f, body)
    ensures |OverlayAll(start, Sort(fs))| == |body| && OverlayAll(start, Sort(fs))[k] == body[k]
  {
    hide Sort, OverlayAll;
    var rs := Sort(fs);
    OverlayLength(start, rs);
    CompleteCovers(fs, k);
    OverlayAt(start, start, rs, k);
    var f :| f in rs && f.Covers(k) && OverlayAll(start, rs)[k] == f.data[k - f.offset];
    SortHasSame(fs, f);
  }

  /** If fragments of one body are judged complete, in any order, with overlaps and
      duplicates, reassembly returns that body. */
  lemma ReassembleIsCorrect(fs: seq<Fragment>, body: bytes, g: Garbage)
    requires IsComplete(fs) == Some(true) && fs[0].total == |body|
    requires forall f :: f in fs ==> SliceOf(f, body)
    ensures Reassemble(fs, g) == Some(Fragment(fs[0].msgType, |body|, fs[0].seqNum, 0, body))
  {
    assert fs != [];
    hide Sort, OverlayAll, IsComplete;
    SortKeepsLength(fs);
    var rs := Sort(fs);
    SortHasSame(fs, rs[0]);
    SameFirst(fs, rs[0]);
    var start := Uninitialised(|body|, g);
    OverlayLength(start, rs);
    forall k | 0 <= k < |body|
      ensures OverlayAll(start, rs)[k] == body[k]
    {
      ByteIsRestored(fs, body, start, k);
    }
    assert OverlayAll(start, rs) == body;
  }

  lemma SameFirst(fs: seq<Fragment>, f: Fragment)
    requires IsComplete(fs) == Some(true) && f in fs
    ensures f.SameMessage(fs[0])
  {
  }

  // ---- which covers are recognised ----

  /** Fragment `i` comes before fragment `j` in offset order; of equal offsets the one that arrived
      first comes first. */
  predicate Precedes(fs: seq<Fragment>, i: nat, j: nat)
    requires i < |fs| && j < |fs|
  {
    fs[i].offset < fs[j].offset || (fs[i].offset == fs[j].offset && i < j)
  }

  /** No fragment lies between the two in that order. */
  ghost predicate DirectlyBefore(fs: seq<Fragment>, i: nat, j: nat) {
    && i < |fs| && j < |fs| && Precedes(fs, i, j)
    && forall m :: 0 <= m < |fs| ==> !(Precedes(fs, i, m) && Precedes(fs, m, j))
  }

  ghost predicate Final(fs: seq<Fragment>, i: nat) {
    i < |fs| && forall m :: 0 <= m < |fs| && m != i ==> Precedes(fs, m, i)
  }

  lemma {:induction false} InsertedAt(f: Fragment, s: seq<Fragment>) returns (at: nat)
    ensures at <= |s| && Insert(f, s) == s[..at] + [f] + s[at..]
    ensures (forall i :: 0 <= i < at ==> s[i].offset < f.offset) && (at < |s| ==> f.offset <= s[at].offset)
  {
    at := 0;
    if s != [] && f.offset > s[0].offset {
      at := InsertedAt(f, s[1..]);
      at := at + 1;
      assert s[..at] == [s[0]] + s[1..][..at - 1] && s[at..] == s[1..][at - 1..];
    }
  }

  /** Sorting lists the fragments in that order: place `p` holds fragment `order[p]`. */
  ghost predicate Lists(fs: seq<Fragment>, rs: seq<Fragment>, order: seq<nat>) {
    && |order| == |fs| == |rs|
    && (forall p :: 0 <= p < |fs| ==> order[p] < |fs| && rs[p] == fs[order[p]])
    && (forall p, q :: 0 <= p < q < |fs| ==> Precedes(fs, order[p], order[q]))
    && (forall i: nat :: i < |fs| ==> i in order)
  }

  lemma {:induction false} SortLists(fs: seq<Fragment>) returns (order: seq<nat>)
    ensures Lists(fs, Sort(fs), order)
  {
    if fs == [] {
      order := [];
    } else {
      var rest := SortLists(fs[1..]);
      var at := InsertedAt(fs[0], Sort(fs[1..]));
      SortOrdered(fs[1..]);
      order := OneMoreListed(fs, Sort(fs[1..]), rest, at);
    }
  }

  lemma OneMoreListed(fs: seq<Fragment>, rs: seq<Fragment>, rest: seq<nat>, at: nat) returns (order: seq<nat>)
    requires fs != [] && Lists(fs[1..], rs, rest) && Ordered(rs) && at <= |rs|
    requires (forall i :: 0 <= i < at ==> rs[i].offset < fs[0].offset) && (at < |rs| ==> fs[0].offset <= rs[at].offset)
    ensures Lists(fs, rs[..at] + [fs[0]] + rs[at..], order)
  {
    var later := Later(fs, rs, rest);
    order := later[..at] + [0] + later[at..];
    forall p | 0 <= p < |rest|
      ensures if p < at then Precedes(fs, later[p], 0) else Precedes(fs, 0, later[p])
    {
      assert p >= at ==> rs[at].offset <= rs[p].offset;
    }
    ListedWith(fs, rs, later, at, order);
  }

  /** The places of the other fragments, counted with the first. */
  lemma Later(fs: seq<Fragment>, rs: seq<Fragment>, rest: seq<nat>) returns (later: seq<nat>)
    requires fs != [] && Lists(fs[1..], rs, rest)
    ensures |later| == |rs| == |fs| - 1
    ensures forall p :: 0 <= p < |later| ==> 0 < later[p] < |fs| && rs[p] == fs[later[p]]
    ensures forall p, q :: 0 <= p < q < |later| ==> Precedes(fs, later[p], later[q])
    ensures forall i: nat :: 0 < i < |fs| ==> i in later
  {
    later := seq(|rest|, p requires 0 <= p < |rest| => rest[p] + 1);
    forall p, q | 0 <= p < q < |rest|
      ensures Precedes(fs, later[p], later[q])
    {
      assert Precedes(fs[1..], rest[p], rest[q]);
    }
    forall i: nat | 0 < i < |fs|
      ensures i in later
    {
      assert i - 1 in rest;
      var p :| 0 <= p < |rest| && rest[p] == i - 1;
      assert later[p] == i;
    }
  }

  lemma ListedWith(fs: seq<Fragment>, rs: seq<Fragment>, later: seq<nat>, at: nat, order: seq<nat>)
    requires fs != [] && |later| == |rs| == |fs| - 1 && at <= |rs| && order == later[..at] + [0] + later[at..]
    requires forall p :: 0 <= p < |later| ==> 0 < later[p] < |fs| && rs[p] == fs[later[p]]
    requires forall p, q :: 0 <= p < q < |later| ==> Precedes(fs, later[p], later[q])
    requires forall p :: 0 <= p < |later| ==> if p < at then Precedes(fs, later[p], 0) else Precedes(fs, 0, later[p])
    requires forall i: nat :: 0 < i < |fs| ==> i in later
    ensures Lists(fs, rs[..at] + [fs[0]] + rs[at..], order)
  {
    hide Precedes;
    assert forall p :: 0 <= p < |order| ==>
             order[p] == if p < at then later[p] else if p == at then 0 else later[p - 1];
    forall i: nat | i < |fs|
      ensures i in order
    {
      if i == 0 {
        assert order[at] == 0;
      } else {
        assert i in later;
        var p :| 0 <= p < |later| && later[p] == i;
        assert order[if p < at then p else p + 1] == i;
      }
    }
  }

  // ---- which fragments are taken, and which of their bytes ----

  /** Some places of a list, ascending. */
  predicate Ascending(at: seq<nat>, n: nat) {
    (forall i :: 0 <= i < |at| ==> at[i] < n) && forall i, j :: 0 <= i < j < |at| ==> at[i] < at[j]
  }

  /** The places among `n` more, with one in front. */
  lemma OneFurther(at: seq<nat>, n: nat) returns (later: seq<nat>)
    requires Ascending(at, n)
    ensures |later| == |at| && Ascending(later, n + 1)
    ensures forall i :: 0 <= i < |at| ==> later[i] == at[i] + 1
    ensures forall i: nat :: i in later <==> i > 0 && i - 1 in at
  {
    later := seq(|at|, i requires 0 <= i < |at| => at[i] + 1);
    forall i: nat | i > 0 && i - 1 in at
      ensures i in later
    {
      var k :| 0 <= k < |at| && at[k] == i - 1;
      assert later[k] == i;
    }
  }

  /** `findAllFragments` takes exactly the fragments of the same type, number and total length, in the
      order of the list. */
  lemma {:induction false} FoundExactly(fs: seq<Fragment>, ref: Fragment) returns (at: seq<nat>)
    ensures Ascending(at, |fs|) && |at| == |FindAll(fs, ref)|
    ensures forall i :: 0 <= i < |at| ==> FindAll(fs, ref)[i] == fs[at[i]]
    ensures forall i: nat :: i < |fs| ==>
              (i in at <==> fs[i].msgType == ref.msgType && fs[i].seqNum == ref.seqNum && fs[i].total == ref.total)
  {
    at := [];
    if fs != [] {
      var rest := FoundExactly(fs[1..], ref);
      at := OneFurther(rest, |fs| - 1);
      if fs[0].SameMessage(ref) {
        var later := at;
        at := [0] + later;
        assert forall i: nat :: i in at <==> i == 0 || i in later;
      }
    }
  }

  /** A byte that several fragments cover is taken from the last of them in that order; one that none
      covers keeps what was in the memory before. */
  lemma ReassembledByte(fs: seq<Fragment>, g: Garbage, k: nat)
    requires fs != [] && k < Reassemble(fs, g).value.total
    ensures |Reassemble(fs, g).value.data| == Reassemble(fs, g).value.total
    ensures !Covered(fs, k) ==> Reassemble(fs, g).value.data[k] == g(k)
    ensures forall i: nat :: i < |fs| && fs[i].Covers(k)
              && (forall m: nat :: m < |fs| && m != i && fs[m].Covers(k) ==> Precedes(fs, m, i))
              ==> Reassemble(fs, g).value.data[k] == fs[i].data[k - fs[i].offset]
  {
    hide Sort, OverlayAll;
    SortKeepsLength(fs);
    var order := SortLists(fs);
    var rs := Sort(fs);
    var start := Uninitialised(rs[0].total, g);
    OverlayLength(start, rs);
    if !Covered(fs, k) {
      forall p | 0 <= p < |rs|
        ensures !rs[p].Covers(k)
      {
        SortHasSame(fs, rs[p]);
      }
      UntouchedAt(start, rs, k);
    }
    forall i: nat | i < |fs| && fs[i].Covers(k)
                    && (forall m: nat :: m < |fs| && m != i && fs[m].Covers(k) ==> Precedes(fs, m, i))
      ensures Reassemble(fs, g).value.data[k] == fs[i].data[k - fs[i].offset]
    {
      assert i in order;
      var p: nat :| p < |order| && order[p] == i;
      forall q | p < q < |rs|
        ensures !rs[q].Covers(k)
      {
        assert Precedes(fs, order[p], order[q]);
      }
      LastCoverAt(start, rs, p, k);
    }
  }

  lemma {:induction false} UntouchedAt(b: bytes, fs: seq<Fragment>, k: nat)
    requires k < |b| && forall p :: 0 <= p < |fs| ==> !fs[p].Covers(k)
    ensures |OverlayAll(b, fs)| == |b| && OverlayAll(b, fs)[k] == b[k]
  {
    OverlayLength(b, fs);
    if fs != [] {
      UntouchedAt(b, fs[..|fs| - 1], k);
    }
  }

  lemma {:induction false} LastCoverAt(b: bytes, fs: seq<Fragment>, p: nat, k: nat)
    requires k < |b| && p < |fs| && fs[p].Covers(k) && forall q :: p < q < |fs| ==> !fs[q].Covers(k)
    ensures |OverlayAll(b, fs)| == |b| && OverlayAll(b, fs)[k] == fs[p].data[k - fs[p].offset]
    decreases |fs|
  {
    OverlayLength(b, fs);
    OverlayLength(b, fs[..|fs| - 1]);
    if p < |fs| - 1 {
      LastCoverAt(b, fs[..|fs| - 1], p, k);
    }
  }

  /** The message is covered. */
  ghost predicate Covers(fs: seq<Fragment>, total: nat) {
    && fs != [] && SingleMessage(fs) && fs[0].total == total > 0
    && forall k :: 0 <= k < total ==> Covered(fs, k)
  }

  /** What makes `isComplete` miss a cover: a fragment that starts more than one byte behind the end
      of the one directly before it, or a final one that does not end the message. */
  ghost predicate Missed(fs: seq<Fragment>, total: nat) {
    || (exists i: nat, j: nat :: DirectlyBefore(fs, i, j) && fs[j].offset > fs[i].End() + 1)
    || (exists i: nat :: Final(fs, i) && fs[i].End() != total - 1)
  }

  /** Neighbours in the list are neighbours in the order, and its last place is final. */
  lemma NeighboursAreDirect(fs: seq<Fragment>, rs: seq<Fragment>, order: seq<nat>, p: nat)
    requires Lists(fs, rs, order) && p < |rs|
    ensures |order| == |rs| && order[p] < |fs| && rs[p] == fs[order[p]]
    ensures p > 0 ==> DirectlyBefore(fs, order[p - 1], order[p]) && rs[p - 1] == fs[order[p - 1]]
    ensures p == |rs| - 1 ==> Final(fs, order[p])
  {
    forall m: nat | m < |fs|
      ensures exists q :: 0 <= q < |order| && order[q] == m && (q < p ==> Precedes(fs, m, order[p]))
                          && (p > 0 && q < p - 1 ==> Precedes(fs, m, order[p - 1]))
                          && (p > 0 && q > p ==> Precedes(fs, order[p], m))
    {
      assert m in order;
      var q :| 0 <= q < |order| && order[q] == m;
    }
  }

  lemma PlaceOf(fs: seq<Fragment>, rs: seq<Fragment>, order: seq<nat>, i: nat, j: nat) returns (p: nat)
    requires Lists(fs, rs, order) && DirectlyBefore(fs, i, j)
    ensures 0 < p < |rs| && rs[p] == fs[j] && rs[p - 1] == fs[i]
  {
    assert i in order && j in order;
    var q: nat :| q < |order| && order[q] == i;
    p :| 0 <= p < |order| && order[p] == j;
    assert q < p;
  }

  lemma FinalPlace(fs: seq<Fragment>, rs: seq<Fragment>, order: seq<nat>, i: nat)
    requires Lists(fs, rs, order) && Final(fs, i)
    ensures rs != [] && rs[|rs| - 1] == fs[i]
  {
    assert i in order;
    var q: nat :| q < |order| && order[q] == i;
    var last := order[|fs| - 1];
    assert last == i || Precedes(fs, last, i);
  }

  lemma MissedHasHole(fs: seq<Fragment>, rs: seq<Fragment>, order: seq<nat>, total: nat)
    requires Lists(fs, rs, order) && Missed(fs, total)
    ensures !NoHoles(rs, total)
  {
    hide Lists, Precedes;
    if i: nat, j: nat :| DirectlyBefore(fs, i, j) && fs[j].offset > fs[i].End() + 1 {
      var p := PlaceOf(fs, rs, order, i, j);
      assert !Continues(rs, p, total);
    } else {
      var i: nat :| Final(fs, i) && fs[i].End() != total - 1;
      FinalPlace(fs, rs, order, i);
      assert !Continues(rs, |rs| - 1, total);
    }
  }

  lemma HoleIsMissed(fs: seq<Fragment>, rs: seq<Fragment>, order: seq<nat>, total: nat)
    requires Lists(fs, rs, order) && Covers(fs, total) && !Missed(fs, total)
    ensures NoHoles(rs, total)
  {
    hide Lists, Precedes;
    forall p | 0 <= p < |rs|
      ensures Continues(rs, p, total)
    {
      NeighboursAreDirect(fs, rs, order, p);
      if p == 0 {
        FirstStartsAtZero(fs, rs, order, total);
      }
    }
  }

  /** Exactly which covers of a message `isComplete` does not recognise. */
  lemma CoverIsMissedIff(fs: seq<Fragment>, total: nat)
    requires Covers(fs, total)
    ensures IsComplete(fs) == Some(!Missed(fs, total))
  {
    hide Sort, Lists, NoHoles, Missed;
    var order := SortLists(fs);
    if Missed(fs, total) {
      MissedHasHole(fs, Sort(fs), order, total);
    } else {
      HoleIsMissed(fs, Sort(fs), order, total);
    }
  }

  lemma FirstStartsAtZero(fs: seq<Fragment>, rs: seq<Fragment>, order: seq<nat>, total: nat)
    requires Covers(fs, total) && Lists(fs, rs, order)
    ensures rs != [] && rs[0].offset == 0
  {
    assert Covered(fs, 0);
    var i: nat :| i < |fs| && fs[i].Covers(0);
    assert i in order;
    var q: nat :| q < |order| && order[q] == i;
    if q > 0 {
      assert Precedes(fs, order[0], order[q]);
    }
  }

  /** The range of `f` lies inside that of `h` without being the same. */
  predicate Nested(f: Fragment, h: Fragment) {
    h.offset <= f.offset && f.End() <= h.End() && (f.offset, f.End()) != (h.offset, h.End())
  }

  /** Non-empty fragments of one message, none strictly inside another. */
  ghost predicate Flat(fs: seq<Fragment>, total: nat) {
    && fs != [] && SingleMessage(fs) && fs[0].total == total
    && (forall f :: f in fs ==> f.data != [] && f.End() < total)
    && (forall f, h :: f in fs && h in fs ==> !Nested(f, h))
  }

  /** Among such fragments `isComplete` recognises exactly the covers of the message. */
  lemma FlatCompleteIffCovered(fs: seq<Fragment>, total: nat)
    requires Flat(fs, total)
    ensures IsComplete(fs) == Some(true) <==> forall k :: 0 <= k < total ==> Covered(fs, k)
  {
    if IsComplete(fs) == Some(true) {
      forall k | 0 <= k < total
        ensures Covered(fs, k)
      {
        CompleteCovers(fs, k);
      }
    }
    if forall k :: 0 <= k < total ==> Covered(fs, k) {
      assert fs[0] in fs;
      CoverIsMissedIff(fs, total);
      FlatIsNotMissed(fs, total);
    }
  }

  lemma FlatIsNotMissed(fs: seq<Fragment>, total: nat)
    requires Flat(fs, total) && Covers(fs, total)
    ensures !Missed(fs, total)
  {
    if i: nat, j: nat :| DirectlyBefore(fs, i, j) && fs[j].offset > fs[i].End() + 1 {
      assert fs[j] in fs;
      assert Covered(fs, fs[i].End() + 1);
      var m: nat :| m < |fs| && fs[m].Covers(fs[i].End() + 1);
      assert Precedes(fs, m, j);
      assert fs[i] in fs && fs[m] in fs && Nested(fs[i], fs[m]);
    }
    if i: nat :| Final(fs, i) && fs[i].End() != total - 1 {
      assert fs[i] in fs;
      assert Covered(fs, total - 1);
      var m: nat :| m < |fs| && fs[m].Covers(total - 1);
      assert Precedes(fs, m, i);
      assert fs[m] in fs && Nested(fs[i], fs[m]);
    }
  }

  /** A cover with a fragment nested in another can be missed: the whole message plus one
      inner byte is not recognised, because only the previous end is looked at. */
  lemma NestedCoverIsMissed(msgType: nat, seqNum: nat, a: byte, b: byte, d: byte)
    ensures var whole, inner := Fragment(msgType, 3, seqNum, 0, [a, b, d]), Fragment(msgType, 3, seqNum, 1, [b]);
            IsComplete([whole, inner]) == Some(false) && Covers([whole, inner], 3)
  {
    var fs := [Fragment(msgType, 3, seqNum, 0, [a, b, d]), Fragment(msgType, 3, seqNum, 1, [b])];
    forall k | 0 <= k < 3
      ensures Covered(fs, k)
    {
      assert fs[0].Covers(k);
    }
    assert Final(fs, 1);
    CoverIsMissedIff(fs, 3);
  }

  /** Splitting a message and reassembling the pieces restores it exactly when the message is
      not empty and fits into one fragment. */
  lemma SplitRoundTripIff(f: Fragment, max: nat, g: Garbage)
    requires !f.IsFragmented() && f.total == |f.data| && max > 0
    ensures (IsComplete(Split(f, max).value) == Some(true) && Reassemble(Split(f, max).value, g) == Some(f))
       <==> 0 < |f.data| <= max
  {
    if f.data != [] {
      var fs := Split(f, max).value;
      assert Sort(fs) == [fs[0]] by {
        assert fs[1..] == [];
      }
      assert IsComplete(fs) == Some(Continues(fs, 0, |f.data|));
      if |f.data| <= max {
        assert f.data[0..|f.data|] == f.data;
        assert forall h :: h in fs ==> h == fs[0];
        ReassembleIsCorrect(fs, f.data, g);
      }
    }
  }
}
