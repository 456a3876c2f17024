/** The fragments of src/DTLS/Handshake.ts: splitting, completeness and reassembly. */
module Fragments {
  import opened Bytes

  /** A FragmentedHandshake; a whole message has offset 0 and all its bytes. */
  datatype Fragment = Fragment(msgType: nat, total: nat, seqNum: nat, offset: nat, data: bytes)
  {
    predicate IsFragmented() {
      offset != 0 || total > |data|
    }

    predicate SameMessage(f: Fragment) {
      msgType == f.msgType && seqNum == f.seqNum && total == f.total
    }

    function End(): int {
      offset + |data| - 1
    }

    predicate Covers(k: int) {
      offset <= k <= End()
    }
  }

  /** `findAllFragments`. */
  function FindAll(fs: seq<Fragment>, ref: Fragment): seq<Fragment> {
    if fs == [] then []
    else (if fs[0].SameMessage(ref) then [fs[0]] else []) + FindAll(fs[1..], ref)
  }

  /** `enforceSingleMessage` throws unless this holds. */
  predicate SingleMessage(fs: seq<Fragment>) {
    forall i :: 0 < i < |fs| ==> fs[i].SameMessage(fs[0])
  }

  /** JavaScript's stable sort by fragment offset. */
  function Insert(f: Fragment, sorted: seq<Fragment>): seq<Fragment> {
    if sorted == [] then [f]
    else if f.offset <= sorted[0].offset then [f] + sorted
    else [sorted[0]] + Insert(f, sorted[1..])
  }

  function Sort(fs: seq<Fragment>): seq<Fragment> {
    if fs == [] then [] else Insert(fs[0], Sort(fs[1..]))
  }

  /** Range `i` starts at 0 or touches the one before it, and the last one ends the message. */
  predicate Continues(rs: seq<Fragment>, i: nat, total: nat)
    requires i < |rs|
  {
    && (if i == 0 then rs[i].offset == 0 else rs[i].offset - rs[i - 1].End() <= 1)
    && (i == |rs| - 1 ==> rs[i].End() == total - 1)
  }

  predicate NoHoles(rs: seq<Fragment>, total: nat) {
    forall i :: 0 <= i < |rs| ==> Continues(rs, i, total)
  }

  /** `isComplete`; `None` when the fragments belong to several messages. */
  function IsComplete(fs: seq<Fragment>): Option<bool> {
    if fs == [] then Some(false)
    else if !SingleMessage(fs) then None
    else Some(NoHoles(Sort(fs), fs[0].total))
  }

  method ComputeIsComplete(fs: seq<Fragment>) returns (r: Option<bool>)
    ensures r == IsComplete(fs)
  {
    if |fs| == 0 {
      return Some(false);
    }
    for i := 1 to |fs|
      invariant forall j :: 0 < j < i ==> fs[j].SameMessage(fs[0])
    {
      if !fs[i].SameMessage(fs[0]) {
        return None;
      }
    }
    var ranges := Sort(fs);
    SortKeepsLength(fs);
    for i := 0 to |ranges|
      invariant forall j :: 0 <= j < i ==> Continues(ranges, j, fs[0].total)
    {
      if i == 0 {
        if ranges[i].offset != 0 {
          assert !Continues(ranges, i, fs[0].total);
          return Some(false);
        }
      } else if ranges[i].offset - ranges[i - 1].End() > 1 {
        assert !Continues(ranges, i, fs[0].total);
        return Some(false);
      }
      if i == |ranges| - 1 && ranges[i].End() != fs[0].total - 1 {
        assert !Continues(ranges, i, fs[0].total);
        return Some(false);
      }
    }
    r := Some(true);
  }

  /** `fragment.copy(combined, offset)`, cut off at the end of the buffer. */
  function Overlay(b: bytes, f: Fragment): bytes {
    seq(|b|, k requires 0 <= k < |b| => if f.Covers(k) then f.data[k - f.offset] else b[k])
  }

  function OverlayAll(b: bytes, fs: seq<Fragment>): bytes {
    if fs == [] then b else Overlay(OverlayAll(b, fs[..|fs| - 1]), fs[|fs| - 1])
  }

  function Uninitialised(n: nat, g: Garbage): bytes {
    seq(n, k requires 0 <= k < n => g(k))
  }

  /** `reassemble`; `None` for an empty array, which throws. */
  function Reassemble(fs: seq<Fragment>, g: Garbage): Option<Fragment> {
    if fs == [] then None
    else
      var sorted := Sort(fs);
      SortKeepsLength(fs);
      var first := sorted[0];
      Some(Fragment(first.msgType, first.total, first.seqNum, 0, OverlayAll(Uninitialised(first.total, g), sorted)))
  }

  lemma {:induction false} InsertKeepsAll(f: Fragment, s: seq<Fragment>)
    ensures multiset(Insert(f, s)) == multiset(s) + multiset{f}
    ensures |Insert(f, s)| == |s| + 1
  {
    if s != [] && f.offset > s[0].offset {
      InsertKeepsAll(f, s[1..]);
      assert s == [s[0]] + s[1..];
    }
  }

  lemma {:induction false} SortKeepsLength(fs: seq<Fragment>)
    ensures |Sort(fs)| == |fs| && multiset(Sort(fs)) == multiset(fs)
  {
    if fs != [] {
      SortKeepsLength(fs[1..]);
      InsertKeepsAll(fs[0], Sort(fs[1..]));
      assert fs == [fs[0]] + fs[1..];
    }
  }

  method CopyInto(target: array<byte>, f: Fragment)
    modifies target
    ensures target[..] == Overlay(old(target[..]), f)
  {
    var n := if f.offset + |f.data| < target.Length then |f.data|
             else if f.offset < target.Length then target.Length - f.offset else 0;
    for i := 0 to n
      invariant forall k :: 0 <= k < target.Length ==>
                  target[k] == if f.offset <= k < f.offset + i then f.data[k - f.offset] else old(target[k])
    {
      target[f.offset + i] := f.data[i];
    }
    assert target[..] == Overlay(old(target[..]), f);
  }

  method ComputeReassemble(fs: seq<Fragment>, g: Garbage) returns (r: Option<Fragment>)
    ensures r == Reassemble(fs, g)
  {
    if |fs| == 0 {
      return None;
    }
    SortKeepsLength(fs);
    var messages := Sort(fs);
    var total := messages[0].total;
    var combined := new byte[total](k requires k >= 0 => g(k));
    assert combined[..] == Uninitialised(total, g);
    for i := 0 to |messages|
      invariant combined.Length == total
      invariant combined[..] == OverlayAll(Uninitialised(total, g), messages[..i])
    {
      assert messages[..i + 1][..i] == messages[..i];
      CopyInto(combined, messages[i]);
    }
    assert messages[..|messages|] == messages;
    r := Some(Fragment(messages[0].msgType, total, messages[0].seqNum, 0, combined[..]));
  }

  const MAX_FRAGMENT_LENGTH := 1280 - (20 + 8) - (1 + 3 + 2 + 3 + 3)

  /** What `split` returns; `None` when it throws because no byte fits. */
  function Split(f: Fragment, max: nat): Option<seq<Fragment>> {
    if f.data == [] then Some([])
    else if max == 0 then None
    else Some([f.(total := |f.data|, offset := 0, data := f.data[0..if max < |f.data| then max else |f.data|])])
  }

  method ComputeSplit(f: Fragment, max: nat) returns (r: Option<seq<Fragment>>)
    ensures r == Split(f, max)
  {
    var start, totalLength := 0, |f.data|;
    var fragments: seq<Fragment> := [];
    while |fragments| == 0 && start < totalLength
      invariant start <= totalLength
      invariant fragments == [] ==> start == 0
      invariant fragments != [] ==> max > 0 && f.data != [] && Some(fragments) == Split(f, max)
      decreases 1 - |fragments|
    {
      var fragmentLength := if max < totalLength - start then max else totalLength - start;
      var data := f.data[start..start + fragmentLength];
      if |data| <= 0 {
        return None;
      }
      fragments := fragments + [Fragment(f.msgType, totalLength, f.seqNum, start, data)];
      assert start == 0 && fragments == [f.(total := |f.data|, offset := 0, data := f.data[0..fragmentLength])];
      start := start + |data|;
    }
    r := Some(fragments);
  }
}
