/** Parsing undoes printing, for every spec and every well-formed value, anywhere in a buffer. */
module CodecProofs {
  import opened Bytes
  import opened BitConverter
  import opened Codec

  /** Values of such a spec reach to the end of the buffer, or may be absent there. */
  predicate Open(s: Spec) {
    match s
    case NumSpec(_) => false
    case BufSpec(_, _) => false
    case RestSpec => true
    case VecSpec(_, _, _, optional) => optional
    case StructSpec(fs) => fs != [] && Open(fs[|fs| - 1])
  }

  predicate WellFormedSpec(s: Spec) {
    match s
    case NumSpec(size) => size > 0
    case BufSpec(min, max) => min <= max < TWO32
    case RestSpec => true
    case VecSpec(item, min, max, _) =>
      && (item.NumSpec? || item.StructSpec?)
      && WellFormedSpec(item) && !Open(item)
      && min <= max && 0 < max < TWO32
    case StructSpec(fs) =>
      && (forall i :: 0 <= i < |fs| ==> WellFormedSpec(fs[i]))
      && (forall i :: 0 <= i < |fs| - 1 ==> !Open(fs[i]))
  }

  predicate WellFormedFields(fs: seq<Spec>) {
    && (forall i :: 0 <= i < |fs| ==> WellFormedSpec(fs[i]))
    && (forall i :: 0 <= i < |fs| - 1 ==> !Open(fs[i]))
  }

  predicate WellFormed(s: Spec, v: Value)
    requires Typed(s, v)
  {
    match s
    case NumSpec(size) => v.n.Num? && 0 <= v.n.v < Pow256(Min(size, 4))
    case BufSpec(min, max) => min <= |v.b| <= max
    case RestSpec => true
    case VecSpec(item, min, max, optional) =>
      && (forall i :: 0 <= i < |v.items| ==> WellFormed(item, v.items[i]) && Serialize(item, v.items[i]) != [])
      && if v.items == [] && optional then min != max else min <= |SerializeItems(item, v.items)| <= max
    case StructSpec(fs) => forall i :: 0 <= i < |fs| ==> WellFormed(fs[i], v.fields[i])
  }

  /** Bytes counted as read although they are not in the buffer: the length prefix of an
      absent optional vector, unless there is no buffer at all. */
  function Missing(s: Spec, v: Value, noBuffer: bool): nat
    requires Typed(s, v)
  {
    match s
    case NumSpec(_) => 0
    case BufSpec(_, _) => 0
    case RestSpec => 0
    case VecSpec(_, _, max, optional) => if optional && v.items == [] && !noBuffer then Fit(max) else 0
    case StructSpec(fs) => if fs == [] then 0 else Missing(fs[|fs| - 1], v.fields[|fs| - 1], noBuffer)
  }

  lemma {:induction false} ClosedMissesNothing(s: Spec, v: Value, noBuffer: bool)
    requires Typed(s, v) && !Open(s)
    ensures Missing(s, v, noBuffer) == 0
  {
    if s.StructSpec? && s.fields != [] {
      ClosedMissesNothing(s.fields[|s.fields| - 1], v.fields[|s.fields| - 1], noBuffer);
    }
  }

  lemma NumRoundTrip(size: nat, v: Value, pre: bytes, suf: bytes, g: Garbage)
    requires size > 0 && v.VNum? && WellFormed(NumSpec(size), v)
    ensures Deserialize(NumSpec(size), pre + Encode(v.n, size) + suf, |pre|, g) == Read(v, size)
  {
    NumberRoundTrip(v.n.v, size, pre, suf);
    Small(v.n.v, Pow256(Min(size, 4)));
  }

  /** The length in front of a body of admissible length is read back. */
  lemma LengthRoundTrip(min: nat, max: nat, body: bytes, pre: bytes, suf: bytes)
    requires min <= |body| <= max < TWO32
    ensures Length(min, max, pre + Prefixed(min, max, body) + suf, |pre|) == Num(|body|)
    ensures |Prefixed(min, max, body)| == LengthBytes(min, max) + |body|
    ensures |Prefix(min, max, body)| == LengthBytes(min, max)
    ensures pre + Prefixed(min, max, body) + suf == (pre + Prefix(min, max, body)) + body + suf
  {
    var p := Prefix(min, max, body);
    assert Prefixed(min, max, body) == p + body;
    if min != max {
      LengthSurvivesPrefix(|body|, max, pre, body + suf);
      assert pre + p + (body + suf) == pre + (p + body) + suf;
    }
    assert pre + (p + body) + suf == (pre + p) + body + suf;
  }

  lemma BufRoundTrip(min: nat, max: nat, v: Value, pre: bytes, suf: bytes, g: Garbage)
    requires min <= max < TWO32 && v.VBuf? && WellFormed(BufSpec(min, max), v)
    ensures var ser := Prefixed(min, max, v.b);
            Deserialize(BufSpec(min, max), pre + ser + suf, |pre|, g) == Read(v, |ser|)
  {
    LengthRoundTrip(min, max, v.b, pre, suf);
    var buf := pre + Prefixed(min, max, v.b) + suf;
    var start := |pre| + LengthBytes(min, max);
    assert CopyOut(buf, start, |v.b|, g) == v.b;
  }

  lemma {:induction false} RoundTrip(s: Spec, v: Value, pre: bytes, suf: bytes, g: Garbage)
    requires WellFormedSpec(s) && Typed(s, v) && WellFormed(s, v)
    requires Open(s) ==> suf == []
    ensures var ser := Serialize(s, v);
            Deserialize(s, pre + ser + suf, |pre|, g)
            == Read(v, |ser| + Missing(s, v, |pre| + |ser| + |suf| == 0))
    decreases s, 0, 0
  {
    hide Prefixed, LengthBytes, Length, DeserializeItems, SerializeItems, DeserializeFields, SerializeFields;
    match s
    case NumSpec(size) => NumRoundTrip(size, v, pre, suf, g);
    case BufSpec(min, max) => BufRoundTrip(min, max, v, pre, suf, g);
    case RestSpec =>
      assert (pre + v.b + suf)[|pre|..] == v.b;
    case VecSpec(item, min, max, optional) =>
      if v.items == [] && optional {
        AbsentVectorRoundTrip(item, min, max, v, pre, g);
        assert pre + [] + suf == pre;
      } else {
        var body := SerializeItems(item, v.items);
        var p := Prefix(min, max, body);
        ItemsRoundTrip(item, v.items, pre + p, suf, g);
        PresentVectorRoundTrip(s, v, pre, suf, g);
      }
    case StructSpec(fs) =>
      FieldsRoundTrip(fs, v.fields, pre, suf, g);
  }

  function Prefix(min: nat, max: nat, body: bytes): bytes {
    if min != max then Encode(Num(|body|), Fit(max)) else []
  }

  /** A vector that is there parses as its length followed by its items. */
  lemma PresentVectorRoundTrip(s: Spec, v: Value, pre: bytes, suf: bytes, g: Garbage)
    requires s.VecSpec? && WellFormedSpec(s) && Typed(s, v) && WellFormed(s, v)
    requires v.items != [] || !s.optional
    requires var body := SerializeItems(s.item, v.items);
             var p := pre + Prefix(s.min, s.max, body);
             DeserializeItems(s.item, |body|, p + body + suf, |p|, g) == List(v.items, |body|)
    ensures var ser := Serialize(s, v);
            Deserialize(s, pre + ser + suf, |pre|, g) == Read(v, |ser|)
  {
    hide Prefixed, Length, DeserializeItems, SerializeItems, WellFormed;
    var body := SerializeItems(s.item, v.items);
    VectorLength(s, v);
    LengthRoundTrip(s.min, s.max, body, pre, suf);
  }

  lemma VectorLength(s: Spec, v: Value)
    requires s.VecSpec? && Typed(s, v) && WellFormed(s, v)
    requires v.items != [] || !s.optional
    ensures s.min <= |SerializeItems(s.item, v.items)| <= s.max
  {
    hide SerializeItems;
  }

  lemma AbsentVectorRoundTrip(item: Spec, min: nat, max: nat, v: Value, pre: bytes, g: Garbage)
    requires v == VVec([]) && min != max
    ensures Deserialize(VecSpec(item, min, max, true), pre, |pre|, g) == Read(v, if pre == [] then 0 else Fit(max))
  {
  }

  lemma Regroup(pre: bytes, head: bytes, tail: bytes, suf: bytes)
    ensures pre + (head + tail) + suf == pre + head + (tail + suf)
    ensures pre + (head + tail) + suf == (pre + head) + tail + suf
  {
    assert pre + (head + tail) == pre + head + tail;
  }

  lemma {:induction false} ItemsRoundTrip(item: Spec, vs: seq<Value>, pre: bytes, suf: bytes, g: Garbage)
    requires WellFormedSpec(item) && !Open(item)
    requires forall i :: 0 <= i < |vs| ==> Typed(item, vs[i])
    requires forall i :: 0 <= i < |vs| ==> WellFormed(item, vs[i]) && Serialize(item, vs[i]) != []
    ensures var ser := SerializeItems(item, vs);
            DeserializeItems(item, |ser|, pre + ser + suf, |pre|, g) == List(vs, |ser|)
    decreases item, 1, |vs|
  {
    hide Deserialize, Serialize, WellFormed, Typed, WellFormedSpec, Missing, Open;
    if vs != [] {
      var head, tail := Serialize(item, vs[0]), SerializeItems(item, vs[1..]);
      var buf := pre + (head + tail) + suf;
      assert Deserialize(item, buf, |pre|, g) == Read(vs[0], |head|) by {
        Regroup(pre, head, tail, suf);
        RoundTrip(item, vs[0], pre, tail + suf, g);
        ClosedMissesNothing(item, vs[0], |buf| == 0);
      }
      assert DeserializeItems(item, |tail|, buf, |pre + head|, g) == List(vs[1..], |tail|) by {
        Regroup(pre, head, tail, suf);
        ItemsRoundTrip(item, vs[1..], pre + head, suf, g);
      }
      ItemsStep(item, |head + tail|, buf, |pre|, g, vs[0], |head|);
      assert [vs[0]] + vs[1..] == vs;
    }
  }

  lemma ItemsStep(item: Spec, left: int, buf: bytes, offset: nat, g: Garbage, v: Value, n: nat)
    requires left > 0 && n > 0 && Deserialize(item, buf, offset, g) == Read(v, n)
    ensures DeserializeItems(item, left, buf, offset, g)
         == Prepend([v], n, DeserializeItems(item, left - n, buf, offset + n, g))
  {
  }

  lemma {:induction false} FieldsRoundTrip(fs: seq<Spec>, vs: seq<Value>, pre: bytes, suf: bytes, g: Garbage)
    requires WellFormedFields(fs) && AllTyped(fs, vs)
    requires forall i :: 0 <= i < |fs| ==> WellFormed(fs[i], vs[i])
    requires fs != [] && Open(fs[|fs| - 1]) ==> suf == []
    ensures var ser := SerializeFields(fs, vs);
            var missing := if fs == [] then 0 else Missing(fs[|fs| - 1], vs[|fs| - 1], |pre| + |ser| + |suf| == 0);
            DeserializeFields(fs, pre + ser + suf, |pre|, g) == List(vs, |ser| + missing)
    decreases fs, 0, 0
  {
    hide Deserialize, Serialize, WellFormed, Typed, WellFormedSpec, Missing, Open, DeserializeFields;
    var buf := pre + SerializeFields(fs, vs) + suf;
    if fs == [] {
      NoFields(buf, |pre|, g);
    } else {
      var head, tail := Serialize(fs[0], vs[0]), SerializeFields(fs[1..], vs[1..]);
      var noBuffer := |buf| == 0;
      if |fs| == 1 {
        var n := |head| + Missing(fs[0], vs[0], noBuffer);
        assert Deserialize(fs[0], buf, |pre|, g) == Read(vs[0], n) by {
          assert tail == [] && head + tail == head;
          RoundTrip(fs[0], vs[0], pre, suf, g);
        }
        NoFields(buf, |pre| + n, g);
        FieldsStep(fs, vs, buf, |pre|, n, 0, g);
      } else {
        var m := |tail| + Missing(fs[|fs| - 1], vs[|fs| - 1], noBuffer);
        assert Deserialize(fs[0], buf, |pre|, g) == Read(vs[0], |head|) by {
          Regroup(pre, head, tail, suf);
          RoundTrip(fs[0], vs[0], pre, tail + suf, g);
          ClosedMissesNothing(fs[0], vs[0], noBuffer);
        }
        assert DeserializeFields(fs[1..], buf, |pre + head|, g) == List(vs[1..], m) by {
          assert fs[1..][|fs| - 2] == fs[|fs| - 1] && vs[1..][|fs| - 2] == vs[|fs| - 1];
          Regroup(pre, head, tail, suf);
          FieldsRoundTrip(fs[1..], vs[1..], pre + head, suf, g);
        }
        FieldsStep(fs, vs, buf, |pre|, |head|, m, g);
      }
    }
  }

  lemma NoFields(buf: bytes, offset: nat, g: Garbage)
    ensures DeserializeFields([], buf, offset, g) == List([], 0)
  {
  }

  lemma FieldsStep(fs: seq<Spec>, vs: seq<Value>, buf: bytes, offset: nat, n: nat, m: nat, g: Garbage)
    requires |fs| == |vs| > 0
    requires Deserialize(fs[0], buf, offset, g) == Read(vs[0], n)
    requires DeserializeFields(fs[1..], buf, offset + n, g) == List(vs[1..], m)
    ensures DeserializeFields(fs, buf, offset, g) == List(vs, n + m)
  {
    assert [vs[0]] + vs[1..] == vs;
  }

  /** The values lie one behind the other at these places: each begins in front of the limit and takes at
      least one byte, and the last one reaches the limit. */
  ghost predicate Adjoining(item: Spec, vs: seq<Value>, at: seq<nat>, limit: int, buf: bytes, g: Garbage) {
    && |at| == |vs| + 1 && at[|vs|] >= limit
    && forall i: nat :: i < |vs| ==> Lies(item, vs[i], at[i], at[i + 1], limit, buf, g)
  }

  predicate Lies(item: Spec, v: Value, from: nat, to: nat, limit: int, buf: bytes, g: Garbage) {
    from < limit && from < to && Deserialize(item, buf, from, g) == Read(v, to - from)
  }

  /** What the items of a vector are, for every spec: exactly the values that lie one behind the other
      in the announced length. An item that cannot be parsed, or takes no bytes, is an error. */
  lemma ItemsIff(item: Spec, left: int, buf: bytes, offset: nat, g: Garbage, vs: seq<Value>, n: nat)
    ensures DeserializeItems(item, left, buf, offset, g) == List(vs, n)
       <==> exists at :: Adjoining(item, vs, at, offset + left, buf, g) && at[0] == offset && at[|vs|] == offset + n
  {
    hide DeserializeItems, Lies;
    if DeserializeItems(item, left, buf, offset, g) == List(vs, n) {
      var at := ItemPlaces(item, left, buf, offset, g);
    }
    forall at | Adjoining(item, vs, at, offset + left, buf, g) && at[0] == offset && at[|vs|] == offset + n
      ensures DeserializeItems(item, left, buf, offset, g) == List(vs, n)
    {
      ItemsAtPlaces(item, left, buf, offset, g, vs, at);
    }
  }

  lemma {:induction false} ItemPlaces(item: Spec, left: int, buf: bytes, offset: nat, g: Garbage) returns (at: seq<nat>)
    requires DeserializeItems(item, left, buf, offset, g).List?
    ensures var r := DeserializeItems(item, left, buf, offset, g);
            Adjoining(item, r.vs, at, offset + left, buf, g) && at[0] == offset && at[|r.vs|] == offset + r.n
    decreases left
  {
    hide Deserialize;
    at := [offset];
    if left > 0 {
      var n := Deserialize(item, buf, offset, g).n;
      var rest := DeserializeItems(item, left - n, buf, offset + n, g);
      var tail := ItemPlaces(item, left - n, buf, offset + n, g);
      hide DeserializeItems;
      at := [offset] + tail;
      PlacedBefore(item, Deserialize(item, buf, offset, g).v, rest.vs, offset, tail, offset + left, buf, g);
    }
  }

  lemma PlacedBefore(item: Spec, v: Value, vs: seq<Value>, from: nat, tail: seq<nat>, limit: int, buf: bytes,
                     g: Garbage)
    requires Adjoining(item, vs, tail, limit, buf, g) && Lies(item, v, from, tail[0], limit, buf, g)
    ensures Adjoining(item, [v] + vs, [from] + tail, limit, buf, g)
  {
    hide Lies;
    var all, at := [v] + vs, [from] + tail;
    forall i: nat | i < |all|
      ensures Lies(item, all[i], at[i], at[i + 1], limit, buf, g)
    {
      if i > 0 {
        assert Lies(item, vs[i - 1], tail[i - 1], tail[i - 1 + 1], limit, buf, g);
      }
    }
  }

  lemma PlacedBehind(item: Spec, vs: seq<Value>, at: seq<nat>, limit: int, buf: bytes, g: Garbage)
    requires Adjoining(item, vs, at, limit, buf, g) && vs != []
    ensures Lies(item, vs[0], at[0], at[1], limit, buf, g) && Adjoining(item, vs[1..], at[1..], limit, buf, g)
  {
    hide Lies;
    forall i: nat | i < |vs[1..]|
      ensures Lies(item, vs[1..][i], at[1..][i], at[1..][i + 1], limit, buf, g)
    {
      assert Lies(item, vs[i + 1], at[i + 1], at[i + 1 + 1], limit, buf, g);
    }
  }

  lemma {:induction false} ItemsAtPlaces(item: Spec, left: int, buf: bytes, offset: nat, g: Garbage, vs: seq<Value>,
                                         at: seq<nat>)
    requires Adjoining(item, vs, at, offset + left, buf, g) && at[0] == offset
    ensures at[|vs|] >= offset
    ensures DeserializeItems(item, left, buf, offset, g) == List(vs, at[|vs|] - offset)
    decreases |vs|
  {
    if vs != [] {
      hide Adjoining, Deserialize, DeserializeItems;
      PlacedBehind(item, vs, at, offset + left, buf, g);
      ItemsAtPlaces(item, offset + left - at[1], buf, at[1], g, vs[1..], at[1..]);
      ItemsStep(item, left, buf, offset, g, vs[0], at[1] - offset);
      assert [vs[0]] + vs[1..] == vs;
    }
  }

  /** What is parsed as a vector, for every spec: the items within the length in front of them, or within
      the fixed one; a length that is not there counts as zero. Without any buffer an optional vector is
      empty and another one an error. */
  lemma VectorIff(item: Spec, min: nat, max: nat, optional: bool, buf: bytes, offset: nat, g: Garbage, vs: seq<Value>,
                  n: nat)
    ensures var r := Deserialize(VecSpec(item, min, max, optional), buf, offset, g);
            if buf == [] then r == if optional then Read(VVec([]), 0) else Fails
            else
              var first := if min != max then offset + Fit(max) else offset;
              var length := if min != max then Decode(buf, Fit(max), offset) else Num(max);
              var limit := first + if length.Num? then length.v else 0;
              r == Read(VVec(vs), n)
              <==> exists at :: Adjoining(item, vs, at, limit, buf, g) && at[0] == first && at[|vs|] == offset + n
  {
    hide Decode, DeserializeItems, Lies;
    if buf != [] {
      var skip := LengthBytes(min, max);
      var length := Length(min, max, buf, offset);
      var left := if length.NaN? then 0 else length.v;
      if n >= skip {
        ItemsIff(item, left, buf, offset + skip, g, vs, n - skip);
      } else {
        forall at | Adjoining(item, vs, at, offset + skip + left, buf, g) && at[0] == offset + skip
          ensures at[|vs|] >= offset + skip
        {
          ItemsAtPlaces(item, left, buf, offset + skip, g, vs, at);
        }
      }
    }
  }

  /** Different well-formed values never print alike. */
  lemma SerializeIsInjective(s: Spec, v: Value, w: Value)
    requires WellFormedSpec(s) && Typed(s, v) && WellFormed(s, v) && Typed(s, w) && WellFormed(s, w)
    requires Serialize(s, v) == Serialize(s, w)
    ensures v == w
  {
    var g: Garbage := _ => 0;
    RoundTrip(s, v, [], [], g);
    RoundTrip(s, w, [], [], g);
  }
}
