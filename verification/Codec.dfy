/** src/TLS/TLSStruct.ts and src/TLS/Vector.ts: structures described by a spec, printed and parsed. */
module Codec {
  import opened Bytes
  import opened BitConverter

  /** The type specs of src/TLS/TypeSpecs.ts; sizes of numbers and enums are in bytes. */
  datatype Spec =
    | NumSpec(size: nat)
    | BufSpec(min: nat, max: nat)
    | RestSpec
    | VecSpec(item: Spec, min: nat, max: nat, optional: bool)
    | StructSpec(fields: seq<Spec>)

  datatype Value =
    | VNum(n: Number)
    | VBuf(b: bytes)
    | VVec(items: seq<Value>)
    | VStruct(fields: seq<Value>)

  /** The outcome of parsing one value: an exception, or the value and `readBytes`. */
  datatype Parsed = Fails | Read(v: Value, n: nat)

  /** The outcome of parsing a list of fields or items. */
  datatype ParsedList = ListFails | List(vs: seq<Value>, n: nat)

  predicate Typed(s: Spec, v: Value) {
    match s
    case NumSpec(_) => v.VNum?
    case BufSpec(_, _) => v.VBuf?
    case RestSpec => v.VBuf?
    case VecSpec(item, _, _, _) => v.VVec? && forall i :: 0 <= i < |v.items| ==> Typed(item, v.items[i])
    case StructSpec(fs) =>
      v.VStruct? && |v.fields| == |fs| && forall i :: 0 <= i < |fs| ==> Typed(fs[i], v.fields[i])
  }

  predicate AllTyped(fs: seq<Spec>, vs: seq<Value>) {
    |fs| == |vs| && forall i :: 0 <= i < |fs| ==> Typed(fs[i], vs[i])
  }

  // ---- printing ----

  function Prefixed(min: nat, max: nat, body: bytes): bytes {
    if min != max then Encode(Num(|body|), Fit(max)) + body else body
  }

  function Serialize(s: Spec, v: Value): bytes
    requires Typed(s, v)
    decreases s, 0, 0
  {
    match s
    case NumSpec(size) => Encode(v.n, size)
    case BufSpec(min, max) => Prefixed(min, max, v.b)
    case RestSpec => v.b
    case VecSpec(item, min, max, optional) =>
      if v.items == [] && optional then [] else Prefixed(min, max, SerializeItems(item, v.items))
    case StructSpec(fs) => SerializeFields(fs, v.fields)
  }

  function SerializeItems(item: Spec, vs: seq<Value>): bytes
    requires forall i :: 0 <= i < |vs| ==> Typed(item, vs[i])
    decreases item, 1, |vs|
  {
    if vs == [] then [] else Serialize(item, vs[0]) + SerializeItems(item, vs[1..])
  }

  function SerializeFields(fs: seq<Spec>, vs: seq<Value>): bytes
    requires AllTyped(fs, vs)
    decreases fs, 0, 0
  {
    if fs == [] then [] else Serialize(fs[0], vs[0]) + SerializeFields(fs[1..], vs[1..])
  }

  // ---- parsing ----

  function LengthBytes(min: nat, max: nat): nat {
    if min != max then Fit(max) else 0
  }

  function Length(min: nat, max: nat, buf: bytes, offset: nat): (r: Number)
    ensures r.Num? ==> r.v >= 0
  {
    if min != max then Decode(buf, Fit(max), offset) else Num(max)
  }

  /** `allocUnsafe(length)` followed by `copy`: what lies past the end keeps its old contents. */
  function CopyOut(buf: bytes, start: nat, length: nat, g: Garbage): bytes {
    seq(length, i requires 0 <= i < length => if start + i < |buf| then buf[start + i] else g(start + i))
  }

  function Deserialize(s: Spec, buf: bytes, offset: nat, g: Garbage): Parsed
    decreases s, 0, 0
  {
    match s
    case NumSpec(size) => Read(VNum(Decode(buf, size, offset)), size)
    case RestSpec => if offset > |buf| then Fails else Read(VBuf(buf[offset..]), |buf| - offset)
    case BufSpec(min, max) =>
      var length := Length(min, max, buf, offset);
      var start := offset + LengthBytes(min, max);
      if length.NaN? || start > |buf| then Fails
      else Read(VBuf(CopyOut(buf, start, length.v, g)), LengthBytes(min, max) + length.v)
    case VecSpec(item, min, max, optional) =>
      if |buf| == 0 then if optional then Read(VVec([]), 0) else Fails
      else
        var length := Length(min, max, buf, offset);
        var skip := LengthBytes(min, max);
        var left := if length.NaN? then 0 else length.v;
        var items := DeserializeItems(item, left, buf, offset + skip, g);
        if items.ListFails? then Fails else Read(VVec(items.vs), skip + items.n)
    case StructSpec(fs) =>
      var fields := DeserializeFields(fs, buf, offset, g);
      if fields.ListFails? then Fails else Read(VStruct(fields.vs), fields.n)
  }

  function DeserializeItems(item: Spec, left: int, buf: bytes, offset: nat, g: Garbage): ParsedList
    decreases item, 1, left
  {
    if left <= 0 then List([], 0)
    else
      match Deserialize(item, buf, offset, g)
      case Fails => ListFails
      case Read(v, n) =>
        if n == 0 then ListFails
        else Prepend([v], n, DeserializeItems(item, left - n, buf, offset + n, g))
  }

  function DeserializeFields(fs: seq<Spec>, buf: bytes, offset: nat, g: Garbage): ParsedList
    decreases fs, 0, 0
  {
    if fs == [] then List([], 0)
    else
      match Deserialize(fs[0], buf, offset, g)
      case Fails => ListFails
      case Read(v, n) => Prepend([v], n, DeserializeFields(fs[1..], buf, offset + n, g))
  }

  function Prepend(vs: seq<Value>, n: nat, rest: ParsedList): ParsedList {
    match rest
    case ListFails => ListFails
    case List(ws, m) => List(vs + ws, n + m)
  }

  lemma PrependNothing(rest: ParsedList)
    ensures Prepend([], 0, rest) == rest
  {
    if rest.List? {
      assert [] + rest.vs == rest.vs;
    }
  }

  lemma PrependFailure(vs: seq<Value>, n: nat)
    ensures Prepend(vs, n, ListFails) == ListFails
  {
  }

  lemma PrependEnds(vs: seq<Value>, n: nat)
    ensures Prepend(vs, n, List([], 0)) == List(vs, n)
  {
    assert vs + [] == vs;
  }

  lemma PrependTwice(vs: seq<Value>, n: nat, ws: seq<Value>, m: nat, rest: ParsedList)
    ensures Prepend(vs, n, Prepend(ws, m, rest)) == Prepend(vs + ws, n + m, rest)
  {
    if rest.List? {
      assert vs + (ws + rest.vs) == (vs + ws) + rest.vs;
    }
  }

  /** `TLSStruct.deserialize`: the loop over the property definitions. */
  method ReadStruct(fs: seq<Spec>, buf: bytes, offset: nat, g: Garbage) returns (r: Parsed)
    ensures r == Deserialize(StructSpec(fs), buf, offset, g)
    decreases fs, 0
  {
    var delta: nat := 0;
    var fields := [];
    for i := 0 to |fs|
      invariant DeserializeFields(fs, buf, offset, g)
             == Prepend(fields, delta, DeserializeFields(fs[i..], buf, offset + delta, g))
    {
      var result := ReadValue(fs[i], buf, offset + delta, g);
      ghost var rest := fs[i..];
      assert rest[0] == fs[i] && rest[1..] == fs[i + 1..];
      if result.Fails? {
        return Fails;
      }
      PrependTwice(fields, delta, [result.v], result.n,
                   DeserializeFields(fs[i + 1..], buf, offset + delta + result.n, g));
      fields := fields + [result.v];
      delta := delta + result.n;
    }
    assert fs[|fs|..] == [] && fields + [] == fields && fs[0..] == fs;
    r := Read(VStruct(fields), delta);
  }

  method ReadValue(s: Spec, buf: bytes, offset: nat, g: Garbage) returns (r: Parsed)
    ensures r == Deserialize(s, buf, offset, g)
    decreases s, 1
  {
    match s
    case NumSpec(size) =>
      var x := BufferToNumber(buf, size, offset);
      r := Read(VNum(x), size);
    case VecSpec(item, min, max, optional) =>
      r := ReadVector(item, min, max, optional, buf, offset, g);
    case StructSpec(fs) =>
      r := ReadStruct(fs, buf, offset, g);
    case RestSpec =>
      r := if offset > |buf| then Fails else Read(VBuf(buf[offset..]), |buf| - offset);
    case BufSpec(min, max) =>
      var length, lengthBytes := Num(max), 0;
      if min != max {
        lengthBytes := FitToWholeBytes(max);
        length := BufferToNumber(buf, lengthBytes, offset);
      }
      if length.NaN? || offset + lengthBytes > |buf| {
        return Fails;
      }
      r := Read(VBuf(CopyOut(buf, offset + lengthBytes, length.v, g)), lengthBytes + length.v);
  }

  /** `Vector.from` and `Vector.deserialize`. */
  method ReadVector(item: Spec, min: nat, max: nat, optional: bool, buf: bytes, offset: nat, g: Garbage)
    returns (r: Parsed)
    ensures r == Deserialize(VecSpec(item, min, max, optional), buf, offset, g)
    decreases item, 3
  {
    if |buf| == 0 {
      return if optional then Read(VVec([]), 0) else Fails;
    }
    var length, delta := Num(max), 0;
    if min != max {
      delta := FitToWholeBytes(max);
      length := BufferToNumber(buf, delta, offset);
    }
    var left := if length.NaN? then 0 else length.v;
    var items := ReadItems(item, left, buf, offset + delta, g);
    r := if items.ListFails? then Fails else Read(VVec(items.vs), delta + items.n);
  }

  /** The item loop of `Vector.deserialize`. */
  method ReadItems(item: Spec, length: nat, buf: bytes, offset: nat, g: Garbage) returns (r: ParsedList)
    ensures r == DeserializeItems(item, length, buf, offset, g)
    decreases item, 2
  {
    hide Deserialize, Prepend;
    var items, i: nat := [], 0;
    PrependNothing(DeserializeItems(item, length, buf, offset, g));
    while i < length
      invariant DeserializeItems(item, length, buf, offset, g)
             == Prepend(items, i, DeserializeItems(item, length - i, buf, offset + i, g))
      decreases length - i
    {
      var result := ReadValue(item, buf, offset + i, g);
      PrependFailure(items, i);
      if result.Fails? || result.n <= 0 {
        return ListFails;
      }
      PrependTwice(items, i, [result.v], result.n,
                   DeserializeItems(item, length - i - result.n, buf, offset + i + result.n, g));
      i := i + result.n;
      items := items + [result.v];
    }
    PrependEnds(items, i);
    r := List(items, i);
  }
}
