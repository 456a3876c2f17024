/** src/lib/BitConverter.ts and src/lib/util.ts: numbers as big-endian bytes. */
module BitConverter {
  import opened Bytes

  const TWO32 := 0x1_0000_0000

  /** ECMAScript's ToUint32, which `&` and `>>>` apply to their operand; NaN becomes 0. */
  function ToUint32(x: Number): nat {
    if x.NaN? then 0 else x.v % TWO32
  }

  function Pow256(n: nat): (r: nat)
    ensures r > 0
  {
    if n == 0 then 1 else 256 * Pow256(n - 1)
  }

  /** The `n` low bytes of `v`, highest first. */
  function BigEndian(v: nat, n: nat): (r: bytes)
    ensures |r| == n
  {
    if n == 0 then [] else BigEndian(v / 256, n - 1) + [v % 256]
  }

  function Value(b: bytes): nat {
    if b == [] then 0 else Value(b[..|b| - 1]) * 256 + b[|b| - 1]
  }

  /** What `numberToBuffer` writes for a size of `n` bytes. */
  function Encode(x: Number, n: nat): (r: bytes)
    ensures |r| == n
  {
    BigEndian(ToUint32(x), n)
  }

  /** What `bufferToNumber` reads: NaN as soon as one byte lies past the end. */
  function Decode(buf: bytes, n: nat, offset: nat): (r: Number)
    ensures r.Num? ==> r.v >= 0
    ensures r.Num? <==> n == 0 || offset + n <= |buf|
  {
    if n == 0 then Num(0)
    else if offset + n <= |buf| then Num(Value(buf[offset..offset + n]))
    else NaN
  }

  method NumberToBuffer(value: Number, n: nat) returns (r: bytes)
    ensures r == Encode(value, n)
  {
    var ret := new byte[n](_ => 0);
    var value := value;
    ghost var start := ToUint32(value);
    for i := n downto 0
      invariant ret.Length == n
      invariant BigEndian(start, n) == BigEndian(ToUint32(value), i) + ret[i..]
    {
      ghost var v := ToUint32(value);
      ghost var done := ret[i + 1..];
      ret[i] := ToUint32(value) % 256;
      value := Num(ToUint32(value) / 256);
      assert ret[i..] == [v % 256] + done;
      assert BigEndian(v, i + 1) == BigEndian(v / 256, i) + [v % 256];
    }
    r := ret[..];
  }

  method BufferToNumber(buf: bytes, n: nat, offset: nat) returns (r: Number)
    ensures r == Decode(buf, n, offset)
  {
    r := Num(0);
    for i := 0 to n
      invariant r == Decode(buf, i, offset)
    {
      if offset + i < |buf| {
        assert buf[offset..offset + i + 1][..i] == buf[offset..offset + i];
        r := if r.NaN? then NaN else Num(r.v * 256 + buf[offset + i]);
      } else {
        r := NaN;
      }
    }
  }

  /** What `fitToWholeBytes` returns. */
  function Fit(value: nat): (r: nat)
    ensures r >= 1
  {
    if value == 0 then 1 else Shifts(value)
  }

  function Shifts(value: nat): (r: nat)
    ensures value != 0 ==> r >= 1
    decreases value
  {
    if value == 0 then 0 else 1 + Shifts((value % TWO32) / 256)
  }

  method FitToWholeBytes(value: nat) returns (ret: nat)
    ensures ret == Fit(value)
  {
    ret := 0;
    var v := value;
    while v != 0
      invariant v >= 0 && ret + Shifts(v) == Shifts(value)
      decreases v
    {
      ret := ret + 1;
      v := (v % TWO32) / 256;
    }
    if ret == 0 {
      ret := ret + 1;
    }
  }

  // ---- what the codec means ----

  lemma DivideTwice(v: nat, p: nat)
    requires p > 0
    ensures (v / 256 % p) * 256 + v % 256 == v % (256 * p)
  {
    var q, r := v / 256, v % 256;
    var a, b := q / p, q % p;
    assert q == p * a + b;
    assert v == (256 * p) * a + (256 * b + r) by {
      assert 256 * (p * a) == (256 * p) * a;
    }
    Remainder(256 * p, a, 256 * b + r);
  }

  lemma AtLeastOnce(m: nat, d: int)
    requires d >= 1
    ensures m * d >= m
  {
  }

  lemma DivisionIsUnique(m: nat, q: int, r: int, q': int, r': int)
    requires 0 <= r < m && 0 <= r' < m
    requires m * q + r == m * q' + r'
    ensures r == r'
  {
    assert m * (q - q') == r' - r;
    assert m * (q' - q) == r - r';
    if q > q' {
      AtLeastOnce(m, q - q');
    } else if q < q' {
      AtLeastOnce(m, q' - q);
    }
  }

  lemma Remainder(m: nat, a: int, c: nat)
    requires c < m
    ensures (m * a + c) % m == c
  {
    var x := m * a + c;
    DivisionIsUnique(m, x / m, x % m, a, c);
  }

  lemma {:induction false} BigEndianValue(v: nat, n: nat)
    ensures Value(BigEndian(v, n)) == v % Pow256(n)
  {
    if n > 0 {
      BigEndianValue(v / 256, n - 1);
      assert BigEndian(v, n)[..n - 1] == BigEndian(v / 256, n - 1);
      DivideTwice(v, Pow256(n - 1));
    }
  }

  function Min(a: nat, b: nat): nat {
    if a < b then a else b
  }

  lemma {:induction false} PowGrows(n: nat, m: nat)
    requires n <= m
    ensures Pow256(n) <= Pow256(m)
  {
    if n < m {
      PowGrows(n, m - 1);
    }
  }

  lemma PowFour()
    ensures Pow256(4) == TWO32
  {
    assert Pow256(2) == 65536;
    assert Pow256(3) == 16777216;
  }

  /** A remainder by 2^32 does not disturb a later remainder by a smaller power. */
  lemma RemainderChain(v: int, n: nat)
    ensures (v % TWO32) % Pow256(n) == v % Pow256(Min(n, 4))
  {
    PowFour();
    if n >= 4 {
      PowGrows(4, n);
      Small(v % TWO32, Pow256(n));
    } else {
      var d := 4 - n;
      PowSplit(n, d);
      var q := v / TWO32;
      var p := Pow256(n);
      assert v == p * (Pow256(d) * q) + v % TWO32 by {
        assert p * (Pow256(d) * q) == (p * Pow256(d)) * q;
      }
      ModShift(v % TWO32, Pow256(d) * q, p);
    }
  }

  lemma Small(r: nat, m: nat)
    requires r < m
    ensures r % m == r
  {
  }

  lemma ModShift(r: int, a: int, m: nat)
    requires m > 0
    ensures (m * a + r) % m == r % m
  {
    var x := m * a + r;
    assert x == m * (a + r / m) + r % m by {
      assert m * (a + r / m) == m * a + m * (r / m);
    }
    Remainder(m, a + r / m, r % m);
  }

  lemma {:induction false} PowSplit(n: nat, d: nat)
    ensures Pow256(n + d) == Pow256(n) * Pow256(d)
  {
    if n > 0 {
      PowSplit(n - 1, d);
      Regroup(256, Pow256(n - 1), Pow256(d));
    }
  }

  lemma Regroup(a: nat, b: nat, c: nat)
    ensures a * (b * c) == (a * b) * c
  {
  }

  /** Writing a number anywhere in a buffer and reading it back gives it modulo
      2^min(size, 32), for every integer, negative ones included. */
  lemma NumberRoundTrip(v: int, n: nat, pre: bytes, suf: bytes)
    requires n > 0
    ensures Decode(pre + Encode(Num(v), n) + suf, n, |pre|) == Num(v % Pow256(Min(n, 4)))
  {
    var e := Encode(Num(v), n);
    assert (pre + e + suf)[|pre|..|pre| + n] == e;
    BigEndianValue(ToUint32(Num(v)), n);
    RemainderChain(v, n);
  }

  /** Reading a number and writing it back restores the bytes, up to four of them. */
  lemma {:induction false} ReencodeValue(b: bytes)
    ensures BigEndian(Value(b), |b|) == b
    ensures Value(b) < Pow256(|b|)
  {
    if b != [] {
      ReencodeValue(b[..|b| - 1]);
      assert Value(b) / 256 == Value(b[..|b| - 1]);
      assert b == b[..|b| - 1] + [b[|b| - 1]];
    }
  }

  /** Passing a number through the codec once makes it a fixed point of the codec. */
  lemma EncodeIsIdempotent(v: int, n: nat)
    ensures Encode(Num(v % Pow256(Min(n, 4))), n) == Encode(Num(v), n)
  {
    RemainderChain(v, n);
    PowFour();
    var m := Min(n, 4);
    PowGrows(m, 4);
    var r := v % Pow256(m);
    Small(r, TWO32);
    if n <= 4 {
      BigEndianLow(v % TWO32, n);
      assert (v % TWO32) % Pow256(n) == r;
    }
  }

  lemma {:induction false} BigEndianLow(v: nat, n: nat)
    ensures BigEndian(v % Pow256(n), n) == BigEndian(v, n)
  {
    if n > 0 {
      var p := Pow256(n - 1);
      DivideTwice(v, p);
      var w := v % Pow256(n);
      assert w == (v / 256 % p) * 256 + v % 256;
      assert w / 256 == v / 256 % p && w % 256 == v % 256;
      BigEndianLow(v / 256, n - 1);
    }
  }

  /** Bytes above the fourth are always written as zero. */
  lemma {:induction false} HighBytesAreZero(v: nat, n: nat, k: nat)
    requires k < n && v < Pow256(n - 1 - k)
    ensures BigEndian(v, n)[k] == 0
  {
    if k < n - 1 {
      HighBytesAreZero(v / 256, n - 1, k);
    } else {
      assert v == 0;
    }
  }

  lemma DivideByProduct(v: nat, p: nat)
    requires p > 0
    ensures v / 256 / p == v / (256 * p)
  {
    var q := v / 256 / p;
    var r := v / 256 % p;
    assert v == (256 * p) * q + (256 * r + v % 256) by {
      assert v / 256 == p * q + r;
      assert 256 * (p * q) == (256 * p) * q;
    }
    QuotientIsUnique(256 * p, q, 256 * r + v % 256, v);
  }

  lemma QuotientIsUnique(m: nat, q: int, r: int, v: int)
    requires 0 <= r < m && v == m * q + r
    ensures v / m == q
  {
    Remainder(m, q, r);
    assert m * (v / m) == m * q;
  }

  lemma {:induction false} BigEndianAt(v: nat, n: nat, i: nat)
    requires i < n
    ensures BigEndian(v, n)[i] == v / Pow256(n - 1 - i) % 256
  {
    if i < n - 1 {
      BigEndianAt(v / 256, n - 1, i);
      DivideByProduct(v, Pow256(n - 2 - i));
    }
  }

  /** The bytes of a number on the wire: the highest first, of its value modulo 2^32. */
  lemma EncodeAt(v: int, n: nat, i: nat)
    requires i < n
    ensures Encode(Num(v), n)[i] == v % TWO32 / Pow256(n - 1 - i) % 256
  {
    BigEndianAt(v % TWO32, n, i);
  }

  /** The least number of bytes that can hold `v`. */
  ghost predicate LeastFit(v: nat, n: nat) {
    n >= 1 && v < Pow256(n) && (n > 1 ==> Pow256(n - 1) <= v)
  }

  lemma {:induction false} ShiftsCount(v: nat)
    requires 0 < v < TWO32
    ensures v < Pow256(Shifts(v)) && Pow256(Shifts(v) - 1) <= v
  {
    Small(v, TWO32);
    var w := v / 256;
    if w == 0 {
      assert Shifts(w) == 0;
      assert Pow256(1) == 256;
    } else {
      ShiftsCount(w);
      assert Pow256(Shifts(v) - 1) == 256 * Pow256(Shifts(w) - 1);
    }
  }

  /** `fitToWholeBytes` finds the least sufficient width exactly below 2^32. */
  lemma FitIsLeastIffBelowTwo32(v: nat)
    ensures LeastFit(v, Fit(v)) <==> v < TWO32
  {
    if v == 0 {
      assert Pow256(1) == 256;
    } else if v < TWO32 {
      ShiftsCount(v);
    } else {
      var w := (v % TWO32) / 256;
      PowFour();
      if w != 0 {
        ShiftsCount(w);
        assert Pow256(3) == 16777216;
        if Shifts(w) >= 4 {
          PowGrows(3, Shifts(w) - 1);
        }
      }
      assert Fit(v) <= 4;
      PowGrows(Fit(v), 4);
    }
  }

  /** A length within a bound below 2^32 survives the prefix chosen for that bound. */
  lemma LengthSurvivesPrefix(length: nat, max: nat, pre: bytes, suf: bytes)
    requires length <= max < TWO32
    ensures Decode(pre + Encode(Num(length), Fit(max)) + suf, Fit(max), |pre|) == Num(length)
  {
    FitIsLeastIffBelowTwo32(max);
    NumberRoundTrip(length, Fit(max), pre, suf);
    PowFour();
    PowGrows(Min(Fit(max), 4), 4);
    Small(length, Pow256(Min(Fit(max), 4)));
  }
}
