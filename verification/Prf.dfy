/** src/TLS/PRF.ts: the pseudorandom function of section 5 of RFC 5246. */
module Prfs {
  import opened Bytes
  import opened Crypto

  /** A(i), the i-fold HMAC of the seed. */
  function A(c: Library, h: HashAlgorithm, secret: bytes, seed: bytes, i: nat): bytes {
    if i == 0 then seed else c.hmac(h, secret, A(c, h, secret, seed, i - 1))
  }

  /** The i-th block of output, counting from 1. */
  function Block(c: Library, h: HashAlgorithm, secret: bytes, seed: bytes, i: nat): bytes {
    c.hmac(h, secret, A(c, h, secret, seed, i) + seed)
  }

  function Blocks(c: Library, h: HashAlgorithm, secret: bytes, seed: bytes, n: nat): bytes {
    if n == 0 then [] else Blocks(c, h, secret, seed, n - 1) + Block(c, h, secret, seed, n)
  }

  /** How many blocks cover `length` bytes. */
  function BlocksFor(h: HashAlgorithm, length: nat): (n: nat)
    ensures length <= n * HashLength(h) < length + HashLength(h)
  {
    (length + HashLength(h) - 1) / HashLength(h)
  }

  lemma {:induction false} BlocksLength(c: Library, h: HashAlgorithm, secret: bytes, seed: bytes, n: nat)
    requires c.HmacLaw()
    ensures |Blocks(c, h, secret, seed, n)| == n * HashLength(h)
  {
    if n > 0 {
      BlocksLength(c, h, secret, seed, n - 1);
    }
  }

  /** P_hash cut to `length` bytes. */
  function P(c: Library, h: HashAlgorithm, secret: bytes, seed: bytes, length: nat): bytes {
    var all := Blocks(c, h, secret, seed, BlocksFor(h, length));
    if length <= |all| then all[..length] else all
  }

  function Ascii(s: string): bytes {
    seq(|s|, i requires 0 <= i < |s| => (s[i] as int) % 256)
  }

  function Expand(c: Library, h: HashAlgorithm, secret: bytes, usage: string, seed: bytes, length: nat): bytes {
    P(c, h, secret, Ascii(usage) + seed, length)
  }

  /** The closure inside `P`: the values A(0), A(1), ... computed so far. */
  class Memo {
    const library: Library
    const h: HashAlgorithm
    const secret: bytes
    const seed: bytes
    var a: seq<bytes>

    ghost predicate Valid()
      reads this
    {
      a != [] && forall k :: 0 <= k < |a| ==> a[k] == A(library, h, secret, seed, k)
    }

    constructor (c: Library, h: HashAlgorithm, secret: bytes, seed: bytes)
      ensures Valid() && |a| == 1
      ensures library == c && this.h == h && this.secret == secret && this.seed == seed
    {
      this.library, this.h, this.secret, this.seed := c, h, secret, seed;
      a := [seed];
    }

    method Get(i: nat) returns (r: bytes)
      requires Valid()
      modifies this
      ensures Valid() && r == A(library, h, secret, seed, i)
      ensures |a| == if i < old(|a|) then old(|a|) else i + 1
      ensures old(a) <= a
      decreases i
    {
      if i >= |a| {
        var previous := Get(i - 1);
        a := a + [library.hmac(h, secret, previous)];
      }
      r := a[i];
    }
  }

  method ComputeP(c: Library, h: HashAlgorithm, secret: bytes, seed: bytes, length: nat) returns (r: bytes)
    requires c.HmacLaw()
    ensures r == P(c, h, secret, seed, length)
  {
    hide A, HashLength, BlocksFor, P;
    HashesAreLong(h);
    var memo := new Memo(c, h, secret, seed);
    var hashes: seq<bytes>, hashesLength, i := [], 0, 1;
    while hashesLength < length
      invariant fresh(memo) && memo.Valid()
      invariant memo.library == c && memo.h == h && memo.secret == secret && memo.seed == seed
      invariant i >= 1 && hashesLength == Span(h, i - 1) && hashesLength < length + HashLength(h)
      invariant Concat(hashes) == Blocks(c, h, secret, seed, i - 1)
      decreases length - hashesLength
    {
      var ai := memo.Get(i);
      var newHash := c.hmac(h, secret, ai + seed);
      ConcatAppends(hashes, [newHash]);
      assert Concat([newHash]) == newHash;
      hashes := hashes + [newHash];
      hashesLength := hashesLength + |newHash|;
      i := i + 1;
    }
    CutIsP(c, h, secret, seed, length, i - 1);
    r := Concat(hashes)[..length];
  }

  lemma HashesAreLong(h: HashAlgorithm)
    ensures HashLength(h) > 0
  {
  }

  function Span(h: HashAlgorithm, n: nat): nat {
    if n == 0 then 0 else Span(h, n - 1) + HashLength(h)
  }

  lemma {:induction false} SpanIsProduct(h: HashAlgorithm, n: nat)
    ensures Span(h, n) == n * HashLength(h)
  {
    if n > 0 {
      SpanIsProduct(h, n - 1);
    }
  }

  lemma CutIsP(c: Library, h: HashAlgorithm, secret: bytes, seed: bytes, length: nat, n: nat)
    requires c.HmacLaw()
    requires length <= Span(h, n) < length + HashLength(h)
    ensures length <= |Blocks(c, h, secret, seed, n)|
    ensures Blocks(c, h, secret, seed, n)[..length] == P(c, h, secret, seed, length)
  {
    SpanIsProduct(h, n);
    SameCount(h, length, n);
    BlocksLength(c, h, secret, seed, n);
  }

  lemma SameCount(h: HashAlgorithm, length: nat, n: nat)
    requires length <= n * HashLength(h) < length + HashLength(h)
    ensures n == BlocksFor(h, length)
  {
    var m := BlocksFor(h, length);
    Times(n + 1, m, HashLength(h));
    Times(m + 1, n, HashLength(h));
  }

  lemma Times(a: nat, b: nat, c: nat)
    ensures a <= b ==> a * c <= b * c
  {
  }

  /** Byte k of the output is byte k mod L of block k/L + 1, whatever the length asked for. */
  lemma {:induction false} BlocksAt(c: Library, h: HashAlgorithm, secret: bytes, seed: bytes, n: nat, i: nat, j: nat)
    requires c.HmacLaw()
    requires i < n && j < HashLength(h)
    ensures i * HashLength(h) + j < |Blocks(c, h, secret, seed, n)|
    ensures Blocks(c, h, secret, seed, n)[i * HashLength(h) + j] == Block(c, h, secret, seed, i + 1)[j]
  {
    BlocksLength(c, h, secret, seed, n);
    BlocksLength(c, h, secret, seed, n - 1);
    if i < n - 1 {
      BlocksAt(c, h, secret, seed, n - 1, i, j);
    } else {
      assert i * HashLength(h) + j - |Blocks(c, h, secret, seed, n - 1)| == j;
    }
  }

  lemma PIsBlockStream(c: Library, h: HashAlgorithm, secret: bytes, seed: bytes, length: nat)
    requires c.HmacLaw()
    ensures |P(c, h, secret, seed, length)| == length
    ensures forall k :: 0 <= k < length ==>
              P(c, h, secret, seed, length)[k] == Block(c, h, secret, seed, k / HashLength(h) + 1)[k % HashLength(h)]
  {
    var n := BlocksFor(h, length);
    BlocksLength(c, h, secret, seed, n);
    forall k | 0 <= k < length
      ensures P(c, h, secret, seed, length)[k] == Block(c, h, secret, seed, k / HashLength(h) + 1)[k % HashLength(h)]
    {
      Times(n, k / HashLength(h), HashLength(h));
      BlocksAt(c, h, secret, seed, n, k / HashLength(h), k % HashLength(h));
    }
  }

  /** The chain of HMACs that starts with the seed. */
  ghost predicate Chain(c: Library, h: HashAlgorithm, secret: bytes, seed: bytes, a: seq<bytes>) {
    && a != [] && a[0] == seed
    && forall i :: 0 <= i < |a| - 1 ==> a[i + 1] == c.hmac(h, secret, a[i])
  }

  lemma {:induction false} ChainExists(c: Library, h: HashAlgorithm, secret: bytes, seed: bytes, n: nat)
    returns (a: seq<bytes>)
    ensures |a| == n + 1 && Chain(c, h, secret, seed, a)
    ensures forall i :: 0 <= i <= n ==> a[i] == A(c, h, secret, seed, i)
  {
    if n == 0 {
      a := [seed];
    } else {
      a := ChainExists(c, h, secret, seed, n - 1);
      a := a + [c.hmac(h, secret, a[n - 1])];
    }
  }

  /** P_hash of section 5 of RFC 5246, from the HMAC alone. The values A(0), A(1), ... form the
      chain of HMACs that starts with the seed, and the output consists of the HMACs of A(1) and the
      seed, A(2) and the seed, and so on, cut to the length asked for. */
  lemma PIsHmacStream(c: Library, h: HashAlgorithm, secret: bytes, seed: bytes, length: nat) returns (a: seq<bytes>)
    requires c.HmacLaw()
    ensures |a| == length / HashLength(h) + 2 && Chain(c, h, secret, seed, a)
    ensures |P(c, h, secret, seed, length)| == length
    ensures forall k :: 0 <= k < length ==>
              var block := k / HashLength(h);
              0 <= block < |a| - 1
              && P(c, h, secret, seed, length)[k] == c.hmac(h, secret, a[block + 1] + seed)[k % HashLength(h)]
  {
    hide P, HashLength;
    HashesAreLong(h);
    var n := HashLength(h);
    a := ChainExists(c, h, secret, seed, length / n + 1);
    PIsBlockStream(c, h, secret, seed, length);
    forall k | 0 <= k < length
      ensures 0 <= k / n < |a| - 1
      ensures P(c, h, secret, seed, length)[k] == c.hmac(h, secret, a[k / n + 1] + seed)[k % n]
    {
      Monotone(k, length, n);
    }
  }

  lemma Monotone(a: nat, b: nat, n: nat)
    requires a <= b && n > 0
    ensures a / n <= b / n
  {
    Times(b / n + 1, a / n, n);
  }

  /** The labels of sections 6.3, 7.4.9 and 8.1 of RFC 5246, in ASCII. */
  lemma LabelsInAscii()
    ensures Ascii("master secret") == [109, 97, 115, 116, 101, 114, 32, 115, 101, 99, 114, 101, 116]
    ensures Ascii("key expansion") == [107, 101, 121, 32, 101, 120, 112, 97, 110, 115, 105, 111, 110]
    ensures Ascii("client finished") == [99, 108, 105, 101, 110, 116, 32, 102, 105, 110, 105, 115, 104, 101, 100]
    ensures Ascii("server finished") == [115, 101, 114, 118, 101, 114, 32, 102, 105, 110, 105, 115, 104, 101, 100]
  {
  }

  lemma {:induction false} BlocksPrefix(c: Library, h: HashAlgorithm, secret: bytes, seed: bytes, n: nat, m: nat)
    requires n <= m
    ensures Blocks(c, h, secret, seed, n) <= Blocks(c, h, secret, seed, m)
  {
    if n < m {
      BlocksPrefix(c, h, secret, seed, n, m - 1);
    }
  }

  /** Asking for less output gives a prefix of asking for more. */
  lemma PrefixOfLongerOutput(c: Library, h: HashAlgorithm, secret: bytes, seed: bytes, short: nat, long: nat)
    requires c.HmacLaw() && short <= long
    ensures P(c, h, secret, seed, short) <= P(c, h, secret, seed, long)
  {
    var n, m := BlocksFor(h, short), BlocksFor(h, long);
    BlocksLength(c, h, secret, seed, n);
    BlocksLength(c, h, secret, seed, m);
    Times(m + 1, n, HashLength(h));
    BlocksPrefix(c, h, secret, seed, n, m);
  }
}
