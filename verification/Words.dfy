/** 32-bit words and shift counts as JavaScript's bitwise operators see them. */
module Words {

  /** The five low bits of a shift count: `<<` and `>>>` ignore all others. */
  function Count(n: int): bv5 {
    Low(n % 32)
  }

  /** Counting in a five-bit register, which wraps by itself. */
  function Low(n: nat): bv5 {
    if n == 0 then 0 else Low(n - 1) + 1
  }

  predicate Bit(w: bv32, k: bv5) {
    (w >> k) & 1 == 1
  }

  /** `(w & flag) === flag` for the flag `1 << c`. */
  predicate Tests(w: bv32, c: bv5) {
    w & (1 << c) == 1 << c
  }

  /** `w | (1 << c)`. */
  function Raise(w: bv32, c: bv5): bv32 {
    w | (1 << c)
  }

  function Or(x: bv32, y: bv32): bv32 {
    x | y
  }

  /** `w >>> c`. */
  function Right(w: bv32, c: bv5): bv32 {
    w >> c
  }

  /** `w << c`. */
  function Left(w: bv32, c: bv5): bv32 {
    w << c
  }

  lemma TestsBit(w: bv32, k: bv5)
    ensures Tests(w, k) <==> Bit(w, k)
  {
  }

  lemma ZeroBit(k: bv5)
    ensures !Bit(0, k)
  {
  }

  lemma OrBit(x: bv32, y: bv32, k: bv5)
    ensures Bit(Or(x, y), k) <==> Bit(x, k) || Bit(y, k)
  {
  }

  lemma FlagBit(j: bv5, k: bv5)
    ensures Bit(1 << j, k) <==> j == k
  {
  }

  lemma RaiseBit(w: bv32, j: bv5, k: bv5)
    ensures Bit(Raise(w, j), k) <==> j == k || Bit(w, k)
  {
    FlagBit(j, k);
    OrBit(w, 1 << j, k);
  }

  lemma ShiftTwice(w: bv32, a: bv5, k: bv5)
    requires k <= k + a
    ensures Bit(w >> a, k) <==> Bit(w, k + a)
  {
  }

  lemma RightLowBits(w: bv32, a: bv5, k: bv5)
    requires k <= k + a
    ensures Bit(Right(w, a), k) <==> Bit(w, k + a)
  {
    hide Bit;
    ShiftTwice(w, a, k);
  }

  lemma RightHighBits(w: bv32, a: bv5, k: bv5)
    requires a != 0 && k >= -a
    ensures !Bit(Right(w, a), k)
  {
  }

  lemma LeftBits(w: bv32, a: bv5, k: bv5)
    ensures Bit(Left(w, a), k) <==> k >= a && Bit(w, k - a)
  {
  }

  lemma Associate(x: bv5, y: bv5)
    ensures x + (y + 1) == (x + y) + 1
  {
  }

  lemma {:induction false} LowAdds(n: nat, m: nat)
    ensures Low(n + m) == Low(n) + Low(m)
  {
    if m > 0 {
      LowAdds(n, m - 1);
      assert Low(n + m) == Low(n + (m - 1)) + 1;
      Associate(Low(n), Low(m - 1));
    }
  }

  lemma CastSuccessor(n: int)
    requires 0 <= n < 31
    ensures (n + 1) as bv5 == (n as bv5) + 1
  {
  }

  lemma {:induction false} LowIsCast(n: nat)
    requires n < 32
    ensures Low(n) == n as bv5
  {
    if n > 0 {
      LowIsCast(n - 1);
      CastSuccessor(n - 1);
    }
  }

  lemma CastMonotone(n: int, m: int)
    requires 0 <= n < m < 32
    ensures n as bv5 < m as bv5
  {
  }

  lemma LowMonotone(n: nat, m: nat)
    requires n < m < 32
    ensures Low(n) < Low(m)
  {
    LowIsCast(n);
    LowIsCast(m);
    CastMonotone(n, m);
  }

  lemma CountInjective(j: int, k: int)
    requires 0 <= j < 32 && 0 <= k < 32
    ensures Count(j) == Count(k) <==> j == k
  {
    if j < k {
      LowMonotone(j, k);
    } else if k < j {
      LowMonotone(k, j);
    }
  }

  lemma LowWraps()
    ensures Low(32) == 0
  {
    assert Low(4) == 4;
    LowAdds(4, 4);
    LowAdds(8, 8);
    LowAdds(16, 16);
  }

  lemma Negates(x: bv5, a: bv5)
    requires x + a == 0
    ensures x == -a
  {
  }

  lemma Cancels(x: bv5, y: bv5)
    ensures (x + y) - x == y
  {
  }

  /** `32 - a` counts as the negative of `a`. */
  lemma Complement(a: int)
    requires 0 < a < 32
    ensures Low(32 - a) == -Low(a)
    ensures Low(a) != 0
  {
    LowAdds(32 - a, a);
    LowWraps();
    Negates(Low(32 - a), Low(a));
    LowMonotone(0, a);
  }

  /** `w >>> a` moves every bit down by `a`; a count of 0 or 32 moves nothing. */
  lemma ShiftRight(w: bv32, a: int, k: int)
    requires 0 < a < 32 && 0 <= k < 32
    ensures Bit(Right(w, Count(a)), Count(k)) <==> k + a < 32 && Bit(w, Count(k + a))
  {
    hide Bit, Right, Low;
    if k + a < 32 {
      LowAdds(k, a);
      LowMonotone(k, k + a);
      RightLowBits(w, Low(a), Low(k));
    } else {
      Complement(a);
      if 32 - a < k {
        LowMonotone(32 - a, k);
      }
      RightHighBits(w, Low(a), Low(k));
    }
  }

  /** `w << (32 - a)` keeps the `a` low bits as the new high ones. */
  lemma ShiftLeft(w: bv32, a: int, k: int)
    requires 0 < a < 32 && 0 <= k < 32
    ensures Bit(Left(w, Count(32 - a)), Count(k)) <==> k + a >= 32 && Bit(w, Count(k + a - 32))
  {
    hide Bit, Left, Low;
    LeftBits(w, Low(32 - a), Low(k));
    if k + a >= 32 {
      LowAdds(32 - a, k + a - 32);
      Cancels(Low(32 - a), Low(k + a - 32));
      if 32 - a < k {
        LowMonotone(32 - a, k);
      }
    } else {
      LowMonotone(k, 32 - a);
    }
  }

  /** A count that is a multiple of 32 leaves the word as it is. */
  lemma ShiftByWidth(w: bv32)
    ensures Right(w, Count(32)) == w
    ensures Left(w, Count(0)) == w
  {
  }
}
