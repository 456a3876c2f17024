/** What the bitmap of AntiReplayWindow says about the set of marked numbers. */
module AntiReplayProofs {
  import opened Words
  import opened AntiReplay

  /** Position `k` of the bitmap, position 0 being the lower end of the window. */
  predicate At(words: seq<bv32>, k: int)
    requires |words| == 2 && 0 <= k < WIDTH
  {
    Bit(words[k / INT_SIZE], Count(k))
  }

  lemma ReadsPosition(w: Window, q: int)
    requires w.Ok() && w.Lower() <= q <= w.ceiling
    ensures w.HasReceived(q) <==> At(w.words, q - w.Lower())
  {
    hide Tests, Bit;
    TestsBit(w.Word((q - w.Lower()) / INT_SIZE), Count(q - w.Lower()));
  }

  /** Moving by fewer than 32 places carries bits from the upper word into the lower one. */
  lemma ShiftedWithinWord(words: seq<bv32>, a: int, k: int)
    requires |words| == 2 && 0 < a < INT_SIZE && 0 <= k < WIDTH
    ensures At(Shifted(words, a), k) <==> k + a < WIDTH && At(words, k + a)
  {
    hide Bit, Right, Left, Or, Low;
    if k < INT_SIZE {
      OrBit(Right(words[0], Count(a)), Left(words[1], Count(INT_SIZE - a)), Count(k));
      ShiftRight(words[0], a, k);
      ShiftLeft(words[1], a, k);
      if k + a >= INT_SIZE {
        SameCount(k + a - INT_SIZE);
      }
    } else {
      SameCount(k - INT_SIZE);
      ShiftRight(words[1], a, k - INT_SIZE);
      if k + a < WIDTH {
        SameCount(k + a - INT_SIZE);
      }
    }
  }

  lemma SameCount(k: int)
    requires 0 <= k < INT_SIZE
    ensures Count(k + INT_SIZE) == Count(k)
  {
  }

  /** A count of 32 moves nothing: the upper word is copied into the lower one and kept. */
  lemma ShiftedByWord(words: seq<bv32>, k: int)
    requires |words| == 2 && 0 <= k < WIDTH
    ensures At(Shifted(words, INT_SIZE), k)
       <==> At(words, k) || (k < INT_SIZE && At(words, k + INT_SIZE))
  {
    hide Bit, Right, Left, Or, Low;
    ShiftByWidth(words[0]);
    ShiftByWidth(words[1]);
    if k < INT_SIZE {
      OrBit(words[0], words[1], Count(k));
      SameCount(k);
    }
  }

  /** The exact effect of every move. Amounts of 32 and 64 leave stale bits behind. */
  lemma ShiftedAt(words: seq<bv32>, a: int, k: int)
    requires |words| == 2 && 0 < a && 0 <= k < WIDTH
    ensures At(Shifted(words, a), k) <==>
            if a == INT_SIZE then At(words, k) || (k < INT_SIZE && At(words, k + INT_SIZE))
            else if a == WIDTH then k < INT_SIZE && At(words, k + INT_SIZE)
            else k + a < WIDTH && At(words, k + a)
    decreases a
  {
    if a < INT_SIZE {
      ShiftedWithinWord(words, a, k);
    } else if a == INT_SIZE {
      ShiftedByWord(words, k);
    } else {
      var moved := [words[1], 0];
      ShiftedAt(moved, a - INT_SIZE, k);
      forall j | 0 <= j < WIDTH
        ensures At(moved, j) <==> j + INT_SIZE < WIDTH && At(words, j + INT_SIZE)
      {
        ZeroBit(Count(j));
        if j < INT_SIZE {
          SameCount(j);
        }
      }
    }
  }

  /** Membership in the window after marking `q`, for every number in the new window. */
  lemma MarkAt(w: Window, q: int, x: int)
    requires w.Ok()
    requires var n := w.Mark(q); n.Lower() <= x <= n.ceiling
    ensures var n := w.Mark(q); var a := q - w.ceiling;
            n.HasReceived(x) <==>
            || x == q
            || (x <= w.ceiling && w.HasReceived(x))
            || (a == INT_SIZE && w.HasReceived(x - INT_SIZE) && x - INT_SIZE >= w.Lower())
            || (a == WIDTH && x - INT_SIZE <= w.ceiling && w.HasReceived(x - INT_SIZE))
  {
    hide Tests, Bit, Raise, Shifted, Low;
    var n := w.Mark(q);
    var words := if q > w.ceiling then Shifted(w.words, q - w.ceiling) else w.words;
    var k := x - n.Lower();
    ReadsPosition(n, x);
    RaisedAt(words, q - n.Lower(), k);
    if q > w.ceiling {
      ShiftedAt(w.words, q - w.ceiling, k);
      if w.Lower() <= x <= w.ceiling {
        ReadsPosition(w, x);
      }
      if w.Lower() <= x - INT_SIZE <= w.ceiling {
        ReadsPosition(w, x - INT_SIZE);
      }
    } else {
      ReadsPosition(w, x);
    }
  }

  lemma RaisedAt(words: seq<bv32>, j: int, k: int)
    requires |words| == 2 && 0 <= k < WIDTH
    ensures var i := j / INT_SIZE;
            At(if 0 <= i < 2 then words[i := Raise(words[i], Count(j))] else words, k)
            <==> j == k || At(words, k)
  {
    hide Bit, Raise, Low;
    var i := j / INT_SIZE;
    if 0 <= i < 2 && k / INT_SIZE == i {
      RaiseBit(words[i], Count(j), Count(k));
      CountInjective(j % INT_SIZE, k % INT_SIZE);
    }
  }

  /** A number that can never be accepted again. */
  predicate Spent(w: Window, q: int)
    requires w.Ok()
  {
    q <= w.ceiling && (q >= w.Lower() ==> w.HasReceived(q))
  }

  lemma SpentIsRefused(w: Window, q: int)
    requires w.Ok() && Spent(w, q)
    ensures !w.MayReceive(q)
  {
    hide Tests;
  }

  /** Marking spends the number, wherever it lies, and never revives another one. */
  lemma MarkSpends(w: Window, q: int, x: int)
    requires w.Ok()
    requires x == q || Spent(w, x)
    ensures w.Mark(q).Ok() && Spent(w.Mark(q), x)
  {
    hide Tests, Shifted, Raise;
    if x >= w.Mark(q).Lower() {
      MarkAt(w, q, x);
    }
  }

  lemma {:induction false} MarksSpend(w: Window, qs: seq<int>, x: int)
    requires w.Ok()
    requires x in qs || Spent(w, x)
    ensures Spent(Marks(w, qs), x)
  {
    hide Spent;
    if qs != [] {
      var last := |qs| - 1;
      if x != qs[last] {
        MarksSpend(w, qs[..last], x);
      }
      MarkSpends(Marks(w, qs[..last]), qs[last], x);
    }
  }

  function Highest(floor: int, qs: seq<int>): int {
    if qs == [] then floor
    else var h := Highest(floor, qs[..|qs| - 1]); if qs[|qs| - 1] > h then qs[|qs| - 1] else h
  }

  lemma {:induction false} CeilingIsHighest(w: Window, qs: seq<int>)
    requires w.Ok()
    ensures Marks(w, qs).ceiling == Highest(w.ceiling, qs)
    ensures forall q :: q in qs ==> q <= Marks(w, qs).ceiling
    ensures w.ceiling <= Marks(w, qs).ceiling
  {
    hide Raise, Shifted;
    if qs != [] {
      var last := |qs| - 1;
      CeilingIsHighest(w, qs[..last]);
      assert qs == qs[..last] + [qs[last]];
    }
  }

  /** No marked number is ever lost or accepted twice, whatever the jumps were. */
  lemma NeverLost(qs: seq<int>, q: int)
    requires q in qs
    ensures var w := Marks(FRESH, qs);
            && w.ceiling == Highest(WIDTH - 1, qs) >= q
            && (q >= w.Lower() ==> w.HasReceived(q))
            && !w.MayReceive(q)
  {
    CeilingIsHighest(FRESH, qs);
    MarksSpend(FRESH, qs, q);
    SpentIsRefused(Marks(FRESH, qs), q);
  }

  /** The bitmap agrees with a set of numbers on the whole window. */
  ghost predicate Exact(w: Window, received: set<int>) {
    && w.Ok()
    && (forall q :: q in received ==> q <= w.ceiling)
    && (forall q :: w.Lower() <= q <= w.ceiling ==> (w.HasReceived(q) <==> q in received))
  }

  /** The moves after which the bitmap still agrees with the set: any amount but 32 and 64,
      and those two when the positions they copy hold nothing misleading. */
  ghost predicate CleanMove(ceiling: int, received: set<int>, q: int) {
    && (q - ceiling == INT_SIZE ==>
          forall x :: x in received && x > ceiling - WIDTH ==>
            x == ceiling || (x == ceiling - INT_SIZE && ceiling in received))
    && (q - ceiling == WIDTH ==> forall x :: x in received ==> x <= ceiling - INT_SIZE)
  }

  /** The numbers that read as received after marking `q` without ever having been marked. */
  ghost predicate Phantom(ceiling: int, received: set<int>, q: int, x: int) {
    && x !in received && x != q
    && x - INT_SIZE in received
    && (|| (q - ceiling == INT_SIZE && x - INT_SIZE > ceiling - WIDTH)
        || (q - ceiling == WIDTH && x <= ceiling + INT_SIZE))
  }

  lemma MarkUnderExact(w: Window, received: set<int>, q: int, x: int)
    requires Exact(w, received)
    requires w.Mark(q).Lower() <= x <= w.Mark(q).ceiling
    ensures w.Mark(q).HasReceived(x) <==> x in received + {q} || Phantom(w.ceiling, received, q, x)
  {
    hide Tests, Shifted, Raise;
    MarkAt(w, q, x);
  }

  lemma MarkCeiling(w: Window, q: int)
    requires w.Ok()
    ensures w.Mark(q).Ok() && w.Mark(q).ceiling == if q > w.ceiling then q else w.ceiling
  {
    hide Raise, Shifted;
  }

  lemma PhantomsOfUncleanMove(ceiling: int, received: set<int>, q: int) returns (x: int)
    requires forall x :: x in received ==> x <= ceiling
    requires !CleanMove(ceiling, received, q)
    ensures q - WIDTH < x <= q && Phantom(ceiling, received, q, x)
  {
    if q - ceiling == INT_SIZE {
      var y :| y in received && y > ceiling - WIDTH
               && !(y == ceiling || (y == ceiling - INT_SIZE && ceiling in received));
      x := if y + INT_SIZE in received then y + WIDTH else y + INT_SIZE;
    } else {
      var y :| y in received && y > ceiling - INT_SIZE;
      x := y + INT_SIZE;
    }
  }

  /** One mark keeps the agreement exactly on the clean moves. */
  lemma MarkExactIffClean(w: Window, received: set<int>, q: int)
    requires Exact(w, received)
    ensures w.Mark(q).Ok()
    ensures Exact(w.Mark(q), received + {q}) <==> CleanMove(w.ceiling, received, q)
  {
    hide Window.HasReceived, Window.Mark;
    var n := w.Mark(q);
    MarkCeiling(w, q);
    if CleanMove(w.ceiling, received, q) {
      forall x | n.Lower() <= x <= n.ceiling
        ensures n.HasReceived(x) <==> x in received + {q}
      {
        MarkUnderExact(w, received, q, x);
      }
    } else {
      var x := PhantomsOfUncleanMove(w.ceiling, received, q);
      MarkUnderExact(w, received, q, x);
    }
  }

  ghost predicate CleanRun(ceiling: int, received: set<int>, qs: seq<int>) {
    qs == [] ||
    var before := qs[..|qs| - 1];
    && CleanRun(ceiling, received, before)
    && CleanMove(Highest(ceiling, before), received + Elements(before), qs[|qs| - 1])
  }

  ghost function Elements(qs: seq<int>): set<int> {
    set q | q in qs
  }

  lemma {:induction false} MarksExact(w: Window, received: set<int>, qs: seq<int>)
    requires w.Ok() && Exact(w, received) && CleanRun(w.ceiling, received, qs)
    ensures Exact(Marks(w, qs), received + Elements(qs))
  {
    hide Tests, Shifted, Raise, Exact, CleanMove;
    if qs == [] {
      assert received + Elements(qs) == received;
    } else {
      var last := |qs| - 1;
      MarksExact(w, received, qs[..last]);
      assert Marks(w, qs[..last]).Ok();
      CeilingIsHighest(w, qs[..last]);
      MarkExactIffClean(Marks(w, qs[..last]), received + Elements(qs[..last]), qs[last]);
      assert qs == qs[..last] + [qs[last]];
      assert received + Elements(qs) == received + Elements(qs[..last]) + {qs[last]};
    }
  }

  lemma FreshIsExact()
    ensures Exact(FRESH, {})
  {
    hide Tests, Bit;
    forall q | 0 <= q <= FRESH.ceiling
      ensures !FRESH.HasReceived(q)
    {
      ReadsPosition(FRESH, q);
      ZeroBit(Count(q));
    }
  }

  /** After a clean run `hasReceived` is membership, and `mayReceive` accepts exactly the
      unmarked numbers from the lower end of the window up to one window width above it. */
  lemma CleanRunAccepts(qs: seq<int>, q: int)
    requires CleanRun(WIDTH - 1, {}, qs)
    ensures var w := Marks(FRESH, qs);
            && (w.Lower() <= q <= w.ceiling ==> (w.HasReceived(q) <==> q in qs))
            && (w.MayReceive(q) <==> w.Lower() <= q <= w.ceiling + WIDTH && q !in qs)
  {
    hide Tests, Shifted, Raise;
    FreshIsExact();
    MarksExact(FRESH, {}, qs);
    CeilingIsHighest(FRESH, qs);
  }

  /** Runs whose jumps are never exactly 32 or 64 are clean. */
  ghost predicate NoAlignedJump(ceiling: int, qs: seq<int>) {
    qs == [] ||
    var before := qs[..|qs| - 1];
    && NoAlignedJump(ceiling, before)
    && qs[|qs| - 1] - Highest(ceiling, before) !in {INT_SIZE, WIDTH}
  }

  lemma {:induction false} UnalignedRunIsClean(ceiling: int, received: set<int>, qs: seq<int>)
    requires NoAlignedJump(ceiling, qs)
    ensures CleanRun(ceiling, received, qs)
  {
    if qs != [] {
      UnalignedRunIsClean(ceiling, received, qs[..|qs| - 1]);
    }
  }

  /** An aligned jump can make a number look received that never was: after 0 and 95,
      number 32 is refused. */
  lemma AlignedJumpInventsANumber()
    ensures var w := Marks(FRESH, [0, 95]); w.HasReceived(32) && !w.MayReceive(32)
  {
    hide Tests, Shifted, Raise;
    var first := Marks(FRESH, [0]);
    assert [0][..0] == [] && [0, 95][..1] == [0];
    assert Marks(FRESH, []) == FRESH && first == FRESH.Mark(0);
    assert Marks(FRESH, [0, 95]) == first.Mark(95);
    MarkAt(FRESH, 0, 0);
    MarkAt(first, 95, 32);
  }
}
