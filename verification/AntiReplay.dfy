/** src/TLS/AntiReplayWindow.ts: the sliding bitmap that remembers received record numbers. */
module AntiReplay {
  import opened Words

  const WIDTH := 64
  const INT_SIZE := 32

  /** The value of a window: two words, low numbers first, and the highest marked number.
      `strays` holds properties written at indices outside the word array, which a
      JavaScript array accepts and which never become part of the bitmap. */
  datatype Window = Window(words: seq<bv32>, strays: map<int, bv32>, ceiling: int)
  {
    predicate Ok() {
      |words| == 2
    }

    function Lower(): int {
      ceiling - WIDTH + 1
    }

    /** The stored word, with a missing one read as zero by the `&` operator. */
    function Word(i: int): bv32 {
      if 0 <= i < |words| then words[i] else if i in strays then strays[i] else 0
    }

    predicate HasReceived(q: int) {
      Tests(Word((q - Lower()) / INT_SIZE), Count(q - Lower()))
    }

    predicate MayReceive(q: int) {
      if q > ceiling + WIDTH then false
      else if q > ceiling then true
      else if q >= Lower() then !HasReceived(q)
      else false
    }

    function Put(i: int, w: bv32): Window {
      if 0 <= i < |words| then this.(words := words[i := w]) else this.(strays := strays[i := w])
    }

    function Mark(q: int): Window
      requires Ok()
    {
      var moved := if q > ceiling then this.(words := Shifted(words, q - ceiling), ceiling := q) else this;
      var i := (q - moved.Lower()) / INT_SIZE;
      moved.Put(i, Raise(moved.Word(i), Count(q - moved.Lower())))
    }
  }

  const FRESH := Window([0, 0], map[], WIDTH - 1)

  /** The words after moving the window up by `amount`. */
  function Shifted(words: seq<bv32>, amount: int): (r: seq<bv32>)
    requires |words| == 2
    ensures |r| == 2
    decreases amount
  {
    if amount > INT_SIZE then Shifted([words[1], 0], amount - INT_SIZE)
    else
      [Or(Right(words[0], Count(amount)), Left(words[1], Count(INT_SIZE - amount))), Right(words[1], Count(amount))]
  }

  function Marks(w: Window, qs: seq<int>): (r: Window)
    requires w.Ok()
    ensures r.Ok()
  {
    if qs == [] then w else Marks(w, qs[..|qs| - 1]).Mark(qs[|qs| - 1])
  }

  class AntiReplayWindow {
    var window: seq<bv32>
    var strays: map<int, bv32>
    var ceiling: int

    ghost predicate Valid()
      reads this
    {
      Value().Ok()
    }

    ghost function Value(): Window
      reads this
    {
      Window(window, strays, ceiling)
    }

    constructor ()
      ensures Value() == FRESH
    {
      window, strays, ceiling := [], map[], 0;
      new;
      Reset();
    }

    method Reset()
      modifies this
      ensures Value() == FRESH
    {
      window, strays := [], map[];
      for i := 0 to WIDTH / INT_SIZE
        invariant window == seq(i, k => 0) && strays == map[]
      {
        window := window + [0];
      }
      ceiling := WIDTH - 1;
    }

    method MayReceive(q: int) returns (b: bool)
      requires Valid()
      ensures b == Value().MayReceive(q)
    {
      if q > ceiling + WIDTH {
        b := false;
      } else if q > ceiling {
        b := true;
      } else if q >= ceiling - WIDTH + 1 && q <= ceiling {
        var received := HasReceived(q);
        b := !received;
      } else {
        b := false;
      }
    }

    method HasReceived(q: int) returns (b: bool)
      requires Valid()
      ensures b == Value().HasReceived(q)
    {
      var lowerBound := ceiling - WIDTH + 1;
      var bitIndex := q - lowerBound;
      var windowIndex := bitIndex / INT_SIZE;
      hide Tests;
      var word := if 0 <= windowIndex < |window| then window[windowIndex]
                  else if windowIndex in strays then strays[windowIndex] else 0;
      b := Tests(word, Count(bitIndex));
    }

    method MarkAsReceived(q: int)
      requires Valid()
      modifies this
      ensures Valid() && Value() == old(Value()).Mark(q)
    {
      hide Right, Left, Or, Raise, Count;
      if q > ceiling {
        var amount := q - ceiling;
        while amount > INT_SIZE
          invariant |window| == 2 && strays == old(strays) && ceiling == old(ceiling)
          invariant 0 < amount && Shifted(window, amount) == Shifted(old(window), q - ceiling)
        {
          ghost var before := window;
          for i := 1 to |window|
            invariant |window| == 2 && strays == old(strays) && ceiling == old(ceiling)
            invariant window[1] == before[1]
            invariant i == 2 ==> window[0] == before[1]
          {
            window := window[i - 1 := window[i]];
          }
          window := window[|window| - 1 := 0];
          assert window == [before[1], 0];
          amount := amount - INT_SIZE;
        }
        ShiftBits(amount);
        ceiling := q;
      }
      var lowerBound := ceiling - WIDTH + 1;
      var bitIndex := q - lowerBound;
      var windowIndex := bitIndex / INT_SIZE;
      if 0 <= windowIndex < |window| {
        window := window[windowIndex := Raise(window[windowIndex], Count(bitIndex))];
      } else {
        strays := strays[windowIndex := Raise(if windowIndex in strays then strays[windowIndex] else 0,
                                              Count(bitIndex))];
      }
    }

    /** The bitwise part of the shift in `markAsReceived`. */
    method ShiftBits(amount: int)
      requires Valid() && amount <= INT_SIZE
      modifies this`window
      ensures window == Shifted(old(window), amount)
    {
      hide Right, Left, Or, Count;
      var overflow: bv32 := 0;
      ghost var before := window;
      for i := 0 to |window|
        invariant |window| == 2
        invariant i < 2 ==> window[1] == before[1]
        invariant i < 1 ==> window[0] == before[0]
        invariant i == 1 ==> window[0] == Right(before[0], Count(amount))
        invariant i == 2 ==> window[0] == Or(Right(before[0], Count(amount)), Left(before[1], Count(INT_SIZE - amount)))
        invariant i == 2 ==> window[1] == Right(before[1], Count(amount))
      {
        overflow := Left(window[i], Count(INT_SIZE - amount));
        window := window[i := Right(window[i], Count(amount))];
        if i > 0 {
          window := window[i - 1 := Or(window[i - 1], overflow)];
        }
      }
      assert window == Shifted(before, amount);
    }
  }
}
