/**
 The anti-replay window of a receiving cipher (internal/crypto/session.go).

 The code keeps one 64-bit word. It stands for an unbounded history of attempts
 to open a packet; the class below carries that history as ghost state and is
 proved to decide exactly as the history says.
 */
module ReplayWindow {
  import opened Words
  import opened Bits

  const WINDOW := 64

  /** One call of Cipher.Open: was the number let through, and did the packet authenticate? */
  datatype Attempt = Attempt(number: nat, accepted: bool, yielded: bool)

  type History = seq<Attempt>

  /** The numbers whose packets were opened successfully. */
  function Opened(h: History): set<nat> {
    set i | 0 <= i < |h| && h[i].yielded :: h[i].number
  }

  /** The highest number that was ever let through, authentic or not; 0 at the start. */
  function Highest(h: History): nat {
    if h == [] then 0
    else
      var before := Highest(h[..|h| - 1]);
      if h[|h| - 1].accepted then Max(before, h[|h| - 1].number) else before
  }

  /** The rule the window implements. */
  predicate Fresh(h: History, number: nat) {
    0 < number && number !in Opened(h) && Highest(h) < number + WINDOW
  }

  /** The history entry that an attempt leaves behind. */
  function Outcome(h: History, number: nat, authentic: bool): Attempt {
    Attempt(number, Fresh(h, number), Fresh(h, number) && authentic)
  }

  /** Every entry of the history was decided by the rule applied to the entries before it. */
  ghost predicate Explained(h: History) {
    forall i :: 0 <= i < |h| ==>
      (h[i].accepted <==> Fresh(h[..i], h[i].number)) && (h[i].yielded ==> h[i].accepted)
  }

  lemma HighestAppend(h: History, a: Attempt)
    ensures Highest(h + [a]) == if a.accepted then Max(Highest(h), a.number) else Highest(h)
    ensures Opened(h + [a]) == if a.yielded then Opened(h) + {a.number} else Opened(h)
  {
    var g := h + [a];
    assert g[..|g| - 1] == h;
    assert forall i :: 0 <= i < |h| ==> g[i] == h[i];
    assert g[|h|] == a;
    forall n | n in Opened(h) ensures n in Opened(g) {
      var i :| 0 <= i < |h| && h[i].yielded && h[i].number == n;
      assert g[i].yielded && g[i].number == n;
    }
    if a.yielded {
      assert g[|h|].yielded && g[|h|].number == a.number;
    }
  }

  /** A history only ever loses fresh numbers, so what was refused for replay or age stays refused. */
  lemma {:induction false} StaysRefused(h: History, later: History, number: nat)
    requires h <= later && !Fresh(h, number)
    ensures !Fresh(later, number)
    decreases |later|
  {
    if |h| == |later| {
      assert h == later;
    } else {
      var front := later[..|later| - 1];
      StaysRefused(h, front, number);
      assert later == front + [later[|later| - 1]];
      HighestAppend(front, later[|later| - 1]);
    }
  }

  /** No number is opened twice, whatever is presented between the two attempts. */
  lemma OpenedAtMostOnce(h: History, i: nat, j: nat)
    requires Explained(h) && i < j < |h|
    requires h[i].yielded && h[j].yielded
    ensures h[i].number != h[j].number
  {
    assert h[..j][i] == h[i];
    assert h[i].number in Opened(h[..j]);
  }

  /** A failed open leaves the same number acceptable, unless it was refused in the first place. */
  lemma FailedOpenCanBeRetried(h: History, number: nat)
    ensures Fresh(h + [Outcome(h, number, false)], number) <==> Fresh(h, number)
    ensures Fresh(h, number) ==> !Fresh(h + [Outcome(h, number, true)], number)
  {
    HighestAppend(h, Outcome(h, number, false));
    HighestAppend(h, Outcome(h, number, true));
  }

  /** What a failed open costs other numbers: those 64 or more below it, if it was let through. */
  lemma FailedOpenCost(h: History, failed: nat, number: nat)
    ensures Fresh(h + [Outcome(h, failed, false)], number) <==>
              Fresh(h, number) && (Fresh(h, failed) ==> failed < number + WINDOW)
  {
    HighestAppend(h, Outcome(h, failed, false));
  }

  /** The window holds 64 numbers including the highest: the 64th number below the highest is refused. */
  lemma OldestInWindow(h: History)
    requires Highest(h) >= WINDOW
    ensures !Fresh(h, Highest(h) - WINDOW)
    ensures Fresh(h, Highest(h) - WINDOW + 1) <==> Highest(h) - WINDOW + 1 !in Opened(h)
  {
  }

  /** After number 65 alone, number 1 is refused although only 64 numbers are below 65; number 2 is not. */
  lemma FirstOf65IsRefused()
    ensures
      var h := [Outcome([], 65, true)];
      Highest(h) == 65 && !Fresh(h, 1) && Fresh(h, 2)
  {
    HighestAppend([], Outcome([], 65, true));
    assert [] + [Outcome([], 65, true)] == [Outcome([], 65, true)];
  }

  // ---------------------------------------------------------------- the bitmap

  /** The word agrees with a set of numbers on the 64 numbers up to the highest. */
  ghost predicate Shows(bitmap: nat, highest: nat, marked: set<nat>) {
    forall i :: 0 <= i < 64 && i < highest ==> (Bit(bitmap, i) <==> highest - i in marked)
  }

  lemma ShowsAfterAdvance(bitmap: nat, highest: nat, marked: set<nat>, number: nat)
    requires Shows(bitmap, highest, marked)
    requires forall n :: n in marked ==> n <= highest
    requires highest < number
    ensures Shows(Or(Shl(bitmap, number - highest), 1), number, marked + {number})
    ensures number - highest >= 64 ==> Shows(Or(0, 1), number, marked + {number})
  {
    var shift := number - highest;
    forall i | 0 <= i < 64 && i < number
      ensures Bit(Or(Shl(bitmap, shift), 1), i) <==> number - i in marked + {number}
      ensures shift >= 64 ==> (Bit(Or(0, 1), i) <==> number - i in marked + {number})
    {
      BitOfOr(Shl(bitmap, shift), 1, i);
      BitOfOr(0, 1, i);
      BitOfShl(bitmap, shift, i);
      OneHasLowBit(i);
      ZeroHasNoBits(i);
    }
  }

  lemma MaskHasOneBit(d: nat, i: nat)
    requires i < 64
    ensures Bit(Shl(1, d), i) <==> i == d
  {
    BitOfShl(1, d, i);
    if i >= d { OneHasLowBit(i - d); }
  }

  lemma ShowsAfterMark(bitmap: nat, highest: nat, marked: set<nat>, number: nat)
    requires Shows(bitmap, highest, marked) && number <= highest < number + 64
    ensures Shows(Or(bitmap, Shl(1, highest - number)), highest, marked + {number})
  {
    var mask := Shl(1, highest - number);
    forall i | 0 <= i < 64 && i < highest
      ensures Bit(Or(bitmap, mask), i) <==> highest - i in marked + {number}
    {
      BitOfOr(bitmap, mask, i);
      MaskHasOneBit(highest - number, i);
    }
  }

  lemma ShowsAfterUnmark(bitmap: nat, highest: nat, marked: set<nat>, number: nat)
    requires Shows(bitmap, highest, marked) && number <= highest
    ensures Shows(AndNot(bitmap, Shl(1, highest - number)), highest,
                  if highest < number + 64 then marked - {number} else marked)
  {
    var mask := Shl(1, highest - number);
    forall i | 0 <= i < 64 && i < highest
      ensures Bit(AndNot(bitmap, mask), i) <==>
                highest - i in if highest < number + 64 then marked - {number} else marked
    {
      BitOfAndNot(bitmap, mask, i);
      MaskHasOneBit(highest - number, i);
    }
  }

  // ---------------------------------------------------------------- the window

  /** crypto.ReplayWindow. The ghost set holds every number marked since the start, however old. */
  class Window {
    var highest: u64
    var bitmap: nat
    ghost var marked: set<nat>

    ghost predicate Valid()
      reads this
    {
      && bitmap < Pow2(64)
      && (forall n :: n in marked ==> 0 < n <= highest)
      && Shows(bitmap, highest, marked)
    }

    constructor ()
      ensures Valid() && highest == 0 && marked == {}
    {
      highest, bitmap, marked := 0, 0, {};
    }

    method Accept(number: u64) returns (ok: bool)
      requires Valid()
      modifies this
      ensures Valid()
      ensures ok <==> 0 < number && number !in old(marked) && old(highest) < number + 64
      ensures ok ==> marked == old(marked) + {number as nat} && highest == Max(old(highest), number)
      ensures !ok ==> marked == old(marked) && highest == old(highest)
    {
      hide Or, And, Shl, Pow2, Bit;
      ShlBound(bitmap, if number > highest then number - highest else 0);
      ShlBound(1, if number > highest then 0 else highest - number);
      if number == 0 {
        return false;
      }
      if number > highest {
        ShowsAfterAdvance(bitmap, highest, marked, number);
        var shift := number - highest;
        if shift >= 64 {
          bitmap := 0;
        } else {
          bitmap := Shl(bitmap, shift);
        }
        Bounded(bitmap, 1, 64);
        bitmap := Or(bitmap, 1);
        highest := number;
        marked := marked + {number as nat};
        return true;
      }
      var d := highest - number;
      if d >= 64 {
        return false;
      }
      MaskedTest(bitmap, d);
      if And(bitmap, Shl(1, d)) != 0 {
        return false;
      }
      ShowsAfterMark(bitmap, highest, marked, number);
      Bounded(bitmap, Shl(1, d), 64);
      bitmap := Or(bitmap, Shl(1, d));
      marked := marked + {number as nat};
      return true;
    }

    method Rollback(number: u64)
      requires Valid()
      modifies this
      ensures Valid() && highest == old(highest)
      ensures marked == if highest < number + 64 then old(marked) - {number as nat} else old(marked)
    {
      hide Or, And, AndNot, Shl, Shows, Pow2;
      if number <= highest {
        ShlBound(1, highest - number);
        ShowsAfterUnmark(bitmap, highest, marked, number);
        Bounded(bitmap, Shl(1, highest - number), 64);
        bitmap := AndNot(bitmap, Shl(1, highest - number));
        marked := if highest - number < 64 then marked - {number as nat} else marked;
      }
    }
  }

  /**
   The receiving half of crypto.Cipher. The AEAD's verdict is an argument: None when
   authentication fails, Some(plaintext) otherwise.
   */
  class Cipher {
    const replay: Window
    ghost var history: History

    ghost predicate Valid()
      reads this, replay
    {
      && replay.Valid()
      && replay.highest == Highest(history)
      && replay.marked == Opened(history)
      && Explained(history)
    }

    constructor ()
      ensures Valid() && fresh(replay) && history == []
    {
      replay := new Window();
      history := [];
    }

    method Open(number: u64, verdict: Option<bytes>) returns (plaintext: Option<bytes>)
      requires Valid()
      modifies this, replay
      ensures Valid()
      ensures history == old(history) + [Outcome(old(history), number, verdict.Some?)]
      ensures plaintext == if Fresh(old(history), number) then verdict else None
    {
      ghost var entry := Outcome(history, number, verdict.Some?);
      HighestAppend(history, entry);
      ExplainedAppend(history, number, verdict.Some?);
      var ok := replay.Accept(number);
      if !ok {
        history := history + [entry];
        return None;
      }
      if verdict.None? {
        replay.Rollback(number);
        assert replay.marked == Opened(history);
        history := history + [entry];
        return None;
      }
      history := history + [entry];
      return verdict;
    }
  }

  lemma ExplainedAppend(h: History, number: nat, authentic: bool)
    requires Explained(h)
    ensures Explained(h + [Outcome(h, number, authentic)])
  {
    var g := h + [Outcome(h, number, authentic)];
    forall i | 0 <= i < |g|
      ensures (g[i].accepted <==> Fresh(g[..i], g[i].number)) && (g[i].yielded ==> g[i].accepted)
    {
      if i < |h| {
        assert g[..i] == h[..i] && g[i] == h[i];
      } else {
        assert g[..i] == h;
      }
    }
  }
}
