/** What the replay window promises: the plain set of counters it has accepted so far. */
module ReplaySpec {
  import opened Bits

  const WINDOW_SIZE := 1024

  /** The highest counter accepted so far (0 at the start) and every counter accepted. */
  datatype Window = Window(highest: u64, accepted: set<u64>)

  const EMPTY := Window(0, {})

  predicate Fresh(w: Window, counter: u64) {
    counter > w.highest || (w.highest - counter < WINDOW_SIZE && counter !in w.accepted)
  }

  function Accept(w: Window, counter: u64): Window {
    if !Fresh(w, counter) then w
    else Window(if counter > w.highest then counter else w.highest, w.accepted + {counter})
  }

  /** The window after offering it each counter of a sequence in turn. */
  function After(counters: seq<u64>): Window {
    if counters == [] then EMPTY
    else Accept(After(counters[..|counters| - 1]), counters[|counters| - 1])
  }

  /** The largest counter offered, 0 for none. */
  function Largest(counters: seq<u64>): u64 {
    if counters == [] then 0
    else
      var rest, last := Largest(counters[..|counters| - 1]), counters[|counters| - 1];
      if last > rest then last else rest
  }

  lemma {:induction false} HighestIsLargest(counters: seq<u64>)
    ensures After(counters).highest == Largest(counters)
  {
    if counters != [] { HighestIsLargest(counters[..|counters| - 1]); }
  }

  /** A counter offered before was accepted then, or is behind the window for good. */
  lemma {:induction false} OfferedIsAcceptedOrOld(counters: seq<u64>, c: u64)
    ensures c in After(counters).accepted ==> c in counters && c <= Largest(counters)
    ensures c in counters && c !in After(counters).accepted ==> Largest(counters) - c >= WINDOW_SIZE
  {
    if counters != [] {
      var front := counters[..|counters| - 1];
      assert counters == front + [counters[|counters| - 1]];
      OfferedIsAcceptedOrOld(front, c);
      HighestIsLargest(front);
    }
  }

  /** The verdict on every counter of every sequence, in terms of the raw sequence alone:
      accepted exactly when it exceeds all earlier ones, or is less than the window size
      behind the largest of them and was not offered before. */
  lemma VerdictOnHistory(earlier: seq<u64>, c: u64)
    ensures Fresh(After(earlier), c) <==>
            c > Largest(earlier) || (Largest(earlier) - c < 1024 && c !in earlier)
  {
    HighestIsLargest(earlier);
    OfferedIsAcceptedOrOld(earlier, c);
  }
}

/** The 1024-bit bitmap held in sixteen words, shifted one bit at a time. */
module ReplayBitmap {
  import opened Bits
  import opened ReplaySpec

  const WORDS := 16

  /** Bit `offset` of the bitmap: the mark for the counter that far below the highest. */
  predicate Marked(words: seq<u64>, offset: nat)
    requires |words| == WORDS && offset < WINDOW_SIZE
  {
    Bit(words[offset / 64], offset % 64)
  }

  /** The bitmap agrees with the plain set: bit d is set iff (highest - d) was accepted. */
  ghost predicate Represents(words: seq<u64>, w: Window) {
    && |words| == WORDS
    && (forall c :: c in w.accepted ==> c <= w.highest)
    && forall d :: 0 <= d < WINDOW_SIZE ==>
         (Marked(words, d) <==> d <= w.highest && w.highest - d in w.accepted)
  }

  /** Word k after one pass of the carry loop over all the words. */
  function ShiftedWord(words: seq<u64>, k: nat): (w: nat)
    requires k < |words|
  {
    Or(Shl64(words[k], 1), if k == 0 then 0 else Shr(words[k - 1], 63))
  }

  /** One pass of the carry loop moves every one of the 1024 bits up by one place. */
  lemma ShiftedWordsShiftBits(words: seq<u64>, shifted: seq<u64>, d: nat)
    requires |words| == |shifted| == WORDS && d < WINDOW_SIZE
    requires forall k :: 0 <= k < WORDS ==> shifted[k] == ShiftedWord(words, k)
    ensures Marked(shifted, d) <==> d > 0 && Marked(words, d - 1)
  {
    var k, i := d / 64, d % 64;
    if k > 0 { TopBit(words[k - 1]); }
    BitShiftCarry(words[k], if k == 0 then 0 else Shr(words[k - 1], 63), i);
    if i == 0 {
      assert d > 0 ==> (d - 1) / 64 == k - 1 && (d - 1) % 64 == 63;
    } else {
      assert (d - 1) / 64 == k && (d - 1) % 64 == i - 1;
    }
  }

  /** `after` is `before` moved up by `n` places, with zeros coming in at the bottom. */
  ghost predicate ShiftedBy(before: seq<u64>, after: seq<u64>, n: nat) {
    && |before| == |after| == WORDS
    && forall d :: 0 <= d < WINDOW_SIZE ==> (Marked(after, d) <==> d >= n && Marked(before, d - n))
  }

  lemma ShiftOneMore(a: seq<u64>, b: seq<u64>, c: seq<u64>, n: nat)
    requires ShiftedBy(a, b, n) && ShiftedBy(b, c, 1)
    ensures ShiftedBy(a, c, n + 1)
  {
    forall d | 0 <= d < WINDOW_SIZE
      ensures Marked(c, d) <==> d >= n + 1 && Marked(a, d - (n + 1))
    {
      assert d >= 1 && d - 1 >= n ==> d - 1 - n == d - (n + 1);
    }
  }

  /** `after` is `before` with one more bit set. */
  ghost predicate MarkedAlso(before: seq<u64>, after: seq<u64>, offset: nat) {
    && |before| == |after| == WORDS
    && forall d :: 0 <= d < WINDOW_SIZE ==> (Marked(after, d) <==> d == offset || Marked(before, d))
  }

  /** Moving the window up to a new highest counter and marking that one. */
  lemma AdvanceRepresents(before: seq<u64>, shifted: seq<u64>, after: seq<u64>, w: Window, counter: u64)
    requires Represents(before, w) && counter > w.highest
    requires ShiftedBy(before, shifted, counter - w.highest) && MarkedAlso(shifted, after, 0)
    ensures Represents(after, Accept(w, counter))
  {
    hide Marked;
    var w', n := Accept(w, counter), counter - w.highest;
    forall d | 0 <= d < WINDOW_SIZE
      ensures Marked(after, d) <==> d <= w'.highest && w'.highest - d in w'.accepted
    {
      if d >= n { assert w'.highest - d == w.highest - (d - n); }
    }
  }

  /** Marking a counter inside the window that is not marked yet. */
  lemma MarkRepresents(before: seq<u64>, after: seq<u64>, w: Window, counter: u64)
    requires Represents(before, w) && counter <= w.highest && Fresh(w, counter)
    requires MarkedAlso(before, after, w.highest - counter)
    ensures Represents(after, Accept(w, counter))
  {
    hide Marked;
  }

  lemma MarkedIffAccepted(words: seq<u64>, w: Window, counter: u64)
    requires Represents(words, w) && counter <= w.highest && w.highest - counter < WINDOW_SIZE
    ensures Marked(words, w.highest - counter) <==> counter in w.accepted
  {
    hide Marked;
  }

  lemma ZeroShifts(before: seq<u64>, after: seq<u64>, n: nat)
    requires |before| == |after| == WORDS && n >= WINDOW_SIZE
    requires forall k :: 0 <= k < WORDS ==> after[k] == 0
    ensures ShiftedBy(before, after, n)
  {
    forall i: nat { BitOfZero(i); }
  }

  class ReplayWindow {
    var current: u64
    const seen: array<u64>
    /** The plain set this window stands for. */
    ghost var view: Window

    ghost predicate Valid()
      reads this, seen
    {
      seen.Length == WORDS && current == view.highest && Represents(seen[..], view)
    }

    constructor ()
      ensures Valid() && view == EMPTY && fresh(seen)
    {
      current := 0;
      seen := new u64[WORDS](_ => 0);
      view := EMPTY;
      new;
      forall i: nat { BitOfZero(i); }
    }

    method CheckAndUpdate(counter: u64) returns (ok: bool)
      requires Valid()
      modifies this, seen
      ensures Valid()
      ensures ok <==> Fresh(old(view), counter)
      ensures view == Accept(old(view), counter)
    {
      hide Represents, ShiftedBy, MarkedAlso, Marked;
      ghost var before := seen[..];
      if counter > current {
        var shift := counter - current;
        if shift >= WINDOW_SIZE {
          forall k | 0 <= k < seen.Length { seen[k] := 0; }
          ZeroShifts(before, seen[..], shift);
        } else {
          ShiftLeft(shift);
        }
        ghost var shifted := seen[..];
        current := counter;
        Mark(0);
        AdvanceRepresents(before, shifted, seen[..], view, counter);
        ok := true;
      } else {
        var diff := current - counter;
        var dup := false;
        if diff < WINDOW_SIZE {
          dup := IsMarked(diff);
          MarkedIffAccepted(before, view, counter);
        }
        if diff >= WINDOW_SIZE || dup {
          return false;
        }
        Mark(diff);
        MarkRepresents(before, seen[..], view, counter);
        ok := true;
      }
      view := Accept(view, counter);
    }

    method Mark(offset: nat)
      requires seen.Length == WORDS && offset < WINDOW_SIZE
      modifies seen
      ensures MarkedAlso(old(seen[..]), seen[..], offset)
    {
      var word, bit := offset / 64, offset % 64;
      ghost var before := seen[..];
      BitMark(seen[word], bit, bit);
      seen[word] := Or(seen[word], Shl64(1, bit));
      forall d | 0 <= d < WINDOW_SIZE
        ensures Marked(seen[..], d) <==> d == offset || Marked(before, d)
      {
        BitMark(before[word], bit, d % 64);
      }
    }

    method IsMarked(offset: nat) returns (marked: bool)
      requires seen.Length == WORDS && offset < WINDOW_SIZE
      ensures marked <==> Marked(seen[..], offset)
    {
      var word, bit := offset / 64, offset % 64;
      OneShifted(bit);
      AndPow2(seen[word], bit);
      marked := And(seen[word], Shl64(1, bit)) != 0;
    }

    /** Shifts the whole bitmap up by `n` places. */
    method ShiftLeft(n: nat)
      requires seen.Length == WORDS
      modifies seen
      ensures ShiftedBy(old(seen[..]), seen[..], n)
    {
      for i := 0 to n
        invariant ShiftedBy(old(seen[..]), seen[..], i)
      {
        ghost var mid := seen[..];
        ShiftOnce();
        ShiftOneMore(old(seen[..]), mid, seen[..], i);
      }
    }

    /** One turn of the shift: the carry loop over the sixteen words. */
    method ShiftOnce()
      requires seen.Length == WORDS
      modifies seen
      ensures ShiftedBy(old(seen[..]), seen[..], 1)
    {
      ghost var before := seen[..];
      var carry := 0;
      for k := 0 to WORDS
        invariant carry == if k == 0 then 0 else Shr(before[k - 1], 63)
        invariant forall j :: 0 <= j < k ==> seen[j] == ShiftedWord(before, j)
        invariant forall j :: k <= j < WORDS ==> seen[j] == before[j]
      {
        if k > 0 { TopBit(before[k - 1]); }
        var newCarry := Shr(seen[k], 63);
        BitShiftCarry(seen[k], carry, 0);
        seen[k] := Or(Shl64(seen[k], 1), carry);
        carry := newCarry;
      }
      forall d | 0 <= d < WINDOW_SIZE
        ensures Marked(seen[..], d) <==> d > 0 && Marked(before, d - 1)
      {
        ShiftedWordsShiftBits(before, seen[..], d);
      }
    }
  }

  /** Offering any sequence of counters to a new window gives, for each, the verdict that
      depends on the earlier counters alone. */
  method OfferAll(counters: seq<u64>) returns (verdicts: seq<bool>)
    ensures |verdicts| == |counters|
    ensures forall k :: 0 <= k < |counters| ==>
              (verdicts[k] <==>
               || counters[k] > Largest(counters[..k])
               || (Largest(counters[..k]) - counters[k] < 1024 && counters[k] !in counters[..k]))
  {
    var window := new ReplayWindow();
    verdicts := [];
    for i := 0 to |counters|
      invariant window.Valid() && fresh(window) && fresh(window.seen)
      invariant window.view == After(counters[..i])
      invariant |verdicts| == i
      invariant Verdicts(counters, verdicts)
    {
      hide Represents, Fresh, Accept, After, Verdicts;
      AfterOneMore(counters, i);
      var ok := window.CheckAndUpdate(counters[i]);
      OneMoreVerdict(counters, verdicts, ok);
      verdicts := verdicts + [ok];
    }
    assert Verdicts(counters, verdicts);
    hide Represents, Fresh, After, Largest;
    forall k | 0 <= k < |counters|
      ensures Fresh(After(counters[..k]), counters[k]) <==>
              || counters[k] > Largest(counters[..k])
              || (Largest(counters[..k]) - counters[k] < 1024 && counters[k] !in counters[..k])
    {
      VerdictOnHistory(counters[..k], counters[k]);
    }
  }

  /** The verdicts on the first counters so far. */
  ghost predicate Verdicts(counters: seq<u64>, verdicts: seq<bool>) {
    && |verdicts| <= |counters|
    && forall k :: 0 <= k < |verdicts| ==> (verdicts[k] <==> Fresh(After(counters[..k]), counters[k]))
  }

  lemma OneMoreVerdict(counters: seq<u64>, verdicts: seq<bool>, ok: bool)
    requires Verdicts(counters, verdicts) && |verdicts| < |counters|
    requires ok <==> Fresh(After(counters[..|verdicts|]), counters[|verdicts|])
    ensures Verdicts(counters, verdicts + [ok])
  {
    hide Fresh, After;
  }

  lemma AfterOneMore(counters: seq<u64>, i: nat)
    requires i < |counters|
    ensures After(counters[..i + 1]) == Accept(After(counters[..i]), counters[i])
  {
    assert counters[..i + 1][..i] == counters[..i];
  }
}
