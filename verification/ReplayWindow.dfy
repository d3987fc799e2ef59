/**
 * The replay window over a peer's message counters (section 4.5 of the Matter Core Specification;
 * internal/protocol/session.go).
 */
module ReplayWindow {
  import opened Bytes

  const WINDOW: nat := 32

  ghost predicate TooOld(received: seq<u32>, c: u32) {
    exists i :: 0 <= i < |received| && received[i] - c >= WINDOW
  }

  /**
   * The reference rule, over everything ever received: a counter is accepted unless it was received
   * before or some counter received is at least 32 above it.
   */
  ghost predicate Acceptable(received: seq<u32>, c: u32) {
    c !in received && !TooOld(received, c)
  }

  datatype Verdict = Accepted | RejectedTooOld | RejectedDuplicate

  /** `m << k` in uint32. */
  function ShiftLeft(m: u32, k: nat): (r: u32)
    ensures forall j: nat :: Bit(r, j) <==> k <= j < 32 && Bit(m, j - k)
  {
    Pow2Table();
    var r := m * Pow2(k) % 0x1_0000_0000;
    assert forall j: nat :: Bit(r, j) <==> k <= j < 32 && Bit(m, j - k) by {
      forall j: nat
        ensures Bit(r, j) <==> k <= j < 32 && Bit(m, j - k)
      {
        TruncateBit(m * Pow2(k), 32, j);
        ShiftBit(m, k, j);
      }
    }
    r
  }

  /** `m | (1 << k)` in uint32. */
  function Mark(m: u32, k: nat): (r: u32)
    requires k < 32
    ensures forall j: nat :: Bit(r, j) <==> j == k || Bit(m, j)
  {
    Pow2Table();
    SetBitFits(m, k, 32);
    SetBit(m, k)
  }

  /** Bit i of `m` says whether counter `top - i` was received, for the window under `top`. */
  ghost predicate Tracks(received: seq<u32>, top: u32, m: u32) {
    forall i: nat :: i < WINDOW && i <= top ==> (Bit(m, i) <==> top - i in received)
  }

  ghost predicate IsMaximum(received: seq<u32>, top: u32) {
    top in received && forall c :: c in received ==> c <= top
  }

  class PeerMessageCounter {
    var maxSeen: u32
    var initiated: bool
    var bitmap: u32
    ghost var received: seq<u32>

    ghost predicate Valid()
      reads this
    {
      && (initiated <==> received != [])
      && (initiated ==> IsMaximum(received, maxSeen) && Tracks(received, maxSeen, bitmap))
    }

    constructor ()
      ensures Valid() && received == []
    {
      maxSeen, initiated, bitmap := 0, false, 0;
      received := [];
    }

    method Validate(counter: u32) returns (v: Verdict)
      requires Valid()
      modifies this
      ensures Valid() && received == old(received) + [counter]
      ensures v == Accepted <==> Acceptable(old(received), counter)
      ensures v == RejectedTooOld <==> TooOld(old(received), counter)
    {
      hide Bit;
      ghost var before := received;
      received := received + [counter];
      if !initiated {
        maxSeen, initiated, bitmap := counter, true, 1;
        FirstBit(counter);
        return Accepted;
      }
      if counter > maxSeen {
        var diff := counter - maxSeen;
        var shifted := 0;
        if diff < WINDOW {
          shifted := ShiftLeft(bitmap, diff);
        }
        Advanced(before, maxSeen, bitmap, counter, shifted);
        bitmap := Mark(shifted, 0);
        maxSeen := counter;
        return Accepted;
      }
      InWindow(before, maxSeen, counter);
      var diff := maxSeen - counter;
      if diff >= WINDOW {
        OutOfWindow(before, maxSeen, bitmap, counter);
        return RejectedTooOld;
      }
      Marked(before, maxSeen, bitmap, counter);
      if Bit(bitmap, diff) {
        return RejectedDuplicate;
      }
      bitmap := Mark(bitmap, diff);
      v := Accepted;
    }
  }

  lemma FirstBit(c: u32)
    ensures Tracks([c], c, 1) && IsMaximum([c], c)
  {
    forall i: nat | i < WINDOW && i <= c
      ensures Bit(1, i) <==> c - i in [c]
    {
      if i > 0 { ZeroBit(i - 1); }
    }
  }

  /** Moving the window up to a new maximum keeps what is still inside it. */
  lemma Advanced(before: seq<u32>, top: u32, m: u32, counter: u32, shifted: u32)
    requires Tracks(before, top, m) && IsMaximum(before, top) && counter > top
    requires shifted == if counter - top < WINDOW then ShiftLeft(m, counter - top) else 0
    ensures Tracks(before + [counter], counter, Mark(shifted, 0)) && IsMaximum(before + [counter], counter)
    ensures Acceptable(before, counter)
  {
    hide Bit, ShiftLeft, Mark;
    var diff := counter - top;
    forall i: nat | i < WINDOW && i <= counter
      ensures Bit(Mark(shifted, 0), i) <==> counter - i in before + [counter]
    {
      if diff < WINDOW {
        if i >= diff { assert Bit(m, i - diff) <==> top - (i - diff) in before; }
      } else {
        ZeroBit(i);
      }
    }
    assert forall i :: 0 <= i < |before| ==> before[i] in before;
  }

  lemma InWindow(before: seq<u32>, top: u32, counter: u32)
    requires IsMaximum(before, top)
    ensures TooOld(before, counter) <==> top - counter >= WINDOW
  {
    assert forall i :: 0 <= i < |before| ==> before[i] in before;
  }

  lemma OutOfWindow(before: seq<u32>, top: u32, m: u32, counter: u32)
    requires Tracks(before, top, m) && IsMaximum(before, top) && top - counter >= WINDOW
    ensures Tracks(before + [counter], top, m) && IsMaximum(before + [counter], top)
  {
    forall i: nat | i < WINDOW && i <= top
      ensures Bit(m, i) <==> top - i in before + [counter]
    {
      assert Bit(m, i) <==> top - i in before;
    }
  }

  lemma Marked(before: seq<u32>, top: u32, m: u32, counter: u32)
    requires Tracks(before, top, m) && IsMaximum(before, top) && 0 <= top - counter < WINDOW
    ensures Bit(m, top - counter) <==> counter in before
    ensures Tracks(before + [counter], top, Mark(m, top - counter)) && IsMaximum(before + [counter], top)
    ensures Bit(m, top - counter) ==> Tracks(before + [counter], top, m)
  {
    hide Bit, Mark;
    var k := top - counter;
    assert Bit(m, k) <==> top - k in before;
    forall i: nat | i < WINDOW && i <= top
      ensures Bit(Mark(m, k), i) <==> top - i in before + [counter]
      ensures Bit(m, k) ==> (Bit(m, i) <==> top - i in before + [counter])
    {
      assert Bit(m, i) <==> top - i in before;
    }
  }

  // ----- over whole runs --------------------------------------------------------------

  /** The counters a run accepts, in order. */
  ghost function AcceptedIn(received: seq<u32>): seq<u32> {
    if received == [] then []
    else
      var n := |received| - 1;
      AcceptedIn(received[..n]) + (if Acceptable(received[..n], received[n]) then [received[n]] else [])
  }

  /**
   * No counter is ever accepted twice, however often it is sent, and whatever was received but not
   * accepted had fallen 32 or more behind another counter.
   */
  lemma {:induction false} NoReplay(received: seq<u32>)
    ensures var a := AcceptedIn(received);
      && (forall i, j :: 0 <= i < j < |a| ==> a[i] != a[j])
      && (forall c :: c in a ==> c in received)
      && (forall c :: c in received && c !in a ==> TooOld(received, c))
  {
    if received != [] {
      var n := |received| - 1;
      var before := received[..n];
      NoReplay(before);
      assert received == before + [received[n]];
      var a, a0 := AcceptedIn(received), AcceptedIn(before);
      assert a == a0 || (a == a0 + [received[n]] && received[n] !in before);
      forall i, j | 0 <= i < j < |a|
        ensures a[i] != a[j]
      {
        assert a[i] == a0[i] && a0[i] in a0 && a0[i] in before;
        if j < |a0| {
          assert a[j] == a0[j];
        }
      }
      forall c | c in received && c !in AcceptedIn(received)
        ensures TooOld(received, c)
      {
        assert c in before || c == received[n];
        assert TooOld(before, c);
        var i :| 0 <= i < |before| && before[i] - c >= WINDOW;
        assert received[i] == before[i];
      }
    }
  }

  /** `y` may follow `x`: it is another counter, and not 32 or more below it. */
  predicate MayFollow(x: u32, y: u32) {
    x != y && x - y < WINDOW
  }

  /** Messages reordered or lost inside a window of 32 are all accepted, once each. */
  lemma {:induction false} ReorderingAccepted(received: seq<u32>)
    requires forall i, j :: 0 <= i < j < |received| ==> MayFollow(received[i], received[j])
    ensures AcceptedIn(received) == received
  {
    if received != [] {
      var n := |received| - 1;
      var before := received[..n];
      ReorderingAccepted(before);
      assert received == before + [received[n]];
      forall i | 0 <= i < n
        ensures before[i] != received[n] && before[i] - received[n] < WINDOW
      {
        assert MayFollow(received[i], received[n]);
      }
    }
  }

  /** No rollover: once the greatest counter is seen, exactly those below its window are lost for good. */
  lemma NoRollover(received: seq<u32>, c: u32)
    requires 0xFFFF_FFFF in received
    ensures TooOld(received, c) <==> c < 0xFFFF_FFE0
  {
    var i :| 0 <= i < |received| && received[i] == 0xFFFF_FFFF;
    if c < 0xFFFF_FFE0 {
      assert received[i] - c >= WINDOW;
    }
  }
}
