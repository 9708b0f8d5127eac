/** The pending slot and its overflow deque as the window keeps them: separate
    fields for the slot, a deque behind it and the flags other threads read. Each
    method is one critical section under the pending-frame lock. */
module PendingStores {
  import opened Frames
  import opened PendingSpec

  class PendingStore {
    const overflowEnabled: bool

    var pending: Option<Entry>      // the slot and the values kept beside it
    var overflow: seq<Entry>

    var framePresent: bool
    var queueStoredPending: bool
    var submissionActive: bool
    var releaseQueued: bool
    var droppedFrames: nat

    ghost var handedIn: seq<FrameId>
    ghost var handedOut: seq<FrameId>
    ghost var released: seq<Release>

    ghost predicate Valid()
      reads this
    {
      (pending.None? ==> overflow == []) &&
      |overflow| <= OVERFLOW_LIMIT &&
      (framePresent <==> pending.Some?)
    }

    /** Slot and deque as one sequence, oldest first. */
    function Contents(): seq<Entry>
      reads this
    {
      if pending.Some? then [pending.value] + overflow else overflow
    }

    ghost function Book(): Ledger
      reads this
    {
      Ledger(Contents(), handedIn, handedOut, released, droppedFrames)
    }

    constructor (overflowEnabled: bool)
      ensures Valid() && Book() == EMPTY && this.overflowEnabled == overflowEnabled
      ensures !framePresent && !queueStoredPending && !submissionActive && !releaseQueued
    {
      this.overflowEnabled := overflowEnabled;
      pending, overflow := None, [];
      framePresent, queueStoredPending, submissionActive, releaseQueued := false, false, false, false;
      droppedFrames := 0;
      handedIn, handedOut, released := [], [], [];
    }

    /** Inserts behind every deque entry that is not later than the new one. */
    method InsertOverflow(e: Entry)
      modifies `overflow
      ensures overflow == InsertByPts(old(overflow), e)
    {
      var pos := 0;
      while pos < |overflow| && overflow[pos].pts <= e.pts + PTS_EPSILON
        invariant 0 <= pos <= |overflow|
        invariant InsertByPts(overflow, e) == overflow[..pos] + InsertByPts(overflow[pos..], e)
      {
        assert overflow[pos..][1..] == overflow[pos + 1..];
        assert overflow[..pos] + [overflow[pos]] == overflow[..pos + 1];
        pos := pos + 1;
      }
      assert InsertByPts(overflow[pos..], e) == [e] + overflow[pos..];
      overflow := overflow[..pos] + [e] + overflow[pos..];
    }

    /** Releases every deque entry; runs when the deque is disabled. */
    method DrainOverflow()
      modifies `overflow, `droppedFrames, `released
      ensures overflow == []
      ensures droppedFrames == old(droppedFrames) + |old(overflow)|
      ensures released == old(released) + Releases(old(overflow), OverflowDisabled)
    {
      while overflow != []
        invariant droppedFrames + |overflow| == old(droppedFrames) + |old(overflow)|
        invariant released + Releases(overflow, OverflowDisabled) ==
                  old(released) + Releases(old(overflow), OverflowDisabled)
      {
        var gone := overflow[0];
        overflow := overflow[1..];
        droppedFrames := droppedFrames + 1;
        released := released + [Release(gone.frame, OverflowDisabled)];
      }
    }

    /** Takes ownership of the frame; a frame that is not later than the newest
        waiting one is released instead. */
    method StorePendingFrame(e: Entry) returns (stored: bool)
      requires Valid()
      modifies this
      ensures Valid()
      ensures var o := Store(old(Contents()), e, overflowEnabled);
              && Contents() == o.contents && released == old(released) + o.released && stored == o.accepted
              && droppedFrames == old(droppedFrames) + CountedIn(o.released)
      ensures handedIn == old(handedIn) + [e.frame] && handedOut == old(handedOut)
      ensures stored ==> framePresent && queueStoredPending
      ensures !stored ==> framePresent == old(framePresent) && queueStoredPending == old(queueStoredPending)
      ensures submissionActive == old(submissionActive) && releaseQueued == old(releaseQueued)
    {
      handedIn := handedIn + [e.frame];
      if overflowEnabled || Contents() == [] {
        stored := Place(e);
      } else {
        stored := DrainAndPlace(e);
      }
      if stored {
        framePresent := true;
        queueStoredPending := true;
      }
    }

    /** With the deque disabled, what it holds goes first. */
    method DrainAndPlace(e: Entry) returns (stored: bool)
      requires pending.Some? && !overflowEnabled && |overflow| <= OVERFLOW_LIMIT
      modifies `pending, `overflow, `droppedFrames, `released
      ensures var o := Store(old(Contents()), e, overflowEnabled);
              && Contents() == o.contents && released == old(released) + o.released && stored == o.accepted
              && droppedFrames == old(droppedFrames) + CountedIn(o.released)
      ensures pending.Some? && |overflow| <= OVERFLOW_LIMIT
    {
      ghost var c, was := Contents(), released;
      ghost var drained, k := Releases(c[1..], OverflowDisabled), StoreKept(c[..1], e, overflowEnabled);
      assert c[1..] == overflow && c[..1] == [pending.value];
      ReleasesFree(c[1..], OverflowDisabled, 0);
      FreedConcat(drained, k.released, 0);
      assert was + drained + k.released == was + (drained + k.released);
      DrainOverflow();
      assert Contents() == c[..1];
      stored := Place(e);
    }

    /** The body of a store once a disabled deque is empty. */
    method Place(e: Entry) returns (stored: bool)
      requires pending.None? ==> overflow == []
      requires |overflow| <= OVERFLOW_LIMIT
      modifies `pending, `overflow, `droppedFrames, `released
      ensures var o := StoreKept(old(Contents()), e, overflowEnabled);
              && Contents() == o.contents && released == old(released) + o.released && stored == o.accepted
              && droppedFrames == old(droppedFrames) + CountedIn(o.released)
      ensures pending.Some? && |overflow| <= OVERFLOW_LIMIT
    {
      ghost var kept := Contents();
      stored := true;
      if pending.None? {
        pending := Some(e);
      } else if pending.value.warmup && !e.warmup {
        released := released + [Release(pending.value.frame, WarmupReplace)];
        pending := Some(e);
      } else {
        var newest := if overflow == [] then pending.value.pts else overflow[|overflow| - 1].pts;
        assert newest == kept[|kept| - 1].pts;
        if e.pts <= newest + PTS_EPSILON {
          droppedFrames := droppedFrames + 1;
          released := released + [Release(e.frame, StaleReject)];
          return false;
        }
        if !overflowEnabled {
          droppedFrames := droppedFrames + 1;
          released := released + [Release(pending.value.frame, NoOverflowReplace)];
          pending := Some(e);
        } else {
          if |overflow| >= OVERFLOW_LIMIT {
            var gone := overflow[0];
            overflow := overflow[1..];
            droppedFrames := droppedFrames + 1;
            released := released + [Release(gone.frame, Evict)];
            assert overflow == kept[2..];
          }
          InsertLength(overflow, e);
          InsertOverflow(e);
        }
      }
    }

    lemma {:induction false} InsertLength(over: seq<Entry>, e: Entry)
      ensures |InsertByPts(over, e)| == |over| + 1
    {
      if over == [] {
      } else {
        InsertLength(over[1..], e);
      }
    }

    /** Moves the front of the deque into an empty slot. */
    method PromoteFromOverflow() returns (ok: bool)
      requires pending.None? ==> |overflow| <= OVERFLOW_LIMIT
      requires pending.Some? ==> Valid()
      modifies this
      ensures Valid()
      ensures Contents() == old(Contents()) && ok == (Contents() != [])
      ensures handedIn == old(handedIn) && handedOut == old(handedOut) && released == old(released)
      ensures droppedFrames == old(droppedFrames) && submissionActive == old(submissionActive)
      ensures old(pending).None? ==> queueStoredPending == ok
      ensures releaseQueued == old(releaseQueued)
    {
      if pending.Some? {
        return true;
      }
      if overflow == [] {
        framePresent := false;
        queueStoredPending := false;
        return false;
      }
      var e := overflow[0];
      overflow := overflow[1..];
      pending := Some(e);
      framePresent := true;
      queueStoredPending := true;
      ok := true;
    }

    /** Hands the oldest frame to the caller. */
    method TakePendingFrame() returns (taken: Option<Entry>)
      requires Valid()
      modifies this
      ensures Valid()
      ensures Book() == Apply(old(Book()), TakeOp, overflowEnabled)
      ensures taken == if old(Contents()) == [] then None else Some(old(Contents())[0])
      ensures queueStoredPending == (Contents() != [])
      ensures releaseQueued == (old(releaseQueued) && (taken.None? || Contents() != []))
      ensures submissionActive == old(submissionActive)
    {
      if pending.None? {
        var ok := PromoteFromOverflow();
        if !ok {
          return None;
        }
      }
      taken := Some(pending.value);
      assert Contents()[0] == taken.value;
      handedOut := handedOut + [pending.value.frame];
      pending := None;
      assert Contents() == old(Contents())[1..];
      var _ := PromoteFromOverflow();
      if pending.None? {
        releaseQueued := false;
      }
    }

    /** Releases the slot and refills it from the deque. */
    method DropPendingFrame() returns (promoted: bool)
      requires Valid()
      modifies this
      ensures Valid()
      ensures Book() == Apply(old(Book()), DiscardOp, overflowEnabled)
      ensures promoted == (Contents() != []) && queueStoredPending == promoted
      ensures releaseQueued == (old(releaseQueued) && promoted)
      ensures submissionActive == old(submissionActive)
    {
      if pending.Some? {
        released := released + [Release(pending.value.frame, Discard)];
      }
      pending := None;
      assert Contents() == if old(Contents()) == [] then [] else old(Contents())[1..];
      promoted := PromoteFromOverflow();
      if pending.None? {
        releaseQueued := false;
      }
    }

    /** After a direct push, drops and counts every pending frame not later than it. */
    method DropUpTo(pts: real)
      requires Valid()
      modifies this
      ensures Valid()
      ensures Book() == Apply(old(Book()), DiscardUpToOp(pts), overflowEnabled)
      ensures submissionActive == old(submissionActive)
    {
      ghost var c := Contents();
      ghost var n := RunUpTo(c, pts);
      while pending.Some? && pending.value.pts <= pts + PTS_EPSILON
        invariant Valid()
        invariant Contents()[RunUpTo(Contents(), pts)..] == c[n..]
        invariant released + Releases(Contents()[..RunUpTo(Contents(), pts)], Superseded) ==
                  old(released) + Releases(c[..n], Superseded)
        invariant droppedFrames + RunUpTo(Contents(), pts) == old(droppedFrames) + n
        invariant handedIn == old(handedIn) && handedOut == old(handedOut)
        invariant submissionActive == old(submissionActive)
        decreases |Contents()|
      {
        ghost var d := Contents();
        RunUpToStep(d, pts);
        droppedFrames := droppedFrames + 1;
        released := released + [Release(pending.value.frame, Superseded)];
        pending := None;
        assert Contents() == d[1..];
        var _ := PromoteFromOverflow();
        if pending.None? {
          releaseQueued := false;
        }
        assert Contents() == d[1..];
      }
      assert RunUpTo(Contents(), pts) == 0;
    }

    lemma RunUpToStep(d: seq<Entry>, pts: real)
      requires d != [] && d[0].pts <= pts + PTS_EPSILON
      ensures var m := RunUpTo(d[1..], pts);
              && RunUpTo(d, pts) == 1 + m && d[1..][m..] == d[1 + m..]
              && Releases(d[..1 + m], Superseded) ==
                   [Release(d[0].frame, Superseded)] + Releases(d[1..][..m], Superseded)
    {
      var m := RunUpTo(d[1..], pts);
      assert d[..1 + m][1..] == d[1..][..m];
    }

    lemma {:induction false} ReleasesConcat(a: seq<Entry>, b: seq<Entry>, cause: Cause)
      ensures Releases(a + b, cause) == Releases(a, cause) + Releases(b, cause)
    {
      if a == [] {
        assert a + b == b;
      } else {
        ReleasesConcat(a[1..], b, cause);
        var first, r, t := [Release(a[0].frame, cause)], Releases(a[1..], cause), Releases(b, cause);
        assert first + (r + t) == first + r + t;
        assert (a + b)[1..] == a[1..] + b;
      }
    }

    /** Rollback cleanup: releases and counts what lies before the cutoff. */
    method PrunePendingFramesBefore(cutoff: real)
      requires Valid()
      modifies this
      ensures Valid()
      ensures Contents() == Prune(old(Contents()), cutoff).contents
      ensures released == old(released) + Prune(old(Contents()), cutoff).released
      ensures droppedFrames == old(droppedFrames) + |Prune(old(Contents()), cutoff).released|
      ensures handedIn == old(handedIn) && handedOut == old(handedOut)
      ensures submissionActive == old(submissionActive)
      ensures cutoff >= 0.0 ==> queueStoredPending == (Contents() != [])
    {
      if cutoff < 0.0 {
        return;
      }
      ghost var c, over, was := Contents(), overflow, released;
      ghost var tail := Releases(over[..StaleRun(over, cutoff)], RollbackPrune);
      if c != [] {
        var head := [Release(c[0].frame, RollbackPrune)];
        assert c[1..] == over && was + head + tail == was + (head + tail);
      }
      ReleasesFree(over[..StaleRun(over, cutoff)], RollbackPrune, 0);
      PruneSlotAndOverflow(cutoff);
      Settle();
    }

    method PruneSlotAndOverflow(cutoff: real)
      modifies `pending, `overflow, `released, `droppedFrames
      ensures var p, n := old(pending), StaleRun(old(overflow), cutoff);
              var head := if p.Some? && StaleAt(p.value, cutoff) then [Release(p.value.frame, RollbackPrune)] else [];
              && pending == (if head != [] then None else p) && overflow == old(overflow)[n..]
              && released == old(released) + head + Releases(old(overflow)[..n], RollbackPrune)
              && droppedFrames == old(droppedFrames) + |head| + n
    {
      PruneSlot(cutoff);
      PruneOverflow(cutoff);
    }

    method PruneSlot(cutoff: real)
      modifies `pending, `released, `droppedFrames
      ensures var p := old(pending);
              if p.Some? && StaleAt(p.value, cutoff) then
                && pending == None && released == old(released) + [Release(p.value.frame, RollbackPrune)]
                && droppedFrames == old(droppedFrames) + 1
              else unchanged(this)
    {
      if pending.Some? && StaleAt(pending.value, cutoff) {
        droppedFrames := droppedFrames + 1;
        released := released + [Release(pending.value.frame, RollbackPrune)];
        pending := None;
      }
    }

    /** Refills an empty slot and publishes whether a frame waits. */
    method Settle()
      requires |overflow| <= OVERFLOW_LIMIT
      modifies this
      ensures Valid()
      ensures Contents() == old(Contents()) && queueStoredPending == (Contents() != [])
      ensures handedIn == old(handedIn) && handedOut == old(handedOut) && released == old(released)
      ensures droppedFrames == old(droppedFrames) && submissionActive == old(submissionActive)
    {
      if pending.None? && overflow != [] {
        pending := Some(overflow[0]);
        overflow := overflow[1..];
      }
      framePresent := pending.Some?;
      queueStoredPending := pending.Some?;
      if pending.None? {
        releaseQueued := false;
      }
    }

    method PruneOverflow(cutoff: real)
      modifies `overflow, `released, `droppedFrames
      ensures var n := StaleRun(old(overflow), cutoff);
              && overflow == old(overflow)[n..]
              && released == old(released) + Releases(old(overflow)[..n], RollbackPrune)
              && droppedFrames == old(droppedFrames) + n
    {
      ghost var over := overflow;
      ghost var n := 0;
      assert over[0..] == over;
      while overflow != [] && StaleAt(overflow[0], cutoff)
        invariant n <= |over| && overflow == over[n..]
        invariant StaleRun(over, cutoff) == n + StaleRun(overflow, cutoff)
        invariant released == old(released) + Releases(over[..n], RollbackPrune)
        invariant droppedFrames == old(droppedFrames) + n
        decreases |overflow|
      {
        assert over[n..][1..] == over[n + 1..];
        droppedFrames := droppedFrames + 1;
        released := released + [Release(overflow[0].frame, RollbackPrune)];
        ReleasesConcat(over[..n], [over[n]], RollbackPrune);
        assert over[..n] + [over[n]] == over[..n + 1];
        overflow := overflow[1..];
        n := n + 1;
      }
    }

    /** Session change or teardown: everything is released uncounted. */
    method ClearPendingFrameState()
      requires Valid()
      modifies this
      ensures Valid()
      ensures Book() == Apply(old(Book()), ClearOp, overflowEnabled)
      ensures !framePresent && !queueStoredPending && !submissionActive && !releaseQueued
    {
      ghost var c := Contents();
      ghost var over := overflow;
      if pending.Some? {
        released := released + [Release(pending.value.frame, Clear)];
      }
      pending := None;
      while overflow != []
        invariant released + Releases(overflow, Clear) == old(released) + Releases(c, Clear)
        modifies `overflow, `released
      {
        released := released + [Release(overflow[0].frame, Clear)];
        overflow := overflow[1..];
      }
      framePresent := false;
      queueStoredPending := false;
      submissionActive := false;
      releaseQueued := false;
    }

    /** The newest pending frame, for the reset seed and the snapshot. */
    method NewestPendingFrame() returns (newest: Option<Entry>)
      requires Valid()
      ensures Contents() == [] ==> newest == None
      ensures Disciplined(Contents()) && Contents() != [] ==> newest == Some(Contents()[|Contents()| - 1])
    {
      if pending.Some? {
        newest := Some(pending.value);
      } else {
        newest := None;
      }
      if overflow != [] {
        var back := overflow[|overflow| - 1];
        assert pending.Some? && Contents()[0] == pending.value && Contents()[|Contents()| - 1] == back;
        if newest.None? || back.pts > newest.value.pts + PTS_EPSILON ||
           (-PTS_EPSILON <= back.pts - newest.value.pts <= PTS_EPSILON && back.storedUs > newest.value.storedUs)
        {
          newest := Some(back);
        }
      }
    }
  }
}
