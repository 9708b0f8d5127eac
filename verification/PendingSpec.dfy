/** The pending slot and its overflow deque seen as one sequence, oldest first:
    what each store operation does to it, to the frames it lets go of and to the
    counter of dropped frames. */
module PendingSpec {
  import opened Frames

  /** Frames the overflow deque may hold behind the slot when it is enabled. */
  const OVERFLOW_LIMIT: nat := 2

  /** The most frames that can wait at once. */
  function Capacity(overflowEnabled: bool): nat {
    if overflowEnabled then 1 + OVERFLOW_LIMIT else 1
  }

  /** Why a frame buffer was released. */
  datatype Cause =
    | StaleReject | Evict | NoOverflowReplace | OverflowDisabled | RollbackPrune
    | Superseded | WarmupReplace | Discard | Clear

  datatype Release = Release(frame: FrameId, cause: Cause)

  /** The releases that also raise the counter of dropped frames. */
  predicate Counted(c: Cause) {
    c.StaleReject? || c.Evict? || c.NoOverflowReplace? || c.OverflowDisabled? ||
    c.RollbackPrune? || c.Superseded?
  }

  function CountedIn(rs: seq<Release>): nat {
    if rs == [] then 0 else (if Counted(rs[0].cause) then 1 else 0) + CountedIn(rs[1..])
  }

  function Releases(c: seq<Entry>, cause: Cause): (rs: seq<Release>) {
    if c == [] then [] else [Release(c[0].frame, cause)] + Releases(c[1..], cause)
  }

  /** How often a frame occurs among releases, held entries and handed-over frames. */
  function FreedBy(rs: seq<Release>, f: FrameId): nat {
    if rs == [] then 0 else (if rs[0].frame == f then 1 else 0) + FreedBy(rs[1..], f)
  }

  function HeldIn(c: seq<Entry>, f: FrameId): nat {
    if c == [] then 0 else (if c[0].frame == f then 1 else 0) + HeldIn(c[1..], f)
  }

  function Among(ids: seq<FrameId>, f: FrameId): nat {
    if ids == [] then 0
    else Among(ids[..|ids| - 1], f) + (if ids[|ids| - 1] == f then 1 else 0)
  }

  /** What an operation leaves behind: the sequence, the frames released (in
      order) and, for a store, whether the frame was accepted. */
  datatype Outcome = Outcome(contents: seq<Entry>, released: seq<Release>, accepted: bool)

  function InsertByPts(over: seq<Entry>, e: Entry): seq<Entry> {
    if over == [] || over[0].pts > e.pts + PTS_EPSILON then [e] + over
    else [over[0]] + InsertByPts(over[1..], e)
  }

  /** The store once a disabled deque is empty. */
  function StoreKept(kept: seq<Entry>, e: Entry, overflowEnabled: bool): Outcome {
    if kept == [] then Outcome([e], [], true)
    else if kept[0].warmup && !e.warmup then
      Outcome([e] + kept[1..], [Release(kept[0].frame, WarmupReplace)], true)
    else if e.pts <= kept[|kept| - 1].pts + PTS_EPSILON then
      Outcome(kept, [Release(e.frame, StaleReject)], false)
    else if !overflowEnabled then
      Outcome([e] + kept[1..], [Release(kept[0].frame, NoOverflowReplace)], true)
    else if |kept| - 1 >= OVERFLOW_LIMIT then
      Outcome([kept[0]] + InsertByPts(kept[2..], e), [Release(kept[1].frame, Evict)], true)
    else
      Outcome([kept[0]] + InsertByPts(kept[1..], e), [], true)
  }

  /** With the deque disabled, what it holds is released first. */
  function Store(c: seq<Entry>, e: Entry, overflowEnabled: bool): Outcome {
    if overflowEnabled || c == [] then StoreKept(c, e, overflowEnabled)
    else
      var o := StoreKept(c[..1], e, overflowEnabled);
      o.(released := Releases(c[1..], OverflowDisabled) + o.released)
  }

  predicate StaleAt(e: Entry, cutoff: real) {
    e.pts + PTS_EPSILON < cutoff || (e.warmup && e.pts <= cutoff + PTS_EPSILON)
  }

  /** How many entries at the front a rollback to `cutoff` removes. */
  function StaleRun(c: seq<Entry>, cutoff: real): (n: nat)
    ensures n <= |c|
  {
    if c == [] || !StaleAt(c[0], cutoff) then 0 else 1 + StaleRun(c[1..], cutoff)
  }

  /** Rollback cleanup looks at the slot and at the front of the deque separately. */
  function Prune(c: seq<Entry>, cutoff: real): Outcome {
    if cutoff < 0.0 || c == [] then Outcome(c, [], true)
    else
      var over, n := c[1..], StaleRun(c[1..], cutoff);
      var gone := Releases(over[..n], RollbackPrune);
      if StaleAt(c[0], cutoff) then Outcome(over[n..], [Release(c[0].frame, RollbackPrune)] + gone, true)
      else Outcome([c[0]] + over[n..], gone, true)
  }

  /** How many frames the GUI thread discards after it pushed a newer one directly. */
  function RunUpTo(c: seq<Entry>, pts: real): (n: nat)
    ensures n <= |c|
  {
    if c == [] || c[0].pts > pts + PTS_EPSILON then 0 else 1 + RunUpTo(c[1..], pts)
  }

  // ----- the discipline the timestamps keep -----

  /** Oldest first, more than the tolerance apart; a warm-up frame is at time zero
      and alone. */
  ghost predicate Disciplined(c: seq<Entry>) {
    (forall i, j :: 0 <= i < j < |c| ==> c[i].pts + PTS_EPSILON < c[j].pts) &&
    (forall i :: 0 <= i < |c| ==> Admissible(c[i]) && (c[i].warmup ==> |c| == 1))
  }

  /** Warm-ups enter at time zero, real timestamps are not negative. */
  predicate Admissible(e: Entry) {
    e.pts >= 0.0 && (e.warmup ==> e.pts == 0.0)
  }

  lemma {:induction false} InsertIsAppend(over: seq<Entry>, e: Entry)
    requires forall i :: 0 <= i < |over| ==> over[i].pts <= e.pts + PTS_EPSILON
    ensures InsertByPts(over, e) == over + [e]
  {
    if over == [] {
    } else {
      InsertIsAppend(over[1..], e);
      assert [over[0]] + (over[1..] + [e]) == over + [e];
    }
  }

  lemma AppendDisciplined(c: seq<Entry>, e: Entry)
    requires Disciplined(c) && Admissible(e)
    requires c != [] ==> !c[0].warmup && e.pts > c[|c| - 1].pts + PTS_EPSILON
    ensures Disciplined(c + [e])
  {
    var d := c + [e];
    forall i, j | 0 <= i < j < |d| ensures d[i].pts + PTS_EPSILON < d[j].pts {
      if j == |c| && i < |c| - 1 {
        assert c[i].pts + PTS_EPSILON < c[|c| - 1].pts;
      }
    }
  }

  lemma TailDisciplined(c: seq<Entry>, k: nat)
    requires Disciplined(c) && k <= |c|
    ensures Disciplined(c[k..])
  {
    var d := c[k..];
    forall i, j | 0 <= i < j < |d| ensures d[i].pts + PTS_EPSILON < d[j].pts {
      assert d[i] == c[k + i] && d[j] == c[k + j];
    }
    forall i | 0 <= i < |d| ensures Admissible(d[i]) && (d[i].warmup ==> |d| == 1) {
      assert d[i] == c[k + i];
    }
  }

  /** What a store does to a disciplined sequence, on the whole sequence: it
      appends, replaces a lone warm-up, rejects a stale frame, or, when three
      frames wait, evicts the second oldest; without the deque the newest frame
      replaces the only one. */
  function StoreSimply(c: seq<Entry>, e: Entry, overflowEnabled: bool): Outcome {
    if c == [] then Outcome([e], [], true)
    else if c[0].warmup && !e.warmup then Outcome([e], [Release(c[0].frame, WarmupReplace)], true)
    else if e.pts <= c[|c| - 1].pts + PTS_EPSILON then Outcome(c, [Release(e.frame, StaleReject)], false)
    else if !overflowEnabled then Outcome([e], [Release(c[0].frame, NoOverflowReplace)], true)
    else if |c| == 1 + OVERFLOW_LIMIT then Outcome([c[0], c[2], e], [Release(c[1].frame, Evict)], true)
    else Outcome(c + [e], [], true)
  }

  /** The sorted insertion behind the slot is an append, so the store refines its
      description on the whole sequence. */
  lemma StoreRefines(c: seq<Entry>, e: Entry, overflowEnabled: bool)
    requires Disciplined(c) && Admissible(e) && |c| <= Capacity(overflowEnabled)
    ensures Store(c, e, overflowEnabled) == StoreSimply(c, e, overflowEnabled)
  {
    assert !overflowEnabled && c != [] ==> c[..1] == c && Releases(c[1..], OverflowDisabled) == [];
    if c != [] && overflowEnabled && !(c[0].warmup && !e.warmup) && e.pts > c[|c| - 1].pts + PTS_EPSILON {
      var k := if |c| - 1 >= OVERFLOW_LIMIT then 2 else 1;
      forall i | 0 <= i < |c[k..]| ensures c[k..][i].pts <= e.pts + PTS_EPSILON {
        assert c[k + i].pts <= c[|c| - 1].pts;
      }
      InsertIsAppend(c[k..], e);
    }
  }

  /** A store keeps the discipline and the bound of three waiting frames. */
  lemma StoreKeepsDiscipline(c: seq<Entry>, e: Entry, overflowEnabled: bool)
    requires Disciplined(c) && Admissible(e) && |c| <= Capacity(overflowEnabled)
    ensures Disciplined(Store(c, e, overflowEnabled).contents)
    ensures |Store(c, e, overflowEnabled).contents| <= Capacity(overflowEnabled)
  {
    StoreRefines(c, e, overflowEnabled);
    var o := StoreSimply(c, e, overflowEnabled);
    if c != [] && o.accepted && overflowEnabled && !c[0].warmup {
      if |c| == 1 + OVERFLOW_LIMIT {
        assert Disciplined([c[0], c[2]]);
        AppendDisciplined([c[0], c[2]], e);
        assert [c[0], c[2]] + [e] == [c[0], c[2], e];
      } else {
        AppendDisciplined(c, e);
      }
    }
  }

  /** The entries a rollback to `cutoff` keeps. */
  function KeepFrom(c: seq<Entry>, cutoff: real): seq<Entry> {
    if c == [] then []
    else (if StaleAt(c[0], cutoff) then [] else [c[0]]) + KeepFrom(c[1..], cutoff)
  }

  lemma {:induction false} KeepsAll(c: seq<Entry>, cutoff: real)
    requires forall i :: 0 <= i < |c| ==> !StaleAt(c[i], cutoff)
    ensures KeepFrom(c, cutoff) == c
  {
    if c == [] {
    } else {
      KeepsAll(c[1..], cutoff);
    }
  }

  ghost predicate NoneStale(c: seq<Entry>, cutoff: real) {
    forall i :: 0 <= i < |c| ==> !StaleAt(c[i], cutoff)
  }

  lemma LaterNotStale(c: seq<Entry>, cutoff: real)
    requires Disciplined(c) && c != [] && !StaleAt(c[0], cutoff)
    ensures NoneStale(c, cutoff)
  {
    forall i | 0 <= i < |c| ensures !StaleAt(c[i], cutoff) {
      assert i > 0 ==> c[0].pts + PTS_EPSILON < c[i].pts && !c[i].warmup;
    }
  }

  lemma {:induction false} StaleRunIsFilter(c: seq<Entry>, cutoff: real)
    requires Disciplined(c)
    ensures var n := StaleRun(c, cutoff); KeepFrom(c, cutoff) == c[n..] && NoneStale(c[n..], cutoff)
  {
    if c == [] {
    } else if StaleAt(c[0], cutoff) {
      TailDisciplined(c, 1);
      StaleRunIsFilter(c[1..], cutoff);
      var m := StaleRun(c[1..], cutoff);
      assert c[1..][m..] == c[1 + m..];
    } else {
      LaterNotStale(c, cutoff);
      KeepsAll(c, cutoff);
      assert c[0..] == c;
    }
  }

  /** Rollback cleanup of a disciplined sequence is the filter by the cutoff: it
      removes exactly a prefix, and what it keeps is disciplined again. */
  lemma PruneIsFilter(c: seq<Entry>, cutoff: real)
    requires Disciplined(c) && cutoff >= 0.0
    ensures var n := StaleRun(c, cutoff);
            && Prune(c, cutoff) == Outcome(c[n..], Releases(c[..n], RollbackPrune), true)
            && c[n..] == KeepFrom(c, cutoff)
            && Disciplined(c[n..])
            && NoneStale(c[n..], cutoff)
  {
    StaleRunIsFilter(c, cutoff);
    TailDisciplined(c, StaleRun(c, cutoff));
    PruneIsPrefix(c, cutoff);
  }

  /** In plain times: what a rollback to `cutoff` keeps are the real frames that are not
      before it by more than the tolerance. */
  lemma PruneKeepsExactly(c: seq<Entry>, cutoff: real)
    requires Disciplined(c) && cutoff >= 0.0
    ensures forall x :: x in Prune(c, cutoff).contents <==> x in c && !x.warmup && x.pts + PTS_EPSILON >= cutoff
  {
    PruneIsFilter(c, cutoff);
    FilterMembers(c, cutoff);
    forall x | x in c ensures StaleAt(x, cutoff) <==> x.warmup || x.pts + PTS_EPSILON < cutoff {
      var i :| 0 <= i < |c| && c[i] == x;
    }
  }

  lemma {:induction false} FilterMembers(c: seq<Entry>, cutoff: real)
    ensures forall x :: x in KeepFrom(c, cutoff) <==> x in c && !StaleAt(x, cutoff)
  {
    if c != [] {
      FilterMembers(c[1..], cutoff);
    }
  }

  lemma PruneIsPrefix(c: seq<Entry>, cutoff: real)
    requires Disciplined(c) && cutoff >= 0.0
    ensures var n := StaleRun(c, cutoff); Prune(c, cutoff) == Outcome(c[n..], Releases(c[..n], RollbackPrune), true)
  {
    if c != [] && !StaleAt(c[0], cutoff) {
      LaterNotStale(c, cutoff);
    }
    PruneTakesRun(c, cutoff);
  }

  lemma PruneTakesRun(c: seq<Entry>, cutoff: real)
    requires cutoff >= 0.0 && (c != [] && !StaleAt(c[0], cutoff) ==> NoneStale(c, cutoff))
    ensures var n := StaleRun(c, cutoff); Prune(c, cutoff) == Outcome(c[n..], Releases(c[..n], RollbackPrune), true)
  {
    if c != [] && StaleAt(c[0], cutoff) {
      ReleasesFrom(c, StaleRun(c, cutoff), RollbackPrune);
    } else if c != [] {
      NoneStaleRun(c, cutoff);
    }
  }

  lemma ReleasesFrom(c: seq<Entry>, n: nat, cause: Cause)
    requires 0 < n <= |c|
    ensures Releases(c[..n], cause) == [Release(c[0].frame, cause)] + Releases(c[1..][..n - 1], cause)
    ensures c[1..][n - 1..] == c[n..]
  {
    assert c[..n][1..] == c[1..][..n - 1];
  }

  lemma NoneStaleRun(c: seq<Entry>, cutoff: real)
    requires c != [] && NoneStale(c, cutoff)
    ensures StaleRun(c, cutoff) == 0 && StaleRun(c[1..], cutoff) == 0 && [c[0]] + c[1..][0..] == c[0..]
  {
    assert |c| > 1 ==> c[1..][0] == c[1];
  }

  lemma {:induction false} RunUpToIsFilter(c: seq<Entry>, pts: real)
    requires Disciplined(c)
    ensures var n := RunUpTo(c, pts);
            && (forall i :: 0 <= i < n ==> c[i].pts <= pts + PTS_EPSILON)
            && (forall i :: n <= i < |c| ==> c[i].pts > pts + PTS_EPSILON)
  {
    if c == [] {
    } else if c[0].pts > pts + PTS_EPSILON {
      forall i | 0 <= i < |c| ensures c[i].pts > pts + PTS_EPSILON {
        assert i > 0 ==> c[0].pts + PTS_EPSILON < c[i].pts;
      }
    } else {
      TailDisciplined(c, 1);
      RunUpToIsFilter(c[1..], pts);
      forall i | 1 <= i < |c|
        ensures i < RunUpTo(c, pts) ==> c[i].pts <= pts + PTS_EPSILON
        ensures i >= RunUpTo(c, pts) ==> c[i].pts > pts + PTS_EPSILON
      {
        assert c[i] == c[1..][i - 1];
      }
    }
  }

  // ----- runs of store operations -----

  datatype Op =
    | StoreOp(e: Entry)
    | TakeOp
    | DiscardOp                   // releases the slot without counting it
    | DiscardUpToOp(pts: real)    // what follows a direct push, counted by its caller
    | PruneOp(cutoff: real)
    | ClearOp

  /** The sequence with the history of every frame that was handed in. */
  datatype Ledger = Ledger(contents: seq<Entry>, handedIn: seq<FrameId>, handedOut: seq<FrameId>,
                           released: seq<Release>, dropped: nat)

  function Apply(s: Ledger, op: Op, overflowEnabled: bool): Ledger {
    match op
    case StoreOp(e) =>
      var o := Store(s.contents, e, overflowEnabled);
      s.(contents := o.contents, handedIn := s.handedIn + [e.frame],
         released := s.released + o.released, dropped := s.dropped + CountedIn(o.released))
    case TakeOp =>
      if s.contents == [] then s
      else s.(contents := s.contents[1..], handedOut := s.handedOut + [s.contents[0].frame])
    case DiscardOp =>
      if s.contents == [] then s
      else s.(contents := s.contents[1..], released := s.released + [Release(s.contents[0].frame, Discard)])
    case DiscardUpToOp(pts) =>
      var n := RunUpTo(s.contents, pts);
      s.(contents := s.contents[n..], released := s.released + Releases(s.contents[..n], Superseded),
         dropped := s.dropped + n)
    case PruneOp(cutoff) =>
      var o := Prune(s.contents, cutoff);
      s.(contents := o.contents, released := s.released + o.released, dropped := s.dropped + |o.released|)
    case ClearOp =>
      s.(contents := [], released := s.released + Releases(s.contents, Clear))
  }

  function Run(s: Ledger, ops: seq<Op>, overflowEnabled: bool): Ledger {
    if ops == [] then s
    else Apply(Run(s, ops[..|ops| - 1], overflowEnabled), ops[|ops| - 1], overflowEnabled)
  }

  // ----- conservation -----

  /** Every frame handed in is held, handed out or released, each as often as it
      came in, and the counter counts exactly the counted releases. */
  ghost predicate Balanced(s: Ledger) {
    (forall f :: Among(s.handedIn, f) == HeldIn(s.contents, f) + Among(s.handedOut, f) + FreedBy(s.released, f)) &&
    s.dropped == CountedIn(s.released)
  }

  lemma {:induction false} HeldConcat(a: seq<Entry>, b: seq<Entry>, f: FrameId)
    ensures HeldIn(a + b, f) == HeldIn(a, f) + HeldIn(b, f)
  {
    if a == [] {
      assert a + b == b;
    } else {
      HeldConcat(a[1..], b, f);
      assert (a + b)[1..] == a[1..] + b;
    }
  }

  lemma {:induction false} FreedConcat(a: seq<Release>, b: seq<Release>, f: FrameId)
    ensures FreedBy(a + b, f) == FreedBy(a, f) + FreedBy(b, f)
    ensures CountedIn(a + b) == CountedIn(a) + CountedIn(b)
  {
    if a == [] {
      assert a + b == b;
    } else {
      FreedConcat(a[1..], b, f);
      assert (a + b)[1..] == a[1..] + b;
    }
  }

  lemma {:induction false} ReleasesFree(c: seq<Entry>, cause: Cause, f: FrameId)
    ensures FreedBy(Releases(c, cause), f) == HeldIn(c, f)
    ensures CountedIn(Releases(c, cause)) == if Counted(cause) then |c| else 0
    ensures |Releases(c, cause)| == |c|
  {
    if c == [] {
    } else {
      ReleasesFree(c[1..], cause, f);
      var rs := Releases(c, cause);
      assert rs[1..] == Releases(c[1..], cause);
    }
  }

  /** Every frame that a store does not keep waiting is counted as dropped, except a
      warm-up that gives way to a real frame. */
  lemma StoreCounts(c: seq<Entry>, e: Entry, overflowEnabled: bool)
    ensures var o := Store(c, e, overflowEnabled);
            |o.contents| + CountedIn(o.released) == |c| + if c != [] && c[0].warmup && !e.warmup then 0 else 1
  {
    if !overflowEnabled && c != [] {
      KeptCounts(c[..1], e, overflowEnabled);
      ReleasesFree(c[1..], OverflowDisabled, 0);
      FreedConcat(Releases(c[1..], OverflowDisabled), StoreKept(c[..1], e, overflowEnabled).released, 0);
    } else {
      KeptCounts(c, e, overflowEnabled);
    }
  }

  lemma KeptCounts(c: seq<Entry>, e: Entry, overflowEnabled: bool)
    requires !overflowEnabled ==> |c| <= 1
    ensures var o := StoreKept(c, e, overflowEnabled);
            |o.contents| + CountedIn(o.released) == |c| + if c != [] && c[0].warmup && !e.warmup then 0 else 1
  {
    if |c| > 0 {
      InsertGrows(c[1..], e);
    }
    if |c| > 1 {
      InsertGrows(c[2..], e);
    }
  }

  lemma {:induction false} InsertGrows(over: seq<Entry>, e: Entry)
    ensures |InsertByPts(over, e)| == |over| + 1
  {
    if over != [] {
      InsertGrows(over[1..], e);
    }
  }

  /** And every frame a rollback or a direct push takes away is. */
  lemma SweepsCount(c: seq<Entry>, cutoff: real, pts: real)
    ensures |Prune(c, cutoff).contents| + CountedIn(Prune(c, cutoff).released) == |c|
    ensures CountedIn(Releases(c[..RunUpTo(c, pts)], Superseded)) == RunUpTo(c, pts)
  {
    ReleasesFree(c[..RunUpTo(c, pts)], Superseded, 0);
    if c != [] {
      var over, n := c[1..], StaleRun(c[1..], cutoff);
      ReleasesFree(over[..n], RollbackPrune, 0);
      assert CountedIn([Release(c[0].frame, RollbackPrune)]) == 1;
      FreedConcat([Release(c[0].frame, RollbackPrune)], Releases(over[..n], RollbackPrune), 0);
    }
  }

  lemma {:induction false} InsertHolds(over: seq<Entry>, e: Entry, f: FrameId)
    ensures HeldIn(InsertByPts(over, e), f) == HeldIn(over, f) + HeldIn([e], f)
  {
    if over == [] || over[0].pts > e.pts + PTS_EPSILON {
      HeldConcat([e], over, f);
    } else {
      InsertHolds(over[1..], e, f);
      HeldConcat([over[0]], InsertByPts(over[1..], e), f);
    }
  }

  lemma SplitHolds(c: seq<Entry>, k: nat, f: FrameId)
    requires k <= |c|
    ensures HeldIn(c, f) == HeldIn(c[..k], f) + HeldIn(c[k..], f)
  {
    HeldConcat(c[..k], c[k..], f);
    assert c[..k] + c[k..] == c;
  }

  /** No store loses or duplicates a frame, whatever the timestamps are. */
  lemma StoreConserves(c: seq<Entry>, e: Entry, overflowEnabled: bool, f: FrameId)
    ensures var o := Store(c, e, overflowEnabled);
            HeldIn(o.contents, f) + FreedBy(o.released, f) == HeldIn(c, f) + HeldIn([e], f)
  {
    if overflowEnabled || c == [] {
      StoreKeptConserves(c, e, overflowEnabled, f);
    } else {
      StoreKeptConserves(c[..1], e, overflowEnabled, f);
      SplitHolds(c, 1, f);
      ReleasesFree(c[1..], OverflowDisabled, f);
      FreedConcat(Releases(c[1..], OverflowDisabled), StoreKept(c[..1], e, overflowEnabled).released, f);
    }
  }

  lemma StoreKeptConserves(kept: seq<Entry>, e: Entry, overflowEnabled: bool, f: FrameId)
    ensures var o := StoreKept(kept, e, overflowEnabled);
            HeldIn(o.contents, f) + FreedBy(o.released, f) == HeldIn(kept, f) + HeldIn([e], f)
  {
    if kept != [] {
      HeldConcat([e], kept[1..], f);
      InsertHolds(kept[1..], e, f);
      HeldConcat([kept[0]], InsertByPts(kept[1..], e), f);
      if |kept| > 1 {
        assert kept[1..][1..] == kept[2..];
        InsertHolds(kept[2..], e, f);
        HeldConcat([kept[0]], InsertByPts(kept[2..], e), f);
      }
    }
  }

  lemma PruneConserves(c: seq<Entry>, cutoff: real, f: FrameId)
    ensures var o := Prune(c, cutoff);
            && HeldIn(o.contents, f) + FreedBy(o.released, f) == HeldIn(c, f)
            && CountedIn(o.released) == |o.released|
  {
    if cutoff >= 0.0 && c != [] {
      var over, n := c[1..], StaleRun(c[1..], cutoff);
      var gone := Releases(over[..n], RollbackPrune);
      ReleasesFree(over[..n], RollbackPrune, f);
      SplitHolds(over, n, f);
      HeldConcat([c[0]], over[n..], f);
      FreedConcat([Release(c[0].frame, RollbackPrune)], gone, f);
    }
  }

  lemma AmongAppend(ids: seq<FrameId>, g: FrameId, f: FrameId)
    ensures Among(ids + [g], f) == Among(ids, f) + (if g == f then 1 else 0)
  {
    assert (ids + [g])[..|ids|] == ids;
  }

  lemma ApplyConserves(s: Ledger, op: Op, overflowEnabled: bool)
    requires Balanced(s)
    ensures Balanced(Apply(s, op, overflowEnabled))
  {
    var t := Apply(s, op, overflowEnabled);
    forall f
      ensures Among(t.handedIn, f) == HeldIn(t.contents, f) + Among(t.handedOut, f) + FreedBy(t.released, f)
      ensures t.dropped == CountedIn(t.released)
    {
      ApplyConservesOne(s, op, overflowEnabled, f);
    }
    ApplyConservesOne(s, op, overflowEnabled, 0);
  }

  lemma ApplyConservesOne(s: Ledger, op: Op, overflowEnabled: bool, f: FrameId)
    requires Balanced(s)
    ensures var t := Apply(s, op, overflowEnabled);
            && Among(t.handedIn, f) == HeldIn(t.contents, f) + Among(t.handedOut, f) + FreedBy(t.released, f)
            && t.dropped == CountedIn(t.released)
  {
    var c := s.contents;
    match op
    case StoreOp(e) =>
      var o := Store(c, e, overflowEnabled);
      StoreConserves(c, e, overflowEnabled, f);
      FreedConcat(s.released, o.released, f);
      AmongAppend(s.handedIn, e.frame, f);
    case TakeOp =>
      if c != [] {
        AmongAppend(s.handedOut, c[0].frame, f);
      }
    case DiscardOp =>
      if c != [] {
        FreedConcat(s.released, [Release(c[0].frame, Discard)], f);
      }
    case DiscardUpToOp(pts) =>
      var n := RunUpTo(c, pts);
      SplitHolds(c, n, f);
      ReleasesFree(c[..n], Superseded, f);
      FreedConcat(s.released, Releases(c[..n], Superseded), f);
    case PruneOp(cutoff) =>
      PruneConserves(c, cutoff, f);
      FreedConcat(s.released, Prune(c, cutoff).released, f);
    case ClearOp =>
      ReleasesFree(c, Clear, f);
      FreedConcat(s.released, Releases(c, Clear), f);
  }

  const EMPTY: Ledger := Ledger([], [], [], [], 0)

  /** Over every run of store operations, on any timestamps. */
  lemma {:induction false} RunConserves(ops: seq<Op>, overflowEnabled: bool)
    ensures Balanced(Run(EMPTY, ops, overflowEnabled))
  {
    if ops == [] {
    } else {
      RunConserves(ops[..|ops| - 1], overflowEnabled);
      ApplyConserves(Run(EMPTY, ops[..|ops| - 1], overflowEnabled), ops[|ops| - 1], overflowEnabled);
    }
  }

  /** A frame that was handed in once is in exactly one place, once. */
  lemma ExactlyOnePlace(ops: seq<Op>, overflowEnabled: bool, f: FrameId)
    ensures var s := Run(EMPTY, ops, overflowEnabled);
            Among(s.handedIn, f) == 1 ==>
              HeldIn(s.contents, f) + Among(s.handedOut, f) + FreedBy(s.released, f) == 1
  {
    RunConserves(ops, overflowEnabled);
  }

  ghost predicate AllAdmissible(ops: seq<Op>) {
    forall i :: 0 <= i < |ops| ==> ops[i].StoreOp? ==> Admissible(ops[i].e)
  }

  lemma ApplyKeepsDiscipline(s: Ledger, op: Op, overflowEnabled: bool)
    requires Disciplined(s.contents) && |s.contents| <= Capacity(overflowEnabled) && (op.StoreOp? ==> Admissible(op.e))
    ensures var c := Apply(s, op, overflowEnabled).contents; Disciplined(c) && |c| <= Capacity(overflowEnabled)
  {
    match op
    case StoreOp(e) => StoreKeepsDiscipline(s.contents, e, overflowEnabled);
    case TakeOp => if s.contents != [] { TailDisciplined(s.contents, 1); }
    case DiscardOp => if s.contents != [] { TailDisciplined(s.contents, 1); }
    case DiscardUpToOp(pts) => TailDisciplined(s.contents, RunUpTo(s.contents, pts));
    case PruneOp(cutoff) =>
      TailDisciplined(s.contents, StaleRun(s.contents, cutoff));
      if cutoff >= 0.0 {
        PruneIsPrefix(s.contents, cutoff);
      }
    case ClearOp =>
  }

  /** Over every run the sequence stays disciplined and never holds more than
      three frames (one, when the deque is disabled). */
  lemma {:induction false} RunStaysDisciplined(ops: seq<Op>, overflowEnabled: bool)
    requires AllAdmissible(ops)
    ensures var c := Run(EMPTY, ops, overflowEnabled).contents; Disciplined(c) && |c| <= Capacity(overflowEnabled)
  {
    if ops == [] {
    } else {
      RunStaysDisciplined(ops[..|ops| - 1], overflowEnabled);
      ApplyKeepsDiscipline(Run(EMPTY, ops[..|ops| - 1], overflowEnabled), ops[|ops| - 1], overflowEnabled);
    }
  }
}
