/** Where the order of the hand-off ends: frames that reach the display queue a second
    time, because they were captured or kept and are still on their way as well. */
module HandoffReplay {
  import opened Frames
  import opened Handoff
  import opened HandoffOrder
  import P = PendingSpec

  /** Some continuation pushes a frame that is not later than one pushed before. */
  ghost predicate Breaks(s: State, c: Config) {
    exists more :: CalmRun(s, more, c) && !Rising(Run(s, more, c).pushed)
  }

  lemma BreaksNow(s: State, c: Config)
    requires !Rising(s.pushed)
    ensures Breaks(s, c)
  {
    assert CalmRun(s, [], c) && Run(s, [], c) == s;
  }

  lemma {:induction false} RunFrom(s: State, ev: Event, more: seq<Event>, c: Config)
    requires Enabled(s, ev, c) && Calm(s, ev, c) && CalmRun(Next(s, ev, c), more, c)
    ensures CalmRun(s, [ev] + more, c) && Run(s, [ev] + more, c) == Run(Next(s, ev, c), more, c)
  {
    var evs := [ev] + more;
    if more == [] {
      assert evs[..0] == [] && CalmRun(s, [], c) && Run(s, [], c) == s;
    } else {
      var n := |more| - 1;
      RunFrom(s, ev, more[..n], c);
      assert evs[..|evs| - 1] == [ev] + more[..n];
    }
  }

  lemma BreaksBefore(s: State, ev: Event, t: State, c: Config)
    requires Enabled(s, ev, c) && Calm(s, ev, c) && t == Next(s, ev, c) && Breaks(t, c)
    ensures Breaks(s, c)
  {
    var more :| CalmRun(t, more, c) && !Rising(Run(t, more, c).pushed);
    RunFrom(s, ev, more, c);
  }

  // ----- from a frame that can still be promoted to a push out of order -----

  /** Nothing renders, something was pushed, and there is room in the queue. */
  ghost predicate Resting(s: State, c: Config) {
    && s.renderer.Outside? && !s.submitting && |s.queue| < c.depthLimit && s.pushed != [] && s.origin >= 0.0
    && P.Disciplined(s.store) && |s.store| <= P.Capacity(c.overflowEnabled)
  }

  /** The first waiting frame is real and not later than the one pushed last. */
  ghost predicate HeadPasses(s: State) {
    s.store != [] && !s.store[0].warmup && s.store[0].pts <= Last(s.pushed) + PTS_EPSILON
  }

  /** So is the frame in the GUI thread's hands. */
  ghost predicate HeldPasses(s: State) {
    Unpushed(s.gui) && !s.gui.e.warmup && s.gui.e.pts <= Last(s.pushed) + PTS_EPSILON
  }

  lemma NotRising(p: seq<real>, x: real)
    requires p != [] && x <= Last(p) + PTS_EPSILON
    ensures !Rising(p + [x])
  {
    assert (p + [x])[|p| - 1] == Last(p) && (p + [x])[|p|] == x;
  }

  /** The head is promoted when a frame is decided on while nothing renders. */
  lemma DecidingBreaks(s: State, c: Config)
    requires Resting(s, c) && HeadPasses(s) && s.gui.Deciding? && !s.gui.busy
    ensures Breaks(s, c)
  {
    var t := s.(store := s.store[1..], gui := Promoting(s.gui.e, s.store[0]));
    var u := Next(t, PushPromoted, c);
    NotRising(s.pushed, s.store[0].pts);
    BreaksNow(u, c);
    BreaksBefore(t, PushPromoted, u, c);
    BreaksBefore(s, Decide, t, c);
  }

  /** A frame later than anything so far. */
  function NextFrame(s: State): Entry {
    Entry(0, Max(Max(Last(s.delivered), s.origin), 0.0) + 1.0, 0.0, 0.0, 0, false)
  }

  lemma FlaggedHeadBreaks(s: State, c: Config)
    requires Resting(s, c) && HeadPasses(s) && s.gui.Flagged?
    ensures Breaks(s, c)
  {
    var t := s.(gui := Deciding(s.gui.e, s.gui.submitting, false));
    DecidingBreaks(t, c);
    BreaksBefore(s, ReadSchedule(false), t, c);
  }

  lemma CheckedHeadBreaks(s: State, c: Config)
    requires Resting(s, c) && HeadPasses(s) && s.gui.Checked?
    ensures Breaks(s, c)
  {
    var t := s.(gui := Flagged(s.gui.e, false));
    FlaggedHeadBreaks(t, c);
    BreaksBefore(s, ReadSubmission(false), t, c);
  }

  /** With an idle GUI thread, the next frame promotes the head. */
  lemma IdleBreaks(s: State, c: Config)
    requires Resting(s, c) && HeadPasses(s) && s.gui.Idle?
    ensures Breaks(s, c)
  {
    var x := NextFrame(s);
    var t := s.(gui := Checked(x), delivered := s.delivered + [x.pts]);
    assert Rollback(s, x.pts) == s;
    CheckedHeadBreaks(t, c);
    BreaksBefore(s, Deliver(x), t, c);
  }

  /** The GUI thread stores its frame: the head stays, or the frame becomes the head. */
  lemma StoringBreaks(s: State, c: Config)
    requires Resting(s, c) && s.gui.Storing? && P.Admissible(s.gui.e)
    requires HeadPasses(s) || HeldPasses(s)
    requires HeadPasses(s) && !HeldPasses(s) ==> c.overflowEnabled || s.gui.e.warmup
    requires !s.gui.e.warmup && HeldPasses(s) ==> StoreBefore(s.store, s.gui.e.pts)
    ensures Breaks(s, c)
  {
    var e := s.gui.e;
    P.StoreRefines(s.store, e, c.overflowEnabled);
    P.StoreKeepsDiscipline(s.store, e, c.overflowEnabled);
    var t := Next(s, StoreFrame, c);
    StoredHead(s.store, e, c.overflowEnabled);
    IdleBreaks(t, c);
    BreaksBefore(s, StoreFrame, t, c);
  }

  lemma StoredHead(store: seq<Entry>, e: Entry, overflowEnabled: bool)
    requires P.Disciplined(store) && P.Admissible(e) && |store| <= P.Capacity(overflowEnabled)
    ensures var r := P.Store(store, e, overflowEnabled).contents;
            && r != []
            && (store != [] && !store[0].warmup && (overflowEnabled || e.warmup) ==> r[0] == store[0])
            && (!e.warmup && StoreBefore(store, e.pts) ==>
                  r[0] == e || (store != [] && !store[0].warmup && store[0].pts < e.pts && r[0] == store[0]))
  {
    P.StoreRefines(store, e, overflowEnabled);
    if store != [] {
      assert P.Admissible(store[|store| - 1]) && P.Admissible(store[0]);
    }
  }

  /** After the sweep, a frame that was not leaving is the head or has one before it. */
  lemma SweepingBreaks(s: State, c: Config)
    requires Resting(s, c) && s.gui.Sweeping? && !WaitAfter(s.store, Last(s.pushed), false, s.gui, c)
    ensures Breaks(s, c)
  {
    var t := Next(s, Sweep, c);
    SweptHead(s.store, s.gui, Last(s.pushed), c);
    FirstOvertakes(t.store, Last(s.pushed));
    IdleBreaks(t, c);
    BreaksBefore(s, Sweep, t, c);
  }

  lemma SweptHead(store: seq<Entry>, g: Gui, t: real, c: Config)
    requires P.Disciplined(store) && g.Sweeping? && !WaitAfter(store, t, false, g, c)
    ensures var rest := store[P.RunUpTo(store, g.e.pts)..]; P.Disciplined(rest) && !StoreAfter(rest, t)
  {
    var n := P.RunUpTo(store, g.e.pts);
    P.RunUpToIsFilter(store, g.e.pts);
    P.TailDisciplined(store, n);
    StaysBehind(store, n, g, t, c);
  }

  lemma StaysBehind(store: seq<Entry>, n: nat, g: Gui, t: real, c: Config)
    requires n <= |store| && g.Sweeping? && !WaitAfter(store, t, false, g, c)
    requires forall i :: 0 <= i < n ==> store[i].pts <= g.e.pts + PTS_EPSILON
    ensures !StoreAfter(store[n..], t)
  {
    var i :| 0 <= i < |store| && !(store[i].warmup || t + PTS_EPSILON < store[i].pts || Leaving(g, store[i], c));
    assert store[n..][i - n] == store[i];
  }

  lemma FirstOvertakes(store: seq<Entry>, t: real)
    requires P.Disciplined(store) && !StoreAfter(store, t)
    ensures store != [] && !store[0].warmup && store[0].pts <= t + PTS_EPSILON
  {
    var i :| 0 <= i < |store| && !store[i].warmup && store[i].pts <= t + PTS_EPSILON;
    assert i > 0 ==> store[0].pts + PTS_EPSILON < store[i].pts;
  }

  /** A decision made while something rendered pushes the frame or stores it. */
  lemma BusyBreaks(s: State, c: Config)
    requires Resting(s, c) && s.gui.Deciding? && s.gui.busy && P.Admissible(s.gui.e)
    requires HeadPasses(s) || HeldPasses(s)
    requires HeadPasses(s) && !HeldPasses(s) ==> c.overflowEnabled || s.gui.e.warmup
    requires !s.gui.e.warmup && HeldPasses(s) ==> StoreBefore(s.store, s.gui.e.pts)
    ensures Breaks(s, c)
  {
    var e := s.gui.e;
    if s.store == [] && !s.gui.submitting {
      var t := Next(s, Decide, c);
      NotRising(s.pushed, e.pts);
      BreaksNow(t, c);
      BreaksBefore(s, Decide, t, c);
    } else {
      var t := s.(gui := Storing(e));
      StoringBreaks(t, c);
      BreaksBefore(s, Decide, t, c);
    }
  }

  lemma FlaggedBreaks(s: State, c: Config)
    requires Resting(s, c) && s.gui.Flagged? && P.Admissible(s.gui.e) && (HeadPasses(s) || HeldPasses(s))
    requires HeldPasses(s) ==> StoreBefore(s.store, s.gui.e.pts)
    ensures Breaks(s, c)
  {
    if HeadPasses(s) {
      FlaggedHeadBreaks(s, c);
    } else {
      var t := s.(gui := Deciding(s.gui.e, s.gui.submitting, true));
      BusyBreaks(t, c);
      BreaksBefore(s, ReadSchedule(true), t, c);
    }
  }

  /** Whatever the GUI thread is doing, a frame that can still be pushed and is not
      later than the last one breaks the order in some continuation. */
  lemma RestingBreaks(s: State, c: Config)
    requires Resting(s, c) && !s.gui.Promoting? && (s.gui.Deciding? ==> s.gui.busy)
    requires !s.gui.Idle? ==> P.Admissible(s.gui.e)
    requires Unpushed(s.gui) && !s.gui.e.warmup ==> StoreBefore(s.store, s.gui.e.pts)
    requires HeldPasses(s) || !WaitAfter(s.store, Last(s.pushed), false, s.gui, c)
    ensures Breaks(s, c)
  {
    if !s.gui.Sweeping? && !WaitAfter(s.store, Last(s.pushed), false, s.gui, c) {
      FirstOvertakes(s.store, Last(s.pushed));
    }
    match s.gui
    case Idle => IdleBreaks(s, c);
    case Checked(e) =>
      var t := s.(gui := Flagged(e, false));
      FlaggedBreaks(t, c);
      BreaksBefore(s, ReadSubmission(false), t, c);
    case Flagged(_, _) => FlaggedBreaks(s, c);
    case Deciding(_, _, _) => BusyBreaks(s, c);
    case Storing(_) => StoringBreaks(s, c);
    case Sweeping(_) => SweepingBreaks(s, c);
  }

  /** From inside a render: it shows what is queued and ends. */
  lemma ReadyBreaks(s: State, c: Config)
    requires ValidConfig(c) && s.renderer.Ready? && Resting(s.(renderer := Outside, queue := []), c)
    requires !s.gui.Promoting? && (s.gui.Deciding? ==> s.gui.busy)
    requires !s.gui.Idle? ==> P.Admissible(s.gui.e)
    requires Unpushed(s.gui) && !s.gui.e.warmup ==> StoreBefore(s.store, s.gui.e.pts)
    requires HeldPasses(s) || !WaitAfter(s.store, Last(s.pushed), false, s.gui, c)
    ensures Breaks(s, c)
  {
    var t := s.(queue := []);
    var u := t.(renderer := Outside);
    RestingBreaks(u, c);
    BreaksBefore(t, FinishRender, u, c);
    BreaksBefore(s, Consume(|s.queue|), t, c);
  }

  // ----- a captured or kept frame is submitted -----

  /** The submitted frame is pushed: what the GUI thread holds stays, and so does what
      waits, unless the timeline is rolled back. */
  lemma SubmissionPushes(t: State, e: Entry, c: Config)
    requires t.renderer == Taken(e) && Real(e) && !Stale(t, e) && (|t.queue| < c.depthLimit || RollsBack(t, e))
    requires P.Disciplined(t.store) && |t.store| <= P.Capacity(c.overflowEnabled) && ValidConfig(c)
    ensures var u := Next(t, Submit, c);
            && u.renderer.Finishing? && u.gui == t.gui && u.origin >= 0.0
            && u.pushed != [] && Last(u.pushed) == e.pts
            && u.store == (if RollsBack(t, e) then P.Prune(t.store, e.pts).contents else t.store)
            && P.Disciplined(u.store) && |u.store| <= P.Capacity(c.overflowEnabled)
  {
    SubmissionState(t, e, c);
    PrunedDisciplined(t.store, e.pts);
  }

  lemma SubmissionState(t: State, e: Entry, c: Config)
    requires t.renderer == Taken(e) && Real(e) && !Stale(t, e) && (|t.queue| < c.depthLimit || RollsBack(t, e))
    requires ValidConfig(c)
    ensures var r := Rollback(t, e.pts);
            && Next(t, Submit, c) == Push(r, e).(newest := Max(r.newest, e.pts), renderer := Finishing)
            && r.origin >= 0.0 && r.gui == t.gui
            && r.store == (if RollsBack(t, e) then P.Prune(t.store, e.pts).contents else t.store)
  {
  }

  lemma PrunedDisciplined(store: seq<Entry>, cutoff: real)
    requires P.Disciplined(store) && cutoff >= 0.0
    ensures var r := P.Prune(store, cutoff).contents; P.Disciplined(r) && |r| <= |store|
  {
    P.PruneIsFilter(store, cutoff);
  }

  /** A frame that waits and is not later survives the rollback. */
  lemma RollbackLeaves(store: seq<Entry>, t: real, g: Gui, c: Config)
    requires P.Disciplined(store) && t >= 0.0 && !WaitAfter(store, t, true, g, c)
    ensures !WaitAfter(P.Prune(store, t).contents, t, false, g, c)
  {
    var i :| 0 <= i < |store| && !store[i].warmup && store[i].pts <= t + PTS_EPSILON && !Leaving(g, store[i], c) &&
             store[i].pts + PTS_EPSILON >= t;
    var w := store[i];
    KeepsFresh(store, t, i);
    P.PruneIsFilter(store, t);
    MemberPasses(P.KeepFrom(store, t), w, t, g, c);
  }

  lemma MemberPasses(store: seq<Entry>, w: Entry, t: real, g: Gui, c: Config)
    requires w in store && !w.warmup && w.pts <= t + PTS_EPSILON && !Leaving(g, w, c)
    ensures !WaitAfter(store, t, false, g, c)
  {
    var j :| 0 <= j < |store| && store[j] == w;
  }

  lemma {:induction false} KeepsFresh(store: seq<Entry>, cutoff: real, i: nat)
    requires i < |store| && !P.StaleAt(store[i], cutoff)
    ensures store[i] in P.KeepFrom(store, cutoff)
  {
    if i > 0 {
      KeepsFresh(store[1..], cutoff, i - 1);
    }
  }

  /** A frame that is pushed before one that can still be pushed breaks the order. */
  lemma PushBreaks(t: State, e: Entry, c: Config)
    requires ValidConfig(c) && StoreOrdered(t, c) && GuiOrdered(t) && t.renderer == Taken(e) && Real(e)
    requires !Stale(t, e) && !Full(t, e, c)
    requires !HeldAfter(t, e) || !WaitAfter(t.store, e.pts, RollsBack(t, e), t.gui, c)
    ensures Breaks(t, c)
  {
    SubmissionPushes(t, e, c);
    P.PruneIsFilter(t.store, e.pts);
    TailKeeps(t.store, P.StaleRun(t.store, e.pts));
    if HeldAfter(t, e) && RollsBack(t, e) {
      RollbackLeaves(t.store, e.pts, t.gui, c);
    }
    var u := Next(t, Submit, c);
    var v := u.(submitting := false, renderer := Ready);
    ReadyBreaks(v, c);
    BreaksBefore(u, EndSubmission, v, c);
    BreaksBefore(t, Submit, u, c);
  }

  /** The last waiting frame is not earlier than the one the GUI thread holds. */
  ghost predicate HeldBehind(s: State, e: Entry, c: Config) {
    && P.Disciplined(s.store) && |s.store| <= P.Capacity(c.overflowEnabled)
    && s.store != [] && s.store[|s.store| - 1] == e && Real(e) && !Stale(s, e)
    && Unpushed(s.gui) && Real(s.gui.e) && s.gui.e.pts <= e.pts + PTS_EPSILON
    && !s.gui.Promoting? && (s.gui.Deciding? ==> s.gui.busy)
  }

  /** The render thread pushes the last waiting frame, and then the held one follows. */
  lemma LastBreaks(s: State, e: Entry, c: Config)
    requires ValidConfig(c) && HeldBehind(s, e, c) && s.renderer.Ready? && s.queue == [] && |s.store| == 1
    ensures Breaks(s, c)
  {
    var t := s.(submitting := true, store := [], renderer := Taken(e));
    assert s.store[1..] == [];
    SubmissionPushes(t, e, c);
    var u := Next(t, Submit, c);
    assert P.Prune([], e.pts).contents == [];
    var v := u.(submitting := false, renderer := Ready);
    ReadyBreaks(v, c);
    BreaksBefore(u, EndSubmission, v, c);
    BreaksBefore(t, Submit, u, c);
    BreaksBefore(s, Take, t, c);
  }

  /** Submitting an earlier frame leaves what waits, and does not make e stale. */
  lemma EarlierSubmitted(t: State, h: Entry, e: Entry, c: Config)
    requires ValidConfig(c) && t.renderer == Taken(h) && Real(h) && t.queue == []
    requires P.Disciplined(t.store) && |t.store| <= P.Capacity(c.overflowEnabled)
    requires P.Prune(t.store, h.pts).contents == t.store && h.pts + PTS_EPSILON < e.pts && !Stale(t, e)
    ensures var u := Next(t, Submit, c);
            u.renderer.Finishing? && u.store == t.store && u.gui == t.gui && !Stale(u, e)
  {
    if !Stale(t, h) {
      SubmissionState(t, h, c);
    }
  }

  lemma HeadIsEarlier(store: seq<Entry>)
    requires P.Disciplined(store) && |store| > 1
    ensures Real(store[0]) && store[0].pts + PTS_EPSILON < store[|store| - 1].pts && P.Disciplined(store[1..])
  {
    P.TailDisciplined(store, 1);
    assert P.Admissible(store[0]);
  }

  lemma NothingStale(store: seq<Entry>, cutoff: real)
    requires P.Disciplined(store) && |store| > 1 && cutoff == store[0].pts
    ensures P.Prune(store[1..], cutoff).contents == store[1..]
  {
    var rest := store[1..];
    forall i | 0 <= i < |rest| ensures !P.StaleAt(rest[i], cutoff) {
      assert rest[i] == store[i + 1];
    }
    P.TailDisciplined(store, 1);
    P.PruneIsFilter(rest, cutoff);
    assert P.StaleRun(rest, cutoff) == 0 && rest[0..] == rest;
  }

  /** The render thread works off what waits, and the held frame follows the last. */
  lemma {:induction false} DrainBreaks(s: State, e: Entry, c: Config)
    requires ValidConfig(c) && HeldBehind(s, e, c) && s.renderer.Ready?
    ensures Breaks(s, c)
    decreases |s.store|, 1
  {
    var t := s.(queue := []);
    ShownBreaks(t, e, c);
    BreaksBefore(s, Consume(|s.queue|), t, c);
  }

  lemma {:induction false} ShownBreaks(s: State, e: Entry, c: Config)
    requires ValidConfig(c) && HeldBehind(s, e, c) && s.renderer.Ready? && s.queue == []
    ensures Breaks(s, c)
    decreases |s.store|, 0
  {
    if |s.store| == 1 {
      LastBreaks(s, e, c);
    } else {
      var t := HeadTaken(s, e, c);
      TakenBreaks(t, s.store[0], e, c);
      BreaksBefore(s, Take, t, c);
    }
  }

  lemma HeadTaken(s: State, e: Entry, c: Config) returns (t: State)
    requires HeldBehind(s, e, c) && s.renderer.Ready? && s.queue == [] && |s.store| > 1
    ensures t == Next(s, Take, c) && t.renderer == Taken(s.store[0]) && t.queue == [] && |t.store| == |s.store| - 1
    ensures HeldBehind(t, e, c) && Real(s.store[0]) && s.store[0].pts + PTS_EPSILON < e.pts
    ensures P.Prune(t.store, s.store[0].pts).contents == t.store
  {
    HeadIsEarlier(s.store);
    NothingStale(s.store, s.store[0].pts);
    t := s.(submitting := true, store := s.store[1..], renderer := Taken(s.store[0]));
  }

  lemma {:induction false} TakenBreaks(t: State, h: Entry, e: Entry, c: Config)
    requires ValidConfig(c) && HeldBehind(t, e, c) && t.renderer == Taken(h) && t.queue == []
    requires Real(h) && h.pts + PTS_EPSILON < e.pts && P.Prune(t.store, h.pts).contents == t.store
    ensures Breaks(t, c)
    decreases |t.store|, 3
  {
    EarlierSubmitted(t, h, e, c);
    var u := Next(t, Submit, c);
    FinishingBreaks(u, e, c);
    BreaksBefore(t, Submit, u, c);
  }

  lemma {:induction false} FinishingBreaks(u: State, e: Entry, c: Config)
    requires ValidConfig(c) && HeldBehind(u, e, c) && u.renderer.Finishing?
    ensures Breaks(u, c)
    decreases |u.store|, 2
  {
    var v := u.(submitting := false, renderer := Ready);
    DrainBreaks(v, e, c);
    BreaksBefore(u, EndSubmission, v, c);
  }

  /** A frame that goes back to wait behind what waits already. */
  lemma GoesLast(store: seq<Entry>, e: Entry, overflowEnabled: bool)
    requires P.Disciplined(store) && Real(e) && |store| <= P.Capacity(overflowEnabled) && StoreBefore(store, e.pts)
    ensures var r := P.Store(store, e, overflowEnabled).contents;
            r != [] && r[|r| - 1] == e && P.Disciplined(r) && |r| <= P.Capacity(overflowEnabled)
  {
    P.StoreRefines(store, e, overflowEnabled);
    P.StoreKeepsDiscipline(store, e, overflowEnabled);
  }

  /** The queue is full, and the GUI thread holds a frame that is not later: the
      submitted frame waits, is pushed, and the held one follows. */
  lemma DeferralBreaks(t: State, e: Entry, c: Config)
    requires ValidConfig(c) && StoreOrdered(t, c) && GuiOrdered(t) && LogsRise(t)
    requires t.renderer == Taken(e) && Real(e) && e.pts in t.delivered
    requires !Stale(t, e) && Full(t, e, c) && !HeldAfter(t, e)
    ensures Breaks(t, c)
  {
    HeldIsSame(t, e);
    assert StoreBefore(t.store, e.pts);
    GoesLast(t.store, e, c.overflowEnabled);
    var u := t.(renderer := Deferred(e));
    var v := u.(store := P.Store(t.store, e, c.overflowEnabled).contents, renderer := Finishing);
    var w := v.(submitting := false, renderer := Ready);
    DrainBreaks(w, e, c);
    BreaksBefore(v, EndSubmission, w, c);
    BreaksBefore(u, StoreDeferred, v, c);
    BreaksBefore(t, Submit, u, c);
  }

  /** Of two delivered frames within the tolerance, one is the other. */
  lemma HeldIsSame(t: State, e: Entry)
    requires LogsRise(t) && GuiOrdered(t) && e.pts in t.delivered && !HeldAfter(t, e)
    ensures t.gui.e.pts == e.pts
  {
    var i :| 0 <= i < |t.delivered| && t.delivered[i] == e.pts;
    assert i < |t.delivered| - 1 ==> e.pts + PTS_EPSILON < Last(t.delivered);
  }

  lemma ReplayOvertaken(s: State, e: Entry, prune: bool, c: Config)
    requires ValidConfig(c) && Ordered(s, c) && s.renderer.Ready? && Real(e) && e.pts in s.delivered
    requires !SubmissionOrdered(Pruned(s, e, prune), e, c)
    ensures Breaks(Next(s, Replay(e, prune), c), c)
  {
    PrunedOrdered(s, e, prune, c);
    var t := Next(s, Replay(e, prune), c);
    if Full(t, e, c) {
      DeferralBreaks(t, e, c);
    } else {
      PushBreaks(t, e, c);
    }
  }

  /** After a delivered frame is replayed, captured or kept, the order holds in every
      continuation if and only if the frame may be submitted. */
  lemma ReplayOrderIff(s: State, e: Entry, prune: bool, c: Config)
    requires ValidConfig(c) && Ordered(s, c) && s.renderer.Ready? && Real(e) && e.pts in s.delivered
    ensures !Breaks(Next(s, Replay(e, prune), c), c) <==> SubmissionOrdered(Pruned(s, e, prune), e, c)
  {
    var t := Next(s, Replay(e, prune), c);
    if SubmissionOrdered(Pruned(s, e, prune), e, c) {
      ReplayOrdered(s, e, prune, c);
      forall more | CalmRun(t, more, c) ensures Rising(Run(t, more, c).pushed) {
        RunOrdered(t, more, c);
      }
    } else {
      ReplayOvertaken(s, e, prune, c);
    }
  }

  // ----- a kept frame is shown again -----

  /** After a kept frame is pushed again, the order holds in every continuation if and
      only if it lies after everything pushed and before every frame that can still be
      pushed. */
  lemma KeptOrderIff(s: State, e: Entry, c: Config)
    requires ValidConfig(c) && Ordered(s, c) && Enabled(s, EnqueueKept(e), c) && e.pts in s.delivered
    ensures !Breaks(Next(s, EnqueueKept(e), c), c) <==>
            Last(s.pushed) + PTS_EPSILON < e.pts && NothingOvertakes(s, e, c)
  {
    var t := Next(s, EnqueueKept(e), c);
    if Last(s.pushed) + PTS_EPSILON >= e.pts {
      NotRising(s.pushed, e.pts);
      BreaksNow(t, c);
    } else if NothingOvertakes(s, e, c) {
      KeptOrdered(s, e, c);
      forall more | CalmRun(t, more, c) ensures Rising(Run(t, more, c).pushed) {
        RunOrdered(t, more, c);
      }
    } else {
      ReadyBreaks(t, c);
    }
  }

  // ----- such states are reached -----

  const FIRST: Entry := Entry(1, 1.0, 0.0, 0.0, 0, false)

  ghost predicate Reaches(evs: seq<Event>, k: nat, t: State, c: Config) {
    k <= |evs| && CalmRun(START, evs[..k], c) && Run(START, evs[..k], c) == t
  }

  lemma RunStep(evs: seq<Event>, k: nat, t: State, u: State, c: Config)
    requires Reaches(evs, k, t, c) && k < |evs|
    requires Enabled(t, evs[k], c) && Calm(t, evs[k], c) && u == Next(t, evs[k], c)
    ensures Reaches(evs, k + 1, u, c)
  {
    assert evs[..k + 1][..k] == evs[..k];
  }

  lemma ReachedOrdered(evs: seq<Event>, t: State, c: Config)
    requires ValidConfig(c) && Reaches(evs, |evs|, t, c)
    ensures CalmRun(START, evs, c) && Run(START, evs, c) == t && Ordered(t, c)
  {
    assert evs[..|evs|] == evs;
    FreshOrdered(START, c);
    RunOrdered(START, evs, c);
  }

  /** A frame that was captured for a reset and then stored as pending. */
  const STORED: seq<Event> := [DeliverToStore(FIRST), StoreFrame, StartRender]

  /** A frame that was captured for a reset and is about to be stored. */
  const HELD: seq<Event> := [StartRender, DeliverToStore(FIRST)]

  /** In both, the reset replays a frame that is overtaken by its own copy. */
  lemma StoredAndCaptured(c: Config)
    requires ValidConfig(c)
    ensures var s := Run(START, STORED, c);
            CalmRun(START, STORED, c) && s.renderer.Ready? && Breaks(Next(s, Replay(FIRST, true), c), c)
  {
    var s1 := START.(gui := Storing(FIRST), delivered := [1.0]);
    var s2 := s1.(store := [FIRST], gui := Idle);
    var s3 := s2.(renderer := Ready);
    assert Reaches(STORED, 0, START, c);
    RunStep(STORED, 0, START, s1, c);
    RunStep(STORED, 1, s1, s2, c);
    RunStep(STORED, 2, s2, s3, c);
    ReachedOrdered(STORED, s3, c);
    CopyWaits(s3, c);
    ReplayOrderIff(s3, FIRST, true, c);
  }

  lemma CopyWaits(s: State, c: Config)
    requires s.store == [FIRST] && s.gui.Idle? && s.newest < 0.0 && s.queue == [] && ValidConfig(c)
    ensures !SubmissionOrdered(Pruned(s, FIRST, true), FIRST, c)
    ensures !SubmissionOrdered(Pruned(s, FIRST, false), FIRST, c)
  {
    assert P.Prune([FIRST], 1.0).contents == [FIRST];
    assert [FIRST][0] == FIRST;
  }

  lemma HeldAndCaptured(c: Config)
    requires ValidConfig(c)
    ensures var s := Run(START, HELD, c);
            CalmRun(START, HELD, c) && s.renderer.Ready? && Breaks(Next(s, Replay(FIRST, true), c), c)
  {
    var s1 := START.(renderer := Ready);
    var s2 := s1.(gui := Storing(FIRST), delivered := [1.0]);
    assert Reaches(HELD, 0, START, c);
    RunStep(HELD, 0, START, s1, c);
    RunStep(HELD, 1, s1, s2, c);
    ReachedOrdered(HELD, s2, c);
    ReplayOrderIff(s2, FIRST, true, c);
  }

  /** A frame that was stored and kept while a reset that found nothing to replay held
      the queue. */
  const KEPT: seq<Event> := [StartRender, ResetQueue(false), DeliverToStore(FIRST), StoreFrame]

  /** The reset then replays the kept frame, which waits as well. */
  lemma KeptAndStored(c: Config)
    requires ValidConfig(c)
    ensures var s := Run(START, KEPT, c);
            CalmRun(START, KEPT, c) && s.renderer.Ready? && Breaks(Next(s, Replay(FIRST, false), c), c)
  {
    var s1 := START.(renderer := Ready);
    var s3 := s1.(gui := Storing(FIRST), delivered := [1.0]);
    var s4 := s3.(store := [FIRST], gui := Idle);
    assert Reaches(KEPT, 0, START, c);
    RunStep(KEPT, 0, START, s1, c);
    RunStep(KEPT, 1, s1, s1, c);
    RunStep(KEPT, 2, s1, s3, c);
    RunStep(KEPT, 3, s3, s4, c);
    ReachedOrdered(KEPT, s4, c);
    CopyWaits(s4, c);
    ReplayOrderIff(s4, FIRST, false, c);
  }

  /** A frame that was pushed, shown and kept. */
  const SHOWN: seq<Event> :=
    [Deliver(FIRST), ReadSubmission(false), ReadSchedule(false), Decide, Sweep, StartRender, Consume(1)]

  /** When the queue runs empty it is pushed again. */
  lemma ShownAndKept(c: Config)
    requires ValidConfig(c)
    ensures var s := Run(START, SHOWN, c);
            CalmRun(START, SHOWN, c) && Enabled(s, EnqueueKept(FIRST), c) && Breaks(Next(s, EnqueueKept(FIRST), c), c)
  {
    var s2 := FirstChecked(c);
    var s7 := FirstShown(s2, c);
    ReachedOrdered(SHOWN, s7, c);
    KeptOrderIff(s7, FIRST, c);
  }

  lemma FirstChecked(c: Config) returns (s: State)
    ensures s == START.(origin := 1.0, gui := Deciding(FIRST, false, false), delivered := [1.0])
    ensures Reaches(SHOWN, 3, s, c)
  {
    var s1 := START.(origin := 1.0, gui := Checked(FIRST), delivered := [1.0]);
    var s2 := s1.(gui := Flagged(FIRST, false));
    s := s2.(gui := Deciding(FIRST, false, false));
    assert Reaches(SHOWN, 0, START, c);
    RunStep(SHOWN, 0, START, s1, c);
    RunStep(SHOWN, 1, s1, s2, c);
    RunStep(SHOWN, 2, s2, s, c);
  }

  lemma FirstShown(s3: State, c: Config) returns (s: State)
    requires ValidConfig(c) && Reaches(SHOWN, 3, s3, c)
    requires s3 == START.(origin := 1.0, gui := Deciding(FIRST, false, false), delivered := [1.0])
    ensures s == s3.(pushed := [1.0], newest := 1.0, gui := Idle, renderer := Ready) && Reaches(SHOWN, 7, s, c)
  {
    var s4 := s3.(queue := [FIRST], pushed := [1.0], newest := 1.0, gui := Sweeping(FIRST));
    var s5 := s4.(gui := Idle);
    RunStep(SHOWN, 3, s3, s4, c);
    RunStep(SHOWN, 4, s4, s5, c);
    s := FirstConsumed(s5, c);
  }

  lemma FirstConsumed(s5: State, c: Config) returns (s: State)
    requires s5.gui.Idle? && s5.renderer.Outside? && s5.queue == [FIRST] && Reaches(SHOWN, 5, s5, c)
    ensures s == s5.(queue := [], renderer := Ready) && Reaches(SHOWN, 7, s, c)
  {
    var s6 := s5.(renderer := Ready);
    s := s6.(queue := []);
    RunStep(SHOWN, 5, s5, s6, c);
    RunStep(SHOWN, 6, s6, s, c);
  }
}
