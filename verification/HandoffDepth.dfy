/** What holds on every run of the hand-off, resets and session changes included:
    the bounds on the display queue and the pending store, and that a submission
    never goes back in time. */
module HandoffDepth {
  import opened Frames
  import opened Handoff
  import P = PendingSpec

  ghost predicate NonNegative(c: seq<Entry>) {
    forall i :: 0 <= i < |c| ==> c[i].pts >= 0.0
  }

  ghost predicate GuiFramesNonNegative(g: Gui) {
    (!g.Idle? ==> g.e.pts >= 0.0) && (g.Promoting? ==> g.promoted.pts >= 0.0)
  }

  ghost predicate RenderFrameNonNegative(r: Renderer) {
    r.Taken? || r.Deferred? ==> r.e.pts >= 0.0
  }

  /** `newest` bounds every real timestamp pushed since the last reset. */
  ghost predicate NewestBounds(s: State) {
    forall i :: 0 <= i < |s.pushed| ==> 0.0 <= s.pushed[i] <= s.newest
  }

  ghost predicate Bounded(s: State, c: Config) {
    && |s.queue| <= c.depthLimit
    && |s.store| <= P.Capacity(c.overflowEnabled)
    && (s.gui.Deciding? && !s.gui.busy ==> s.renderer.Outside?)
    && (s.gui.Promoting? ==> s.renderer.Outside? && |s.queue| < c.depthLimit)
    && NonNegative(s.store) && GuiFramesNonNegative(s.gui) && RenderFrameNonNegative(s.renderer)
    && NewestBounds(s)
  }

  lemma {:induction false} InsertMembers(over: seq<Entry>, e: Entry)
    requires NonNegative(over) && e.pts >= 0.0
    ensures NonNegative(P.InsertByPts(over, e)) && |P.InsertByPts(over, e)| == |over| + 1
  {
    if over == [] || over[0].pts > e.pts + PTS_EPSILON {
    } else {
      InsertMembers(over[1..], e);
    }
  }

  lemma StoreBounded(c: seq<Entry>, e: Entry, overflowEnabled: bool)
    requires NonNegative(c) && e.pts >= 0.0 && |c| <= P.Capacity(overflowEnabled)
    ensures var r := P.Store(c, e, overflowEnabled).contents; NonNegative(r) && |r| <= P.Capacity(overflowEnabled)
  {
    if c != [] {
      InsertMembers(c[1..], e);
      if |c| > 2 {
        InsertMembers(c[2..], e);
      }
    }
  }

  lemma PruneBounded(c: seq<Entry>, cutoff: real)
    requires NonNegative(c)
    ensures var r := P.Prune(c, cutoff).contents; NonNegative(r) && |r| <= |c|
  {
  }

  lemma RollbackBounded(s: State, pts: real, c: Config)
    requires Bounded(s, c) && pts >= 0.0
    ensures Bounded(Rollback(s, pts), c)
  {
    PruneBounded(s.store, pts);
  }

  lemma SubmitBounded(s: State, e: Entry, c: Config)
    requires Bounded(s, c) && s.renderer == Taken(e) && ValidConfig(c)
    ensures Bounded(SubmitStep(s, e, c), c)
  {
    if e.warmup {
      WarmupBounded(s, e, c);
    } else {
      RollbackBounded(s, e.pts, c);
      assert Rollback(s, e.pts).renderer == Taken(e);
      PushBounded(Rollback(s, e.pts), e, c);
    }
  }

  lemma WarmupBounded(s: State, e: Entry, c: Config)
    requires Bounded(s, c) && s.renderer == Taken(e) && e.warmup
    ensures Bounded(s.(renderer := Deferred(e)), c)
    ensures |s.queue| < c.depthLimit ==> Bounded(Push(s, e).(renderer := Deferred(e)), c)
  {
  }

  lemma PushBounded(t: State, e: Entry, c: Config)
    requires Bounded(t, c) && t.renderer == Taken(e) && !e.warmup
    ensures Bounded(t.(renderer := Deferred(e)), c)
    ensures |t.queue| < c.depthLimit ==> Bounded(Push(t, e).(newest := Max(t.newest, e.pts), renderer := Finishing), c)
  {
  }

  predicate OnGuiThread(ev: Event) {
    ev.Deliver? || ev.DeliverToStore? || ev.DeliverWarmup? || ev.ReadSubmission? || ev.ReadSchedule? ||
    ev.Decide? || ev.PushPromoted? || ev.StoreFrame? || ev.Sweep? || ev.SessionChange?
  }

  lemma GuiStepBounded(s: State, ev: Event, c: Config)
    requires ValidConfig(c) && Bounded(s, c) && Enabled(s, ev, c) && OnGuiThread(ev)
    ensures Bounded(Next(s, ev, c), c)
  {
    match ev
    case Deliver(e) => RollbackBounded(s, e.pts, c);
    case StoreFrame => StoreBounded(s.store, s.gui.e, c.overflowEnabled);
    case _ =>
  }

  lemma RenderStepBounded(s: State, ev: Event, c: Config)
    requires ValidConfig(c) && Bounded(s, c) && Enabled(s, ev, c) && !OnGuiThread(ev)
    ensures Bounded(Next(s, ev, c), c)
  {
    match ev
    case Replay(e, _) => PruneBounded(s.store, e.pts);
    case Submit => SubmitBounded(s, s.renderer.e, c);
    case StoreDeferred => StoreBounded(s.store, s.renderer.e, c.overflowEnabled);
    case _ =>
  }

  lemma StepBounded(s: State, ev: Event, c: Config)
    requires ValidConfig(c) && Bounded(s, c) && Enabled(s, ev, c)
    ensures Bounded(Next(s, ev, c), c)
  {
    if OnGuiThread(ev) {
      GuiStepBounded(s, ev, c);
    } else {
      RenderStepBounded(s, ev, c);
    }
  }

  /** On every run the display queue stays within its limit and the pending store
      never holds more than three frames (one, when the deque is disabled). */
  lemma {:induction false} RunBounded(evs: seq<Event>, c: Config)
    requires ValidConfig(c) && ValidRun(START, evs, c)
    ensures Bounded(Run(START, evs, c), c)
    ensures |Run(START, evs, c).store| <= if c.overflowEnabled then 3 else 1
  {
    if evs == [] {
    } else {
      RunBounded(evs[..|evs| - 1], c);
      StepBounded(Run(START, evs[..|evs| - 1], c), evs[|evs| - 1], c);
    }
  }

  /** A submission of a real frame drops it as stale, hands it back because the
      queue is full, or pushes it: then more than the tolerance after every real
      frame pushed since the last queue reset. */
  lemma SubmissionIsLater(evs: seq<Event>, c: Config)
    requires ValidConfig(c) && ValidRun(START, evs, c)
    requires Run(START, evs, c).renderer.Taken? && !Run(START, evs, c).renderer.e.warmup
    ensures var s := Run(START, evs, c);
            var e := s.renderer.e;
            var t := Next(s, Submit, c);
            || (t == s.(renderer := Finishing) && e.pts <= s.newest + PTS_EPSILON)
            || (t.renderer == Deferred(e) && t.pushed == s.pushed && |t.queue| >= c.depthLimit)
            || (&& t.renderer.Finishing? && t.queue != [] && t.queue[|t.queue| - 1] == e
                && t.pushed != [] && t.pushed[|t.pushed| - 1] == e.pts
                && forall i :: 0 <= i < |t.pushed| - 1 ==> t.pushed[i] + PTS_EPSILON < e.pts)
  {
    RunBounded(evs, c);
  }

  /** What `presentFrame` decides: the frame goes to the end of the queue exactly when
      no frame waits or is being submitted and there is room; the oldest waiting frame is
      promoted exactly when nothing renders and there is room; in every other case the
      frame is kept to be stored and nothing else moves. */
  ghost predicate Decided(s: State, t: State, c: Config)
    requires s.gui.Deciding?
  {
    var room := |s.queue| < c.depthLimit;
    && (t.gui == Sweeping(s.gui.e) <==> room && s.store == [] && !s.gui.submitting)
    && (t.gui.Promoting? <==> room && s.store != [] && !s.gui.busy)
    && (t.gui == Storing(s.gui.e) <==> !room || if s.store == [] then s.gui.submitting else s.gui.busy)
    && t.queue == (if t.gui.Sweeping? then s.queue + [s.gui.e] else s.queue)
    && (if t.gui.Promoting? then t.gui.e == s.gui.e && s.store == [t.gui.promoted] + t.store else t.store == s.store)
  }

  lemma DecideStepIs(s: State, c: Config)
    requires s.gui.Deciding?
    ensures Decided(s, Next(s, Decide, c), c)
  {
    if s.store != [] {
      assert s.store == [s.store[0]] + s.store[1..];
    }
  }

  /** So it is in every reachable state, where a frame that finds nothing rendering
      decides while the render thread is outside. */
  lemma DecisionIff(evs: seq<Event>, c: Config)
    requires ValidConfig(c) && ValidRun(START, evs, c) && Run(START, evs, c).gui.Deciding?
    ensures var s := Run(START, evs, c);
            var t := Next(s, Decide, c);
            Decided(s, t, c) && |t.queue| <= c.depthLimit && (!s.gui.busy ==> s.renderer.Outside?)
  {
    RunBounded(evs, c);
    DecideStepIs(Run(START, evs, c), c);
  }

  /** Nothing comes between a promotion and its push: the waiting frame leaves the
      store for the end of the queue and finds room there, the new frame is stored. */
  lemma PromotionGoesThrough(evs: seq<Event>, c: Config)
    requires ValidConfig(c) && ValidRun(START, evs, c) && Run(START, evs, c).gui.Deciding?
    requires Next(Run(START, evs, c), Decide, c).gui.Promoting?
    ensures var s := Run(START, evs, c);
            var t := Next(s, Decide, c);
            var u := Next(t, PushPromoted, c);
            && (forall ev :: Enabled(t, ev, c) <==> ev == PushPromoted)
            && s.store == [u.queue[|s.queue|]] + u.store
            && u.queue[..|s.queue|] == s.queue && |u.queue| == |s.queue| + 1 <= c.depthLimit
            && u.gui == Storing(s.gui.e)
  {
    DecisionIff(evs, c);
    var s := Run(START, evs, c);
    var t := Next(s, Decide, c);
    OnlyThePush(t, c);
  }

  lemma OnlyThePush(t: State, c: Config)
    requires t.gui.Promoting? && t.renderer.Outside?
    ensures forall ev :: Enabled(t, ev, c) <==> ev == PushPromoted
  {
  }
}
