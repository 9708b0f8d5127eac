/** A session start that clears the in-flight flag of the deferred swap without waiting
    for its thread. */
module HandshakeSession {
  import opened Frames
  import opened RenderHandshake

  /** What the start of a session does to the handshake: the waiting frame is freed and
      the flag falls, whatever the swap thread is doing. */
  function SessionStarted(s: State): State {
    s.(direct := None, swap := s.swap.(inFlight := false))
  }

  /** A deferred submit or swap that is not finished. */
  predicate SwapBusy(w: Swap) {
    w.hasTask || w.active || Unfinished(w.thread)
  }

  /** The mailbox was overwritten, or a render passed its check during a deferred swap. */
  predicate Collided(s: State) {
    s.swap.overwritten ||
    ((s.render.Checked? || s.render.Drawing? || s.render.Enqueuing?) && SwapBusy(s.swap))
  }

  /** Some continuation collides. */
  ghost predicate Collides(s: State, deferring: bool) {
    exists more :: ValidRun(s, more, deferring) && Collided(Run(s, more, deferring))
  }

  lemma {:induction false} RunKept(s: State, evs: seq<Event>, deferring: bool)
    requires Consistent(s, deferring) && ValidRun(s, evs, deferring)
    ensures Consistent(Run(s, evs, deferring), deferring)
  {
    if evs == [] {
    } else {
      RunKept(s, evs[..|evs| - 1], deferring);
      StepConsistent(Run(s, evs[..|evs| - 1], deferring), evs[|evs| - 1], deferring);
    }
  }

  lemma CollidesNow(s: State, deferring: bool)
    requires Collided(s)
    ensures Collides(s, deferring)
  {
    assert ValidRun(s, [], deferring) && Run(s, [], deferring) == s;
  }

  lemma {:induction false} RunFrom(s: State, ev: Event, more: seq<Event>, deferring: bool)
    requires Enabled(s, ev, deferring) && ValidRun(Next(s, ev, deferring), more, deferring)
    ensures ValidRun(s, [ev] + more, deferring)
    ensures Run(s, [ev] + more, deferring) == Run(Next(s, ev, deferring), more, deferring)
  {
    var evs := [ev] + more;
    if more == [] {
      assert evs[..0] == [] && ValidRun(s, [], deferring) && Run(s, [], deferring) == s;
    } else {
      RunFrom(s, ev, more[..|more| - 1], deferring);
      assert evs[..|evs| - 1] == [ev] + more[..|more| - 1];
    }
  }

  lemma CollidesBefore(s: State, ev: Event, t: State, deferring: bool)
    requires Enabled(s, ev, deferring) && t == Next(s, ev, deferring) && Collides(t, deferring)
    ensures Collides(s, deferring)
  {
    var more :| ValidRun(t, more, deferring) && Collided(Run(t, more, deferring));
    RunFrom(s, ev, more, deferring);
  }

  // ----- the render thread alone reaches its check -----

  /** The flag is down while the swap is busy. */
  predicate Exposed(s: State) {
    !s.swap.inFlight && SwapBusy(s.swap)
  }

  lemma EnteredCollides(s: State, deferring: bool)
    requires Exposed(s) && s.render.Entered?
    ensures Collides(s, deferring)
  {
    var t := s.(render := Checked);
    CollidesNow(t, deferring);
    CollidesBefore(s, CheckInFlight, t, deferring);
  }

  lemma DueCollides(s: State, deferring: bool)
    requires Exposed(s) && s.render.Asleep? && s.renders > 0
    ensures Collides(s, deferring)
  {
    var t := s.(renders := s.renders - 1, render := Entered);
    EnteredCollides(t, deferring);
    CollidesBefore(s, StartRender, t, deferring);
  }

  /** Asleep with no render due: the user interface asks for one. */
  lemma AsleepCollides(s: State, deferring: bool)
    requires Exposed(s) && s.render.Asleep? && !s.presenting && (s.renderScheduled ==> s.renders > 0)
    ensures Collides(s, deferring)
  {
    if s.renders > 0 {
      DueCollides(s, deferring);
    } else {
      var t := s.(renderScheduled := true, renders := 1);
      DueCollides(t, deferring);
      CollidesBefore(s, UpdateNow, t, deferring);
    }
  }

  /** The backlog checks are worked off. */
  lemma {:induction false} BacklogCollides(s: State, deferring: bool)
    requires Exposed(s) && s.render.Backlog? && !s.presenting && (s.renderScheduled ==> s.renders > 0)
    ensures Collides(s, deferring)
    decreases s.render.checks, 0
  {
    if s.render.checks == 0 {
      var t := s.(render := Asleep);
      AsleepCollides(t, deferring);
      CollidesBefore(s, CheckBacklog, t, deferring);
    } else {
      var n := s.render.checks - 1;
      var t := s.(render := BacklogRead(n));
      ReadCollides(t, deferring);
      CollidesBefore(s, CheckBacklog, t, deferring);
    }
  }

  lemma {:induction false} ReadCollides(s: State, deferring: bool)
    requires Exposed(s) && s.render.BacklogRead? && !s.presenting && (s.renderScheduled ==> s.renders > 0)
    ensures Collides(s, deferring)
    decreases s.render.checks, 1
  {
    var t := Next(s, ReadBacklog, deferring);
    BacklogCollides(t, deferring);
    CollidesBefore(s, ReadBacklog, t, deferring);
  }

  lemma PostingCollides(s: State, deferring: bool)
    requires Exposed(s) && s.render.PostingFinalize? && !s.presenting && (s.renderScheduled ==> s.renders > 0)
    ensures Collides(s, deferring)
  {
    var t := Next(s, PostFinalize, deferring);
    BacklogCollides(t, deferring);
    CollidesBefore(s, PostFinalize, t, deferring);
  }

  lemma FinalizingCollides(s: State, deferring: bool)
    requires Exposed(s) && s.render.Finalizing? && !s.presenting
    ensures Collides(s, deferring)
  {
    var t := Next(s, Finalize, deferring);
    if t.render.PostingFinalize? {
      PostingCollides(t, deferring);
    } else {
      BacklogCollides(t, deferring);
    }
    CollidesBefore(s, Finalize, t, deferring);
  }

  lemma ExposedCollides(s: State, deferring: bool)
    requires Exposed(s) && ScheduleConsistent(s) && !s.presenting
    requires !s.render.Checked? && !s.render.Drawing? && !s.render.Enqueuing?
    ensures Collides(s, deferring)
  {
    match s.render
    case Asleep => AsleepCollides(s, deferring);
    case Entered => EnteredCollides(s, deferring);
    case Finalizing(_) => FinalizingCollides(s, deferring);
    case PostingFinalize => PostingCollides(s, deferring);
    case Backlog(_) => BacklogCollides(s, deferring);
    case BacklogRead(_) => ReadCollides(s, deferring);
  }

  lemma ConsistentApart(s: State, deferring: bool)
    requires Consistent(s, deferring)
    ensures !Collided(s)
    ensures s.swap.inFlight ==>
              && (s.render.Enqueuing? || SwapBusy(s.swap))
              && !s.render.Checked? && !s.render.Drawing?
  {
  }

  lemma QuietStart(s: State, deferring: bool)
    requires Consistent(s, deferring) && !s.swap.inFlight
    ensures !Collides(SessionStarted(s), deferring)
  {
    var t := SessionStarted(s);
    assert t == s.(direct := None);
    forall more | ValidRun(t, more, deferring) ensures !Collided(Run(t, more, deferring)) {
      RunKept(t, more, deferring);
      ConsistentApart(Run(t, more, deferring), deferring);
    }
  }

  lemma EnqueuingCollides(s: State, deferring: bool)
    requires s.render.Enqueuing? && !s.swap.inFlight && !s.presenting
    ensures Collides(s, deferring)
  {
    var t := Next(s, EnqueueTask, deferring);
    FinalizingCollides(t, deferring);
    CollidesBefore(s, EnqueueTask, t, deferring);
  }

  lemma BusyStart(s: State, deferring: bool)
    requires Consistent(s, deferring) && s.swap.inFlight && !s.presenting
    ensures Collides(SessionStarted(s), deferring)
  {
    ConsistentApart(s, deferring);
    var t := SessionStarted(s);
    if s.render.Enqueuing? {
      EnqueuingCollides(t, deferring);
    } else {
      ExposedCollides(t, deferring);
    }
  }

  /** A session start keeps the handshake in every continuation if and only if no
      deferred swap is in flight. */
  lemma SessionStartIff(evs: seq<Event>, deferring: bool)
    requires ValidRun(START, evs, deferring) && !Run(START, evs, deferring).presenting
    ensures !Collides(SessionStarted(Run(START, evs, deferring)), deferring) <==>
            !Run(START, evs, deferring).swap.inFlight
  {
    RunConsistent(evs, deferring);
    if Run(START, evs, deferring).swap.inFlight {
      BusyStart(Run(START, evs, deferring), deferring);
    } else {
      QuietStart(Run(START, evs, deferring), deferring);
    }
  }

  // ----- such a start is possible -----

  const SWAPPING: seq<Event> := [UpdateNow, StartRender, CheckInFlight, SwapOut, BeginDeferred]

  ghost predicate Reaches(k: nat, t: State) {
    k <= |SWAPPING| && ValidRun(START, SWAPPING[..k], true) && Run(START, SWAPPING[..k], true) == t
  }

  lemma RunStep(k: nat, t: State, u: State)
    requires Reaches(k, t) && k < |SWAPPING| && Enabled(t, SWAPPING[k], true) && u == Next(t, SWAPPING[k], true)
    ensures Reaches(k + 1, u)
  {
    assert SWAPPING[..k + 1][..k] == SWAPPING[..k];
  }

  lemma PassesCheck() returns (s: State)
    ensures s == START.(renderScheduled := true, render := Checked) && Reaches(3, s)
  {
    var s1 := START.(renderScheduled := true, renders := 1);
    var s2 := s1.(renders := 0, render := Entered);
    s := s2.(render := Checked);
    assert Reaches(0, START);
    RunStep(0, START, s1);
    RunStep(1, s1, s2);
    RunStep(2, s2, s);
  }

  lemma BeginsSwap() returns (s: State)
    ensures s.swap.inFlight && !s.presenting && Reaches(5, s)
  {
    var s3 := PassesCheck();
    var s4 := s3.(render := Drawing);
    s := s4.(swap := START.swap.(inFlight := true), render := Enqueuing);
    RunStep(3, s3, s4);
    RunStep(4, s4, s);
  }

  /** A render is handing a frame over to the swap thread as the session starts. */
  lemma StartDuringSwap()
    ensures ValidRun(START, SWAPPING, true) && Collides(SessionStarted(Run(START, SWAPPING, true)), true)
  {
    var s := BeginsSwap();
    assert SWAPPING[..5] == SWAPPING;
    SessionStartIff(SWAPPING, true);
  }
}
