/** No request for an update is forgotten: a request that comes while a render is
    scheduled or running leads to another render that starts after it. */
module HandshakeUpdates {
  import opened RenderHandshake

  predicate Asks(ev: Event) {
    ev.UpdateNow? || ev.RunUpdate?
  }

  /** An update was asked for, and no render has started since. */
  predicate Unanswered(evs: seq<Event>) {
    evs != [] &&
    var last := evs[|evs| - 1];
    Asks(last) || (!last.StartRender? && Unanswered(evs[..|evs| - 1]))
  }

  /** A render is due, the running one is to ask for another, a call that asks for one
      is posted or about to be, or a deferred swap will post it. */
  predicate Answering(s: State) {
    || s.renders > 0 || s.renderPending || s.render.PostingFinalize?
    || s.posts.updates > 0 || s.posts.finalizes > 0 || s.posts.swapsDone > 0
    || s.render.Enqueuing? || SwapWillPost(s.swap)
  }

  lemma GuiStepAnswers(s: State, ev: Event, deferring: bool)
    requires Consistent(s, deferring) && Enabled(s, ev, deferring) && OnGuiThread(ev)
    requires Answering(s) || Asks(ev)
    ensures Answering(Next(s, ev, deferring))
  {
    assert Next(s, ev, deferring) == GuiNext(s, ev, deferring);
  }

  lemma OtherStepAnswers(s: State, ev: Event, deferring: bool)
    requires Consistent(s, deferring) && Enabled(s, ev, deferring) && !OnGuiThread(ev) && !ev.StartRender?
    requires Answering(s)
    ensures Answering(Next(s, ev, deferring))
  {
    if OnSwapThread(ev) {
      assert SwapWillPost(s.swap) ==> SwapWillPost(SwapNext(s.swap, ev)) || (ev.PostSwapDone? && !s.swap.hasTask);
    } else {
      assert Next(s, ev, deferring) == RenderNext(s, ev, deferring);
    }
  }

  lemma StepAnswers(s: State, ev: Event, deferring: bool)
    requires Consistent(s, deferring) && Enabled(s, ev, deferring) && !ev.StartRender?
    requires Answering(s) || Asks(ev)
    ensures Answering(Next(s, ev, deferring))
  {
    if OnGuiThread(ev) {
      GuiStepAnswers(s, ev, deferring);
    } else {
      OtherStepAnswers(s, ev, deferring);
    }
  }

  /** In every reachable state a request that no render has answered yet is on its way
      to one. */
  lemma {:induction false} NoForgottenUpdate(evs: seq<Event>, deferring: bool)
    requires ValidRun(START, evs, deferring) && Unanswered(evs)
    ensures Answering(Run(START, evs, deferring))
  {
    var before, last := evs[..|evs| - 1], evs[|evs| - 1];
    RunConsistent(before, deferring);
    if !Asks(last) {
      NoForgottenUpdate(before, deferring);
    }
    StepAnswers(Run(START, before, deferring), last, deferring);
  }

  // ----- a render starts after boundedly many steps -----

  /** What the three threads do by themselves, a missing swapchain included. */
  predicate Own(ev: Event) {
    !ev.Present? && !ev.ForceUpdate? && !ev.UpdateNow? && !ev.DrainWait? && !ev.DrainReturn?
  }

  function RenderTime(r: Render): nat {
    match r
    case Asleep => 0
    case Entered => 26
    case Checked => 25
    case Drawing => 24
    case Enqueuing => 23
    case Finalizing(k) => 10 + 4 * k
    case PostingFinalize => 8
    case Backlog(n) => 1 + 4 * n
    case BacklogRead(n) => 4 + 4 * n
  }

  function SwapTime(w: Swap): nat {
    (if w.hasTask then 7 else 0) +
    match w.thread
    case Processing => 7
    case Done => 6
    case Inactive => 5
    case Cleared => 4
    case Awake => 1
    case Sleeping => 0
  }

  function PostedTime(p: Posts): nat {
    2 * (p.schedules + p.forced + p.finalizes + p.swapsDone) + p.updates
  }

  /** How many steps the threads can take before the next render starts. */
  function TimeToRender(s: State): nat {
    RenderTime(s.render) + SwapTime(s.swap) + PostedTime(s.posts) + if s.presenting then 2 else 0
  }

  lemma GuiStepTakesTime(s: State, ev: Event, deferring: bool)
    requires Enabled(s, ev, deferring) && OnGuiThread(ev) && Own(ev)
    ensures TimeToRender(Next(s, ev, deferring)) < TimeToRender(s)
  {
    assert Next(s, ev, deferring) == GuiNext(s, ev, deferring);
  }

  lemma FinalizeTakesTime(s: State, ev: Event, deferring: bool)
    requires Enabled(s, ev, deferring) && (ev.Finalize? || ev.PostFinalize?)
    ensures TimeToRender(RenderNext(s, ev, deferring)) < TimeToRender(s)
  {
  }

  lemma BacklogTakesTime(s: State, ev: Event, deferring: bool)
    requires Enabled(s, ev, deferring) && (ev.CheckBacklog? || ev.ReadBacklog?)
    ensures TimeToRender(RenderNext(s, ev, deferring)) < TimeToRender(s)
  {
  }

  lemma ClosingTakesTime(s: State, ev: Event, deferring: bool)
    requires Enabled(s, ev, deferring) && Closing(ev)
    ensures TimeToRender(Next(s, ev, deferring)) < TimeToRender(s)
  {
    assert Next(s, ev, deferring) == RenderNext(s, ev, deferring);
    if ev.Finalize? || ev.PostFinalize? {
      FinalizeTakesTime(s, ev, deferring);
    } else {
      BacklogTakesTime(s, ev, deferring);
    }
  }

  lemma DrawingTakesTime(s: State, ev: Event, deferring: bool)
    requires Consistent(s, deferring) && Enabled(s, ev, deferring)
    requires !OnGuiThread(ev) && !OnSwapThread(ev) && !ev.StartRender? && !Closing(ev)
    ensures TimeToRender(Next(s, ev, deferring)) < TimeToRender(s)
  {
    assert Next(s, ev, deferring) == RenderNext(s, ev, deferring);
  }

  lemma SwapStepTakesTime(s: State, ev: Event, deferring: bool)
    requires Enabled(s, ev, deferring) && OnSwapThread(ev) && Own(ev)
    ensures TimeToRender(Next(s, ev, deferring)) < TimeToRender(s)
  {
  }

  lemma StepTakesTime(s: State, ev: Event, deferring: bool)
    requires Consistent(s, deferring) && Enabled(s, ev, deferring) && Own(ev) && !ev.StartRender?
    ensures TimeToRender(Next(s, ev, deferring)) < TimeToRender(s)
  {
    if OnGuiThread(ev) {
      GuiStepTakesTime(s, ev, deferring);
    } else if OnSwapThread(ev) {
      SwapStepTakesTime(s, ev, deferring);
    } else if Closing(ev) {
      ClosingTakesTime(s, ev, deferring);
    } else {
      DrawingTakesTime(s, ev, deferring);
    }
  }

  lemma DueWhileAnswering(s: State, deferring: bool)
    requires Consistent(s, deferring) && Answering(s)
    ensures Own(Due(s)) && Enabled(s, Due(s), deferring)
  {
  }

  /** A run of the three threads alone in which no render starts. */
  ghost predicate UnrenderedRun(s: State, evs: seq<Event>, deferring: bool) {
    ValidRun(s, evs, deferring) && forall i :: 0 <= i < |evs| ==> Own(evs[i]) && !evs[i].StartRender?
  }

  lemma {:induction false} UnrenderedRunTakesTime(s: State, evs: seq<Event>, deferring: bool)
    requires Consistent(s, deferring) && Answering(s) && UnrenderedRun(s, evs, deferring)
    ensures var t := Run(s, evs, deferring);
            Consistent(t, deferring) && Answering(t) && |evs| + TimeToRender(t) <= TimeToRender(s)
  {
    if evs == [] {
    } else {
      var before, last := evs[..|evs| - 1], evs[|evs| - 1];
      UnrenderedRunTakesTime(s, before, deferring);
      var t := Run(s, before, deferring);
      StepConsistent(t, last, deferring);
      StepAnswers(t, last, deferring);
      StepTakesTime(t, last, deferring);
    }
  }

  /** From every reachable state with an unanswered request, whatever the scheduling:
      the three threads by themselves can always take another step, and before they
      have taken more than `TimeToRender` steps a render starts. */
  lemma UpdateIsRendered(past: seq<Event>, evs: seq<Event>, deferring: bool)
    requires ValidRun(START, past, deferring) && Unanswered(past)
    requires UnrenderedRun(Run(START, past, deferring), evs, deferring)
    ensures var s := Run(START, past, deferring);
            var t := Run(s, evs, deferring);
            && |evs| <= TimeToRender(s)
            && Own(Due(t)) && Enabled(t, Due(t), deferring)
  {
    RunConsistent(past, deferring);
    NoForgottenUpdate(past, deferring);
    var s := Run(START, past, deferring);
    UnrenderedRunTakesTime(s, evs, deferring);
    DueWhileAnswering(Run(s, evs, deferring), deferring);
  }
}
