/** The update/render handshake in direct mode, with the render thread and the
    deferred-swap thread. A decoded frame waits in a one-frame slot until a render
    swaps it out; between the two lie posted calls, two schedule flags and the
    in-flight flag of the deferred swap. Every event is one critical section, one
    access to a shared flag, or the execution of one posted call. */
module RenderHandshake {
  import opened Frames

  /** Where the render thread is inside `render`. */
  datatype Render =
    | Asleep
    | Entered                       // in-flight flag not read yet
    | Checked                       // may start a swapchain frame; slot not swapped out yet
    | Drawing                       // slot swapped out, frame not closed yet
    | Enqueuing                     // in-flight flag set, task not handed over yet
    | Finalizing(postChecks: nat)
    | PostingFinalize
    | Backlog(checks: nat)          // backlog checks still to do
    | BacklogRead(checks: nat)      // saw nothing in flight, about to look at the slot

  /** Where the deferred-swap thread is in its loop. */
  datatype Swapper = Sleeping | Awake | Processing | Done | Inactive | Cleared

  /** Calls posted to the GUI thread and not run yet. */
  datatype Posts = Posts(updates: nat, schedules: nat, forced: nat, finalizes: nat, swapsDone: nat)

  /** The deferred swap: its flag, its one-task mailbox and its thread. */
  datatype Swap = Swap(
    inFlight: bool, hasTask: bool, active: bool, thread: Swapper,
    drainers: nat,              // callers of drain that are blocked
    overwritten: bool)          // a task was handed over on top of another

  datatype State = State(
    direct: Option<FrameId>,
    presenting: bool,           // slot filled, update not scheduled yet
    updatePending: bool,
    posts: Posts,
    renders: nat,               // renders posted to the render thread
    renderScheduled: bool, renderPending: bool,
    render: Render,
    swap: Swap)

  datatype Event =
    // GUI thread, from outside
    | Present(f: FrameId)
    | ForceUpdate
    | UpdateNow
    // GUI thread, handshake
    | SchedulePresented
    | RunUpdate
    | RunSchedule
    | RunForced
    | RunFinalize
    | RunSwapDone
    // render thread
    | StartRender
    | CheckInFlight
    | NoSwapchain
    | SwapOut
    | StartFrameFails
    | CloseUnpresented
    | ClosePresented
    | BeginDeferred
    | EnqueueTask
    | Finalize
    | PostFinalize
    | CheckBacklog
    | ReadBacklog
    // deferred-swap thread
    | Sleep
    | TakeTask
    | SubmitAndSwap
    | Deactivate
    | ClearInFlight
    | PostSwapDone
    // any caller of drain
    | DrainWait
    | DrainReturn

  /** `deferring` is the deferred-swap setting, fixed during a run. */
  ghost predicate Enabled(s: State, ev: Event, deferring: bool) {
    match ev
    case Present(_) => !s.presenting
    case ForceUpdate => !s.presenting
    case UpdateNow => !s.presenting
    case SchedulePresented => s.presenting
    case RunUpdate => !s.presenting && s.posts.updates > 0
    case RunSchedule => !s.presenting && s.posts.schedules > 0
    case RunForced => !s.presenting && s.posts.forced > 0
    case RunFinalize => !s.presenting && s.posts.finalizes > 0
    case RunSwapDone => !s.presenting && s.posts.swapsDone > 0
    case StartRender => s.render.Asleep? && s.renders > 0
    case CheckInFlight => s.render.Entered?
    case NoSwapchain => s.render.Checked?
    case SwapOut => s.render.Checked?
    case StartFrameFails => s.render.Drawing?
    case CloseUnpresented => s.render.Drawing?
    case ClosePresented => s.render.Drawing? && (!deferring || s.swap.inFlight)
    case BeginDeferred => s.render.Drawing? && deferring && !s.swap.inFlight
    case EnqueueTask => s.render.Enqueuing?
    case Finalize => s.render.Finalizing?
    case PostFinalize => s.render.PostingFinalize?
    case CheckBacklog => s.render.Backlog?
    case ReadBacklog => s.render.BacklogRead?
    case Sleep => s.swap.thread.Awake? && !s.swap.hasTask
    case TakeTask => s.swap.thread.Awake? && s.swap.hasTask
    case SubmitAndSwap => s.swap.thread.Processing?
    case Deactivate => s.swap.thread.Done?
    case ClearInFlight => s.swap.thread.Inactive?
    case PostSwapDone => s.swap.thread.Cleared?
    case DrainWait => s.swap.hasTask || s.swap.active
    case DrainReturn => !s.swap.hasTask && !s.swap.active
  }

  /** A forced `scheduleUpdate` on the GUI thread. */
  function Force(s: State): State {
    s.(updatePending := true, posts := s.posts.(updates := s.posts.updates + 1))
  }

  /** An unforced one posts only when no update is pending. */
  function Schedule(s: State): State {
    if s.updatePending then s else Force(s)
  }

  /** `update`: starts a render, or asks the running one for another. */
  function Update(s: State): State {
    if s.renderScheduled then s.(renderPending := true)
    else s.(renderScheduled := true, renders := s.renders + 1)
  }

  function Less(n: nat): nat { if n == 0 then 0 else n - 1 }

  function GuiNext(s: State, ev: Event, deferring: bool): State {
    match ev
    case Present(f) => s.(direct := Some(f), presenting := true)
    case ForceUpdate => Force(s)
    case UpdateNow => Update(s)
    case SchedulePresented => Schedule(s.(presenting := false))
    case RunUpdate => Update(s.(posts := s.posts.(updates := Less(s.posts.updates)), updatePending := false))
    case RunSchedule => Schedule(s.(posts := s.posts.(schedules := Less(s.posts.schedules))))
    case RunForced => Force(s.(posts := s.posts.(forced := Less(s.posts.forced))))
    case RunFinalize =>
      var t := s.(posts := s.posts.(finalizes := Less(s.posts.finalizes)));
      if deferring && s.swap.inFlight then t else Schedule(t)
    case RunSwapDone => Schedule(s.(posts := s.posts.(swapsDone := Less(s.posts.swapsDone))))
    case _ => s
  }

  function RenderNext(s: State, ev: Event, deferring: bool): State {
    match ev
    case StartRender => s.(renders := Less(s.renders), render := Entered)
    case CheckInFlight => s.(render := if deferring && s.swap.inFlight then Finalizing(0) else Checked)
    case NoSwapchain => s.(render := Finalizing(0))
    case SwapOut => s.(direct := None, render := Drawing)
    case StartFrameFails => s.(posts := s.posts.(forced := s.posts.forced + 1), render := Finalizing(0))
    case CloseUnpresented => s.(render := Finalizing(0))
    case ClosePresented => s.(render := Finalizing(1))
    case BeginDeferred => s.(swap := s.swap.(inFlight := true), render := Enqueuing)
    case EnqueueTask =>
      s.(swap := s.swap.(overwritten := s.swap.overwritten || s.swap.hasTask, hasTask := true,
                         thread := if s.swap.thread.Sleeping? then Awake else s.swap.thread),
         render := Finalizing(1))
    case Finalize =>
      var checks := if s.render.Finalizing? then 2 + s.render.postChecks else 2;
      s.(renderScheduled := false, renderPending := false,
         render := if s.renderPending then PostingFinalize else Backlog(checks))
    case PostFinalize => s.(posts := s.posts.(finalizes := s.posts.finalizes + 1), render := Backlog(1))
    case CheckBacklog =>
      if s.render.Backlog? then
        if s.render.checks == 0 then s.(render := Asleep)
        else if deferring && s.swap.inFlight then s.(render := Backlog(s.render.checks - 1))
        else s.(render := BacklogRead(s.render.checks - 1))
      else s
    case ReadBacklog =>
      if s.render.BacklogRead? then
        s.(posts := if s.direct.Some? then s.posts.(schedules := s.posts.schedules + 1) else s.posts,
           render := Backlog(s.render.checks))
      else s
    case _ => s
  }

  function SwapNext(w: Swap, ev: Event): Swap {
    match ev
    case Sleep => w.(thread := Sleeping)
    case TakeTask => w.(hasTask := false, active := true, thread := Processing)
    case SubmitAndSwap => w.(thread := Done)
    case Deactivate => w.(active := false, thread := Inactive, drainers := if w.hasTask then w.drainers else 0)
    case ClearInFlight => w.(inFlight := w.inFlight && w.hasTask, thread := Cleared)
    case PostSwapDone => w.(thread := Awake)
    case DrainWait => w.(drainers := w.drainers + 1)
    case _ => w
  }

  predicate OnGuiThread(ev: Event) {
    ev.Present? || ev.ForceUpdate? || ev.UpdateNow? || ev.SchedulePresented? || ev.RunUpdate? ||
    ev.RunSchedule? || ev.RunForced? || ev.RunFinalize? || ev.RunSwapDone?
  }

  predicate OnSwapThread(ev: Event) {
    ev.Sleep? || ev.TakeTask? || ev.SubmitAndSwap? || ev.Deactivate? || ev.ClearInFlight? || ev.PostSwapDone? ||
    ev.DrainWait? || ev.DrainReturn?
  }

  function Next(s: State, ev: Event, deferring: bool): State {
    if OnGuiThread(ev) then GuiNext(s, ev, deferring)
    else if OnSwapThread(ev) then
      s.(swap := SwapNext(s.swap, ev),
         posts := if ev.PostSwapDone? && !s.swap.hasTask then s.posts.(swapsDone := s.posts.swapsDone + 1) else s.posts)
    else RenderNext(s, ev, deferring)
  }

  const START: State :=
    State(None, false, false, Posts(0, 0, 0, 0, 0), 0, false, false, Asleep, Swap(false, false, false, Awake, 0, false))

  ghost predicate ValidRun(s: State, evs: seq<Event>, deferring: bool) {
    evs == [] ||
    (ValidRun(s, evs[..|evs| - 1], deferring) &&
     Enabled(Run(s, evs[..|evs| - 1], deferring), evs[|evs| - 1], deferring))
  }

  function Run(s: State, evs: seq<Event>, deferring: bool): State {
    if evs == [] then s else Next(Run(s, evs[..|evs| - 1], deferring), evs[|evs| - 1], deferring)
  }

  // ----- what every reachable state satisfies -----

  /** The render in progress has not yet released the schedule flag. */
  predicate HoldsSchedule(r: Render) {
    r.Entered? || r.Checked? || r.Drawing? || r.Enqueuing? || r.Finalizing?
  }

  predicate Unfinished(w: Swapper) { w.Processing? || w.Done? || w.Inactive? }

  ghost predicate ScheduleConsistent(s: State) {
    && (s.updatePending ==> s.posts.updates > 0)
    && (s.render.Finalizing? ==> s.render.postChecks <= 1)
    && (s.render.Backlog? || s.render.BacklogRead? ==> s.render.checks <= 3)
    && (s.renderPending ==> s.renderScheduled)
    && s.renders + (if HoldsSchedule(s.render) then 1 else 0) == (if s.renderScheduled then 1 else 0)
  }

  ghost predicate SwapConsistent(w: Swap, r: Render, deferring: bool) {
    && (w.inFlight <==> r.Enqueuing? || w.hasTask || Unfinished(w.thread))
    && (w.active <==> w.thread.Processing? || w.thread.Done?)
    && (r.Enqueuing? ==> !w.hasTask && !Unfinished(w.thread))
    && (w.hasTask ==> w.thread.Awake? || w.thread.Cleared?)
    && (r.Checked? || r.Drawing? ==> !w.inFlight)
    && (!deferring ==> !w.inFlight)
    && (w.drainers > 0 ==> w.hasTask || w.active)
    && !w.overwritten
  }

  predicate Posted(p: Posts) {
    p.updates > 0 || p.schedules > 0 || p.forced > 0 || p.finalizes > 0 || p.swapsDone > 0
  }

  /** A deferred swap that posts to the GUI thread when it is done. */
  predicate SwapWillPost(w: Swap) {
    w.hasTask || !(w.thread.Awake? || w.thread.Sleeping?)
  }

  /** Something will still look at the slot: a call posted to the GUI thread, a
      render that is due or has not finished its last look, or a deferred swap. */
  predicate Wakeup(s: State) {
    || s.presenting || Posted(s.posts)
    || s.renders > 0 || s.renderPending
    || (!s.render.Asleep? && s.render != Backlog(0))
    || SwapWillPost(s.swap)
  }

  ghost predicate Consistent(s: State, deferring: bool) {
    ScheduleConsistent(s) && SwapConsistent(s.swap, s.render, deferring) && (s.direct.Some? ==> Wakeup(s))
  }

  lemma GuiStepConsistent(s: State, ev: Event, deferring: bool)
    requires Consistent(s, deferring) && Enabled(s, ev, deferring) && OnGuiThread(ev)
    ensures Consistent(Next(s, ev, deferring), deferring)
  {
  }

  lemma SwapStepConsistent(s: State, ev: Event, deferring: bool)
    requires Consistent(s, deferring) && Enabled(s, ev, deferring) && OnSwapThread(ev)
    ensures Consistent(Next(s, ev, deferring), deferring)
  {
  }

  predicate Closing(ev: Event) {
    ev.Finalize? || ev.PostFinalize? || ev.CheckBacklog? || ev.ReadBacklog?
  }

  lemma FinalizeStepConsistent(s: State, ev: Event, deferring: bool)
    requires Consistent(s, deferring) && Enabled(s, ev, deferring) && (ev.Finalize? || ev.PostFinalize?)
    ensures Consistent(Next(s, ev, deferring), deferring)
  {
    assert SwapConsistent(s.swap, Next(s, ev, deferring).render, deferring);
  }

  lemma BacklogStepConsistent(s: State, ev: Event, deferring: bool)
    requires Consistent(s, deferring) && Enabled(s, ev, deferring) && (ev.CheckBacklog? || ev.ReadBacklog?)
    ensures Consistent(Next(s, ev, deferring), deferring)
  {
    var t := RenderNext(s, ev, deferring);
    assert Next(s, ev, deferring) == t && t.swap == s.swap;
    assert ScheduleConsistent(t) && SwapConsistent(t.swap, t.render, deferring);
  }

  lemma DrawingStepConsistent(s: State, ev: Event, deferring: bool)
    requires Consistent(s, deferring) && Enabled(s, ev, deferring)
    requires !OnGuiThread(ev) && !OnSwapThread(ev) && !Closing(ev)
    ensures Consistent(Next(s, ev, deferring), deferring)
  {
  }

  lemma StepConsistent(s: State, ev: Event, deferring: bool)
    requires Consistent(s, deferring) && Enabled(s, ev, deferring)
    ensures Consistent(Next(s, ev, deferring), deferring)
  {
    if OnGuiThread(ev) {
      GuiStepConsistent(s, ev, deferring);
    } else if OnSwapThread(ev) {
      SwapStepConsistent(s, ev, deferring);
    } else if ev.Finalize? || ev.PostFinalize? {
      FinalizeStepConsistent(s, ev, deferring);
    } else if Closing(ev) {
      BacklogStepConsistent(s, ev, deferring);
    } else {
      DrawingStepConsistent(s, ev, deferring);
    }
  }

  lemma {:induction false} RunConsistent(evs: seq<Event>, deferring: bool)
    requires ValidRun(START, evs, deferring)
    ensures Consistent(Run(START, evs, deferring), deferring)
  {
    if evs == [] {
    } else {
      RunConsistent(evs[..|evs| - 1], deferring);
      StepConsistent(Run(START, evs[..|evs| - 1], deferring), evs[|evs| - 1], deferring);
    }
  }

  /** No lost wake-up: no frame waits in a state where nothing is left to look at it. */
  lemma NoLostWakeup(evs: seq<Event>, deferring: bool)
    requires ValidRun(START, evs, deferring)
    ensures var s := Run(START, evs, deferring); s.direct.Some? ==> Wakeup(s)
  {
    RunConsistent(evs, deferring);
  }

  /** The one-slot mailbox is never overwritten; no render is between its in-flight
      check and the hand-over while an earlier deferred submit or swap is
      unfinished; a blocked drain always has work to wait for. */
  lemma DeferredSwapHandshake(evs: seq<Event>, deferring: bool)
    requires ValidRun(START, evs, deferring)
    ensures var s := Run(START, evs, deferring);
            && !s.swap.overwritten
            && (s.render.Checked? || s.render.Drawing? || s.render.Enqueuing? ==>
                  !s.swap.hasTask && !s.swap.active && !Unfinished(s.swap.thread))
            && (s.swap.drainers > 0 ==> s.swap.hasTask || s.swap.active)
            && !(s.swap.hasTask && s.swap.active)
            && (s.swap.thread.Sleeping? ==> !s.swap.hasTask)
  {
    RunConsistent(evs, deferring);
  }

  // ----- a waiting frame is swapped out after boundedly many steps -----

  /** The events the three threads take by themselves; frames, user interface
      updates, drains and a missing swapchain come from outside. */
  predicate Internal(ev: Event) {
    !ev.Present? && !ev.ForceUpdate? && !ev.UpdateNow? && !ev.NoSwapchain? && !ev.DrainWait? && !ev.DrainReturn?
  }

  function SwapStages(w: Swap, r: Render): nat {
    (if r.Drawing? then 12 else if r.Enqueuing? then 11 else 0) +
    (if w.hasTask then 8 else 0) +
    match w.thread
    case Processing => 7
    case Done => 6
    case Inactive => 5
    case Cleared => 2
    case Awake => 1
    case Sleeping => 0
  }

  function BacklogWork(checks: nat, inFlight: bool): nat {
    if inFlight then 1 + checks else 1 + 14 * checks
  }

  function RenderWork(r: Render, inFlight: bool): nat {
    match r
    case Asleep => 0
    case Entered => 7
    case Checked => 1
    case Drawing => 0
    case Enqueuing => 0
    case Finalizing(k) => if inFlight then 6 + k else 44 + 14 * k
    case PostingFinalize => 13 + BacklogWork(1, inFlight)
    case Backlog(n) => BacklogWork(n, inFlight)
    case BacklogRead(n) => 13 + BacklogWork(n, inFlight)
  }

  function PostedWork(p: Posts): nat {
    12 * (p.schedules + p.forced + p.finalizes + p.swapsDone) + 11 * p.updates
  }

  /** How many steps the threads can take before a waiting frame is swapped out. */
  function Patience(s: State): nat {
    200 * SwapStages(s.swap, s.render) + PostedWork(s.posts) + 8 * s.renders +
    (if s.presenting then 12 else 0) + (if s.renderPending then 10 else 0) +
    RenderWork(s.render, s.swap.inFlight)
  }

  lemma GuiStepCosts(s: State, ev: Event, deferring: bool)
    requires Consistent(s, deferring) && Enabled(s, ev, deferring) && Internal(ev) && OnGuiThread(ev)
    ensures Patience(Next(s, ev, deferring)) < Patience(s)
  {
  }

  lemma SwapStepCosts(s: State, ev: Event, deferring: bool)
    requires Consistent(s, deferring) && Enabled(s, ev, deferring) && Internal(ev) && OnSwapThread(ev)
    ensures Patience(Next(s, ev, deferring)) < Patience(s)
  {
  }

  lemma FinalizeCosts(s: State, ev: Event, deferring: bool)
    requires Consistent(s, deferring) && Enabled(s, ev, deferring) && (ev.Finalize? || ev.PostFinalize?)
    ensures Patience(Next(s, ev, deferring)) < Patience(s)
  {
  }

  /** What a backlog check makes of the render thread. */
  function AfterCheck(checks: nat, blocked: bool): Render {
    if checks == 0 then Asleep else if blocked then Backlog(checks - 1) else BacklogRead(checks - 1)
  }

  lemma CheckShrinks(w: Swap, checks: nat, blocked: bool)
    requires w.inFlight ==> blocked
    ensures RenderWork(AfterCheck(checks, blocked), w.inFlight) < RenderWork(Backlog(checks), w.inFlight)
    ensures SwapStages(w, AfterCheck(checks, blocked)) == SwapStages(w, Backlog(checks))
  {
  }

  lemma CheckCosts(s: State, deferring: bool)
    requires s.render.Backlog? && (!deferring ==> !s.swap.inFlight)
    ensures Patience(RenderNext(s, CheckBacklog, deferring)) < Patience(s)
  {
    var blocked := deferring && s.swap.inFlight;
    assert RenderNext(s, CheckBacklog, deferring) == s.(render := AfterCheck(s.render.checks, blocked));
    CheckShrinks(s.swap, s.render.checks, blocked);
  }

  lemma ReadCosts(s: State, deferring: bool)
    requires s.render.BacklogRead?
    ensures Patience(RenderNext(s, ReadBacklog, deferring)) < Patience(s)
  {
    var t := RenderNext(s, ReadBacklog, deferring);
    assert PostedWork(t.posts) <= PostedWork(s.posts) + 12;
  }

  lemma BacklogCheckCosts(s: State, ev: Event, deferring: bool)
    requires Enabled(s, ev, deferring) && (ev.CheckBacklog? || ev.ReadBacklog?) && (!deferring ==> !s.swap.inFlight)
    ensures Patience(Next(s, ev, deferring)) < Patience(s)
  {
    assert Next(s, ev, deferring) == RenderNext(s, ev, deferring);
    if ev.CheckBacklog? {
      CheckCosts(s, deferring);
    } else {
      ReadCosts(s, deferring);
    }
  }

  lemma DrawingStepCosts(s: State, ev: Event, deferring: bool)
    requires Consistent(s, deferring) && Enabled(s, ev, deferring) && Internal(ev)
    requires !OnGuiThread(ev) && !OnSwapThread(ev) && !Closing(ev) && !ev.SwapOut?
    ensures Patience(Next(s, ev, deferring)) < Patience(s)
  {
  }

  lemma StepCosts(s: State, ev: Event, deferring: bool)
    requires Consistent(s, deferring) && Enabled(s, ev, deferring) && Internal(ev) && !ev.SwapOut?
    ensures Patience(Next(s, ev, deferring)) < Patience(s)
  {
    if OnGuiThread(ev) {
      GuiStepCosts(s, ev, deferring);
    } else if OnSwapThread(ev) {
      SwapStepCosts(s, ev, deferring);
    } else if ev.Finalize? || ev.PostFinalize? {
      FinalizeCosts(s, ev, deferring);
    } else if Closing(ev) {
      BacklogCheckCosts(s, ev, deferring);
    } else {
      DrawingStepCosts(s, ev, deferring);
    }
  }

  lemma StepKeepsSlot(s: State, ev: Event, deferring: bool)
    requires Internal(ev) && !ev.SwapOut?
    ensures Next(s, ev, deferring).direct == s.direct
  {
    if OnGuiThread(ev) {
      assert GuiNext(s, ev, deferring).direct == s.direct;
    } else if !OnSwapThread(ev) {
      assert RenderNext(s, ev, deferring).direct == s.direct;
    }
  }

  /** A step some thread can take while a frame waits. */
  function Due(s: State): Event {
    if s.presenting then SchedulePresented
    else if s.posts.updates > 0 then RunUpdate
    else if s.posts.schedules > 0 then RunSchedule
    else if s.posts.forced > 0 then RunForced
    else if s.posts.finalizes > 0 then RunFinalize
    else if s.posts.swapsDone > 0 then RunSwapDone
    else match s.render
      case Entered => CheckInFlight
      case Checked => SwapOut
      case Drawing => CloseUnpresented
      case Enqueuing => EnqueueTask
      case Finalizing(_) => Finalize
      case PostingFinalize => PostFinalize
      case Backlog(_) => CheckBacklog
      case BacklogRead(_) => ReadBacklog
      case Asleep =>
        if s.renders > 0 then StartRender
        else match s.swap.thread
          case Processing => SubmitAndSwap
          case Done => Deactivate
          case Inactive => ClearInFlight
          case Cleared => PostSwapDone
          case Awake => if s.swap.hasTask then TakeTask else Sleep
          case Sleeping => TakeTask
  }

  lemma DueIsEnabled(s: State, deferring: bool)
    requires Consistent(s, deferring) && s.direct.Some?
    ensures Internal(Due(s)) && Enabled(s, Due(s), deferring)
  {
  }

  /** A run of the three threads alone in which no frame is swapped out. */
  ghost predicate WaitingRun(s: State, evs: seq<Event>, deferring: bool) {
    ValidRun(s, evs, deferring) && forall i :: 0 <= i < |evs| ==> Internal(evs[i]) && !evs[i].SwapOut?
  }

  lemma {:induction false} WaitingRunCosts(s: State, evs: seq<Event>, deferring: bool)
    requires Consistent(s, deferring) && WaitingRun(s, evs, deferring)
    ensures var t := Run(s, evs, deferring);
            Consistent(t, deferring) && t.direct == s.direct && |evs| + Patience(t) <= Patience(s)
  {
    if evs == [] {
    } else {
      var before := evs[..|evs| - 1];
      WaitingRunCosts(s, before, deferring);
      var t := Run(s, before, deferring);
      StepConsistent(t, evs[|evs| - 1], deferring);
      StepCosts(t, evs[|evs| - 1], deferring);
      StepKeepsSlot(t, evs[|evs| - 1], deferring);
    }
  }

  /** From every reachable state, whatever the scheduling: while a frame waits, the
      three threads by themselves can always take another step, and before they have
      taken more than `Patience` steps one of them swaps the frame out. */
  lemma WaitingFrameIsSwappedOut(past: seq<Event>, evs: seq<Event>, deferring: bool)
    requires ValidRun(START, past, deferring) && Run(START, past, deferring).direct.Some?
    requires WaitingRun(Run(START, past, deferring), evs, deferring)
    ensures var s := Run(START, past, deferring);
            var t := Run(s, evs, deferring);
            && |evs| <= Patience(s)
            && Internal(Due(t)) && Enabled(t, Due(t), deferring)
  {
    RunConsistent(past, deferring);
    WaitingRunCosts(Run(START, past, deferring), evs, deferring);
    DueIsEnabled(Run(Run(START, past, deferring), evs, deferring), deferring);
  }
}
