/** The steps of the update/render handshake as the window and the deferred-swap
    thread run them on their own fields. */
module HandshakeSections {
  import opened Frames
  import opened RenderHandshake

  /** The one-task mailbox and the in-flight flag beside it. */
  class DeferredSwapThread {
    var pendingTask: int            // its numbers are of no concern here
    var hasPendingTask: bool
    var active: bool
    var inFlight: bool

    ghost var stage: Swapper
    ghost var drainers: nat
    ghost var overwritten: bool

    ghost function View(): Swap
      reads this
    {
      Swap(inFlight, hasPendingTask, active, stage, drainers, overwritten)
    }

    constructor ()
      ensures View() == START.swap
    {
      pendingTask, hasPendingTask, active, inFlight := 0, false, false, false;
      stage, drainers, overwritten := Awake, 0, false;
    }

    method Enqueue(task: int)
      modifies this
      ensures View() == Next(START.(swap := old(View()), render := Enqueuing), EnqueueTask, true).swap
      ensures pendingTask == task
    {
      overwritten := overwritten || hasPendingTask;
      pendingTask := task;
      hasPendingTask := true;
      stage := if stage.Sleeping? then Awake else stage;
    }

    /** The thread's wait: a task is taken, or the thread goes to sleep. */
    method WaitForTask() returns (taken: bool)
      requires stage.Awake?
      modifies this`hasPendingTask, this`active, this`stage
      ensures taken == old(hasPendingTask)
      ensures View() == SwapNext(old(View()), if taken then TakeTask else Sleep)
    {
      taken := hasPendingTask;
      if taken {
        hasPendingTask, active := false, true;
        stage := Processing;
      } else {
        stage := Sleeping;
      }
    }

    method EndTask()
      requires stage.Done?
      modifies this`active, this`stage, this`drainers
      ensures View() == SwapNext(old(View()), Deactivate)
      ensures !active && drainers == if hasPendingTask then old(drainers) else 0
    {
      active := false;
      if !hasPendingTask {
        drainers := 0;
      }
      stage := Inactive;
    }

    method ClearFlag()
      requires stage.Inactive?
      modifies this`inFlight, this`stage
      ensures View() == SwapNext(old(View()), ClearInFlight)
      ensures inFlight <==> old(inFlight) && hasPendingTask
    {
      if !hasPendingTask {
        inFlight := false;
      }
      stage := Cleared;
    }

    /** Whether `drain` may return. */
    method IsIdle() returns (idle: bool)
      ensures idle <==> !View().hasTask && !View().active
    {
      idle := !hasPendingTask && !active;
    }

    /** One turn of the loop in `drain`: it returns, or waits to be woken. */
    method Drain() returns (returned: bool)
      modifies this`drainers
      ensures View() == SwapNext(old(View()), if returned then DrainReturn else DrainWait)
      ensures returned <==> Enabled(START.(swap := old(View())), DrainReturn, true)
      ensures !returned <==> Enabled(START.(swap := old(View())), DrainWait, true)
    {
      returned := IsIdle();
      if !returned {
        drainers := drainers + 1;
      }
    }
  }

  /** The schedule flags, the posted calls and the one-frame slot. */
  class Scheduler {
    const deferring: bool
    const swapThread: DeferredSwapThread

    var directPendingFrame: Option<FrameId>
    var updatePending: bool
    var renderScheduled: bool
    var renderPending: bool
    var posts: Posts
    var renders: nat

    /** The shared state, with no call under way on either thread. */
    ghost function View(): State
      reads this, swapThread
    {
      State(directPendingFrame, false, updatePending, posts, renders, renderScheduled, renderPending, Asleep,
            swapThread.View())
    }

    constructor (deferring: bool)
      ensures View() == START && this.deferring == deferring && fresh(swapThread)
    {
      this.deferring := deferring;
      swapThread := new DeferredSwapThread();
      directPendingFrame, updatePending, renderScheduled, renderPending := None, false, false, false;
      posts, renders := Posts(0, 0, 0, 0, 0), 0;
    }

    /** `scheduleUpdate` on the GUI thread. */
    method ScheduleUpdate(force: bool)
      modifies this`updatePending, this`posts
      ensures View() == if force then Force(old(View())) else Schedule(old(View()))
      ensures updatePending
      ensures posts == old(posts).(updates := old(posts).updates + if force || !old(updatePending) then 1 else 0)
    {
      if !force && updatePending {
        return;
      }
      updatePending := true;
      posts := posts.(updates := posts.updates + 1);
    }

    method UpdateNow()
      modifies this`renderScheduled, this`renderPending, this`renders
      ensures View() == Update(old(View())) && renderScheduled
      ensures if old(renderScheduled) then renderPending && renders == old(renders)
              else renderPending == old(renderPending) && renders == old(renders) + 1
    {
      if renderScheduled {
        renderPending := true;
        return;
      }
      renderScheduled := true;
      renders := renders + 1;
    }

    /** Direct mode: the frame takes the slot, and an update is asked for. A frame that
        still waits there is freed and counted. */
    method PresentDirect(frame: FrameId) returns (freed: Option<FrameId>)
      modifies this`directPendingFrame, this`updatePending, this`posts
      ensures View() == Next(Next(old(View()), Present(frame), deferring), SchedulePresented, deferring)
      ensures freed == old(directPendingFrame) && directPendingFrame == Some(frame) && updatePending
    {
      freed := directPendingFrame;
      directPendingFrame := Some(frame);
      ScheduleUpdate(false);
    }

    /** The posted half of `scheduleUpdate`. */
    method RunPostedUpdate()
      requires posts.updates > 0
      modifies this`updatePending, this`posts, this`renderScheduled, this`renderPending, this`renders
      ensures View() == Next(old(View()), RunUpdate, deferring)
    {
      posts := posts.(updates := posts.updates - 1);
      updatePending := false;
      UpdateNow();
    }

    /** What `finalize_render` posts when an update came during the render. */
    method RunPostedFinalize()
      requires posts.finalizes > 0
      modifies this`updatePending, this`posts
      ensures View() == Next(old(View()), RunFinalize, deferring)
      ensures posts.updates - old(posts).updates ==
              if old(updatePending) || (deferring && swapThread.inFlight) then 0 else 1
    {
      posts := posts.(finalizes := posts.finalizes - 1);
      if deferring && swapThread.inFlight {
        return;
      }
      ScheduleUpdate(false);
    }

    method RunPostedSwapDone()
      requires posts.swapsDone > 0
      modifies this`updatePending, this`posts
      ensures View() == Next(old(View()), RunSwapDone, deferring)
    {
      posts := posts.(swapsDone := posts.swapsDone - 1);
      ScheduleUpdate(false);
    }

    /** The locked section of `finalize_render`. */
    method FinalizeRender(postChecks: nat) returns (pending: bool)
      modifies this`renderScheduled, this`renderPending
      ensures View().(render := if pending then PostingFinalize else Backlog(2 + postChecks)) ==
              Next(old(View()).(render := Finalizing(postChecks)), Finalize, deferring)
      ensures pending == old(renderPending) && !renderPending && !renderScheduled
    {
      renderScheduled := false;
      pending := renderPending;
      renderPending := false;
    }

    /** The first half of `scheduleRenderIfBacklog`, on the render thread. */
    method MayCheckBacklog(checks: nat) returns (look: bool)
      requires checks > 0
      ensures View().(render := if look then BacklogRead(checks - 1) else Backlog(checks - 1)) ==
              Next(View().(render := Backlog(checks)), CheckBacklog, deferring)
      ensures look <==> !deferring || !swapThread.inFlight
    {
      look := !(deferring && swapThread.inFlight);
    }

    /** The whole of `finalize_render` and what follows it to the end of the render: a
        consistent state is left consistent, so a waiting frame keeps its wake-up. */
    method EndRender(postChecks: nat)
      requires Consistent(View().(render := Finalizing(postChecks)), deferring)
      modifies this`renderScheduled, this`renderPending, this`posts
      ensures Consistent(View(), deferring) && !renderScheduled && !renderPending
      ensures directPendingFrame == old(directPendingFrame) && (directPendingFrame.Some? ==> Wakeup(View()))
    {
      var checks := ReleaseSchedule(postChecks);
      while checks > 0
        modifies this`posts
        invariant Consistent(View().(render := Backlog(checks)), deferring)
        decreases checks
      {
        checks := checks - 1;
        CheckOnce(checks);
      }
      StepConsistent(View().(render := Backlog(0)), CheckBacklog, deferring);
    }

    method ReleaseSchedule(postChecks: nat) returns (checks: nat)
      requires Consistent(View().(render := Finalizing(postChecks)), deferring)
      modifies this`renderScheduled, this`renderPending, this`posts
      ensures Consistent(View().(render := Backlog(checks)), deferring) && !renderScheduled && !renderPending
    {
      StepConsistent(View().(render := Finalizing(postChecks)), Finalize, deferring);
      var pending := FinalizeRender(postChecks);
      if !pending {
        return 2 + postChecks;
      }
      StepConsistent(View().(render := PostingFinalize), PostFinalize, deferring);
      posts := posts.(finalizes := posts.finalizes + 1);
      return 1;
    }

    /** The whole of `scheduleRenderIfBacklog`, with `rest` more of it to come. */
    method CheckOnce(rest: nat)
      requires Consistent(View().(render := Backlog(rest + 1)), deferring)
      modifies this`posts
      ensures Consistent(View().(render := Backlog(rest)), deferring)
    {
      StepConsistent(View().(render := Backlog(rest + 1)), CheckBacklog, deferring);
      var look := MayCheckBacklog(rest + 1);
      if look {
        StepConsistent(View().(render := BacklogRead(rest)), ReadBacklog, deferring);
        PostIfBacklog(rest);
      }
    }

    method PostIfBacklog(checks: nat)
      modifies this`posts
      ensures View().(render := Backlog(checks)) ==
              Next(old(View()).(render := BacklogRead(checks)), ReadBacklog, deferring)
      ensures posts == old(posts).(schedules := old(posts).schedules + if directPendingFrame.Some? then 1 else 0)
    {
      if directPendingFrame.Some? {
        posts := posts.(schedules := posts.schedules + 1);
      }
    }

    /** The in-flight check at the head of `render`. */
    method MayStartFrame() returns (may: bool)
      ensures View().(render := if may then Checked else Finalizing(0)) ==
              Next(View().(render := Entered), CheckInFlight, deferring)
      ensures may <==> !deferring || !swapThread.inFlight
    {
      may := !(deferring && swapThread.inFlight);
    }

    method SwapOutDirect() returns (incoming: Option<FrameId>)
      modifies this`directPendingFrame
      ensures incoming == old(directPendingFrame) && directPendingFrame == None
      ensures View().(render := Drawing) == Next(old(View()).(render := Checked), SwapOut, deferring)
    {
      incoming := directPendingFrame;
      directPendingFrame := None;
    }

    /** `enqueueDeferredSwap`: the flag is raised before the swap task is handed over. */
    method EnqueueDeferredSwap(task: int)
      modifies swapThread
      ensures View().(render := Finalizing(1)) ==
              Next(Next(old(View()).(render := Drawing), BeginDeferred, deferring), EnqueueTask, deferring)
    {
      swapThread.inFlight := true;
      swapThread.Enqueue(task);
    }

    /** The last step of the swap thread's loop. */
    method AnnounceDone()
      requires swapThread.stage.Cleared?
      modifies this`posts, swapThread`stage
      ensures View() == Next(old(View()), PostSwapDone, deferring)
      ensures posts == old(posts).(swapsDone := old(posts).swapsDone + if swapThread.hasPendingTask then 0 else 1)
    {
      if !swapThread.hasPendingTask {
        posts := posts.(swapsDone := posts.swapsDone + 1);
      }
      swapThread.stage := Awake;
    }
  }
}
