/** The critical sections of the hand-off as the window runs them, each on the
    display queue's fields and the pending store, and each one step of the machine. */
module HandoffSections {
  import opened Frames
  import opened Handoff
  import opened PendingStores
  import P = PendingSpec

  /** What the GUI thread goes on to do with its frame. */
  datatype Decision = Promote(promoted: Entry) | Pushed | Keep

  function GuiAfter(d: Decision, e: Entry): Gui {
    match d
    case Promote(promoted) => Promoting(e, promoted)
    case Pushed => Sweeping(e)
    case Keep => Storing(e)
  }

  /** A real frame that is not later than the newest one pushed. */
  predicate Stale(e: Entry, newest: real) {
    !e.warmup && newest >= 0.0 && e.pts <= newest + PTS_EPSILON
  }

  /** A real frame that starts a timeline, or goes back behind the start of this one. */
  predicate Restarts(e: Entry, origin: real) {
    !e.warmup && (origin < 0.0 || e.pts + PTS_EPSILON < origin)
  }

  class Window {
    const depthLimit: nat
    const store: PendingStore

    var queue: seq<Entry>           // what libplacebo's queue holds
    var queuePtsOrigin: real
    var newestQueuedFramePts: real

    ghost var pushed: seq<real>
    ghost var lost: bool

    ghost predicate Valid()
      reads this, store
    {
      store.Valid()
    }

    ghost function Settings(): Config
      reads this
    {
      Config(depthLimit, store.overflowEnabled)
    }

    /** The shared state, with both threads outside their sections. */
    ghost function View(): State
      reads this, store
    {
      State(queue, queuePtsOrigin, newestQueuedFramePts, store.Contents(), store.submissionActive,
            Idle, Outside, pushed, [], lost)
    }

    constructor (depthLimit: nat, overflowEnabled: bool)
      ensures Valid() && View() == START && Settings() == Config(depthLimit, overflowEnabled)
      ensures fresh(store)
    {
      this.depthLimit := depthLimit;
      store := new PendingStore(overflowEnabled);
      queue, queuePtsOrigin, newestQueuedFramePts := [], -1.0, -1.0;
      pushed, lost := [], false;
    }

    /** The queue is emptied, at a rollback or by a reset. */
    method EmptyQueue()
      modifies this
      ensures View() == Emptied(old(View()))
    {
      queue := [];
      newestQueuedFramePts := -1.0;
      lost := lost || pushed != [];
      pushed := [];
    }

    /** Timestamps moved backwards, or there is no timeline yet. */
    method CheckRollback(pts: real)
      requires Valid()
      modifies this, store
      ensures Valid() && View() == Rollback(old(View()), pts)
      ensures var restarts := old(queuePtsOrigin) < 0.0 || pts + PTS_EPSILON < old(queuePtsOrigin);
              if restarts then
                && queue == [] && newestQueuedFramePts == -1.0 && queuePtsOrigin == pts
                && store.Contents() == P.Prune(old(store.Contents()), pts).contents
              else unchanged(this) && store.Contents() == old(store.Contents())
    {
      if queuePtsOrigin < 0.0 || pts + PTS_EPSILON < queuePtsOrigin {
        EmptyQueue();
        queuePtsOrigin := pts;
        store.PrunePendingFramesBefore(pts);
      }
    }

    method PushFrame(e: Entry)
      modifies this`queue, this`pushed, this`newestQueuedFramePts
      ensures View() == Push(old(View()), e).(newest := if e.warmup then old(newestQueuedFramePts)
                                                        else Max(old(newestQueuedFramePts), e.pts))
    {
      queue := queue + [e];
      if !e.warmup {
        pushed := pushed + [e.pts];
        newestQueuedFramePts := if newestQueuedFramePts > e.pts then newestQueuedFramePts else e.pts;
      }
    }

    /** `presentFrame` decides: a waiting frame goes first if nothing renders and there
        is room, the new frame goes to the queue if none waits, and else it waits. */
    method DecideFrame(e: Entry, submitting: bool, busy: bool) returns (d: Decision)
      requires Valid()
      modifies this`queue, this`pushed, this`newestQueuedFramePts, store
      ensures Valid()
      ensures View().(gui := GuiAfter(d, e)) ==
              Next(old(View()).(gui := Deciding(e, submitting, busy)), Decide, Settings())
      ensures var waiting, room := old(store.Contents()), |old(queue)| < depthLimit;
              && (d == Pushed <==> waiting == [] && !submitting && room)
              && (d.Promote? <==> waiting != [] && !busy && room)
              && queue == (if d == Pushed then old(queue) + [e] else old(queue))
              && (if d.Promote? then [d.promoted] + store.Contents() == waiting else store.Contents() == waiting)
              && newestQueuedFramePts == (if d == Pushed && !e.warmup && e.pts > old(newestQueuedFramePts) then e.pts
                                          else old(newestQueuedFramePts))
    {
      var depth := |queue|;
      var pendingExists := store.framePresent || submitting;
      var tolerated := depthLimit + if pendingExists then 1 else 0;
      var depthExceeded := depth >= tolerated;
      assert store.framePresent <==> store.Contents() != [];
      if !busy && pendingExists && depth < depthLimit {
        var taken := store.TakePendingFrame();
        if taken.Some? {
          return Promote(taken.value);
        }
      }
      if !depthExceeded && !pendingExists {
        PushFrame(e);
        return Pushed;
      }
      return Keep;
    }

    /** The promoted frame is pushed; its timestamp counts even if it is a warm-up. */
    method PushPromotedFrame(e: Entry, promoted: Entry)
      requires Valid()
      modifies this`queue, this`pushed, this`newestQueuedFramePts
      ensures Valid()
      ensures View().(gui := Storing(e)) == Next(old(View()).(gui := Promoting(e, promoted)), PushPromoted, Settings())
      ensures queue == old(queue) + [promoted] && newestQueuedFramePts >= promoted.pts
    {
      queue := queue + [promoted];
      if !promoted.warmup {
        pushed := pushed + [promoted.pts];
      }
      newestQueuedFramePts := if newestQueuedFramePts > promoted.pts then newestQueuedFramePts else promoted.pts;
    }

    method KeepFrame(e: Entry) returns (stored: bool)
      requires Valid()
      modifies store
      ensures Valid()
      ensures View() == Next(old(View()).(gui := Storing(e)), StoreFrame, Settings())
      ensures var o := P.Store(old(store.Contents()), e, store.overflowEnabled);
              stored == o.accepted && store.Contents() == o.contents
    {
      stored := store.StorePendingFrame(e);
    }

    /** After a direct push the waiting frames that are not later go. */
    method DropSuperseded(e: Entry)
      requires Valid()
      modifies store
      ensures Valid()
      ensures View() == Next(old(View()).(gui := Sweeping(e)), Sweep, Settings())
    {
      store.DropUpTo(e.pts);
    }

    /** The first half of `applyPendingFrame`. */
    method TakeForSubmission() returns (taken: Option<Entry>)
      requires Valid()
      modifies store
      ensures Valid()
      ensures View().(renderer := if taken.Some? then Taken(taken.value) else Ready) ==
              Next(old(View()).(renderer := Ready), Take, Settings())
      ensures store.submissionActive == taken.Some? == (old(store.Contents()) != [])
      ensures taken.Some? ==> [taken.value] + store.Contents() == old(store.Contents())
    {
      store.submissionActive := true;
      taken := store.TakePendingFrame();
      if taken.None? {
        store.submissionActive := false;
      }
    }

    /** `queueStoredFrame` up to the end of its locked section: the frame is dropped as
        stale, pushed, or handed back to be stored. */
    method SubmitFrame(e: Entry) returns (after: Renderer)
      requires Valid()
      modifies this, store
      ensures Valid()
      ensures View().(renderer := after) == Next(old(View()).(renderer := Taken(e)), Submit, Settings())
      ensures Stale(e, old(newestQueuedFramePts)) ==> queue == old(queue) && after == Finishing
      ensures !Stale(e, old(newestQueuedFramePts)) ==>
                var kept := if Restarts(e, old(queuePtsOrigin)) then [] else old(queue);
                && queue == kept + (if |kept| < depthLimit then [e] else [])
                && after == if e.warmup || |kept| >= depthLimit then Deferred(e) else Finishing
    {
      if Stale(e, newestQueuedFramePts) {
        return Finishing;
      }
      if !e.warmup {
        CheckRollback(e.pts);
      }
      after := PushIfRoom(e);
    }

    /** A warm-up is handed back to be stored even when it was pushed. */
    method PushIfRoom(e: Entry) returns (after: Renderer)
      requires Valid()
      modifies this`queue, this`pushed, this`newestQueuedFramePts
      ensures Valid()
      ensures queue == old(queue) + if |old(queue)| < depthLimit then [e] else []
      ensures after == if e.warmup || |old(queue)| >= depthLimit then Deferred(e) else Finishing
      ensures |old(queue)| >= depthLimit ==> View() == old(View())
      ensures |old(queue)| < depthLimit ==>
                View() == Push(old(View()), e).(newest := if e.warmup then old(newestQueuedFramePts)
                                                          else Max(old(newestQueuedFramePts), e.pts))
    {
      if |queue| >= depthLimit {
        return Deferred(e);
      }
      PushFrame(e);
      return if e.warmup then Deferred(e) else Finishing;
    }

    method StoreDeferredFrame(e: Entry)
      requires Valid()
      modifies store
      ensures Valid()
      ensures View().(renderer := Finishing) == Next(old(View()).(renderer := Deferred(e)), StoreDeferred, Settings())
      ensures store.Contents() == P.Store(old(store.Contents()), e, store.overflowEnabled).contents
    {
      var _ := store.StorePendingFrame(e);
    }

    method FinishSubmission()
      requires Valid()
      modifies store`submissionActive
      ensures Valid()
      ensures View().(renderer := Ready) == Next(old(View()).(renderer := Finishing), EndSubmission, Settings())
      ensures !store.submissionActive
    {
      store.submissionActive := false;
    }

    /** `resetPlaceboQueue`, its effect on the queue and the timeline. */
    method ResetDisplayQueue(keepTimeline: bool)
      requires Valid()
      modifies this
      ensures Valid()
      ensures View().(renderer := Ready) == Next(old(View()).(renderer := Ready), ResetQueue(keepTimeline), Settings())
      ensures queue == [] && newestQueuedFramePts == -1.0 && store.Contents() == old(store.Contents())
      ensures queuePtsOrigin == if keepTimeline then old(queuePtsOrigin) else -1.0
    {
      EmptyQueue();
      if !keepTimeline {
        queuePtsOrigin := -1.0;
      }
    }

    /** A session begins or ends. */
    method ChangeSession()
      requires Valid()
      modifies this, store
      ensures Valid()
      ensures View() == Next(old(View()), SessionChange, Settings())
      ensures queue == [] && store.Contents() == [] && queuePtsOrigin == newestQueuedFramePts == -1.0
    {
      store.ClearPendingFrameState();
      EmptyQueue();
      queuePtsOrigin := -1.0;
    }
  }
}
