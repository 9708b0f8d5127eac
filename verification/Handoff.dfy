/** The hand-off of decoded frames to the display queue by two threads.

    The GUI thread delivers a frame and the render thread takes frames out of the
    pending store and submits them. Each event below is one critical section, or
    one read of a shared flag; between any two events of one thread the other may
    run. libplacebo's queue is a sequence that the render thread consumes from the
    front. */
module Handoff {
  import opened Frames
  import P = PendingSpec

  /** Where the GUI thread is inside `presentFrame`. */
  datatype Gui =
    | Idle
    | Checked(e: Entry)                                // rollback check done, lock released
    | Flagged(e: Entry, submitting: bool)              // submission flag read
    | Deciding(e: Entry, submitting: bool, busy: bool) // schedule flags read
    | Promoting(e: Entry, promoted: Entry)             // a pending frame is about to be pushed
    | Storing(e: Entry)                                // the frame goes to the pending store
    | Sweeping(e: Entry)                               // pushed; older pending frames still to drop

  /** Where the render thread is inside a scheduled render. */
  datatype Renderer =
    | Outside
    | Ready
    | Taken(e: Entry)      // taken from the store, not submitted yet
    | Deferred(e: Entry)   // submission goes back to the pending store
    | Finishing            // the submission flag is still set

  datatype State = State(
    queue: seq<Entry>, origin: real, newest: real, store: seq<Entry>,
    submitting: bool, gui: Gui, renderer: Renderer,
    pushed: seq<real>,     // real timestamps pushed since the last queue reset
    delivered: seq<real>,  // real timestamps delivered
    lost: bool)            // a reset discarded pushed real frames

  datatype Config = Config(depthLimit: nat, overflowEnabled: bool)

  ghost predicate ValidConfig(c: Config) {
    c.depthLimit >= 2
  }

  datatype Event =
    // GUI thread
    | Deliver(e: Entry)             // the queue lock was free
    | DeliverToStore(e: Entry)      // the queue lock was taken, or the frame was recovered
    | DeliverWarmup(e: Entry)
    | ReadSubmission(flicker: bool)  // a take that finds nothing raises the flag for a moment
    | ReadSchedule(active: bool)
    | Decide
    | PushPromoted
    | StoreFrame
    | Sweep
    | SessionChange
    // render thread
    | StartRender
    | Take
    | Replay(e: Entry, prune: bool) // a reset seed or a kept frame is submitted
    | Submit
    | StoreDeferred
    | EndSubmission
    | Consume(n: nat)
    | EnqueueKept(e: Entry)
    | ResetQueue(keepTimeline: bool)
    | FinishRender

  function Max(a: real, b: real): real { if a > b then a else b }

  predicate Real(e: Entry) { e.pts >= 0.0 && !e.warmup }

  predicate Scheduled(s: State) { !s.renderer.Outside? }

  ghost predicate Enabled(s: State, ev: Event, c: Config) {
    match ev
    case Deliver(e) => s.gui.Idle? && Real(e)
    case DeliverToStore(e) => s.gui.Idle? && Real(e)
    case DeliverWarmup(e) => s.gui.Idle? && e.warmup && e.pts == 0.0
    case ReadSubmission(_) => s.gui.Checked?
    case ReadSchedule(_) => s.gui.Flagged?
    case Decide => s.gui.Deciding?
    case PushPromoted => s.gui.Promoting?
    case StoreFrame => s.gui.Storing?
    case Sweep => s.gui.Sweeping?
    case SessionChange => s.gui.Idle?
    case StartRender => s.gui.Idle? && s.renderer.Outside?
    case Take => s.renderer.Ready?
    case Replay(e, _) => s.renderer.Ready? && Real(e)
    case Submit => s.renderer.Taken?
    case StoreDeferred => s.renderer.Deferred?
    case EndSubmission => s.renderer.Finishing?
    case Consume(n) => s.renderer.Ready? && n <= |s.queue|
    case EnqueueKept(e) => s.renderer.Ready? && Real(e) && |s.queue| < c.depthLimit
    case ResetQueue(_) => s.renderer.Ready?
    case FinishRender => s.renderer.Ready?
  }

  /** The display queue is emptied and what was pushed is forgotten. */
  function Emptied(s: State): State {
    s.(queue := [], newest := -1.0, pushed := [], lost := s.lost || s.pushed != [])
  }

  /** Timestamps moved backwards, or there is no timeline yet: restart it at `pts`. */
  function Rollback(s: State, pts: real): State {
    if s.origin < 0.0 || pts + PTS_EPSILON < s.origin then
      Emptied(s).(origin := pts, store := P.Prune(s.store, pts).contents)
    else s
  }

  function Push(s: State, e: Entry): State {
    s.(queue := s.queue + [e], pushed := if e.warmup then s.pushed else s.pushed + [e.pts])
  }

  function DecideStep(s: State, e: Entry, submitting: bool, busy: bool, c: Config): State {
    var pendingExists := s.store != [] || submitting;
    var tolerated := c.depthLimit + (if pendingExists then 1 else 0);
    if !busy && pendingExists && |s.queue| < c.depthLimit && s.store != [] then
      s.(store := s.store[1..], gui := Promoting(e, s.store[0]))
    else if |s.queue| < tolerated && !pendingExists then
      Push(s, e).(newest := if e.warmup then s.newest else Max(s.newest, e.pts), gui := Sweeping(e))
    else s.(gui := Storing(e))
  }

  /** `queueStoredFrame`, up to the end of its locked section. */
  function SubmitStep(s: State, e: Entry, c: Config): State {
    if e.warmup then
      if |s.queue| >= c.depthLimit then s.(renderer := Deferred(e))
      else Push(s, e).(renderer := Deferred(e))
    else if s.newest >= 0.0 && e.pts <= s.newest + PTS_EPSILON then s.(renderer := Finishing)
    else
      var t := Rollback(s, e.pts);
      if |t.queue| >= c.depthLimit then t.(renderer := Deferred(e))
      else Push(t, e).(newest := Max(t.newest, e.pts), renderer := Finishing)
  }

  function Next(s: State, ev: Event, c: Config): State {
    match ev
    case Deliver(e) => Rollback(s, e.pts).(gui := Checked(e), delivered := s.delivered + [e.pts])
    case DeliverToStore(e) => s.(gui := Storing(e), delivered := s.delivered + [e.pts])
    case DeliverWarmup(e) => s.(gui := Checked(e))
    case ReadSubmission(flicker) =>
      if s.gui.Checked? then s.(gui := Flagged(s.gui.e, s.submitting || (flicker && Scheduled(s)))) else s
    case ReadSchedule(active) =>
      if s.gui.Flagged? then s.(gui := Deciding(s.gui.e, s.gui.submitting, active || Scheduled(s))) else s
    case Decide => if s.gui.Deciding? then DecideStep(s, s.gui.e, s.gui.submitting, s.gui.busy, c) else s
    case PushPromoted =>
      if s.gui.Promoting? then
        Push(s, s.gui.promoted).(newest := Max(s.newest, s.gui.promoted.pts), gui := Storing(s.gui.e))
      else s
    case StoreFrame =>
      if s.gui.Storing? then s.(store := P.Store(s.store, s.gui.e, c.overflowEnabled).contents, gui := Idle) else s
    case Sweep =>
      if s.gui.Sweeping? then s.(store := s.store[P.RunUpTo(s.store, s.gui.e.pts)..], gui := Idle) else s
    case SessionChange => Emptied(s).(origin := -1.0, store := [], submitting := false)
    case StartRender => s.(renderer := Ready)
    case Take =>
      if s.store == [] then s.(submitting := false)
      else s.(submitting := true, store := s.store[1..], renderer := Taken(s.store[0]))
    case Replay(e, prune) =>
      s.(store := if prune then P.Prune(s.store, e.pts).contents else s.store, renderer := Taken(e))
    case Submit => if s.renderer.Taken? then SubmitStep(s, s.renderer.e, c) else s
    case StoreDeferred =>
      if s.renderer.Deferred? then
        s.(store := P.Store(s.store, s.renderer.e, c.overflowEnabled).contents, renderer := Finishing)
      else s
    case EndSubmission => s.(submitting := false, renderer := Ready)
    case Consume(n) => if n <= |s.queue| then s.(queue := s.queue[n..]) else s
    case EnqueueKept(e) =>
      Push(s, e).(newest := Max(s.newest, e.pts), origin := if s.origin < 0.0 then e.pts else s.origin)
    case ResetQueue(keepTimeline) => Emptied(s).(origin := if keepTimeline then s.origin else -1.0)
    case FinishRender => s.(renderer := Outside)
  }

  const START: State :=
    State([], -1.0, -1.0, [], false, Idle, Outside, [], [], false)

  ghost predicate ValidRun(s: State, evs: seq<Event>, c: Config) {
    evs == [] || (ValidRun(s, evs[..|evs| - 1], c) && Enabled(Run(s, evs[..|evs| - 1], c), evs[|evs| - 1], c))
  }

  function Run(s: State, evs: seq<Event>, c: Config): State {
    if evs == [] then s else Next(Run(s, evs[..|evs| - 1], c), evs[|evs| - 1], c)
  }
}
