/** Queue resets and the generations they are captured under.

    A reset is requested by `queuePlaceboReset`, executed (or throttled) by the
    render thread, and replays the newest frame captured since the request. A
    generation number tells which request a captured frame belongs to. The shared
    numbers are plain atomics, so a request is modelled as two events, its loads
    and its stores, and an executed reset as three. Callers look at the pending flag
    before they ask; that look is left out, which only adds runs. */
module ResetProtocol {
  import opened Frames

  /** A captured frame: its timestamp and the generation it was captured under. */
  datatype Seed = Seed(pts: real, generation: nat)

  /** The timer of a throttled reset, which asks again after `waitMs`. */
  datatype Retry = Retry(generation: nat, preserve: bool, waitMs: nat)

  datatype Gui =
    | Idle
    | Requesting(generation: nat)  // timeline flag stored, generation loaded, its stores to come
    | Offering(seed: Seed)         // generation loaded, frame not stored yet

  datatype Renderer =
    | Ready
    | Resetting                    // counted, generation not retired yet
    | Retired(generation: nat)     // about to replay the captured frame

  datatype State = State(
    captureGeneration: nat, captureActive: bool, throttleGeneration: nat,
    resetPending: bool, preserve: bool, lastResetMs: nat,
    retries: seq<Retry>, seed: Option<Seed>,
    gui: Gui, renderer: Renderer,
    executed: seq<nat>,            // generations of the executed resets, in order
    offers: seq<Seed>)             // frames offered since the session changed

  datatype Event =
    // GUI thread
    | BeginRequest(preserveTimeline: bool)
    | RetryFires(i: nat)
    | EndRequest
    | BeginOffer(pts: real)
    | EndOffer
    | SessionChange
    // render thread
    | RenderRequest                // a reset asked for by the render thread itself
    | BeginReset(nowMs: nat)
    | Retire
    | ReplaySeed

  const THROTTLE_MS: nat := 100

  ghost predicate Enabled(s: State, ev: Event) {
    match ev
    case BeginRequest(_) => s.gui.Idle?
    case RetryFires(i) => s.gui.Idle? && i < |s.retries|
    case EndRequest => s.gui.Requesting?
    case BeginOffer(pts) => s.gui.Idle? && pts >= 0.0
    case EndOffer => s.gui.Offering?
    case SessionChange => s.gui.Idle?
    case RenderRequest => s.renderer.Ready?
    case BeginReset(nowMs) => s.renderer.Ready? && s.resetPending && nowMs >= s.lastResetMs
    case Retire => s.renderer.Resetting?
    case ReplaySeed => s.renderer.Retired?
  }

  /** The generation a request publishes: the one already being captured, or the
      next number of the throttle counter. */
  function RequestedGeneration(s: State): nat {
    if s.captureGeneration != 0 then s.captureGeneration else s.throttleGeneration + 1
  }

  function Throttled(s: State, nowMs: nat): bool {
    !s.preserve && s.lastResetMs != 0 && nowMs < s.lastResetMs + THROTTLE_MS
  }

  function LoadRequest(s: State, preserveTimeline: bool): State {
    s.(preserve := s.preserve || preserveTimeline, gui := Requesting(RequestedGeneration(s)))
  }

  function StoreRequest(s: State, generation: nat): State {
    s.(captureGeneration := generation, captureActive := true, resetPending := true)
  }

  /** The captured frame after another one is offered: a frame of another
      generation is replaced, an older one of the same generation is not taken. */
  function StoreSeed(seed: Option<Seed>, offered: Seed): Option<Seed> {
    if seed.Some? && seed.value.generation == offered.generation && offered.pts <= seed.value.pts + PTS_EPSILON
    then seed
    else Some(offered)
  }

  function Next(s: State, ev: Event): State {
    match ev
    case BeginRequest(preserveTimeline) => LoadRequest(s, preserveTimeline)
    case RetryFires(i) =>
      if i < |s.retries| then
        var r := s.retries[i];
        var t := s.(retries := s.retries[..i] + s.retries[i + 1..]);
        if s.throttleGeneration != r.generation then t
        else LoadRequest(t, r.preserve)
      else s
    case EndRequest =>
      if s.gui.Requesting? then StoreRequest(s, s.gui.generation).(gui := Idle) else s
    case BeginOffer(pts) =>
      if s.captureGeneration != 0 then s.(gui := Offering(Seed(pts, s.captureGeneration))) else s
    case EndOffer =>
      if s.gui.Offering? then
        s.(seed := StoreSeed(s.seed, s.gui.seed), offers := s.offers + [s.gui.seed], gui := Idle)
      else s
    case SessionChange => s.(captureGeneration := 0, captureActive := false, seed := None, offers := [])
    case RenderRequest => StoreRequest(s, RequestedGeneration(s))
    case BeginReset(nowMs) =>
      if Throttled(s, nowMs) then
        s.(throttleGeneration := s.throttleGeneration + 1, resetPending := false,
           retries := s.retries + [Retry(s.throttleGeneration + 1, s.preserve, s.lastResetMs + THROTTLE_MS - nowMs)])
      else
        s.(throttleGeneration := s.throttleGeneration + 1, resetPending := false, preserve := false,
           lastResetMs := nowMs, renderer := Resetting)
    case Retire =>
      s.(captureGeneration := 0, captureActive := false, executed := s.executed + [s.captureGeneration],
         renderer := Retired(s.captureGeneration))
    case ReplaySeed => s.(seed := None, renderer := Ready)
  }

  const START: State :=
    State(0, false, 0, false, false, 0, [], None, Idle, Ready, [], [])

  /** Requests and executed resets do not run inside one another. */
  predicate Serialized(s: State, ev: Event) {
    match ev
    case BeginRequest(_) => s.renderer.Ready?
    case RetryFires(_) => s.renderer.Ready?
    case BeginReset(_) => !s.gui.Requesting?
    case _ => true
  }

  ghost predicate ValidRun(s: State, evs: seq<Event>) {
    evs == [] || (ValidRun(s, evs[..|evs| - 1]) && Enabled(Run(s, evs[..|evs| - 1]), evs[|evs| - 1]))
  }

  ghost predicate SerializedRun(s: State, evs: seq<Event>) {
    evs == [] ||
    (SerializedRun(s, evs[..|evs| - 1]) &&
     var t := Run(s, evs[..|evs| - 1]); Enabled(t, evs[|evs| - 1]) && Serialized(t, evs[|evs| - 1]))
  }

  function Run(s: State, evs: seq<Event>): State {
    if evs == [] then s else Next(Run(s, evs[..|evs| - 1]), evs[|evs| - 1])
  }

  /** No two executed resets share a generation that is not zero. */
  ghost predicate FreshGenerations(executed: seq<nat>) {
    forall i, j :: 0 <= i < j < |executed| && executed[i] != 0 ==> executed[i] != executed[j]
  }

  // ----- fresh generations -----

  /** The executing reset retires a generation that it counted, and that no request
      under way has loaded and is about to publish again. */
  predicate CleanRetire(s: State) {
    s.captureGeneration != 0 ==>
      s.captureGeneration <= s.throttleGeneration && !(s.gui.Requesting? && s.gui.generation == s.captureGeneration)
  }

  ghost predicate CleanRun(s: State, evs: seq<Event>) {
    evs == [] ||
    (CleanRun(s, evs[..|evs| - 1]) &&
     var t := Run(s, evs[..|evs| - 1]); Enabled(t, evs[|evs| - 1]) && (evs[|evs| - 1].Retire? ==> CleanRetire(t)))
  }

  /** The generations that are loaded or published have not been executed. */
  ghost predicate Unspent(s: State) {
    && FreshGenerations(s.executed)
    && (forall g :: g in s.executed ==> g <= s.throttleGeneration)
    && (s.captureGeneration != 0 ==>
          s.captureGeneration !in s.executed && s.captureGeneration <= s.throttleGeneration + 1)
    && (s.gui.Requesting? ==> s.gui.generation !in s.executed && 0 < s.gui.generation <= s.throttleGeneration + 1)
  }

  lemma CleanStep(s: State, ev: Event)
    requires Unspent(s) && Enabled(s, ev) && (ev.Retire? ==> CleanRetire(s))
    ensures Unspent(Next(s, ev))
  {
  }

  lemma {:induction false} CleanRunUnspent(s: State, evs: seq<Event>)
    requires Unspent(s) && CleanRun(s, evs)
    ensures Unspent(Run(s, evs))
  {
    if evs == [] {
    } else {
      CleanRunUnspent(s, evs[..|evs| - 1]);
      CleanStep(Run(s, evs[..|evs| - 1]), evs[|evs| - 1]);
    }
  }

  /** Reset generations are fresh: no two executed resets share one, through throttled
      retries and session changes, as long as resets retire cleanly. */
  lemma ResetGenerationsAreFresh(evs: seq<Event>)
    requires CleanRun(START, evs)
    ensures FreshGenerations(Run(START, evs).executed)
  {
    CleanRunUnspent(START, evs);
  }

  /** Requests run between resets. */
  predicate Separate(s: State) {
    && s.captureGeneration <= s.throttleGeneration + (if s.renderer.Resetting? then 0 else 1)
    && (s.gui.Requesting? ==> s.renderer.Ready? && s.gui.generation <= s.throttleGeneration + 1)
    && (s.renderer.Retired? ==> s.captureGeneration == 0)
  }

  /** Requests and resets that do not run inside one another are clean. */
  lemma {:induction false} SerializedIsClean(evs: seq<Event>)
    requires SerializedRun(START, evs)
    ensures CleanRun(START, evs) && Separate(Run(START, evs))
  {
    if evs == [] {
    } else {
      SerializedIsClean(evs[..|evs| - 1]);
      SeparateStep(Run(START, evs[..|evs| - 1]), evs[|evs| - 1]);
    }
  }

  lemma SeparateStep(s: State, ev: Event)
    requires Separate(s) && Enabled(s, ev) && Serialized(s, ev)
    ensures Separate(Next(s, ev)) && (ev.Retire? ==> CleanRetire(s))
  {
  }

  /** A prefix of a run and the state after it. */
  ghost predicate Reaches(start: State, evs: seq<Event>, k: nat, t: State) {
    k <= |evs| && CleanRun(start, evs[..k]) && Run(start, evs[..k]) == t
  }

  lemma RunStep(start: State, evs: seq<Event>, k: nat, t: State, ev: Event, u: State)
    requires Reaches(start, evs, k, t) && k < |evs| && evs[k] == ev && Enabled(t, ev) && u == Next(t, ev)
    requires ev.Retire? ==> CleanRetire(t)
    ensures Reaches(start, evs, k + 1, u)
  {
    assert evs[..k + 1][..k] == evs[..k];
  }

  /** The state after a reset was retired, asked for again and executed again. */
  lemma RetiredAgain(s: State, evs: seq<Event>, k: nat, t: State, nowMs: nat)
    requires Reaches(s, evs, k, t) && k + 2 <= |evs| && evs[k] == BeginReset(nowMs) && evs[k + 1] == Retire
    requires t.renderer.Ready? && t.resetPending && nowMs >= t.lastResetMs + THROTTLE_MS
    requires 0 < t.captureGeneration <= t.throttleGeneration + 1 && t.captureGeneration in t.executed
    requires !(t.gui.Requesting? && t.gui.generation == t.captureGeneration)
    ensures CleanRun(s, evs[..k + 2]) && !FreshGenerations(Run(s, evs[..k + 2]).executed)
  {
    var g := t.captureGeneration;
    var u := t.(throttleGeneration := t.throttleGeneration + 1, resetPending := false, preserve := false,
                lastResetMs := nowMs, renderer := Resetting);
    var v := u.(captureGeneration := 0, captureActive := false, executed := t.executed + [g], renderer := Retired(g));
    RunStep(s, evs, k, t, BeginReset(nowMs), u);
    RunStep(s, evs, k + 1, u, Retire, v);
    var i :| 0 <= i < |t.executed| && t.executed[i] == g;
    assert v.executed[i] == v.executed[|t.executed|] == g;
  }

  /** After an unclean one, the render thread or the request under way asks again and
      the generation is executed twice. */
  lemma UncleanRepeats(s: State) returns (more: seq<Event>)
    requires Unspent(s) && s.renderer.Resetting? && !CleanRetire(s)
    ensures CleanRun(Next(s, Retire), more) && !FreshGenerations(Run(Next(s, Retire), more).executed)
  {
    var r, nowMs := Next(s, Retire), s.lastResetMs + THROTTLE_MS;
    var overtaken := s.gui.Requesting? && s.gui.generation == s.captureGeneration;
    var again := if overtaken then EndRequest else RenderRequest;
    more := [ReplaySeed, again, BeginReset(nowMs), Retire];
    assert Reaches(r, more, 0, r);
    var t := r.(seed := None, renderer := Ready);
    var u := if overtaken then StoreRequest(t, t.gui.generation).(gui := Idle)
             else StoreRequest(t, t.throttleGeneration + 1);
    RunStep(r, more, 0, r, ReplaySeed, t);
    RunStep(r, more, 1, t, again, u);
    assert r.executed[|r.executed| - 1] == s.captureGeneration;
    RetiredAgain(r, more, 2, u, nowMs);
    assert more[..4] == more;
  }

  /** Exactly when generations stay fresh: whatever runs before, cleanly, they do in
      every clean continuation of a reset if and only if the reset retires cleanly. */
  lemma FreshIffClean(evs: seq<Event>)
    requires CleanRun(START, evs) && Run(START, evs).renderer.Resetting?
    ensures var s := Run(START, evs);
            (forall more :: CleanRun(Next(s, Retire), more) ==>
               FreshGenerations(Run(Next(s, Retire), more).executed)) <==>
            CleanRetire(s)
  {
    CleanRunUnspent(START, evs);
    var s := Run(START, evs);
    if CleanRetire(s) {
      CleanStep(s, Retire);
      forall more | CleanRun(Next(s, Retire), more) ensures FreshGenerations(Run(Next(s, Retire), more).executed) {
        CleanRunUnspent(Next(s, Retire), more);
      }
    } else {
      var more := UncleanRepeats(s);
    }
  }

  /** An unclean run exists: a request, its reset, and a second request that loads the
      generation before that reset has retired it. */
  lemma OvertakenRequestExists()
    ensures exists evs :: ValidRun(START, evs) && CleanRun(START, evs) && Run(START, evs).renderer.Resetting? &&
                          !CleanRetire(Run(START, evs))
  {
    var s3 := FirstResetting();
    RunStep(START, OVERTAKEN, 3, s3, BeginRequest(true), LoadRequest(s3, true));
    assert OVERTAKEN[..4] == OVERTAKEN;
    CleanIsValid(START, OVERTAKEN);
  }

  const OVERTAKEN: seq<Event> := [BeginRequest(true), EndRequest, BeginReset(1000), BeginRequest(true)]

  lemma FirstResetting() returns (s: State)
    ensures Reaches(START, OVERTAKEN, 3, s)
    ensures s.gui.Idle? && s.renderer.Resetting? && s.captureGeneration == 1
  {
    var s1 := LoadRequest(START, true);
    var s2 := StoreRequest(s1, 1).(gui := Idle);
    s := s2.(throttleGeneration := 1, resetPending := false, preserve := false, lastResetMs := 1000,
             renderer := Resetting);
    assert Reaches(START, OVERTAKEN, 0, START);
    RunStep(START, OVERTAKEN, 0, START, BeginRequest(true), s1);
    RunStep(START, OVERTAKEN, 1, s1, EndRequest, s2);
    RunStep(START, OVERTAKEN, 2, s2, BeginReset(1000), s);
  }

  lemma {:induction false} CleanIsValid(s: State, evs: seq<Event>)
    requires CleanRun(s, evs)
    ensures ValidRun(s, evs)
  {
    if evs == [] {
    } else {
      CleanIsValid(s, evs[..|evs| - 1]);
    }
  }
}
