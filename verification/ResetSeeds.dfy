/** The frame a reset replays: when it is the newest that was offered under the reset's
    generation, with requests and resets running inside one another. */
module ResetSeeds {
  import opened Frames
  import opened ResetProtocol

  /** Every frame offered under `g` is covered by the one that is captured. */
  ghost predicate SeedCovers(s: State, g: nat) {
    forall o :: o in s.offers && o.generation == g ==>
      s.seed.Some? && s.seed.value.generation == g && o.pts <= s.seed.value.pts + PTS_EPSILON
  }

  /** Nothing is captured under `g`, but the frame that is about to be covers them. */
  ghost predicate OfferCovers(s: State, g: nat) {
    && s.gui.Offering? && s.gui.seed.generation == g && (s.seed.Some? ==> s.seed.value.generation != g)
    && forall o :: o in s.offers && o.generation == g ==> o.pts <= s.gui.seed.pts + PTS_EPSILON
  }

  /** They are covered by whatever is captured next. */
  ghost predicate AllLow(s: State, g: nat) {
    forall o :: o in s.offers && o.generation == g ==> o.pts <= PTS_EPSILON
  }

  ghost predicate Covered(s: State, g: nat) {
    SeedCovers(s, g) || OfferCovers(s, g) || AllLow(s, g)
  }

  /** The earliest timestamp that can be captured next under the generation. */
  function NextCaptured(s: State): real {
    if s.gui.Offering? && s.gui.seed.generation == s.captureGeneration then s.gui.seed.pts else 0.0
  }

  /** A replay takes the captured frame away, whatever its generation. It does no harm
      unless that is the generation being captured and what is captured next under it
      may be older. */
  ghost predicate KeepsCapture(s: State) {
    s.seed.Some? && s.seed.value.generation == s.captureGeneration ==>
      forall o :: o in s.offers && o.generation == s.captureGeneration ==> o.pts <= NextCaptured(s) + PTS_EPSILON
  }

  ghost predicate KeepingRun(s: State, evs: seq<Event>) {
    evs == [] ||
    (KeepingRun(s, evs[..|evs| - 1]) &&
     var t, ev := Run(s, evs[..|evs| - 1]), evs[|evs| - 1];
     Enabled(t, ev) && (ev.Retire? ==> CleanRetire(t)) && (ev.ReplaySeed? ==> KeepsCapture(t)))
  }

  /** The frame that is replayed now is the newest offered under its generation. */
  ghost predicate NewestReplayed(s: State) {
    s.renderer.Retired? && s.seed.Some? && s.seed.value.generation == s.renderer.generation ==>
      forall o :: o in s.offers && o.generation == s.renderer.generation ==> o.pts <= s.seed.value.pts + PTS_EPSILON
  }

  // ----- what every keeping run satisfies -----

  predicate Used(s: State, g: nat) {
    g != 0 && (g == s.captureGeneration || g in s.executed)
  }

  ghost predicate NoOffer(s: State, g: nat) {
    forall o :: o in s.offers ==> o.generation != g
  }

  /** Generations are offered one after the other: while one is loaded, nothing is
      offered under another. */
  ghost predicate OffersInTurn(s: State) {
    && (forall o :: o in s.offers ==> Used(s, o.generation) && o.pts >= 0.0)
    && (s.seed.Some? ==> s.seed.value in s.offers)
    && (s.gui.Offering? ==> Used(s, s.gui.seed.generation) && s.gui.seed.pts >= 0.0)
    && (s.gui.Requesting? && s.gui.generation != s.captureGeneration ==> NoOffer(s, s.captureGeneration))
    && (s.gui.Offering? && s.gui.seed.generation != s.captureGeneration ==>
          && NoOffer(s, s.captureGeneration)
          && (s.renderer.Retired? && s.renderer.generation != s.gui.seed.generation ==>
                NoOffer(s, s.renderer.generation)))
    && (s.renderer.Retired? ==> s.executed != [] && s.executed[|s.executed| - 1] == s.renderer.generation)
  }

  ghost predicate SeedsCover(s: State) {
    && Covered(s, s.captureGeneration)
    && (s.renderer.Retired? ==>
          || Covered(s, s.renderer.generation)
          || (s.seed.Some? && s.seed.value.generation == s.captureGeneration))
  }

  lemma InTurnStep(s: State, ev: Event)
    requires Unspent(s) && OffersInTurn(s) && Enabled(s, ev) && (ev.Retire? ==> CleanRetire(s))
    ensures OffersInTurn(Next(s, ev))
  {
    if ev.BeginRequest? || ev.RetryFires? || ev.EndRequest? || ev.RenderRequest? {
      RequestInTurn(s, ev);
    }
  }

  lemma RequestInTurn(s: State, ev: Event)
    requires Unspent(s) && OffersInTurn(s) && Enabled(s, ev)
    requires ev.BeginRequest? || ev.RetryFires? || ev.EndRequest? || ev.RenderRequest?
    ensures OffersInTurn(Next(s, ev))
  {
  }

  lemma OfferKeepsCover(s: State)
    requires Unspent(s) && OffersInTurn(s) && SeedsCover(s) && s.gui.Offering?
    ensures SeedsCover(Next(s, EndOffer))
  {
    var x := s.gui.seed;
    var t := Next(s, EndOffer);
    assert forall o :: o in t.offers <==> o in s.offers || o == x;
    assert s.seed.Some? ==> s.seed.value in s.offers;
  }

  lemma RetireKeepsCover(s: State)
    requires Unspent(s) && OffersInTurn(s) && SeedsCover(s) && s.renderer.Resetting?
    ensures SeedsCover(Next(s, Retire))
  {
    var t := Next(s, Retire);
    assert Covered(t, s.captureGeneration);
    assert NoOffer(t, 0);
  }

  lemma ReplayKeepsCover(s: State)
    requires OffersInTurn(s) && SeedsCover(s) && s.renderer.Retired? && KeepsCapture(s)
    ensures SeedsCover(Next(s, ReplaySeed))
  {
  }

  lemma RequestKeepsCover(s: State, ev: Event)
    requires Unspent(s) && OffersInTurn(s) && SeedsCover(s) && Enabled(s, ev) && (ev.EndRequest? || ev.RenderRequest?)
    ensures SeedsCover(Next(s, ev))
  {
    var t := Next(s, ev);
    assert t.captureGeneration == s.captureGeneration || NoOffer(t, t.captureGeneration);
  }

  lemma QuietKeepsCover(s: State, ev: Event)
    requires OffersInTurn(s) && SeedsCover(s) && Enabled(s, ev)
    requires ev.BeginRequest? || ev.RetryFires? || ev.BeginOffer? || ev.SessionChange? || ev.BeginReset?
    ensures SeedsCover(Next(s, ev))
  {
  }

  lemma CoverStep(s: State, ev: Event)
    requires Unspent(s) && OffersInTurn(s) && SeedsCover(s) && Enabled(s, ev)
    requires (ev.Retire? ==> CleanRetire(s)) && (ev.ReplaySeed? ==> KeepsCapture(s))
    ensures SeedsCover(Next(s, ev))
  {
    match ev
    case EndOffer => OfferKeepsCover(s);
    case Retire => RetireKeepsCover(s);
    case ReplaySeed => ReplayKeepsCover(s);
    case EndRequest => RequestKeepsCover(s, ev);
    case RenderRequest => RequestKeepsCover(s, ev);
    case _ => QuietKeepsCover(s, ev);
  }

  ghost predicate SeedsKept(s: State) {
    Unspent(s) && OffersInTurn(s) && SeedsCover(s)
  }

  lemma {:induction false} KeepingRunKept(s: State, evs: seq<Event>)
    requires SeedsKept(s) && KeepingRun(s, evs)
    ensures SeedsKept(Run(s, evs))
  {
    if evs == [] {
    } else {
      KeepingRunKept(s, evs[..|evs| - 1]);
      KeptStep(Run(s, evs[..|evs| - 1]), evs[|evs| - 1]);
    }
  }

  lemma KeptStep(s: State, ev: Event)
    requires SeedsKept(s) && Enabled(s, ev)
    requires (ev.Retire? ==> CleanRetire(s)) && (ev.ReplaySeed? ==> KeepsCapture(s))
    ensures SeedsKept(Next(s, ev))
  {
    CleanStep(s, ev);
    InTurnStep(s, ev);
    CoverStep(s, ev);
  }

  lemma KeptIsNewest(s: State)
    requires SeedsKept(s)
    ensures NewestReplayed(s)
  {
    if s.renderer.Retired? && s.seed.Some? && s.seed.value.generation == s.renderer.generation {
      assert s.seed.value in s.offers;
    }
  }

  /** The frame a reset replays was captured under that reset, the last one executed and
      no earlier one, and is the newest offered under its generation, in every run whose
      resets retire cleanly and whose replays keep the capture. */
  lemma ReplayedSeedIsNewest(evs: seq<Event>)
    requires KeepingRun(START, evs) && Run(START, evs).renderer.Retired?
    ensures var s := Run(START, evs);
            var g := s.renderer.generation;
            && NewestReplayed(s)
            && (s.seed.Some? && s.seed.value.generation == g ==>
                  && s.seed.value in s.offers
                  && s.executed != [] && s.executed[|s.executed| - 1] == g != 0
                  && g !in s.executed[..|s.executed| - 1])
  {
    KeepingRunKept(START, evs);
    var s := Run(START, evs);
    KeptIsNewest(s);
    var n := |s.executed| - 1;
    assert forall i :: 0 <= i < n ==> s.executed[..n][i] == s.executed[i];
  }

  // ----- a replay that takes away what the next reset should replay -----

  /** Some continuation that keeps its captures replays a frame that is not the newest. */
  ghost predicate Loses(s: State) {
    exists more :: KeepingRun(s, more) && !NewestReplayed(Run(s, more))
  }

  lemma LosesNow(s: State)
    requires !NewestReplayed(s)
    ensures Loses(s)
  {
    assert KeepingRun(s, []) && Run(s, []) == s;
  }

  lemma {:induction false} RunFrom(s: State, ev: Event, more: seq<Event>)
    requires Enabled(s, ev) && (ev.Retire? ==> CleanRetire(s)) && (ev.ReplaySeed? ==> KeepsCapture(s))
    requires KeepingRun(Next(s, ev), more)
    ensures KeepingRun(s, [ev] + more) && Run(s, [ev] + more) == Run(Next(s, ev), more)
  {
    var evs := [ev] + more;
    if more == [] {
      assert evs[..0] == [] && KeepingRun(s, []) && Run(s, []) == s;
    } else {
      RunFrom(s, ev, more[..|more| - 1]);
      assert evs[..|evs| - 1] == [ev] + more[..|more| - 1];
    }
  }

  lemma LosesBefore(s: State, ev: Event, t: State)
    requires Enabled(s, ev) && (ev.Retire? ==> CleanRetire(s)) && !ev.ReplaySeed?
    requires t == Next(s, ev) && Loses(t)
    ensures Loses(s)
  {
    var more :| KeepingRun(t, more) && !NewestReplayed(Run(t, more));
    RunFrom(s, ev, more);
  }

  /** The next reset finds a frame that is not the newest. */
  ghost predicate Behind(s: State, o: Seed) {
    && s.captureGeneration != 0 && o in s.offers && o.generation == s.captureGeneration
    && s.seed.Some? && s.seed.value.generation == s.captureGeneration && o.pts > s.seed.value.pts + PTS_EPSILON
  }

  lemma PendingLoses(s: State, o: Seed)
    requires Behind(s, o) && s.gui.Idle? && s.renderer.Ready? && s.resetPending
    requires s.captureGeneration <= s.throttleGeneration + 1
    ensures Loses(s)
  {
    var g, nowMs := s.captureGeneration, s.lastResetMs + THROTTLE_MS;
    var t := s.(throttleGeneration := s.throttleGeneration + 1, resetPending := false, preserve := false,
                lastResetMs := nowMs, renderer := Resetting);
    var u := t.(captureGeneration := 0, captureActive := false, executed := s.executed + [g], renderer := Retired(g));
    LosesNow(u);
    LosesBefore(t, Retire, u);
    LosesBefore(s, BeginReset(nowMs), t);
  }

  lemma IdleLoses(s: State, o: Seed)
    requires Behind(s, o) && s.gui.Idle? && s.renderer.Ready? && s.captureGeneration <= s.throttleGeneration + 1
    ensures Loses(s)
  {
    var t := LoadRequest(s, true);
    var u := StoreRequest(t, s.captureGeneration).(gui := Idle);
    PendingLoses(u, o);
    LosesBefore(t, EndRequest, u);
    LosesBefore(s, BeginRequest(true), t);
  }

  /** Nothing is captured any more: an older frame is offered and captured. */
  lemma EmptyLoses(s: State, o: Seed)
    requires s.captureGeneration != 0 && o in s.offers && o.generation == s.captureGeneration && s.seed == None
    requires s.gui.Idle? && s.renderer.Ready? && s.captureGeneration <= s.throttleGeneration + 1
    requires o.pts > PTS_EPSILON
    ensures Loses(s)
  {
    var x := Seed(0.0, s.captureGeneration);
    var t := s.(gui := Offering(x));
    var u := s.(seed := Some(x), offers := s.offers + [x]);
    assert o in u.offers;
    IdleLoses(u, o);
    LosesBefore(t, EndOffer, u);
    LosesBefore(s, BeginOffer(0.0), t);
  }

  /** The captured frame was taken away, and the offer under way does not make up for it. */
  lemma OfferingLoses(s: State, o: Seed)
    requires s.captureGeneration != 0 && o in s.offers && o.generation == s.captureGeneration && s.seed == None
    requires s.gui.Offering? && s.gui.seed.generation == s.captureGeneration && o.pts > s.gui.seed.pts + PTS_EPSILON
    requires s.renderer.Ready? && s.captureGeneration <= s.throttleGeneration + 1
    ensures Loses(s)
  {
    var x := s.gui.seed;
    var t := s.(seed := Some(x), offers := s.offers + [x], gui := Idle);
    assert o in t.offers;
    IdleLoses(t, o);
    LosesBefore(s, EndOffer, t);
  }

  lemma UnkeptLoses(s: State)
    requires SeedsKept(s) && s.renderer.Retired? && !KeepsCapture(s)
    ensures Loses(Next(s, ReplaySeed))
  {
    var t := Next(s, ReplaySeed);
    assert s.seed.value in s.offers;
    var o :| o in s.offers && o.generation == s.captureGeneration && o.pts > NextCaptured(s) + PTS_EPSILON;
    match s.gui
    case Idle => EmptyLoses(t, o);
    case Requesting(g) =>
      var u := StoreRequest(t, g).(gui := Idle);
      EmptyLoses(u, o);
      LosesBefore(t, EndRequest, u);
    case Offering(y) => OfferingLoses(t, o);
  }

  /** When the newest frame is replayed: whatever runs before, every later replay of a
      continuation that keeps its captures is of the newest frame if and only if this
      replay keeps the capture. */
  lemma NewestIffKeeps(evs: seq<Event>)
    requires KeepingRun(START, evs) && Run(START, evs).renderer.Retired?
    ensures !Loses(Next(Run(START, evs), ReplaySeed)) <==> KeepsCapture(Run(START, evs))
  {
    KeepingRunKept(START, evs);
    var s := Run(START, evs);
    if KeepsCapture(s) {
      var t := Next(s, ReplaySeed);
      KeptStep(s, ReplaySeed);
      forall more | KeepingRun(t, more) ensures NewestReplayed(Run(t, more)) {
        KeepingRunKept(t, more);
        KeptIsNewest(Run(t, more));
      }
    } else {
      UnkeptLoses(s);
    }
  }

  /** Requests and resets that do not run inside one another keep their captures. */
  lemma {:induction false} SerializedKeeps(evs: seq<Event>)
    requires SerializedRun(START, evs)
    ensures KeepingRun(START, evs)
  {
    if evs == [] {
    } else {
      var n := |evs| - 1;
      SerializedKeeps(evs[..n]);
      SerializedIsClean(evs[..n]);
      SeparateStep(Run(START, evs[..n]), evs[n]);
      KeepingRunKept(START, evs[..n]);
      var s := Run(START, evs[..n]);
      assert s.seed.Some? ==> s.seed.value in s.offers;
    }
  }

  // ----- rising offers -----

  /** No frame is offered that lies before an earlier offer of the session. */
  ghost predicate RisingOffers(s: State, evs: seq<Event>) {
    evs == [] ||
    (RisingOffers(s, evs[..|evs| - 1]) &&
     var t, ev := Run(s, evs[..|evs| - 1]), evs[|evs| - 1];
     Enabled(t, ev) && (ev.BeginOffer? ==> forall o :: o in t.offers ==> o.pts <= ev.pts))
  }

  ghost predicate LatestCaptured(s: State) {
    && (s.gui.Offering? ==> forall o :: o in s.offers ==> o.pts <= s.gui.seed.pts)
    && (s.seed.Some? ==> forall o :: o in s.offers && o.generation == s.seed.value.generation ==>
          o.pts <= s.seed.value.pts + PTS_EPSILON)
  }

  lemma {:induction false} RisingRunLatest(evs: seq<Event>)
    requires RisingOffers(START, evs)
    ensures LatestCaptured(Run(START, evs))
  {
    if evs == [] {
    } else {
      RisingRunLatest(evs[..|evs| - 1]);
      LatestStep(Run(START, evs[..|evs| - 1]), evs[|evs| - 1]);
    }
  }

  lemma LatestStep(s: State, ev: Event)
    requires LatestCaptured(s) && Enabled(s, ev) && (ev.BeginOffer? ==> forall o :: o in s.offers ==> o.pts <= ev.pts)
    ensures LatestCaptured(Next(s, ev))
  {
  }

  /** While frames are offered in order, every replayed frame is the newest of its
      generation, however requests and resets overlap. */
  lemma RisingOffersReplayNewest(evs: seq<Event>)
    requires RisingOffers(START, evs)
    ensures NewestReplayed(Run(START, evs))
  {
    RisingRunLatest(evs);
  }

  // ----- an older frame is replayed -----

  /** The first frame of a second request is captured before the reset of the first one
      replays, which takes it away; an older frame is captured in its place. */
  const OLDER: seq<Event> :=
    [BeginRequest(true), EndRequest, BeginReset(1000), Retire,
     BeginRequest(true), EndRequest, BeginOffer(10.0), EndOffer,
     ReplaySeed, BeginOffer(5.0), EndOffer, BeginReset(2000), Retire]

  /** The first reset has retired its generation. */
  const RETIRED: State := START.(throttleGeneration := 1, lastResetMs := 1000, executed := [1], renderer := Retired(1))

  /** A frame of the second request is captured, and the first reset has not replayed. */
  const CAPTURED: State :=
    RETIRED.(captureGeneration := 2, captureActive := true, resetPending := true, preserve := true,
             seed := Some(Seed(10.0, 2)), offers := [Seed(10.0, 2)])

  lemma FirstRequested() returns (s: State)
    ensures s == START.(captureGeneration := 1, captureActive := true, resetPending := true, preserve := true)
    ensures Reaches(START, OLDER, 2, s)
  {
    var s1 := LoadRequest(START, true);
    s := StoreRequest(s1, 1).(gui := Idle);
    assert Reaches(START, OLDER, 0, START);
    RunStep(START, OLDER, 0, START, BeginRequest(true), s1);
    RunStep(START, OLDER, 1, s1, EndRequest, s);
  }

  lemma FirstRetired()
    ensures Reaches(START, OLDER, 4, RETIRED)
  {
    var s2 := FirstRequested();
    var s3 := RETIRED.(captureGeneration := 1, captureActive := true, executed := [], renderer := Resetting);
    RunStep(START, OLDER, 2, s2, BeginReset(1000), s3);
    RunStep(START, OLDER, 3, s3, Retire, RETIRED);
  }

  lemma SecondRequested() returns (s6: State)
    ensures Reaches(START, OLDER, 6, s6)
    ensures s6 == StoreRequest(RETIRED.(preserve := true), 2).(gui := Idle)
  {
    FirstRetired();
    var s5 := LoadRequest(RETIRED, true);
    s6 := StoreRequest(s5, 2).(gui := Idle);
    RunStep(START, OLDER, 4, RETIRED, BeginRequest(true), s5);
    RunStep(START, OLDER, 5, s5, EndRequest, s6);
  }

  lemma SecondCaptured()
    ensures Reaches(START, OLDER, 8, CAPTURED)
  {
    var s6 := SecondRequested();
    var s7 := s6.(gui := Offering(Seed(10.0, 2)));
    RunStep(START, OLDER, 6, s6, BeginOffer(10.0), s7);
    RunStep(START, OLDER, 7, s7, EndOffer, CAPTURED);
  }

  lemma OlderCaptured() returns (s: State)
    ensures Reaches(START, OLDER, 11, s)
    ensures s == CAPTURED.(seed := Some(Seed(5.0, 2)), offers := [Seed(10.0, 2), Seed(5.0, 2)], renderer := Ready)
  {
    SecondCaptured();
    var s9 := CAPTURED.(seed := None, renderer := Ready);
    var s10 := s9.(gui := Offering(Seed(5.0, 2)));
    s := s9.(seed := Some(Seed(5.0, 2)), offers := [Seed(10.0, 2), Seed(5.0, 2)]);
    RunStep(START, OLDER, 8, CAPTURED, ReplaySeed, s9);
    RunStep(START, OLDER, 9, s9, BeginOffer(5.0), s10);
    RunStep(START, OLDER, 10, s10, EndOffer, s);
  }

  lemma OlderRetired(s: State) returns (t: State)
    requires Reaches(START, OLDER, 11, s)
    requires s == CAPTURED.(seed := Some(Seed(5.0, 2)), offers := [Seed(10.0, 2), Seed(5.0, 2)], renderer := Ready)
    ensures Reaches(START, OLDER, 13, t) && t.executed == [1, 2] && t.renderer == Retired(2)
    ensures t.seed == s.seed && t.offers == s.offers
  {
    var s12 := s.(throttleGeneration := 2, resetPending := false, preserve := false, lastResetMs := 2000,
                  renderer := Resetting);
    t := s12.(captureGeneration := 0, captureActive := false, executed := [1, 2], renderer := Retired(2));
    RunStep(START, OLDER, 11, s, BeginReset(2000), s12);
    RunStep(START, OLDER, 12, s12, Retire, t);
  }

  /** With fresh generations throughout, the second reset replays the older frame; the
      replay before it did not keep the capture. */
  lemma OlderFrameIsReplayed()
    ensures CleanRun(START, OLDER) && !NewestReplayed(Run(START, OLDER)) && Run(START, OLDER).executed == [1, 2]
    ensures Run(START, OLDER[..8]) == CAPTURED && OLDER[8] == ReplaySeed && !KeepsCapture(CAPTURED)
  {
    SecondCaptured();
    var s := OlderCaptured();
    var t := OlderRetired(s);
    assert OLDER[..13] == OLDER;
    assert t.offers[0] in t.offers;
  }
}
