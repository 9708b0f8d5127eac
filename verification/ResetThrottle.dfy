/** When resets are put off, told by what happened before: the spacing of executed
    resets, the request that exempts one from it, and the timer of one put off. */
module ResetThrottle {
  import opened Frames
  import opened ResetProtocol

  /** What an event came to: a reset was executed; the timer of this generation ran
      out; a reset is being asked for. */
  datatype Note = Note(executes: bool, fired: Option<nat>, asks: bool)

  function NoteOf(before: State, ev: Event): Note {
    var after := Next(before, ev);
    Note(ev.BeginReset? && after.renderer.Resetting?,
         if ev.RetryFires? && ev.i < |before.retries| then Some(before.retries[ev.i].generation) else None,
         after.gui.Requesting?)
  }

  function Log(evs: seq<Event>): (notes: seq<Note>)
    ensures |notes| == |evs|
  {
    if evs == [] then []
    else Log(evs[..|evs| - 1]) + [NoteOf(Run(START, evs[..|evs| - 1]), evs[|evs| - 1])]
  }

  predicate ExecutesAt(evs: seq<Event>, i: nat) {
    i < |evs| && evs[i].BeginReset? && Log(evs)[i].executes
  }

  predicate PutOffAt(evs: seq<Event>, i: nat) {
    i < |evs| && evs[i].BeginReset? && !Log(evs)[i].executes
  }

  ghost predicate NoneExecuted(evs: seq<Event>, from: nat, to: nat) {
    forall i: nat :: from <= i < to ==> !ExecutesAt(evs, i)
  }

  /** Someone asked for the timeline to be kept, and no reset was executed since. */
  ghost predicate ToBeKept(evs: seq<Event>, n: nat) {
    exists k: nat :: AskedToKeep(evs, k, n) && NoneExecuted(evs, k + 1, n)
  }

  predicate AskedToKeep(evs: seq<Event>, k: nat, n: nat) {
    k < n <= |evs| && evs[k] == BeginRequest(true)
  }

  /** The reset begun by event i is the last one executed before event n. */
  ghost predicate LastExecuted(evs: seq<Event>, i: nat, n: nat) {
    i < n && ExecutesAt(evs, i) && NoneExecuted(evs, i + 1, n)
  }

  /** Some reset was executed less than 100 ms before `nowMs`. */
  ghost predicate ExecutedLately(evs: seq<Event>, n: nat, nowMs: nat) {
    exists i: nat :: i < n && ExecutesAt(evs, i) && 0 < evs[i].nowMs && nowMs < evs[i].nowMs + 100
  }

  /** The resets begun among the first n events. */
  function Begun(evs: seq<Event>, n: nat): nat
    requires n <= |evs|
  {
    if n == 0 then 0 else Begun(evs, n - 1) + if evs[n - 1].BeginReset? then 1 else 0
  }

  // ----- runs event by event -----

  /** The states a run passes through, the last one that of the whole run. */
  function States(evs: seq<Event>): (states: seq<State>)
    ensures |states| == |evs| + 1
  {
    if evs == [] then [START] else States(evs[..|evs| - 1]) + [Run(START, evs)]
  }

  function StateAt(evs: seq<Event>, n: nat): State
    requires n <= |evs|
  {
    States(evs)[n]
  }

  lemma {:induction false} Prefix(evs: seq<Event>, n: nat)
    requires ValidRun(START, evs) && n <= |evs|
    ensures ValidRun(START, evs[..n]) && Log(evs[..n]) == Log(evs)[..n] && States(evs[..n]) == States(evs)[..n + 1]
    decreases |evs|
  {
    if n == |evs| {
      assert evs[..n] == evs;
    } else {
      Prefix(evs[..|evs| - 1], n);
      assert evs[..|evs| - 1][..n] == evs[..n];
    }
  }

  lemma StateIsRun(evs: seq<Event>, n: nat)
    requires ValidRun(START, evs) && n <= |evs|
    ensures StateAt(evs, n) == Run(START, evs[..n])
  {
    Prefix(evs, n);
    assert States(evs)[n] == States(evs[..n])[n];
  }

  lemma StepAt(evs: seq<Event>, n: nat)
    requires ValidRun(START, evs) && n < |evs|
    ensures Enabled(StateAt(evs, n), evs[n])
    ensures StateAt(evs, n + 1) == Next(StateAt(evs, n), evs[n])
    ensures Log(evs)[n] == NoteOf(StateAt(evs, n), evs[n])
  {
    StateIsRun(evs, n);
    StateIsRun(evs, n + 1);
    Prefix(evs, n + 1);
    assert evs[..n + 1][..n] == evs[..n];
    assert Log(evs)[n] == Log(evs[..n + 1])[n];
  }

  /** What a step does to the numbers that throttle resets. */
  lemma StepParts(evs: seq<Event>, n: nat)
    requires ValidRun(START, evs) && n < |evs|
    ensures var s, t := StateAt(evs, n), StateAt(evs, n + 1);
            && t.throttleGeneration == s.throttleGeneration + (if evs[n].BeginReset? then 1 else 0)
            && (ExecutesAt(evs, n) ==> t.lastResetMs == evs[n].nowMs >= s.lastResetMs)
            && (!ExecutesAt(evs, n) ==> t.lastResetMs == s.lastResetMs)
  {
    StepAt(evs, n);
  }

  // ----- the last executed reset -----

  ghost predicate LastTold(evs: seq<Event>, n: nat, last: nat) {
    && (forall i: nat :: i < n && ExecutesAt(evs, i) ==> evs[i].nowMs <= last)
    && (last == 0 || exists i: nat :: LastExecuted(evs, i, n) && evs[i].nowMs == last)
  }

  lemma {:induction false} LastIsTold(evs: seq<Event>, n: nat)
    requires ValidRun(START, evs) && n <= |evs|
    ensures LastTold(evs, n, StateAt(evs, n).lastResetMs)
  {
    if n == 0 {
      StateIsRun(evs, 0);
    } else {
      LastIsTold(evs, n - 1);
      StepParts(evs, n - 1);
      StepAt(evs, n - 1);
      LastStep(evs, n - 1, StateAt(evs, n - 1).lastResetMs);
    }
  }

  lemma LastStep(evs: seq<Event>, n: nat, last: nat)
    requires n < |evs| && LastTold(evs, n, last)
    requires ExecutesAt(evs, n) ==> evs[n].nowMs >= last
    ensures LastTold(evs, n + 1, if ExecutesAt(evs, n) then evs[n].nowMs else last)
  {
    if ExecutesAt(evs, n) {
      assert LastExecuted(evs, n, n + 1);
    } else {
      LastStays(evs, n, last);
    }
  }

  lemma LastStays(evs: seq<Event>, n: nat, last: nat)
    requires n < |evs| && LastTold(evs, n, last) && !ExecutesAt(evs, n)
    ensures LastTold(evs, n + 1, last)
  {
    if last > 0 {
      var i: nat :| LastExecuted(evs, i, n) && evs[i].nowMs == last;
      assert LastExecuted(evs, i, n + 1);
    }
  }

  // ----- the flag that keeps the timeline -----

  ghost predicate PlainRetries(s: State) {
    forall r :: r in s.retries ==> !r.preserve
  }

  lemma KeepStep(s: State, ev: Event)
    requires Enabled(s, ev) && PlainRetries(s)
    ensures var t := Next(s, ev);
            && PlainRetries(t)
            && (t.preserve <==> ev == BeginRequest(true) ||
                                (s.preserve && !(ev.BeginReset? && t.renderer.Resetting?)))
  {
  }

  lemma {:induction false} KeepIff(evs: seq<Event>, n: nat)
    requires ValidRun(START, evs) && n <= |evs|
    ensures PlainRetries(StateAt(evs, n))
    ensures StateAt(evs, n).preserve <==> ToBeKept(evs, n)
  {
    if n == 0 {
      StateIsRun(evs, 0);
    } else {
      KeepIff(evs, n - 1);
      StepAt(evs, n - 1);
      KeepStep(StateAt(evs, n - 1), evs[n - 1]);
      KeptOn(evs, n - 1);
    }
  }

  lemma KeptOn(evs: seq<Event>, n: nat)
    requires n < |evs|
    ensures ToBeKept(evs, n + 1) <==> evs[n] == BeginRequest(true) || (ToBeKept(evs, n) && !ExecutesAt(evs, n))
  {
    if evs[n] == BeginRequest(true) {
      assert AskedToKeep(evs, n, n + 1) && NoneExecuted(evs, n + 1, n + 1);
    } else if ToBeKept(evs, n + 1) {
      var k: nat :| AskedToKeep(evs, k, n + 1) && NoneExecuted(evs, k + 1, n + 1);
      assert AskedToKeep(evs, k, n) && NoneExecuted(evs, k + 1, n);
    } else if ToBeKept(evs, n) && !ExecutesAt(evs, n) {
      var k: nat :| AskedToKeep(evs, k, n) && NoneExecuted(evs, k + 1, n);
      assert AskedToKeep(evs, k, n + 1) && NoneExecuted(evs, k + 1, n + 1);
    }
  }

  // ----- which resets are put off -----

  /** A reset is put off exactly when nobody has asked for the timeline to be kept
      since the last executed reset, and that was less than 100 ms ago. */
  lemma PutOffIff(evs: seq<Event>, j: nat)
    requires ValidRun(START, evs) && j < |evs| && evs[j].BeginReset?
    ensures PutOffAt(evs, j) <==> !ToBeKept(evs, j) && ExecutedLately(evs, j, evs[j].nowMs)
    ensures ExecutesAt(evs, j) <==> !PutOffAt(evs, j)
  {
    StepAt(evs, j);
    KeepIff(evs, j);
    LastIsTold(evs, j);
  }

  /** Of two executed resets, the later one comes at least 100 ms after the earlier
      unless it was to keep the timeline. */
  lemma ResetsSpaced(evs: seq<Event>, i: nat, j: nat)
    requires ValidRun(START, evs) && i < j < |evs| && ExecutesAt(evs, i) && ExecutesAt(evs, j)
    requires evs[i].nowMs > 0
    ensures evs[j].nowMs >= evs[i].nowMs + 100 || ToBeKept(evs, j)
  {
    PutOffIff(evs, j);
  }

  // ----- the retry of a reset that was put off -----

  lemma GenerationIsBegun(evs: seq<Event>, n: nat)
    requires ValidRun(START, evs) && n <= |evs|
    ensures StateAt(evs, n).throttleGeneration == Begun(evs, n)
  {
    var counts := seq(|evs| + 1, k requires 0 <= k <= |evs| => StateAt(evs, k).throttleGeneration);
    StateIsRun(evs, 0);
    forall k: nat | k < |evs| ensures counts[k + 1] == counts[k] + if evs[k].BeginReset? then 1 else 0 {
      StepParts(evs, k);
    }
    CountsBegun(evs, counts, n);
  }

  lemma {:induction false} CountsBegun(evs: seq<Event>, counts: seq<nat>, n: nat)
    requires |counts| == |evs| + 1 && counts[0] == 0 && n <= |evs|
    requires forall k: nat :: k < |evs| ==> counts[k + 1] == counts[k] + if evs[k].BeginReset? then 1 else 0
    ensures counts[n] == Begun(evs, n)
  {
    if n > 0 {
      CountsBegun(evs, counts, n - 1);
    }
  }

  lemma {:induction false} BegunBetween(evs: seq<Event>, i: nat, j: nat)
    requires i <= j <= |evs|
    ensures Begun(evs, i) <= Begun(evs, j)
    ensures Begun(evs, i) == Begun(evs, j) <==> NoneBegun(evs, i, j)
  {
    if i < j {
      BegunBetween(evs, i, j - 1);
    }
  }

  /** The reset put off by event j left this timer, which runs out 100 ms after the
      last executed reset. */
  ghost predicate LeftBy(evs: seq<Event>, j: nat, r: Retry) {
    && PutOffAt(evs, j) && r.generation == Begun(evs, j + 1) && !r.preserve
    && exists i: nat :: LastExecuted(evs, i, j) && evs[j].nowMs + r.waitMs == evs[i].nowMs + 100
  }

  lemma PutOffLeavesTimer(evs: seq<Event>, j: nat) returns (r: Retry)
    requires ValidRun(START, evs) && PutOffAt(evs, j)
    ensures StateAt(evs, j + 1).retries == StateAt(evs, j).retries + [r] && LeftBy(evs, j, r)
  {
    StepAt(evs, j);
    KeepIff(evs, j);
    LastIsTold(evs, j);
    GenerationIsBegun(evs, j + 1);
    var s := StateAt(evs, j);
    r := Retry(s.throttleGeneration + 1, false, s.lastResetMs + 100 - evs[j].nowMs);
  }

  ghost predicate LeftBefore(evs: seq<Event>, n: nat, r: Retry) {
    exists j: nat :: j < n && LeftBy(evs, j, r)
  }

  ghost predicate Rising(retries: seq<Retry>) {
    forall i, k :: 0 <= i < k < |retries| ==> retries[i].generation < retries[k].generation
  }

  /** The timers that run were left by resets put off so far, each by its own. */
  ghost predicate TimersTold(evs: seq<Event>, n: nat, retries: seq<Retry>) {
    Rising(retries) && forall i :: 0 <= i < |retries| ==> LeftBefore(evs, n, retries[i])
  }

  /** What a step does to the timers: one more, one less, or nothing. */
  ghost predicate TimersStep(before: seq<Retry>, ev: Event, off: bool, after: seq<Retry>) {
    if off then |after| == |before| + 1 && after[..|before|] == before
    else if ev.RetryFires? then ev.i < |before| && after == before[..ev.i] + before[ev.i + 1..]
    else after == before
  }

  lemma TimersStepAt(evs: seq<Event>, n: nat)
    requires ValidRun(START, evs) && n < |evs|
    ensures TimersStep(StateAt(evs, n).retries, evs[n], PutOffAt(evs, n), StateAt(evs, n + 1).retries)
    ensures PutOffAt(evs, n) ==> LeftBy(evs, n, StateAt(evs, n + 1).retries[|StateAt(evs, n).retries|])
  {
    StepAt(evs, n);
    if PutOffAt(evs, n) {
      var r := PutOffLeavesTimer(evs, n);
    }
  }

  lemma {:induction false} TimersAreTold(evs: seq<Event>, n: nat)
    requires ValidRun(START, evs) && n <= |evs|
    ensures TimersTold(evs, n, StateAt(evs, n).retries)
  {
    if n == 0 {
      StateIsRun(evs, 0);
    } else {
      TimersAreTold(evs, n - 1);
      TimersStepAt(evs, n - 1);
      TimersStayTold(evs, n - 1, StateAt(evs, n - 1).retries, StateAt(evs, n).retries);
    }
  }

  lemma TimersStayTold(evs: seq<Event>, n: nat, before: seq<Retry>, after: seq<Retry>)
    requires n < |evs| && TimersTold(evs, n, before) && TimersStep(before, evs[n], PutOffAt(evs, n), after)
    requires PutOffAt(evs, n) ==> LeftBy(evs, n, after[|before|])
    ensures TimersTold(evs, n + 1, after)
  {
    forall i | 0 <= i < |before| ensures LeftBefore(evs, n + 1, before[i]) {
      LeftEarlier(evs, n, before[i]);
    }
    if PutOffAt(evs, n) {
      assert LeftBefore(evs, n + 1, after[|before|]);
      forall i | 0 <= i < |before| ensures before[i].generation < after[|before|].generation {
        TimerIsOlder(evs, n, before[i]);
      }
    }
    StaysRising(before, evs[n], PutOffAt(evs, n), after);
  }

  lemma StaysRising(before: seq<Retry>, ev: Event, off: bool, after: seq<Retry>)
    requires Rising(before) && TimersStep(before, ev, off, after)
    requires off ==> forall i :: 0 <= i < |before| ==> before[i].generation < after[|before|].generation
    ensures Rising(after) && forall i :: 0 <= i < |after| ==> after[i] in before || (off && i == |before|)
  {
    if off {
      assert forall i :: 0 <= i < |before| ==> after[..|before|][i] == after[i];
    }
  }

  lemma LeftEarlier(evs: seq<Event>, n: nat, r: Retry)
    requires LeftBefore(evs, n, r)
    ensures LeftBefore(evs, n + 1, r)
  {
    var j: nat :| j < n && LeftBy(evs, j, r);
    assert LeftBy(evs, j, r);
  }

  lemma TimerIsOlder(evs: seq<Event>, n: nat, r: Retry)
    requires n < |evs| && LeftBefore(evs, n, r) && evs[n].BeginReset?
    ensures r.generation < Begun(evs, n + 1)
  {
    var j: nat :| j < n && LeftBy(evs, j, r);
    BegunBetween(evs, j + 1, n);
  }

  predicate RunsIn(retries: seq<Retry>, generation: nat) {
    exists i :: 0 <= i < |retries| && retries[i].generation == generation
  }

  /** The timer of the reset put off by event j runs out at event m. */
  predicate FiresAt(evs: seq<Event>, j: nat, m: nat) {
    j < m < |evs| && Log(evs)[m].fired == Some(Begun(evs, j + 1))
  }

  /** The timer that runs out at event m, and whether it asks. */
  lemma FiredTimer(evs: seq<Event>, m: nat) returns (g: nat)
    requires ValidRun(START, evs) && m < |evs| && evs[m].RetryFires?
    ensures Log(evs)[m].fired == Some(g) && (Log(evs)[m].asks <==> g == Begun(evs, m))
    ensures exists j: nat :: j < m && PutOffAt(evs, j) && g == Begun(evs, j + 1)
  {
    StepAt(evs, m);
    GenerationIsBegun(evs, m);
    TimersAreTold(evs, m);
    g := StateAt(evs, m).retries[evs[m].i].generation;
    TimerIsLeft(evs, m, StateAt(evs, m).retries[evs[m].i]);
  }

  lemma TimerIsLeft(evs: seq<Event>, m: nat, r: Retry)
    requires LeftBefore(evs, m, r)
    ensures exists j: nat :: j < m && PutOffAt(evs, j) && r.generation == Begun(evs, j + 1)
  {
    var j: nat :| j < m && LeftBy(evs, j, r);
  }

  ghost predicate NoneBegun(evs: seq<Event>, from: nat, to: nat) {
    forall k: nat :: from <= k < to <= |evs| ==> !evs[k].BeginReset?
  }

  /** When a timer runs out, it is that of one of the resets put off, and asks for the
      reset again exactly when no other reset was begun since. */
  lemma RetryAsksIff(evs: seq<Event>, m: nat)
    requires ValidRun(START, evs) && m < |evs| && evs[m].RetryFires?
    ensures exists j: nat :: PutOffAt(evs, j) && FiresAt(evs, j, m)
    ensures forall j: nat :: FiresAt(evs, j, m) ==> (Log(evs)[m].asks <==> NoneBegun(evs, j + 1, m))
  {
    var g := FiredTimer(evs, m);
    var i: nat :| i < m && PutOffAt(evs, i) && g == Begun(evs, i + 1);
    assert FiresAt(evs, i, m);
    forall j: nat | FiresAt(evs, j, m) ensures Log(evs)[m].asks <==> NoneBegun(evs, j + 1, m) {
      BegunBetween(evs, j + 1, m);
    }
  }

  ghost predicate NotFired(evs: seq<Event>, j: nat, n: nat) {
    forall m: nat :: m < n ==> !FiresAt(evs, j, m)
  }

  /** A reset that was put off has its one timer running until that fires, and never
      again afterwards. */
  lemma {:induction false} RunsUntilFired(evs: seq<Event>, j: nat, n: nat)
    requires ValidRun(START, evs) && PutOffAt(evs, j) && j < n <= |evs|
    ensures RunsIn(StateAt(evs, n).retries, Begun(evs, j + 1)) <==> NotFired(evs, j, n)
  {
    if n == j + 1 {
      TimerStarts(evs, j);
    } else {
      RunsUntilFired(evs, j, n - 1);
      RunsOrFires(evs, j, n - 1);
      NotFiredStep(evs, j, n - 1);
    }
  }

  lemma TimerStarts(evs: seq<Event>, j: nat)
    requires ValidRun(START, evs) && PutOffAt(evs, j)
    ensures RunsIn(StateAt(evs, j + 1).retries, Begun(evs, j + 1)) && NotFired(evs, j, j + 1)
  {
    TimersStepAt(evs, j);
  }

  lemma NotFiredStep(evs: seq<Event>, j: nat, n: nat)
    ensures NotFired(evs, j, n + 1) <==> NotFired(evs, j, n) && !FiresAt(evs, j, n)
  {
  }

  lemma RunsOrFires(evs: seq<Event>, j: nat, n: nat)
    requires ValidRun(START, evs) && PutOffAt(evs, j) && j < n < |evs|
    ensures RunsIn(StateAt(evs, n + 1).retries, Begun(evs, j + 1)) <==>
            RunsIn(StateAt(evs, n).retries, Begun(evs, j + 1)) && !FiresAt(evs, j, n)
  {
    TimersStepAt(evs, n);
    TimersAreTold(evs, n);
    BegunBetween(evs, j + 1, n);
    StepAt(evs, n);
    RunsOn(StateAt(evs, n).retries, evs[n], PutOffAt(evs, n), StateAt(evs, n + 1).retries, Begun(evs, j + 1));
  }

  lemma RunsOn(before: seq<Retry>, ev: Event, off: bool, after: seq<Retry>, g: nat)
    requires Rising(before) && TimersStep(before, ev, off, after)
    requires off ==> ev.BeginReset? && after[|before|].generation != g
    ensures RunsIn(after, g) <==> RunsIn(before, g) && !(ev.RetryFires? && before[ev.i].generation == g)
  {
    if off {
      assert forall k: nat :: k < |before| ==> after[..|before|][k] == after[k];
    } else if ev.RetryFires? {
      forall k | 0 <= k < |before| && k != ev.i ensures before[k] == after[if k < ev.i then k else k - 1] {
      }
      forall k | 0 <= k < |after| ensures after[k] == before[if k < ev.i then k else k + 1] {
      }
    }
  }

  /** No reset is put off twice: the next one, begun when the timer has run out or
      later, is executed. */
  lemma NextIsExecuted(evs: seq<Event>, j: nat, n: nat, r: Retry)
    requires ValidRun(START, evs) && j < n < |evs| && LeftBy(evs, j, r) && evs[n].BeginReset?
    requires NoneBegun(evs, j + 1, n)
    requires evs[n].nowMs >= evs[j].nowMs + r.waitMs
    ensures ExecutesAt(evs, n)
  {
    var i: nat :| LastExecuted(evs, i, j) && evs[j].nowMs + r.waitMs == evs[i].nowMs + 100;
    StillLast(evs, i, j, n);
    LastBounds(evs, i, n);
    PutOffIff(evs, n);
  }

  lemma StillLast(evs: seq<Event>, i: nat, j: nat, n: nat)
    requires j < n < |evs| && LastExecuted(evs, i, j) && PutOffAt(evs, j) && NoneBegun(evs, j + 1, n)
    ensures LastExecuted(evs, i, n)
  {
  }

  /** Every executed reset before event n is no later than the last one. */
  lemma LastBounds(evs: seq<Event>, i: nat, n: nat)
    requires ValidRun(START, evs) && n <= |evs| && LastExecuted(evs, i, n)
    ensures forall k: nat :: k < n && ExecutesAt(evs, k) ==> evs[k].nowMs <= evs[i].nowMs
  {
    LastIsTold(evs, n);
    var last := StateAt(evs, n).lastResetMs;
    if last > 0 {
      var k: nat :| LastExecuted(evs, k, n) && evs[k].nowMs == last;
      assert k == i;
    }
  }
}
