/** Presentation pacing: the sleep before a frame is presented, the grid of target
    times it follows, and the averages the lead before a target is taken from.
    Times are whole microseconds on a clock that never goes back. */
module Pacing {
  // ----- the grid of target times -----

  /** `t` is the least time `target + k * interval` after `now`; it is at most one
      interval ahead unless the target itself lies further ahead. */
  ghost predicate NextOnGrid(t: nat, target: nat, interval: nat, now: nat) {
    && t > now && t >= target
    && (exists k: nat :: t == target + k * interval)
    && (t - interval <= now || t == target)
  }

  lemma NextOnGridIsUnique(t: nat, u: nat, target: nat, interval: nat, now: nat)
    requires interval > 0 && NextOnGrid(t, target, interval, now) && NextOnGrid(u, target, interval, now)
    ensures t == u
  {
    var j: nat :| t == target + j * interval;
    var k: nat :| u == target + k * interval;
    if j < k {
      Multiples(j, k, interval);
    } else if k < j {
      Multiples(k, j, interval);
    }
  }

  lemma {:induction false} Multiples(j: nat, k: nat, interval: nat)
    requires j < k
    ensures k * interval >= j * interval + interval
  {
    assert k * interval == (k - 1) * interval + interval;
    if j + 1 < k {
      Multiples(j, k - 1, interval);
    }
  }

  /** No time of the grid lies between `now` and the next one. */
  lemma NextOnGridIsLeast(t: nat, target: nat, interval: nat, now: nat, k: nat)
    requires interval > 0 && NextOnGrid(t, target, interval, now) && target + k * interval > now
    ensures t <= target + k * interval
  {
    var j: nat :| t == target + j * interval;
    if k < j {
      Multiples(k, j, interval);
    }
  }

  /** The loop of `throttleFramePresentation`. */
  method CatchUpByLoop(target: nat, interval: nat, now: nat) returns (t: nat)
    requires interval > 0
    ensures NextOnGrid(t, target, interval, now)
  {
    t := target;
    ghost var k: nat := 0;
    while t <= now
      invariant t == target + k * interval
      invariant t - interval <= now || t == target
      decreases now + interval - t
    {
      assert (k + 1) * interval == k * interval + interval;
      t := t + interval;
      k := k + 1;
    }
  }

  /** The division of `scheduleBufferedUpdate`, for a target that is not after now. */
  method CatchUpByDivision(target: nat, interval: nat, now: nat) returns (t: nat)
    requires interval > 0 && target <= now
    ensures NextOnGrid(t, target, interval, now) && t <= now + interval
  {
    var elapsed := now - target;
    var missed := elapsed / interval + 1;
    DivisionBounds(elapsed, interval);
    assert missed * interval == (elapsed / interval) * interval + interval;
    t := target + missed * interval;
  }

  lemma DivisionBounds(a: nat, b: nat)
    requires b > 0
    ensures (a / b) * b <= a < (a / b) * b + b
  {
  }

  // ----- the integer moving averages -----

  /** One update of an estimate from a sample, as `render` makes it: samples above
      two present intervals are ignored. */
  function Averaged(estimate: nat, sample: nat, presentInterval: nat): nat {
    if presentInterval == 0 || sample > 2 * presentInterval then estimate
    else if estimate > 0 then (estimate * 7 + sample) / 8
    else sample
  }

  /** The first sample is taken as it is; afterwards an accepted one draws the estimate
      an eighth of the way towards it, rounded down, and never past it. An estimate
      that does not move is within 8 below the sample or equal to it. */
  lemma AveragedMoves(estimate: nat, sample: nat, presentInterval: nat)
    ensures var r := Averaged(estimate, sample, presentInterval);
            && (presentInterval == 0 || sample > 2 * presentInterval ==> r == estimate)
            && (0 < presentInterval && sample <= 2 * presentInterval ==>
                  if estimate == 0 then r == sample
                  else
                    && 0 <= (sample - estimate) - 8 * (r - estimate) < 8
                    && (estimate <= sample ==> estimate <= r <= sample)
                    && (sample <= estimate ==> sample <= r <= estimate)
                    && (r == estimate <==> 0 <= sample - estimate < 8))
  {
  }

  datatype Sample = Sample(value: nat, presentInterval: nat)

  function AveragedOver(samples: seq<Sample>): nat {
    if samples == [] then 0
    else
      var last := samples[|samples| - 1];
      Averaged(AveragedOver(samples[..|samples| - 1]), last.value, last.presentInterval)
  }

  function Accepted(s: Sample): bool {
    s.presentInterval > 0 && s.value <= 2 * s.presentInterval
  }

  /** An estimate never exceeds the largest accepted sample, so with present
      intervals up to `longest` it stays within twice that; and once a sample was
      accepted it is never more than 7 below the smallest accepted one. */
  lemma {:induction false} EstimateBounded(samples: seq<Sample>, longest: nat, low: nat, high: nat)
    requires forall i :: 0 <= i < |samples| ==> samples[i].presentInterval <= longest
    requires forall i :: 0 <= i < |samples| && Accepted(samples[i]) ==> low <= samples[i].value <= high
    ensures AveragedOver(samples) <= high && AveragedOver(samples) <= 2 * longest
    ensures (exists i :: 0 <= i < |samples| && Accepted(samples[i])) ==> AveragedOver(samples) + 7 >= low
  {
    if samples == [] {
    } else {
      var n := |samples| - 1;
      EstimateBounded(samples[..n], longest, low, high);
      var e := AveragedOver(samples[..n]);
      if Accepted(samples[n]) && e > 0 && !(exists i :: 0 <= i < n && Accepted(samples[..n][i])) {
        NothingAccepted(samples[..n]);
      }
      assert forall i :: 0 <= i < n ==> samples[..n][i] == samples[i];
    }
  }

  lemma {:induction false} NothingAccepted(samples: seq<Sample>)
    requires forall i :: 0 <= i < |samples| ==> !Accepted(samples[i])
    ensures AveragedOver(samples) == 0
  {
    if samples == [] {
    } else {
      NothingAccepted(samples[..|samples| - 1]);
    }
  }

  // ----- the pacer -----

  /** The time before a target at which the pacer wakes up. */
  function Lead(swapToStart: int, startBlock: int, renderSubmit: int, submitSwap: int): nat {
    var atLeastZero := (x: int) => if x > 0 then x else 0;
    atLeastZero(atLeastZero(swapToStart) + atLeastZero(startBlock) + atLeastZero(renderSubmit)) +
    atLeastZero(submitSwap)
  }

  /** Each estimate counts in full, and one below zero not at all. */
  lemma LeadIsSum(a: int, b: int, c: int, d: int)
    ensures a >= 0 && b >= 0 && c >= 0 && d >= 0 ==> Lead(a, b, c, d) == a + b + c + d
    ensures a < 0 ==> Lead(a, b, c, d) == Lead(0, b, c, d)
    ensures b < 0 ==> Lead(a, b, c, d) == Lead(a, 0, c, d)
    ensures c < 0 ==> Lead(a, b, c, d) == Lead(a, b, 0, d)
    ensures d < 0 ==> Lead(a, b, c, d) == Lead(a, b, c, 0)
  {
  }

  /** Whatever was sampled, the lead is at most six of the longest present
      intervals plus the submit and swap estimate. */
  lemma LeadBounded(gap: seq<Sample>, block: seq<Sample>, submit: seq<Sample>, submitSwap: int, longest: nat)
    requires forall i :: 0 <= i < |gap| ==> gap[i].presentInterval <= longest
    requires forall i :: 0 <= i < |block| ==> block[i].presentInterval <= longest
    requires forall i :: 0 <= i < |submit| ==> submit[i].presentInterval <= longest
    ensures Lead(AveragedOver(gap), AveragedOver(block), AveragedOver(submit), submitSwap)
            <= 6 * longest + (if submitSwap > 0 then submitSwap else 0)
  {
    EstimateBounded(gap, longest, 0, 2 * longest);
    EstimateBounded(block, longest, 0, 2 * longest);
    EstimateBounded(submit, longest, 0, 2 * longest);
  }

  /** The longest time a clock reading takes, and how late a sleep may end. */
  datatype Lateness = Lateness(read: nat, sleep: nat)

  /** A sleep that was asked for, and when. */
  datatype Nap = Nap(at: nat, us: nat)

  /** The monotonic clock; reading it and sleeping let time pass. */
  class Clock {
    const late: Lateness
    var now: nat
    ghost var naps: seq<Nap>

    constructor (late: Lateness)
      ensures this.late == late && now == 0 && naps == []
    {
      this.late := late;
      now, naps := 0, [];
    }

    method Read() returns (t: nat)
      modifies this`now
      ensures t == now && old(now) <= now <= old(now) + late.read
    {
      var passed: int := *;
      now := now + if 0 < passed <= late.read then passed else 0;
      t := now;
    }

    method Sleep(us: nat)
      modifies this
      ensures old(now) + us <= now <= old(now) + us + late.sleep
      ensures naps == old(naps) + [Nap(old(now), us)]
    {
      var over: int := *;
      naps := naps + [Nap(now, us)];
      now := now + us + if 0 < over <= late.sleep then over else 0;
    }
  }

  /** A look at a flag, and whether it was found raised. */
  datatype Look = UiRead(raised: bool) | UiTaken(raised: bool) | ResetTaken(raised: bool)

  /** Flags other threads raise at any time; taking one lowers it. */
  class Signals {
    var uiPriority: bool
    var pacingReset: bool
    ghost var looks: seq<Look>

    constructor ()
      ensures !uiPriority && !pacingReset && looks == []
    {
      uiPriority, pacingReset, looks := false, false, [];
    }

    method ReadUiPriority() returns (raised: bool)
      modifies this`uiPriority, this`looks
      ensures raised == uiPriority && (old(uiPriority) ==> raised)
      ensures looks == old(looks) + [UiRead(raised)]
    {
      var fromOutside: bool := *;
      uiPriority := uiPriority || fromOutside;
      raised := uiPriority;
      looks := looks + [UiRead(raised)];
    }

    method TakeUiPriority() returns (raised: bool)
      modifies this`uiPriority, this`looks
      ensures !uiPriority && (old(uiPriority) ==> raised)
      ensures looks == old(looks) + [UiTaken(raised)]
    {
      var fromOutside: bool := *;
      raised := uiPriority || fromOutside;
      uiPriority := false;
      looks := looks + [UiTaken(raised)];
    }

    method TakePacingReset() returns (raised: bool)
      modifies this`pacingReset, this`looks
      ensures !pacingReset && (old(pacingReset) ==> raised)
      ensures looks == old(looks) + [ResetTaken(raised)]
    {
      var fromOutside: bool := *;
      raised := pacingReset || fromOutside;
      pacingReset := false;
      looks := looks + [ResetTaken(raised)];
    }
  }

  /** What one call of the pacer did, for the laws about successive calls. */
  datatype Call = Call(
    entered: nat,      // clock at entry
    read: nat,         // clock when the target was chosen
    returned: nat,     // clock at return
    targetBefore: nat, // 0: none
    target: nat,       // the target of this call
    targetAfter: nat,
    lead: nat,
    restarted: bool,   // a pacing reset was pending at entry
    cutShort: bool,    // the sleep ended early for the user interface
    interrupted: bool) // the user interface or a pacing reset cleared the target

  /** When a call whose target is chosen wakes up: the lead before the target, or at
      once when that is already past. */
  function Wakeup(c: Call): nat {
    if c.target - c.lead > c.read then c.target - c.lead else c.read
  }

  /** What the source promises of a call whose interval is not zero. */
  ghost predicate Paced(c: Call, interval: nat, late: Lateness) {
    && c.entered <= c.read <= c.entered + late.read
    && (c.targetBefore == 0 ==> c.target == c.read + interval)
    && (c.targetBefore > 0 ==> NextOnGrid(c.target, c.targetBefore, interval, c.read))
    && c.read <= c.returned <= Wakeup(c) + (if Wakeup(c) > c.read then late.sleep + late.read else 0)
    && (!c.cutShort ==> c.returned >= Wakeup(c))
    && (!c.interrupted ==> c.targetAfter == c.target + interval)
    && (c.interrupted ==> c.targetAfter == 0)
  }

  /** Each sleep begins before the wake-up time and asks for what is left to it, up to
      a millisecond. */
  ghost predicate Stepwise(naps: seq<Nap>, wakeup: nat) {
    forall k :: 0 <= k < |naps| ==>
      naps[k].at < wakeup && naps[k].us == if wakeup - naps[k].at < 1000 then wakeup - naps[k].at else 1000
  }

  /** The looks at the user interface's flag during n sleeps, one before each, and the
      one that cut the sleep short. */
  function Watching(n: nat, cutShort: bool): seq<Look> {
    if n == 0 then (if cutShort then [UiRead(true)] else []) else [UiRead(false)] + Watching(n - 1, cutShort)
  }

  lemma {:induction false} WatchedOnce(n: nat, cutShort: bool)
    ensures Watching(n, false) + [UiRead(cutShort)] == Watching(if cutShort then n else n + 1, cutShort)
  {
    if n > 0 {
      WatchedOnce(n - 1, cutShort);
      assert [UiRead(false)] + (Watching(n - 1, false) + [UiRead(cutShort)]) ==
             Watching(n, false) + [UiRead(cutShort)];
    }
  }

  /** The flags taken at the end of a call: a pacing reset is taken only when the user
      interface asked for nothing. */
  predicate Ended(looks: seq<Look>, interrupted: bool) {
    if looks == [UiTaken(true)] then interrupted else looks == [UiTaken(false), ResetTaken(interrupted)]
  }

  /** The nearest number of microseconds, halves rounded up. */
  function Micros(seconds: real): (us: nat)
    ensures seconds > 0.0 ==> us as real - 0.5 <= seconds * 1000000.0 < us as real + 0.5
  {
    if seconds <= 0.0 then 0 else (seconds * 1000000.0 + 0.5).Floor
  }

  predicate SameInterval(a: real, b: real) {
    -0.000001 <= a - b <= 0.000001
  }

  class FramePacer {
    var nextTarget: nat
    var lastInterval: real

    constructor ()
      ensures nextTarget == 0 && lastInterval == 0.0
    {
      nextTarget, lastInterval := 0, 0.0;
    }

    method ResetPacing()
      modifies this
      ensures nextTarget == 0 && lastInterval == 0.0
    {
      nextTarget, lastInterval := 0, 0.0;
    }

    /** Sleeps in steps of at most a millisecond, unless the user interface asks. */
    method SleepUntil(wakeup: nat, now: nat, clock: Clock, signals: Signals) returns (cutShort: bool)
      requires now == clock.now
      modifies clock, signals
      ensures clock.now >= now && (!cutShort ==> clock.now >= wakeup)
      ensures if wakeup <= now then clock.now == now else clock.now <= wakeup + clock.late.sleep + clock.late.read
      ensures old(clock.naps) <= clock.naps && Stepwise(clock.naps[|old(clock.naps)|..], wakeup)
      ensures signals.looks == old(signals.looks) + Watching(|clock.naps| - |old(clock.naps)|, cutShort)
      ensures signals.pacingReset == old(signals.pacingReset) && (old(signals.uiPriority) ==> signals.uiPriority)
    {
      cutShort := false;
      var wait := if wakeup > now then wakeup - now else 0;
      ghost var n := 0;
      while wait > 0
        invariant clock.now >= now && wait == if wakeup > clock.now then wakeup - clock.now else 0
        invariant if wakeup <= now then clock.now == now else clock.now <= wakeup + clock.late.sleep + clock.late.read
        invariant old(clock.naps) <= clock.naps && |clock.naps| == |old(clock.naps)| + n
        invariant Stepwise(clock.naps[|old(clock.naps)|..], wakeup)
        invariant signals.looks == old(signals.looks) + Watching(n, false)
        invariant signals.pacingReset == old(signals.pacingReset) && (old(signals.uiPriority) ==> signals.uiPriority)
      {
        cutShort := signals.ReadUiPriority();
        WatchedOnce(n, cutShort);
        assert signals.looks == old(signals.looks) + (Watching(n, false) + [UiRead(cutShort)]);
        if cutShort {
          return;
        }
        var step := if wait < 1000 then wait else 1000;
        clock.Sleep(step);
        n := n + 1;
        var after := clock.Read();
        wait := if wakeup > after then wakeup - after else 0;
      }
    }

    /** `throttleFramePresentation`: sleeps until `lead` before the next target. */
    method Throttle(interval: real, lead: nat, clock: Clock, signals: Signals) returns (call: Call)
      modifies this, clock, signals
      ensures old(signals.pacingReset) ==> call.restarted
      ensures interval <= 0.0 ==> nextTarget == 0 && lastInterval == 0.0
      ensures interval > 0.0 && Micros(interval) == 0 ==>
                if call.restarted then nextTarget == 0
                else nextTarget == old(nextTarget) && lastInterval == old(lastInterval)
      ensures Micros(interval) == 0 ==>
                clock.now == old(clock.now) && clock.naps == old(clock.naps) &&
                signals.looks == old(signals.looks) + [ResetTaken(call.restarted)]
      ensures Micros(interval) > 0 ==>
                && Paced(call, Micros(interval), clock.late) && call.lead == lead && call.targetAfter == nextTarget
                && call.entered == old(clock.now) && call.returned == clock.now
                && lastInterval == (if call.interrupted then 0.0 else interval)
                && call.targetBefore ==
                   if call.restarted || !(-0.000001 <= old(lastInterval) - interval <= 0.000001) then 0
                   else old(nextTarget)
      ensures Micros(interval) > 0 ==>
                old(clock.naps) <= clock.naps && Stepwise(clock.naps[|old(clock.naps)|..], Wakeup(call))
      ensures Micros(interval) > 0 ==>
                exists end :: Ended(end, call.interrupted) &&
                  signals.looks == old(signals.looks) + [ResetTaken(call.restarted)] +
                                   Watching(|clock.naps| - |old(clock.naps)|, call.cutShort) + end
    {
      var entered := clock.now;
      var restarted := signals.TakePacingReset();
      if restarted {
        ResetPacing();
      }
      call := Call(entered, entered, entered, nextTarget, nextTarget, nextTarget, lead, restarted, true, true);
      if interval <= 0.0 {
        ResetPacing();
        return;
      }
      var intervalUs := Micros(interval);
      if intervalUs == 0 {
        return;
      }
      if !SameInterval(lastInterval, interval) {
        nextTarget := 0;
      }
      lastInterval := interval;
      call := Pace(intervalUs, lead, restarted, entered, clock, signals);
    }

    /** The rest of it, once the interval is known not to be zero. */
    method Pace(intervalUs: nat, lead: nat, restarted: bool, entered: nat, clock: Clock, signals: Signals)
      returns (call: Call)
      requires intervalUs > 0 && entered == clock.now
      modifies this, clock, signals
      ensures Paced(call, intervalUs, clock.late) && call.lead == lead && call.restarted == restarted
      ensures call.entered == entered && call.returned == clock.now
      ensures call.targetBefore == old(nextTarget) && call.targetAfter == nextTarget
      ensures lastInterval == if call.interrupted then 0.0 else old(lastInterval)
      ensures old(clock.naps) <= clock.naps && Stepwise(clock.naps[|old(clock.naps)|..], Wakeup(call))
      ensures exists end :: Ended(end, call.interrupted) &&
                signals.looks ==
                old(signals.looks) + Watching(|clock.naps| - |old(clock.naps)|, call.cutShort) + end
    {
      var before := nextTarget;
      var now := clock.Read();
      if nextTarget == 0 {
        nextTarget := now + intervalUs;
      }
      nextTarget := CatchUpByLoop(nextTarget, intervalUs, now);
      var target := nextTarget;
      var wakeup := if nextTarget - now > lead then nextTarget - lead else now;
      var cutShort := SleepUntil(wakeup, now, clock, signals);
      var interrupted := TakeRequests(signals);
      if interrupted {
        ResetPacing();
      } else {
        nextTarget := nextTarget + intervalUs;
      }
      call := Call(entered, now, clock.now, before, target, nextTarget, lead, restarted, cutShort, interrupted);
    }

    /** What came up during the sleep: a request of the user interface, or else a
        pacing reset. */
    method TakeRequests(signals: Signals) returns (interrupted: bool)
      modifies signals
      ensures exists end :: Ended(end, interrupted) && signals.looks == old(signals.looks) + end
      ensures old(signals.uiPriority) || old(signals.pacingReset) ==> interrupted
      ensures !signals.uiPriority
    {
      interrupted := signals.TakeUiPriority();
      ghost var end := [UiTaken(interrupted)];
      if !interrupted {
        interrupted := signals.TakePacingReset();
        end := end + [ResetTaken(interrupted)];
      }
      assert Ended(end, interrupted);
    }
  }

  // ----- successive calls -----

  /** Calls one after the other with the same interval, none cut short or reset,
      each with a lead of at most `lead`. */
  ghost predicate Successive(calls: seq<Call>, interval: nat, lead: nat, late: Lateness) {
    && (forall i :: 0 <= i < |calls| ==>
          Paced(calls[i], interval, late) && calls[i].lead <= lead && !calls[i].cutShort && !calls[i].interrupted)
    && (forall i :: 0 < i < |calls| ==>
          calls[i].targetBefore == calls[i - 1].targetAfter && calls[i].entered >= calls[i - 1].returned)
  }

  lemma {:induction false} AtLeastSteps(times: seq<nat>, step: nat)
    requires times != [] && forall i :: 0 < i < |times| ==> times[i] >= times[i - 1] + step
    ensures times[|times| - 1] >= times[0] + (|times| - 1) * step
  {
    if |times| > 1 {
      var n := |times| - 1;
      AtLeastSteps(times[..n], step);
      assert (n - 1) * step + step == n * step;
    }
  }

  lemma {:induction false} AtMostSteps(times: seq<nat>, step: nat)
    requires times != [] && forall i :: 0 < i < |times| ==> times[i] <= times[i - 1] + step
    ensures times[|times| - 1] <= times[0] + (|times| - 1) * step
  {
    if |times| > 1 {
      var n := |times| - 1;
      AtMostSteps(times[..n], step);
      assert (n - 1) * step + step == n * step;
    }
  }

  lemma {:induction false} ExactSteps(times: seq<nat>, step: nat)
    requires times != [] && forall i :: 0 < i < |times| ==> times[i] == times[i - 1] + step
    ensures times[|times| - 1] == times[0] + (|times| - 1) * step
  {
    if |times| > 1 {
      var n := |times| - 1;
      ExactSteps(times[..n], step);
      assert (n - 1) * step + step == n * step;
    }
  }

  function Targets(calls: seq<Call>): (times: seq<nat>)
    ensures |times| == |calls| && forall i :: 0 <= i < |calls| ==> times[i] == calls[i].target
  {
    seq(|calls|, i requires 0 <= i < |calls| => calls[i].target)
  }

  lemma TargetsAdvance(calls: seq<Call>, interval: nat, lead: nat, late: Lateness)
    requires interval > 0 && Successive(calls, interval, lead, late) && calls != []
    ensures calls[|calls| - 1].target >= calls[0].target + (|calls| - 1) * interval
  {
    AtLeastSteps(Targets(calls), interval);
  }

  lemma ReturnsNear(c: Call, interval: nat, late: Lateness)
    requires interval > 0 && Paced(c, interval, late)
    ensures c.read < c.target && c.returned <= c.target + late.sleep + late.read
    ensures c.targetBefore == 0 ==> c.target <= c.entered + late.read + interval
  {
  }

  /** Rate bound: the n-th of successive calls returns later than n - 1 intervals,
      less the lead, after the first was entered. */
  lemma RateBounded(calls: seq<Call>, interval: nat, lead: nat, late: Lateness)
    requires interval > 0 && Successive(calls, interval, lead, late) && calls != []
    ensures calls[|calls| - 1].returned + lead > calls[0].entered + (|calls| - 1) * interval
  {
    TargetsAdvance(calls, interval, lead, late);
    ReturnsNear(calls[0], interval, late);
    assert Paced(calls[|calls| - 1], interval, late);
  }

  /** Each call comes at most `work` after the one before returned. */
  ghost predicate Prompt(calls: seq<Call>, work: nat) {
    forall i :: 0 < i < |calls| ==> calls[i].entered <= calls[i - 1].returned + work
  }

  /** How far behind the target of a call the next one may choose its own. */
  function Slack(work: nat, late: Lateness): nat {
    work + 2 * late.read + late.sleep
  }

  /** A call keeps the target it was left exactly when that lies ahead of the clock. */
  lemma KeepsTargetIff(c: Call, interval: nat, late: Lateness)
    requires interval > 0 && Paced(c, interval, late) && c.targetBefore > 0
    ensures c.target == c.targetBefore <==> c.read < c.targetBefore
  {
  }

  /** Two successive calls. */
  lemma NextCallNear(b: Call, c: Call, interval: nat, lead: nat, late: Lateness, work: nat)
    requires interval > 0 && Successive([b, c], interval, lead, late) && Prompt([b, c], work)
    ensures b.read < b.target && c.read <= b.target + Slack(work, late)
    ensures c.target <= b.target + interval + Slack(work, late)
    ensures Slack(work, late) < interval ==> c.target == b.target + interval
  {
    var two := [b, c];
    assert two[0] == b && two[1] == c;
    assert Paced(two[0], interval, late) && Paced(two[1], interval, late);
    assert two[1].targetBefore == two[0].targetAfter && two[1].entered <= two[0].returned + work;
    KeepsTargetIff(c, interval, late);
  }

  lemma TargetsNear(calls: seq<Call>, interval: nat, lead: nat, late: Lateness, work: nat)
    requires interval > 0 && Successive(calls, interval, lead, late) && Prompt(calls, work) && calls != []
    ensures calls[|calls| - 1].target <= calls[0].target + (|calls| - 1) * (interval + Slack(work, late))
    ensures Slack(work, late) < interval ==> calls[|calls| - 1].target == calls[0].target + (|calls| - 1) * interval
  {
    var times := Targets(calls);
    forall i | 0 < i < |times|
      ensures times[i] <= times[i - 1] + (interval + Slack(work, late))
      ensures Slack(work, late) < interval ==> times[i] == times[i - 1] + interval
    {
      NextCallNear(calls[i - 1], calls[i], interval, lead, late, work);
    }
    StepsNear(times, interval, Slack(work, late));
  }

  lemma StepsNear(times: seq<nat>, interval: nat, slack: nat)
    requires times != [] && forall i :: 0 < i < |times| ==> times[i] <= times[i - 1] + (interval + slack)
    requires slack < interval ==> forall i :: 0 < i < |times| ==> times[i] == times[i - 1] + interval
    ensures times[|times| - 1] <= times[0] + (|times| - 1) * (interval + slack)
    ensures slack < interval ==> times[|times| - 1] == times[0] + (|times| - 1) * interval
  {
    AtMostSteps(times, interval + slack);
    if slack < interval {
      ExactSteps(times, interval);
    }
  }

  /** The other side of the rate bound: n prompt calls take at most n times the
      interval, the work between them and the lateness of their clock and sleeps. */
  lemma RateBoundedAbove(calls: seq<Call>, interval: nat, lead: nat, late: Lateness, work: nat)
    requires interval > 0 && Successive(calls, interval, lead, late) && Prompt(calls, work) && calls != []
    ensures calls[|calls| - 1].returned <=
            calls[0].target + (|calls| - 1) * (interval + Slack(work, late)) + late.sleep + late.read
    ensures calls[0].targetBefore == 0 ==>
              calls[|calls| - 1].returned <= calls[0].entered + |calls| * (interval + Slack(work, late))
  {
    TargetsNear(calls, interval, lead, late, work);
    ReturnsNear(calls[|calls| - 1], interval, late);
    ReturnsNear(calls[0], interval, late);
    var s := interval + Slack(work, late);
    assert (|calls| - 1) * s + s == |calls| * s;
  }

  /** While the work between calls and all lateness fit into one interval there is no
      drift: the n-th call returns n - 1 intervals after the target of the first, less
      at most the lead, and no more than the lateness of one sleep after it. */
  lemma SteadyRate(calls: seq<Call>, interval: nat, lead: nat, late: Lateness, work: nat)
    requires interval > 0 && Successive(calls, interval, lead, late) && Prompt(calls, work) && calls != []
    requires Slack(work, late) < interval
    ensures var due := calls[0].target + (|calls| - 1) * interval;
            due <= calls[|calls| - 1].returned + lead && calls[|calls| - 1].returned <= due + late.sleep + late.read
  {
    TargetsNear(calls, interval, lead, late, work);
    ReturnsNear(calls[|calls| - 1], interval, late);
    assert Paced(calls[|calls| - 1], interval, late);
  }

  /** The target kept for the next call is at most one interval and the lead ahead
      of the clock. */
  lemma NextTargetNear(c: Call, interval: nat, lead: nat, late: Lateness)
    requires interval > 0 && Paced(c, interval, late) && c.lead <= lead && !c.cutShort && !c.interrupted
    ensures c.targetAfter > c.entered + interval
    ensures c.targetAfter <= c.returned + lead + interval
  {
  }

  /** What the estimates were made of when a call took its lead. */
  datatype History = History(gap: seq<Sample>, block: seq<Sample>, submit: seq<Sample>, submitSwap: int)

  ghost predicate WithinInterval(samples: seq<Sample>, longest: nat) {
    forall i :: 0 <= i < |samples| ==> samples[i].presentInterval <= longest
  }

  ghost predicate Measured(c: Call, h: History, longest: nat, submitSwap: nat) {
    && WithinInterval(h.gap, longest) && WithinInterval(h.block, longest) && WithinInterval(h.submit, longest)
    && h.submitSwap <= submitSwap
    && c.lead == Lead(AveragedOver(h.gap), AveragedOver(h.block), AveragedOver(h.submit), h.submitSwap)
  }

  /** Whatever the estimates were sampled from, n uninterrupted calls take longer
      than n - 1 intervals, less six of the longest present intervals and the submit
      and swap estimate. */
  lemma RateBoundedBySamples(calls: seq<Call>, history: seq<History>, interval: nat, longest: nat, submitSwap: nat,
                            late: Lateness)
    requires interval > 0 && calls != [] && |history| == |calls|
    requires forall i :: 0 <= i < |calls| ==>
               && Measured(calls[i], history[i], longest, submitSwap)
               && Paced(calls[i], interval, late) && !calls[i].cutShort && !calls[i].interrupted
    requires forall i :: 0 < i < |calls| ==>
               calls[i].targetBefore == calls[i - 1].targetAfter && calls[i].entered >= calls[i - 1].returned
    ensures calls[|calls| - 1].returned + 6 * longest + submitSwap > calls[0].entered + (|calls| - 1) * interval
  {
    forall i | 0 <= i < |calls| ensures calls[i].lead <= 6 * longest + submitSwap {
      var h := history[i];
      LeadBounded(h.gap, h.block, h.submit, h.submitSwap, longest);
    }
    RateBounded(calls, interval, 6 * longest + submitSwap, late);
  }
}
