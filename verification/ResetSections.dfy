/** Requests and executed resets as the window runs them on its generation numbers. */
module ResetSections {
  import opened Frames
  import opened ResetProtocol
  import opened ResetSeeds

  class ResetControl {
    var captureGeneration: nat      // reset_seed_capture_generation
    var captureActive: bool
    var throttleGeneration: nat     // placebo_reset_throttle_generation
    var resetPending: bool
    var preserveTimeline: bool
    var lastResetMs: nat            // 0 before the first reset
    var timers: seq<Retry>
    var seed: Option<Seed>

    ghost var executed: seq<nat>
    ghost var offers: seq<Seed>

    /** The shared numbers, with both threads outside. */
    ghost function View(): State
      reads this
    {
      State(captureGeneration, captureActive, throttleGeneration, resetPending, preserveTimeline, lastResetMs,
            timers, seed, Idle, Ready, executed, offers)
    }

    constructor ()
      ensures View() == START
    {
      captureGeneration, captureActive, throttleGeneration := 0, false, 0;
      resetPending, preserveTimeline, lastResetMs := false, false, 0;
      timers, seed, executed, offers := [], None, [], [];
    }

    /** `queuePlaceboReset` up to its loads. */
    method LoadGeneration(preserve: bool) returns (generation: nat)
      modifies this`preserveTimeline
      ensures View().(gui := Requesting(generation)) == Next(old(View()), BeginRequest(preserve))
      ensures generation == if captureGeneration == 0 then throttleGeneration + 1 else captureGeneration
      ensures preserveTimeline <==> old(preserveTimeline) || preserve
    {
      if preserve {
        preserveTimeline := true;
      }
      generation := captureGeneration;
      if generation == 0 {
        generation := throttleGeneration + 1;
      }
    }

    /** The whole of `queuePlaceboReset`: it publishes a generation that no reset has
        executed. */
    method QueueReset(preserve: bool)
      requires SeedsKept(View())
      modifies this`preserveTimeline, this`captureGeneration, this`captureActive, this`resetPending
      ensures SeedsKept(View()) && resetPending && captureActive && captureGeneration != 0
      ensures captureGeneration !in executed
    {
      ghost var s := View();
      var generation := LoadGeneration(preserve);
      ghost var t := View().(gui := Requesting(generation));
      KeptStep(s, BeginRequest(preserve));
      PublishGeneration(generation);
      KeptStep(t, EndRequest);
    }

    /** The whole of `resetPlaceboQueue` while no request is under way: what it replays
        was captured under it, and is the newest frame offered under it. */
    method ExecuteReset(nowMs: nat) returns (executes: bool, replayed: Option<Seed>)
      requires SeedsKept(View()) && resetPending && nowMs >= lastResetMs
      modifies this
      ensures SeedsKept(View())
      ensures executes ==> executed == old(executed) + [old(captureGeneration)]
      ensures executes ==> captureGeneration == 0 && seed == None
      ensures !executes ==> executed == old(executed) && seed == old(seed) && replayed == None
      ensures replayed.Some? ==>
                && replayed.value in old(offers) && replayed.value.generation == old(captureGeneration)
                && forall o :: o in old(offers) && o.generation == old(captureGeneration) ==>
                     o.pts <= replayed.value.pts + PTS_EPSILON
    {
      ghost var s0 := View();
      KeptStep(s0, BeginReset(nowMs));
      executes := CountReset(nowMs);
      if !executes {
        return false, None;
      }
      ghost var s1 := View().(renderer := Resetting);
      KeptStep(s1, Retire);
      var generation := RetireGeneration();
      ghost var s2 := View().(renderer := Retired(generation));
      KeptIsNewest(s2);
      KeptStep(s2, ReplaySeed);
      replayed := TakeResetSeed(generation);
    }

    method PublishGeneration(generation: nat)
      modifies this`captureGeneration, this`captureActive, this`resetPending
      ensures View() == Next(old(View()).(gui := Requesting(generation)), EndRequest)
    {
      captureGeneration := generation;
      captureActive := true;
      resetPending := true;
    }

    /** The timer of a throttled reset: it asks again unless another reset came. */
    method TimerFires(i: nat) returns (generation: Option<nat>)
      requires i < |timers|
      modifies this`timers, this`preserveTimeline
      ensures View().(gui := if generation.Some? then Requesting(generation.value) else Idle) ==
              Next(old(View()), RetryFires(i))
      ensures generation.Some? <==> throttleGeneration == old(timers)[i].generation
      ensures timers == old(timers)[..i] + old(timers)[i + 1..]
    {
      var timer := timers[i];
      timers := timers[..i] + timers[i + 1..];
      if throttleGeneration != timer.generation {
        return None;
      }
      var loaded := LoadGeneration(timer.preserve);
      return Some(loaded);
    }

    /** `resetPlaceboQueue` up to its count: too soon after the last one, the reset is
        put off. */
    method CountReset(nowMs: nat) returns (executes: bool)
      requires resetPending && nowMs >= lastResetMs
      modifies this`throttleGeneration, this`resetPending, this`preserveTimeline, this`lastResetMs, this`timers
      ensures View().(renderer := if executes then Resetting else Ready) == Next(old(View()), BeginReset(nowMs))
      ensures executes <==> old(preserveTimeline) || old(lastResetMs) == 0 || nowMs >= old(lastResetMs) + 100
      ensures executes ==> lastResetMs == nowMs && !preserveTimeline && timers == old(timers)
      ensures !executes ==> lastResetMs == old(lastResetMs) && !preserveTimeline
      ensures !executes ==> timers == old(timers) + [Retry(throttleGeneration, false, lastResetMs + 100 - nowMs)]
      ensures !resetPending && throttleGeneration == old(throttleGeneration) + 1
    {
      resetPending := false;
      var preserve := preserveTimeline;
      throttleGeneration := throttleGeneration + 1;
      if !preserve && lastResetMs != 0 && nowMs - lastResetMs < THROTTLE_MS {
        var left := THROTTLE_MS - (nowMs - lastResetMs);
        timers := timers + [Retry(throttleGeneration, preserve, if left > 1 then left else 1)];
        return false;
      }
      lastResetMs := nowMs;
      preserveTimeline := false;
      return true;
    }

    method RetireGeneration() returns (generation: nat)
      modifies this`captureGeneration, this`captureActive, this`executed
      ensures View().(renderer := Retired(generation)) == Next(old(View()).(renderer := Resetting), Retire)
      ensures generation == old(captureGeneration) && captureGeneration == 0 && !captureActive
    {
      generation := captureGeneration;
      captureActive := false;
      captureGeneration := 0;
      executed := executed + [generation];
    }

    /** `storeResetSeedFrame`: a frame of another generation is replaced, an older one
        of the same generation is not taken. */
    method StoreResetSeed(pts: real, generation: nat) returns (stored: bool)
      modifies this`seed, this`offers
      ensures View() == Next(old(View()).(gui := Offering(Seed(pts, generation))), EndOffer)
      ensures stored <==> !(old(seed).Some? && old(seed).value.generation == generation &&
                            pts <= old(seed).value.pts + PTS_EPSILON)
      ensures seed == if stored then Some(Seed(pts, generation)) else old(seed)
    {
      offers := offers + [Seed(pts, generation)];
      if seed.Some? && seed.value.generation != generation {
        seed := None;
      }
      if seed.Some? && pts <= seed.value.pts + PTS_EPSILON {
        return false;
      }
      seed := Some(Seed(pts, generation));
      return true;
    }

    /** `applyResetSeedFrame`: the captured frame leaves either way, and is replayed
        only under its own generation. */
    method TakeResetSeed(generation: nat) returns (replayed: Option<Seed>)
      modifies this`seed
      ensures View() == Next(old(View()).(renderer := Retired(generation)), ReplaySeed)
      ensures replayed == if old(seed).Some? && old(seed).value.generation == generation then old(seed) else None
    {
      replayed := seed;
      seed := None;
      if replayed.Some? && replayed.value.generation != generation {
        replayed := None;
      }
    }
  }
}
