/** Order through the two threads: while the delivered timestamps rise, what reaches
    the display queue between two queue resets rises too and is a subsequence of what
    was delivered. */
module HandoffOrder {
  import opened Frames
  import opened Handoff
  import P = PendingSpec

  /** More than the tolerance apart, rising. */
  ghost predicate Rising(p: seq<real>) {
    forall i, j :: 0 <= i < j < |p| ==> p[i] + PTS_EPSILON < p[j]
  }

  ghost predicate Subsequence(a: seq<real>, b: seq<real>) {
    if a == [] then true
    else if b == [] then false
    else if a[|a| - 1] == b[|b| - 1] then Subsequence(a[..|a| - 1], b[..|b| - 1])
    else Subsequence(a, b[..|b| - 1])
  }

  lemma {:induction false} RisingMembersAreSubsequence(a: seq<real>, b: seq<real>)
    requires Rising(a) && Rising(b)
    requires forall x :: x in a ==> x in b
    ensures Subsequence(a, b)
    decreases |b|
  {
    if a == [] {
    } else {
      var last := a[|a| - 1];
      assert last in a && last in b;
      var k := if a[|a| - 1] == b[|b| - 1] then |a| - 1 else |a|;
      forall i | 0 <= i < k ensures a[..k][i] in b[..|b| - 1] {
        assert a[i] in a && a[i] in b;
        EarlierMember(a, b, i);
      }
      RisingMembersAreSubsequence(a[..k], b[..|b| - 1]);
      assert a[..|a|] == a;
    }
  }

  lemma EarlierMember(a: seq<real>, b: seq<real>, i: nat)
    requires Rising(a) && Rising(b) && i < |a| && b != [] && a[i] in b && a[|a| - 1] in b
    requires i < |a| - 1 || a[i] != b[|b| - 1]
    ensures a[i] in b[..|b| - 1]
  {
    var j :| 0 <= j < |b| && b[j] == a[i];
    var m :| 0 <= m < |b| && b[m] == a[|a| - 1];
    assert b[..|b| - 1][j] == a[i];
  }

  function Last(p: seq<real>): real { if p == [] then -1.0 else p[|p| - 1] }

  /** Every real frame of the store lies after `t`. */
  ghost predicate StoreAfter(store: seq<Entry>, t: real) {
    forall i :: 0 <= i < |store| ==> store[i].warmup || t + PTS_EPSILON < store[i].pts
  }

  /** The GUI thread lets go of a waiting frame before it can promote one: it is about
      to sweep up to the frame it pushed, or, without the deque, to put the frame in its
      hands in the place of the only one. */
  predicate Leaving(g: Gui, w: Entry, c: Config) {
    || (g.Sweeping? && w.pts <= g.e.pts + PTS_EPSILON)
    || (!c.overflowEnabled && (g.Storing? || (g.Deciding? && g.busy)) && !g.e.warmup)
  }

  /** Every real frame of the store that can still be promoted lies after `t`; with
      `rolls`, those before `t` are about to be pruned. */
  ghost predicate WaitAfter(store: seq<Entry>, t: real, rolls: bool, g: Gui, c: Config) {
    forall i :: 0 <= i < |store| ==>
      || store[i].warmup || t + PTS_EPSILON < store[i].pts || Leaving(g, store[i], c)
      || (rolls && store[i].pts + PTS_EPSILON < t)
  }

  ghost predicate StoreFrom(store: seq<Entry>, origin: real) {
    forall i :: 0 <= i < |store| ==> store[i].warmup || origin <= store[i].pts + PTS_EPSILON
  }

  ghost predicate StoreBefore(store: seq<Entry>, t: real) {
    forall i :: 0 <= i < |store| ==> store[i].warmup || store[i].pts + PTS_EPSILON < t
  }

  ghost predicate StoreDelivered(store: seq<Entry>, delivered: seq<real>) {
    forall i :: 0 <= i < |store| ==> store[i].warmup || store[i].pts in delivered
  }

  /** The frame in the GUI thread's hands has not been pushed. */
  predicate Unpushed(g: Gui) { !g.Idle? && !g.Sweeping? }

  ghost predicate LogsRise(s: State) {
    Rising(s.delivered) && Rising(s.pushed) &&
    (forall x :: x in s.pushed ==> x in s.delivered && x <= s.newest) &&
    (forall x :: x in s.delivered ==> x >= 0.0)
  }

  ghost predicate StoreOrdered(s: State, c: Config) {
    P.Disciplined(s.store) && |s.store| <= P.Capacity(c.overflowEnabled) &&
    StoreDelivered(s.store, s.delivered) && WaitAfter(s.store, Last(s.pushed), false, s.gui, c)
  }

  ghost predicate GuiOrdered(s: State) {
    && (!s.gui.Idle? ==> P.Admissible(s.gui.e))
    && (!s.gui.Idle? && !s.gui.e.warmup ==> s.delivered != [] && s.gui.e.pts == Last(s.delivered))
    && (Unpushed(s.gui) && !s.gui.e.warmup ==>
          StoreBefore(s.store, s.gui.e.pts) && Last(s.pushed) + PTS_EPSILON < s.gui.e.pts)
    && (s.gui.Sweeping? && !s.gui.e.warmup ==> Last(s.pushed) <= s.gui.e.pts)
    && (s.gui.Deciding? && !s.gui.busy ==> s.renderer.Outside?)
    && (s.gui.Promoting? ==>
          && s.renderer.Outside?
          && P.Admissible(s.gui.promoted)
          && (s.gui.promoted.warmup ==> s.store == [])
          && (!s.gui.promoted.warmup ==>
                && s.gui.promoted.pts in s.delivered
                && Last(s.pushed) + PTS_EPSILON < s.gui.promoted.pts
                && StoreAfter(s.store, s.gui.promoted.pts)
                && (!s.gui.e.warmup ==> s.gui.promoted.pts + PTS_EPSILON < s.gui.e.pts)))
  }

  ghost predicate RenderOrdered(s: State, c: Config) {
    && (s.submitting ==> !s.renderer.Outside? && !s.renderer.Ready?)
    && (s.renderer.Taken? || s.renderer.Deferred? ==>
          && P.Admissible(s.renderer.e)
          && (!s.renderer.e.warmup && s.renderer.Taken? ==> SubmissionOrdered(s, s.renderer.e, c))
          && (!s.renderer.e.warmup && s.renderer.Deferred? ==>
                && s.renderer.e.pts in s.delivered && HeldAfter(s, s.renderer.e)
                && Last(s.pushed) + PTS_EPSILON < s.renderer.e.pts
                && |s.queue| >= c.depthLimit
                && 0.0 <= s.origin <= s.renderer.e.pts + PTS_EPSILON))
  }

  /** The frame in the GUI thread's hands, if it can still be pushed, is later. */
  predicate HeldAfter(s: State, e: Entry) {
    Unpushed(s.gui) && !s.gui.e.warmup ==> e.pts + PTS_EPSILON < s.gui.e.pts
  }

  /** The frame lies before every frame that can still be pushed after it. */
  ghost predicate NothingOvertakes(s: State, e: Entry, c: Config) {
    HeldAfter(s, e) && WaitAfter(s.store, e.pts, false, s.gui, c)
  }

  /** The frame would be dropped, roll the timeline back, or find the queue full. */
  predicate Stale(s: State, e: Entry) {
    s.newest >= 0.0 && e.pts <= s.newest + PTS_EPSILON
  }

  predicate RollsBack(s: State, e: Entry) {
    s.origin < 0.0 || e.pts + PTS_EPSILON < s.origin
  }

  predicate Full(s: State, e: Entry, c: Config) {
    |s.queue| >= c.depthLimit && !RollsBack(s, e)
  }

  /** A frame that was delivered may be submitted: it is stale; or the one in the GUI
      thread's hands is later, and so is every frame that can still be promoted, unless
      the submitted frame itself goes back to wait. */
  ghost predicate SubmissionOrdered(s: State, e: Entry, c: Config) {
    e.pts in s.delivered &&
    (Stale(s, e) ||
     (HeldAfter(s, e) && (Full(s, e, c) || WaitAfter(s.store, e.pts, RollsBack(s, e), s.gui, c))))
  }

  ghost predicate Ordered(s: State, c: Config) {
    LogsRise(s) && StoreOrdered(s, c) && GuiOrdered(s) && RenderOrdered(s, c)
  }

  /** The store when a replayed frame is taken up. */
  function Pruned(s: State, e: Entry, prune: bool): State {
    s.(store := if prune then P.Prune(s.store, e.pts).contents else s.store)
  }

  /** The events of a run without session changes, in which every delivered timestamp
      exceeds the previous, a replayed frame may be submitted, and a kept frame lies after
      what was pushed and before what can still be. */
  ghost predicate Calm(s: State, ev: Event, c: Config) {
    match ev
    case Deliver(e) => s.delivered != [] ==> Last(s.delivered) + PTS_EPSILON < e.pts
    case DeliverToStore(e) => s.delivered != [] ==> Last(s.delivered) + PTS_EPSILON < e.pts
    case Replay(e, prune) => SubmissionOrdered(Pruned(s, e, prune), e, c)
    case EnqueueKept(e) =>
      e.pts in s.delivered && Last(s.pushed) + PTS_EPSILON < e.pts && NothingOvertakes(s, e, c)
    case SessionChange => false
    case _ => true
  }

  ghost predicate CalmRun(s: State, evs: seq<Event>, c: Config) {
    evs == [] ||
    (CalmRun(s, evs[..|evs| - 1], c) &&
     var t := Run(s, evs[..|evs| - 1], c); Enabled(t, evs[|evs| - 1], c) && Calm(t, evs[|evs| - 1], c))
  }

  /** Right after a queue reset, with what the pending store may still hold. */
  ghost predicate Fresh(s: State, c: Config) {
    s.queue == [] && s.pushed == [] && s.newest == -1.0 && s.gui.Idle? &&
    (s.renderer.Outside? || s.renderer.Ready?) && !s.submitting &&
    P.Disciplined(s.store) && |s.store| <= P.Capacity(c.overflowEnabled) &&
    Rising(s.delivered) && (forall x :: x in s.delivered ==> x >= 0.0) &&
    StoreDelivered(s.store, s.delivered)
  }

  lemma FreshOrdered(s: State, c: Config)
    requires Fresh(s, c)
    ensures Ordered(s, c)
  {
    forall i | 0 <= i < |s.store| ensures s.store[i].warmup || Last(s.pushed) + PTS_EPSILON < s.store[i].pts {
      assert P.Admissible(s.store[i]);
    }
  }

  lemma FlagOrdered(s: State, submitting: bool, c: Config)
    requires Ordered(s, c) && s.gui.Checked?
    ensures Ordered(s.(gui := Flagged(s.gui.e, submitting)), c)
  {
    var t := s.(gui := Flagged(s.gui.e, submitting));
    assert LogsRise(t) && StoreOrdered(t, c) && GuiOrdered(t);
  }

  lemma ScheduleOrdered(s: State, busy: bool, c: Config)
    requires Ordered(s, c) && s.gui.Flagged? && (busy || s.renderer.Outside?)
    ensures Ordered(s.(gui := Deciding(s.gui.e, s.gui.submitting, busy)), c)
  {
    var t := s.(gui := Deciding(s.gui.e, s.gui.submitting, busy));
    assert LogsRise(t) && StoreOrdered(t, c) && GuiOrdered(t);
  }

  lemma WarmupOrdered(s: State, e: Entry, c: Config)
    requires Ordered(s, c) && s.gui.Idle? && e.warmup && e.pts == 0.0
    ensures Ordered(s.(gui := Checked(e)), c)
  {
    var t := s.(gui := Checked(e));
    assert LogsRise(t) && StoreOrdered(t, c) && GuiOrdered(t);
  }

  lemma RenderingOrdered(s: State, ev: Event, c: Config)
    requires Ordered(s, c) && Enabled(s, ev, c)
    requires ev.StartRender? || ev.EndSubmission? || ev.Consume? || ev.FinishRender?
    ensures Ordered(Next(s, ev, c), c)
  {
  }

  lemma PromoteOrdered(s: State, c: Config)
    requires Ordered(s, c) && s.gui.Deciding? && !s.gui.busy && s.store != []
    ensures Ordered(s.(store := s.store[1..], gui := Promoting(s.gui.e, s.store[0])), c)
  {
    P.TailDisciplined(s.store, 1);
    var p := s.store[0];
    assert P.Admissible(p);
    forall i | 0 <= i < |s.store[1..]| ensures p.pts + PTS_EPSILON < s.store[1..][i].pts {
      assert s.store[1..][i] == s.store[i + 1];
    }
  }

  lemma DirectPushOrdered(s: State, newest: real, c: Config)
    requires Ordered(s, c) && s.gui.Deciding? && s.store == [] && |s.queue| < c.depthLimit
    requires newest >= s.newest && (!s.gui.e.warmup ==> newest >= s.gui.e.pts)
    ensures Ordered(Push(s, s.gui.e).(newest := newest, gui := Sweeping(s.gui.e)), c)
  {
    if !s.gui.e.warmup {
      AppendRises(s.pushed, s.gui.e.pts);
    }
  }

  lemma KeptBackOrdered(s: State, c: Config)
    requires Ordered(s, c) && s.gui.Deciding?
    ensures Ordered(s.(gui := Storing(s.gui.e)), c)
  {
    var t := s.(gui := Storing(s.gui.e));
    assert LogsRise(t) && StoreOrdered(t, c) && GuiOrdered(t);
  }

  lemma DecideOrdered(s: State, c: Config)
    requires ValidConfig(c) && Ordered(s, c) && s.gui.Deciding?
    ensures Ordered(Next(s, Decide, c), c)
  {
    var g := s.gui;
    var t := Next(s, Decide, c);
    var pendingExists := s.store != [] || g.submitting;
    if !g.busy && |s.queue| < c.depthLimit && s.store != [] {
      PromoteOrdered(s, c);
      assert t == s.(store := s.store[1..], gui := Promoting(g.e, s.store[0]));
    } else if !pendingExists && |s.queue| < c.depthLimit {
      var newest := if g.e.warmup then s.newest else Max(s.newest, g.e.pts);
      DirectPushOrdered(s, newest, c);
      assert t == Push(s, g.e).(newest := newest, gui := Sweeping(g.e));
    } else {
      KeptBackOrdered(s, c);
      assert t == s.(gui := Storing(g.e));
    }
  }

  lemma PushPromotedOrdered(s: State, c: Config)
    requires ValidConfig(c) && Ordered(s, c) && s.gui.Promoting?
    ensures Ordered(Next(s, PushPromoted, c), c)
  {
  }

  /** After the sweep no frame is leaving. */
  lemma SweptWaits(store: seq<Entry>, g: Gui, t: real, rolls: bool, c: Config)
    requires P.Disciplined(store) && g.Sweeping? && WaitAfter(store, t, rolls, g, c)
    ensures WaitAfter(store[P.RunUpTo(store, g.e.pts)..], t, rolls, Idle, c)
  {
    var n := P.RunUpTo(store, g.e.pts);
    P.RunUpToIsFilter(store, g.e.pts);
    TailLeaves(store, n, g, t, rolls, c);
  }

  lemma TailLeaves(store: seq<Entry>, n: nat, g: Gui, t: real, rolls: bool, c: Config)
    requires n <= |store| && g.Sweeping? && WaitAfter(store, t, rolls, g, c)
    requires forall i :: n <= i < |store| ==> store[i].pts > g.e.pts + PTS_EPSILON
    ensures WaitAfter(store[n..], t, rolls, Idle, c)
  {
    assert forall i :: 0 <= i < |store| - n ==> store[n..][i] == store[n + i];
  }

  lemma SubmissionSwept(s: State, e: Entry, c: Config)
    requires P.Disciplined(s.store) && s.gui.Sweeping? && SubmissionOrdered(s, e, c)
    ensures SubmissionOrdered(Next(s, Sweep, c), e, c)
  {
    if WaitAfter(s.store, e.pts, RollsBack(s, e), s.gui, c) {
      SweptWaits(s.store, s.gui, e.pts, RollsBack(s, e), c);
    }
  }

  lemma SweepOrdered(s: State, c: Config)
    requires ValidConfig(c) && Ordered(s, c) && s.gui.Sweeping?
    ensures Ordered(Next(s, Sweep, c), c)
  {
    var n := P.RunUpTo(s.store, s.gui.e.pts);
    P.TailDisciplined(s.store, n);
    TailKeeps(s.store, n);
    SweptWaits(s.store, s.gui, Last(s.pushed), false, c);
    if s.renderer.Taken? && !s.renderer.e.warmup {
      SubmissionSwept(s, s.renderer.e, c);
    }
    var t := Next(s, Sweep, c);
    assert LogsRise(t) && StoreOrdered(t, c) && GuiOrdered(t);
  }

  lemma TakeOrdered(s: State, c: Config)
    requires ValidConfig(c) && Ordered(s, c) && s.renderer.Ready?
    ensures Ordered(Next(s, Take, c), c)
  {
    if s.store != [] { P.TailDisciplined(s.store, 1); }
  }

  /** A rollback to a frame later than everything that waits prunes it all. */
  lemma RolledAway(store: seq<Entry>, pts: real)
    requires P.Disciplined(store) && StoreBefore(store, pts) && pts >= 0.0
    ensures P.Prune(store, pts).contents == []
  {
    forall i | 0 <= i < |store| ensures P.StaleAt(store[i], pts) {
      assert P.Admissible(store[i]);
    }
    AllStale(store, pts);
    P.PruneIsFilter(store, pts);
  }

  lemma {:induction false} AllStale(store: seq<Entry>, pts: real)
    requires forall i :: 0 <= i < |store| ==> P.StaleAt(store[i], pts)
    ensures P.StaleRun(store, pts) == |store|
  {
    if store != [] {
      AllStale(store[1..], pts);
    }
  }

  lemma RolledOrdered(s: State, pts: real, c: Config)
    requires Ordered(s, c) && s.gui.Idle? && pts >= 0.0 && StoreBefore(s.store, pts)
    requires s.renderer.Deferred? && !s.renderer.e.warmup ==> Rollback(s, pts) == s
    ensures Ordered(Rollback(s, pts), c)
  {
    var r := Rollback(s, pts);
    if r != s {
      RolledAway(s.store, pts);
      assert r.store == [] && r.pushed == [];
      assert LogsRise(r) && StoreOrdered(r, c) && GuiOrdered(r);
    }
  }

  lemma DeliverOrdered(s: State, e: Entry, c: Config)
    requires ValidConfig(c) && Ordered(s, c) && Enabled(s, Deliver(e), c) && Calm(s, Deliver(e), c)
    ensures Ordered(Next(s, Deliver(e), c), c)
  {
    DeliveredBefore(s, e, c);
    RolledOrdered(s, e.pts, c);
    var r := Rollback(s, e.pts);
    RollbackKeepsOrder(s, e.pts, c);
    Delivered(r, e, c);
  }

  lemma Delivered(r: State, e: Entry, c: Config)
    requires Ordered(r, c) && r.gui.Idle? && Real(e)
    requires StoreBefore(r.store, e.pts) && Last(r.pushed) + PTS_EPSILON < e.pts
    requires forall x :: x in r.delivered ==> x + PTS_EPSILON < e.pts
    ensures Ordered(r.(gui := Checked(e), delivered := r.delivered + [e.pts]), c)
  {
    if r.delivered != [] {
      assert Last(r.delivered) in r.delivered;
    }
    AppendRises(r.delivered, e.pts);
  }

  lemma AppendRises(p: seq<real>, x: real)
    requires Rising(p) && (p != [] ==> Last(p) + PTS_EPSILON < x)
    ensures Rising(p + [x])
  {
    var q := p + [x];
    forall i, j | 0 <= i < j < |q| ensures q[i] + PTS_EPSILON < q[j] {
      if j == |p| && i < |p| - 1 {
        assert p[i] + PTS_EPSILON < p[|p| - 1];
      }
    }
  }

  lemma DeliveredBefore(s: State, e: Entry, c: Config)
    requires StoreOrdered(s, c) && LogsRise(s) && (s.delivered != [] ==> Last(s.delivered) + PTS_EPSILON < e.pts)
    requires e.pts >= 0.0
    ensures StoreBefore(s.store, e.pts) && Last(s.pushed) + PTS_EPSILON < e.pts
    ensures forall x :: x in s.delivered ==> x + PTS_EPSILON < e.pts
  {
    forall x | x in s.delivered ensures x + PTS_EPSILON < e.pts {
      var i :| 0 <= i < |s.delivered| && s.delivered[i] == x;
      assert i < |s.delivered| - 1 ==> x + PTS_EPSILON < Last(s.delivered);
    }
    if s.pushed != [] {
      assert Last(s.pushed) in s.pushed;
    }
  }

  /** What a tail of the store inherits. */
  lemma TailKeeps(store: seq<Entry>, n: nat)
    requires n <= |store|
    ensures forall x, rolls, g, c :: WaitAfter(store, x, rolls, g, c) ==> WaitAfter(store[n..], x, rolls, g, c)
    ensures forall x :: StoreAfter(store, x) ==> StoreAfter(store[n..], x)
    ensures forall x :: StoreBefore(store, x) ==> StoreBefore(store[n..], x)
    ensures forall d :: StoreDelivered(store, d) ==> StoreDelivered(store[n..], d)
  {
    assert forall i :: 0 <= i < |store| - n ==> store[n..][i] == store[n + i];
  }

  /** A rollback leaves the state alone, or an empty queue and a tail of the store. */
  lemma RollbackKeepsOrder(s: State, pts: real, c: Config)
    requires StoreOrdered(s, c) && LogsRise(s) && pts >= 0.0
    ensures var t := Rollback(s, pts);
            && LogsRise(t) && StoreOrdered(t, c)
            && (t == s || (t.pushed == [] && t.queue == []))
            && (forall x :: WaitAfter(s.store, x, false, s.gui, c) ==> WaitAfter(t.store, x, false, s.gui, c))
            && (forall x :: StoreAfter(s.store, x) ==> StoreAfter(t.store, x))
            && (forall x :: StoreBefore(s.store, x) ==> StoreBefore(t.store, x))
  {
    P.PruneIsFilter(s.store, pts);
    TailKeeps(s.store, P.StaleRun(s.store, pts));
    AfterNothing(Rollback(s, pts).store);
  }

  lemma PrunedWaits(store: seq<Entry>, pts: real, g: Gui, c: Config)
    requires P.Disciplined(store) && pts >= 0.0
    ensures WaitAfter(store, pts, true, g, c) ==> WaitAfter(P.Prune(store, pts).contents, pts, false, g, c)
  {
    P.PruneIsFilter(store, pts);
    if WaitAfter(store, pts, true, g, c) {
      FreshWaits(store, P.StaleRun(store, pts), pts, g, c);
    }
  }

  lemma FreshWaits(store: seq<Entry>, n: nat, pts: real, g: Gui, c: Config)
    requires n <= |store| && WaitAfter(store, pts, true, g, c) && P.NoneStale(store[n..], pts)
    ensures WaitAfter(store[n..], pts, false, g, c)
  {
    var r := store[n..];
    forall i | 0 <= i < |r| ensures r[i].warmup || pts + PTS_EPSILON < r[i].pts || Leaving(g, r[i], c) {
      assert r[i] == store[n + i] && !P.StaleAt(r[i], pts);
    }
  }

  lemma AfterNothing(store: seq<Entry>)
    requires P.Disciplined(store)
    ensures StoreAfter(store, Last([]))
  {
    assert forall i :: 0 <= i < |store| ==> P.Admissible(store[i]);
  }

  /** A store leaves waiting frames where they were, and adds at most the new one. */
  lemma {:induction false} InsertMembers(over: seq<Entry>, e: Entry)
    ensures forall x :: x in P.InsertByPts(over, e) ==> x in over || x == e
  {
    if over != [] && over[0].pts <= e.pts + PTS_EPSILON {
      InsertMembers(over[1..], e);
    }
  }

  lemma StoreMembers(store: seq<Entry>, e: Entry, overflowEnabled: bool)
    ensures forall x :: x in P.Store(store, e, overflowEnabled).contents ==> x in store || x == e
  {
    if store != [] {
      var kept := if overflowEnabled then store else store[..1];
      InsertMembers(kept[1..], e);
      if |kept| > 1 {
        InsertMembers(kept[2..], e);
      }
    }
  }

  lemma MembersWait(store: seq<Entry>, r: seq<Entry>, e: Entry, t: real, rolls: bool, g: Gui, c: Config)
    requires (forall x :: x in r ==> x in store || x == e) && WaitAfter(store, t, rolls, g, c)
    requires e.warmup || t + PTS_EPSILON < e.pts
    ensures WaitAfter(r, t, rolls, g, c)
  {
    assert forall i :: 0 <= i < |r| ==> r[i] in r;
  }

  lemma MembersBefore(store: seq<Entry>, r: seq<Entry>, e: Entry, t: real)
    requires (forall x :: x in r ==> x in store || x == e) && StoreBefore(store, t)
    requires e.warmup || e.pts + PTS_EPSILON < t
    ensures StoreBefore(r, t)
  {
    forall i | 0 <= i < |r| ensures r[i].warmup || r[i].pts + PTS_EPSILON < t {
      assert r[i] in r;
    }
  }

  lemma MembersDelivered(store: seq<Entry>, r: seq<Entry>, e: Entry, delivered: seq<real>)
    requires (forall x :: x in r ==> x in store || x == e) && StoreDelivered(store, delivered)
    requires e.warmup || e.pts in delivered
    ensures StoreDelivered(r, delivered)
  {
    forall i | 0 <= i < |r| ensures r[i].warmup || r[i].pts in delivered {
      assert r[i] in r;
    }
  }

  /** What stays true of every waiting frame when one is stored. */
  lemma StoredKeeps(store: seq<Entry>, e: Entry, t: real, rolls: bool, g: Gui, delivered: seq<real>, c: Config)
    requires P.Disciplined(store) && P.Admissible(e) && |store| <= P.Capacity(c.overflowEnabled)
    requires StoreDelivered(store, delivered) && (e.warmup || e.pts in delivered)
    ensures var r := P.Store(store, e, c.overflowEnabled).contents;
            && P.Disciplined(r) && |r| <= P.Capacity(c.overflowEnabled) && StoreDelivered(r, delivered)
            && (WaitAfter(store, t, rolls, g, c) && (e.warmup || t + PTS_EPSILON < e.pts) ==>
                  WaitAfter(r, t, rolls, g, c))
            && (StoreBefore(store, t) && (e.warmup || e.pts + PTS_EPSILON < t) ==> StoreBefore(r, t))
  {
    P.StoreKeepsDiscipline(store, e, c.overflowEnabled);
    StoreMembers(store, e, c.overflowEnabled);
    var r := P.Store(store, e, c.overflowEnabled).contents;
    MembersDelivered(store, r, e, delivered);
    if WaitAfter(store, t, rolls, g, c) && (e.warmup || t + PTS_EPSILON < e.pts) {
      MembersWait(store, r, e, t, rolls, g, c);
    }
    if StoreBefore(store, t) && (e.warmup || e.pts + PTS_EPSILON < t) {
      MembersBefore(store, r, e, t);
    }
  }

  /** The frame in the GUI thread's hands is stored: the frames that were leaving are gone. */
  lemma StoreFrameWaits(s: State, t: real, rolls: bool, c: Config)
    requires StoreOrdered(s, c) && GuiOrdered(s) && s.gui.Storing? && WaitAfter(s.store, t, rolls, s.gui, c)
    requires s.gui.e.warmup || t + PTS_EPSILON < s.gui.e.pts
    ensures WaitAfter(P.Store(s.store, s.gui.e, c.overflowEnabled).contents, t, rolls, Idle, c)
  {
    var e := s.gui.e;
    StoredKeeps(s.store, e, t, rolls, Idle, s.delivered, c);
    if !c.overflowEnabled && !e.warmup {
      P.StoreRefines(s.store, e, false);
      assert P.Store(s.store, e, false).contents == [e];
    } else {
      assert WaitAfter(s.store, t, rolls, Idle, c);
    }
  }

  lemma StoreFrameOrdered(s: State, c: Config)
    requires ValidConfig(c) && Ordered(s, c) && s.gui.Storing?
    ensures Ordered(Next(s, StoreFrame, c), c)
  {
    var e := s.gui.e;
    StoredKeeps(s.store, e, 0.0, false, Idle, s.delivered, c);
    StoreFrameWaits(s, Last(s.pushed), false, c);
    if s.renderer.Taken? && !s.renderer.e.warmup && HeldAfter(s, s.renderer.e) {
      var rolls := RollsBack(s, s.renderer.e);
      if WaitAfter(s.store, s.renderer.e.pts, rolls, s.gui, c) {
        StoreFrameWaits(s, s.renderer.e.pts, rolls, c);
      }
    }
  }

  /** A frame that the render thread hands back is stored. */
  lemma StoreDeferredOrdered(s: State, c: Config)
    requires ValidConfig(c) && Ordered(s, c) && s.renderer.Deferred?
    ensures Ordered(Next(s, StoreDeferred, c), c)
  {
    StoredKeeps(s.store, s.renderer.e, Last(s.pushed), false, s.gui, s.delivered, c);
    if Unpushed(s.gui) && !s.gui.e.warmup {
      StoredKeeps(s.store, s.renderer.e, s.gui.e.pts, false, s.gui, s.delivered, c);
    }
  }

  /** A frame that passes the stale check lies after everything pushed; a rollback
      on the way keeps the order. */
  lemma SubmitRolls(s: State, c: Config)
    requires ValidConfig(c) && Ordered(s, c) && s.renderer.Taken? && !s.renderer.e.warmup && !Stale(s, s.renderer.e)
    ensures var e := s.renderer.e;
            var r := Rollback(s, e.pts);
            && LogsRise(r) && StoreOrdered(r, c) && GuiOrdered(r)
            && r.renderer == s.renderer && r.delivered == s.delivered
            && Last(r.pushed) + PTS_EPSILON < e.pts && 0.0 <= r.origin <= e.pts + PTS_EPSILON
            && (r.gui.Sweeping? && !r.gui.e.warmup ==> e.pts <= r.gui.e.pts)
            && HeldAfter(r, e) && (|r.queue| >= c.depthLimit || NothingOvertakes(r, e, c))
  {
    var e := s.renderer.e;
    DeliveredUpTo(s);
    if s.pushed != [] {
      assert Last(s.pushed) in s.pushed;
    }
    RollbackKeepsOrder(s, e.pts, c);
    PrunedWaits(s.store, e.pts, s.gui, c);
  }

  lemma SubmitPushes(r: State, e: Entry, c: Config)
    requires LogsRise(r) && StoreOrdered(r, c) && GuiOrdered(r) && r.renderer.Taken?
    requires !e.warmup && e.pts in r.delivered && Last(r.pushed) + PTS_EPSILON < e.pts && NothingOvertakes(r, e, c)
    requires r.gui.Sweeping? && !r.gui.e.warmup ==> e.pts <= r.gui.e.pts
    ensures Ordered(Push(r, e).(newest := Max(r.newest, e.pts), renderer := Finishing), c)
  {
    AppendRises(r.pushed, e.pts);
  }

  lemma SubmitDefers(r: State, e: Entry, c: Config)
    requires LogsRise(r) && StoreOrdered(r, c) && GuiOrdered(r) && r.renderer.Taken?
    requires P.Admissible(e) && |r.queue| >= c.depthLimit
    requires !e.warmup ==>
               && e.pts in r.delivered && HeldAfter(r, e)
               && Last(r.pushed) + PTS_EPSILON < e.pts && 0.0 <= r.origin <= e.pts + PTS_EPSILON
    ensures Ordered(r.(renderer := Deferred(e)), c)
  {
  }

  lemma SubmitWarmup(s: State, c: Config)
    requires Ordered(s, c) && s.renderer.Taken? && s.renderer.e.warmup
    ensures Ordered(SubmitStep(s, s.renderer.e, c), c)
  {
  }

  lemma SubmitOrdered(s: State, c: Config)
    requires ValidConfig(c) && Ordered(s, c) && s.renderer.Taken?
    ensures Ordered(SubmitStep(s, s.renderer.e, c), c)
  {
    var e := s.renderer.e;
    if e.warmup {
      SubmitWarmup(s, c);
    } else if Stale(s, e) {
      assert Ordered(s.(renderer := Finishing), c);
    } else {
      SubmitRolls(s, c);
      var r := Rollback(s, e.pts);
      if |r.queue| >= c.depthLimit {
        SubmitDefers(r, e, c);
      } else {
        SubmitPushes(r, e, c);
      }
    }
  }

  lemma DeliveredUpTo(s: State)
    requires Rising(s.delivered)
    ensures forall x :: x in s.delivered ==> x <= Last(s.delivered)
  {
    forall x | x in s.delivered ensures x <= Last(s.delivered) {
      var i :| 0 <= i < |s.delivered| && s.delivered[i] == x;
    }
  }

  lemma PrunedOrdered(s: State, e: Entry, prune: bool, c: Config)
    requires LogsRise(s) && StoreOrdered(s, c) && GuiOrdered(s) && e.pts >= 0.0 && !s.gui.Promoting?
    ensures var t := Pruned(s, e, prune); LogsRise(t) && StoreOrdered(t, c) && GuiOrdered(t)
  {
    P.PruneIsFilter(s.store, e.pts);
    TailKeeps(s.store, P.StaleRun(s.store, e.pts));
  }

  lemma ReplayOrdered(s: State, e: Entry, prune: bool, c: Config)
    requires ValidConfig(c) && Ordered(s, c) && Enabled(s, Replay(e, prune), c) && Calm(s, Replay(e, prune), c)
    ensures Ordered(Next(s, Replay(e, prune), c), c)
  {
    PrunedOrdered(s, e, prune, c);
    var t := Next(s, Replay(e, prune), c);
    assert t == Pruned(s, e, prune).(renderer := Taken(e));
    assert RenderOrdered(t, c);
  }

  lemma KeptOrdered(s: State, e: Entry, c: Config)
    requires ValidConfig(c) && Ordered(s, c) && Enabled(s, EnqueueKept(e), c) && Calm(s, EnqueueKept(e), c)
    ensures Ordered(Next(s, EnqueueKept(e), c), c)
  {
    AppendRises(s.pushed, e.pts);
    DeliveredUpTo(s);
  }

  lemma DeliverToStoreOrdered(s: State, e: Entry, c: Config)
    requires ValidConfig(c) && Ordered(s, c) && Enabled(s, DeliverToStore(e), c) && Calm(s, DeliverToStore(e), c)
    ensures Ordered(Next(s, DeliverToStore(e), c), c)
  {
    DeliveredBefore(s, e, c);
    AppendRises(s.delivered, e.pts);
  }

  lemma ResetOrdered(s: State, ev: Event, c: Config)
    requires Ordered(s, c) && s.renderer.Ready? && ev.ResetQueue?
    ensures Ordered(Next(s, ev, c), c)
  {
    AfterNothing(s.store);
  }

  lemma StepOrdered(s: State, ev: Event, c: Config)
    requires ValidConfig(c) && Ordered(s, c) && Enabled(s, ev, c) && Calm(s, ev, c)
    ensures Ordered(Next(s, ev, c), c)
  {
    match ev
    case Deliver(e) => DeliverOrdered(s, e, c);
    case DeliverToStore(e) => DeliverToStoreOrdered(s, e, c);
    case Decide => DecideOrdered(s, c);
    case PushPromoted => PushPromotedOrdered(s, c);
    case StoreFrame => StoreFrameOrdered(s, c);
    case Sweep => SweepOrdered(s, c);
    case Take => TakeOrdered(s, c);
    case Submit => SubmitOrdered(s, c);
    case StoreDeferred => StoreDeferredOrdered(s, c);
    case ResetQueue(_) => ResetOrdered(s, ev, c);
    case Replay(e, prune) => ReplayOrdered(s, e, prune, c);
    case EnqueueKept(e) => KeptOrdered(s, e, c);
    case ReadSubmission(flicker) => FlagOrdered(s, s.submitting || (flicker && Scheduled(s)), c);
    case ReadSchedule(active) => ScheduleOrdered(s, active || Scheduled(s), c);
    case DeliverWarmup(e) => WarmupOrdered(s, e, c);
    case _ => RenderingOrdered(s, ev, c);
  }

  lemma {:induction false} RunOrdered(s: State, evs: seq<Event>, c: Config)
    requires ValidConfig(c) && Ordered(s, c) && CalmRun(s, evs, c)
    ensures Ordered(Run(s, evs, c), c)
  {
    if evs == [] {
    } else {
      RunOrdered(s, evs[..|evs| - 1], c);
      StepOrdered(Run(s, evs[..|evs| - 1], c), evs[|evs| - 1], c);
    }
  }

  /** In every interleaving that delivers rising timestamps, however often the queue is
      reset meanwhile, the timestamps pushed to the display queue since the last reset
      rise by more than the tolerance and are a subsequence of the delivered ones. */
  lemma PushedInOrder(s: State, evs: seq<Event>, c: Config)
    requires ValidConfig(c) && Fresh(s, c) && CalmRun(s, evs, c)
    ensures var t := Run(s, evs, c); Rising(t.pushed) && Subsequence(t.pushed, t.delivered)
  {
    FreshOrdered(s, c);
    RunOrdered(s, evs, c);
    var t := Run(s, evs, c);
    RisingMembersAreSubsequence(t.pushed, t.delivered);
  }

  // ----- from the start of a session, without resets, nothing is pushed in vain -----

  predicate FirstTime(ev: Event) { !ev.ResetQueue? && !ev.Replay? && !ev.EnqueueKept? }

  /** No reset is executed, nothing replayed, and warm-up frames come before the first
      real frame. */
  ghost predicate FirstTimeline(s: State, evs: seq<Event>, c: Config) {
    evs == [] ||
    (FirstTimeline(s, evs[..|evs| - 1], c) && FirstTime(evs[|evs| - 1]) &&
     (evs[|evs| - 1].DeliverWarmup? ==> Run(s, evs[..|evs| - 1], c).delivered == []))
  }

  /** The timeline never starts after a frame that can still be pushed. */
  ghost predicate Anchored(s: State) {
    && !s.lost
    && (s.origin >= 0.0 ==> s.origin in s.delivered)
    && (s.pushed != [] ==> 0.0 <= s.origin <= s.pushed[0] + PTS_EPSILON)
    && (s.pushed == [] && s.origin >= 0.0 ==> StoreFrom(s.store, s.origin))
    && (Unpushed(s.gui) && !s.gui.Storing? && !s.gui.e.warmup ==> 0.0 <= s.origin <= s.gui.e.pts + PTS_EPSILON)
    && (Unpushed(s.gui) && s.gui.e.warmup && !s.gui.Storing? ==> s.delivered == [])
    && (s.gui.Promoting? && s.pushed == [] && !s.gui.promoted.warmup ==>
          0.0 <= s.origin <= s.gui.promoted.pts + PTS_EPSILON)
  }

  lemma FirstIsLeast(p: seq<real>)
    requires Rising(p) && p != []
    ensures p[0] <= Last(p)
  {
  }

  /** Restarting the timeline at a delivered timestamp anchors it. */
  lemma RollbackAnchored(s: State, pts: real, c: Config)
    requires StoreOrdered(s, c) && LogsRise(s) && pts >= 0.0 && !s.lost
    requires s.pushed != [] ==> 0.0 <= s.origin <= s.pushed[0] + PTS_EPSILON && Last(s.pushed) + PTS_EPSILON < pts
    requires s.pushed == [] && s.origin >= 0.0 ==> StoreFrom(s.store, s.origin)
    ensures var t := Rollback(s, pts);
            && !t.lost && t.pushed == s.pushed && 0.0 <= t.origin <= pts + PTS_EPSILON
            && (t.origin == s.origin || t.origin == pts)
            && (s.origin >= 0.0 ==> t.origin <= s.origin)
            && (t.pushed != [] ==> t.origin == s.origin)
            && (t.pushed == [] ==> StoreFrom(t.store, t.origin))
  {
    P.PruneIsFilter(s.store, pts);
    var pruned := P.Prune(s.store, pts).contents;
    assert P.NoneStale(pruned, pts) ==> StoreFrom(pruned, pts);
    if s.pushed != [] {
      FirstIsLeast(s.pushed);
    }
  }

  lemma DeliverAnchored(s: State, e: Entry, c: Config)
    requires ValidConfig(c) && Ordered(s, c) && Anchored(s) && Enabled(s, Deliver(e), c) && Calm(s, Deliver(e), c)
    ensures Anchored(Next(s, Deliver(e), c))
  {
    DeliveredBefore(s, e, c);
    RollbackAnchored(s, e.pts, c);
  }

  lemma PushedAnchored(r: State, e: Entry)
    requires Anchored(r) && !e.warmup && 0.0 <= r.origin <= e.pts + PTS_EPSILON
    ensures Anchored(Push(r, e).(newest := Max(r.newest, e.pts), renderer := Finishing))
    ensures Anchored(r.(renderer := Deferred(e)))
  {
  }

  lemma SubmitAnchored(s: State, c: Config)
    requires ValidConfig(c) && Ordered(s, c) && Anchored(s) && s.renderer.Taken?
    ensures Anchored(SubmitStep(s, s.renderer.e, c))
  {
    var e := s.renderer.e;
    if e.warmup {
    } else if s.newest >= 0.0 && e.pts <= s.newest + PTS_EPSILON {
    } else {
      if s.pushed != [] {
        assert Last(s.pushed) in s.pushed;
      }
      RollbackAnchored(s, e.pts, c);
      var r := Rollback(s, e.pts);
      assert Anchored(r);
      PushedAnchored(r, e);
    }
  }

  lemma StoreAnchored(s: State, e: Entry, overflowEnabled: bool)
    requires P.Disciplined(s.store) && P.Admissible(e) && |s.store| <= P.Capacity(overflowEnabled)
    requires StoreFrom(s.store, s.origin)
    requires !e.warmup ==> s.origin <= e.pts + PTS_EPSILON
    ensures StoreFrom(P.Store(s.store, e, overflowEnabled).contents, s.origin)
  {
    P.StoreRefines(s.store, e, overflowEnabled);
  }

  lemma StoringAnchored(s: State, ev: Event, c: Config)
    requires ValidConfig(c) && Ordered(s, c) && Anchored(s) && Enabled(s, ev, c)
    requires ev.StoreFrame? || ev.StoreDeferred?
    ensures Anchored(Next(s, ev, c))
  {
    if s.pushed == [] && s.origin >= 0.0 {
      DeliveredUpTo(s);
      StoreAnchored(s, if ev.StoreFrame? then s.gui.e else s.renderer.e, c.overflowEnabled);
    }
  }

  lemma DecisionAnchored(s: State, ev: Event, c: Config)
    requires ValidConfig(c) && Ordered(s, c) && Anchored(s) && Enabled(s, ev, c) && (ev.Decide? || ev.PushPromoted?)
    ensures Anchored(Next(s, ev, c))
  {
  }

  lemma OthersAnchored(s: State, ev: Event, c: Config)
    requires Anchored(s) && Enabled(s, ev, c) && Calm(s, ev, c)
    requires FirstTime(ev) && (ev.DeliverWarmup? ==> s.delivered == [])
    requires !ev.Deliver? && !ev.Submit? && !ev.StoreFrame? && !ev.StoreDeferred? && !ev.Decide? && !ev.PushPromoted?
    ensures Anchored(Next(s, ev, c))
  {
  }

  lemma StepAnchored(s: State, ev: Event, c: Config)
    requires ValidConfig(c) && Ordered(s, c) && Anchored(s) && Enabled(s, ev, c) && Calm(s, ev, c)
    requires FirstTime(ev) && (ev.DeliverWarmup? ==> s.delivered == [])
    ensures Anchored(Next(s, ev, c))
  {
    match ev
    case Deliver(e) => DeliverAnchored(s, e, c);
    case Submit => SubmitAnchored(s, c);
    case StoreFrame => StoringAnchored(s, ev, c);
    case StoreDeferred => StoringAnchored(s, ev, c);
    case Decide => DecisionAnchored(s, ev, c);
    case PushPromoted => DecisionAnchored(s, ev, c);
    case _ => OthersAnchored(s, ev, c);
  }

  lemma {:induction false} RunAnchored(evs: seq<Event>, c: Config)
    requires ValidConfig(c) && CalmRun(START, evs, c) && FirstTimeline(START, evs, c)
    ensures Anchored(Run(START, evs, c))
  {
    if evs == [] {
    } else {
      RunAnchored(evs[..|evs| - 1], c);
      FreshOrdered(START, c);
      RunOrdered(START, evs[..|evs| - 1], c);
      StepAnchored(Run(START, evs[..|evs| - 1], c), evs[|evs| - 1], c);
    }
  }

  /** From the start of a session no rollback discards a real frame that was
      pushed, so the order holds over the whole run. */
  lemma SessionInOrder(evs: seq<Event>, c: Config)
    requires ValidConfig(c) && CalmRun(START, evs, c) && FirstTimeline(START, evs, c)
    ensures var t := Run(START, evs, c); !t.lost && Rising(t.pushed) && Subsequence(t.pushed, t.delivered)
  {
    RunAnchored(evs, c);
    PushedInOrder(START, evs, c);
  }
}
