/** The sliding-window limiter against a plain list of what it admitted, in terms of the constructor's arguments. */
module SlidingWindowRule {
  import opened Arithmetic
  import opened SlidingWindow
  import opened SlidingWindowBounds

  // ------------------------------------------------ the reference

  datatype Grant = Grant(time: int, amount: int)

  /** A tenth of the window, or a millisecond for a window too short for that. */
  function Tenth(window: int): int { if window >= 10 then window / 10 else 1_000_000 }

  /** How many of them the limit spans. */
  function Span(window: int): int { if window >= 10 then 10 else 1 }

  /** The number of the tenth that contains `time`, from the limiter's making at `t0`. */
  function TenthAt(window: int, t0: int, time: int): int { (time - t0) / Tenth(window) }

  /** What was granted in the tenth of `now` and the ones before it that the limit spans. */
  function Recent(window: int, t0: int, past: seq<Grant>, now: int): int {
    if past == [] then 0
    else
      var g := past[|past| - 1];
      Recent(window, t0, past[..|past| - 1], now)
      + if TenthAt(window, t0, g.time) > TenthAt(window, t0, now) - Span(window) then g.amount else 0
  }

  /** The reference limiter: it keeps everything it granted and adds up what is recent. */
  function Past(limit: int, window: int, t0: int, calls: seq<Call>): seq<Grant> {
    if calls == [] then []
    else
      var past, c := Past(limit, window, t0, calls[..|calls| - 1]), calls[|calls| - 1];
      if c.Allow? && Recent(window, t0, past, c.now) + c.n <= (if limit >= 1 then limit else 1)
      then past + [Grant(c.now, c.n)] else past
  }

  /** The clock does not go back, and no call is more than the span after the one before it. */
  predicate Steady(window: int, t0: int, calls: seq<Call>) {
    forall i :: 0 <= i < |calls| ==>
      && Before(t0, calls, i) <= calls[i].now
      && TenthAt(window, t0, calls[i].now) <= TenthAt(window, t0, Before(t0, calls, i)) + Span(window)
  }

  // ------------------------------------------------ the refinement

  lemma TenthIsWindow(window: int, t0: int, time: int)
    requires t0 <= time
    ensures TenthAt(window, t0, time) == WindowAt(t0, Tenth(window), time)
  {
    FitsIs(time - t0, Tenth(window));
  }

  lemma SteadyIsSynced(limit: int, window: int, t0: int, calls: seq<Call>)
    requires Steady(window, t0, calls)
    ensures Synced(New(limit, window, t0), t0, calls)
  {
    var r := New(limit, window, t0);
    NewIs(limit, window, t0);
    forall i | 0 <= i < |calls|
      ensures WindowAt(t0, r.size, calls[i].now) <= WindowAt(t0, r.size, Before(t0, calls, i)) + r.windows
    {
      NotEarlier(t0, calls, i);
      TenthIsWindow(window, t0, calls[i].now);
      TenthIsWindow(window, t0, Before(t0, calls, i));
    }
  }

  /** The history and the plain list are the same. */
  predicate Same(h: seq<Event>, past: seq<Grant>) {
    |h| == |past| && forall i :: 0 <= i < |h| ==> h[i].time == past[i].time && h[i].amount == past[i].amount
  }

  lemma {:induction false} FiledIsRecent(window: int, t0: int, h: seq<Event>, past: seq<Grant>, now: int)
    requires Same(h, past) && t0 <= now
    requires forall i :: 0 <= i < |h| ==>
      t0 <= h[i].time <= now && h[i].window == WindowAt(t0, Tenth(window), h[i].time)
    ensures
      var w := WindowAt(t0, Tenth(window), now);
      Filed(h, w - Span(window) + 1, w) == Recent(window, t0, past, now)
    decreases |h|
  {
    if h != [] {
      var n := |h| - 1;
      FiledIsRecent(window, t0, h[..n], past[..n], now);
      TenthIsWindow(window, t0, h[n].time);
      TenthIsWindow(window, t0, now);
      FitsOrder(h[n].time - t0, now - t0, Tenth(window));
    }
  }

  /** What is known of the limiter at the end of a synced run whose last clock reading was `last`. */
  predicate Tracks(t: Track, window: int, t0: int, last: int) {
    && RingForm(t.ring, t0, t.m, t.hist) && t.ring.size == Tenth(window) && t.ring.windows == Span(window)
    && t0 <= last && t.m == WindowAt(t0, Tenth(window), last)
    && forall i :: 0 <= i < |t.hist| ==>
         t0 <= t.hist[i].time <= last && t.hist[i].window == WindowAt(t0, Tenth(window), t.hist[i].time)
  }

  lemma RunTracks(limit: int, window: int, t0: int, calls: seq<Call>)
    requires Synced(New(limit, window, t0), t0, calls)
    ensures Tracks(Run(New(limit, window, t0), calls), window, t0, LastTime(t0, calls))
  {
    NewIs(limit, window, t0);
    SyncedRun(limit, window, t0, calls);
    RunRing(limit, window, t0, calls);
    HistoryTimes(New(limit, window, t0), t0, calls);
  }

  /** The total after advance is the recent part of the plain list. */
  lemma TrackTotal(t: Track, window: int, t0: int, last: int, past: seq<Grant>, now: int)
    requires Tracks(t, window, t0, last) && Same(t.hist, past) && last <= now
    requires WindowAt(t0, Tenth(window), now) <= t.m + Span(window)
    ensures TotalCount(Advance(t.ring, now), now) == Recent(window, t0, past, now)
  {
    SyncedStep(t, t0, last, Count(now));
    TotalIsSlotSum(t.ring, t0, t.m, t.hist, now);
    AdvanceKeepsRing(t.ring, t0, t.m, t.hist, now);
    FiledIsRecent(window, t0, t.hist, past, now);
  }

  lemma TotalIsRecent(limit: int, window: int, t0: int, calls: seq<Call>, past: seq<Grant>, now: int)
    requires Steady(window, t0, calls + [Count(now)]) && Same(Run(New(limit, window, t0), calls).hist, past)
    ensures
      var r := Run(New(limit, window, t0), calls).ring;
      TotalCount(Advance(r, now), now) == Recent(window, t0, past, now)
  {
    var all, last := calls + [Count(now)], LastTime(t0, calls);
    assert all[..|calls|] == calls && Before(t0, all, |calls|) == last && all[|calls|].now == now;
    SteadyIsSynced(limit, window, t0, all);
    SyncedFront(New(limit, window, t0), t0, all);
    NewIs(limit, window, t0);
    RunTracks(limit, window, t0, calls);
    TrackTotal(Run(New(limit, window, t0), calls), window, t0, last, past, now);
  }

  lemma SteadySnoc(window: int, t0: int, front: seq<Call>, c: Call)
    requires Steady(window, t0, front + [c])
    ensures Steady(window, t0, front) && Steady(window, t0, front + [Count(c.now)])
  {
    var all, probe := front + [c], front + [Count(c.now)];
    forall i | 0 <= i < |all|
      ensures probe[i].now == all[i].now && Before(t0, probe, i) == Before(t0, all, i)
      ensures i < |front| ==> front[i] == all[i] && Before(t0, front, i) == Before(t0, all, i)
    {
    }
  }

  lemma StepSame(t: Track, c: Call, past: seq<Grant>, recent: int)
    requires Shape(t.ring) && Same(t.hist, past) && TotalCount(Advance(t.ring, c.now), c.now) == recent
    ensures Same(Step(t, c).hist, if c.Allow? && recent + c.n <= t.ring.limit then past + [Grant(c.now, c.n)] else past)
  {
  }

  /** On every steady schedule the ring of counters admits exactly what the plain list admits. */
  lemma {:induction false} AdmitsLikeAList(limit: int, window: int, t0: int, calls: seq<Call>)
    requires Steady(window, t0, calls)
    ensures Same(Run(New(limit, window, t0), calls).hist, Past(limit, window, t0, calls))
    decreases |calls|
  {
    if calls != [] {
      var n := |calls| - 1;
      var front, c := calls[..n], calls[n];
      assert calls == front + [c];
      SteadySnoc(window, t0, front, c);
      AdmitsLikeAList(limit, window, t0, front);
      var past := Past(limit, window, t0, front);
      TotalIsRecent(limit, window, t0, front, past, c.now);
      NewIs(limit, window, t0);
      RunLast(New(limit, window, t0), calls);
      StepSame(Run(New(limit, window, t0), front), c, past, Recent(window, t0, past, c.now));
    }
  }

  /** What Count answers on a steady schedule. */
  lemma CountsLikeAList(limit: int, window: int, t0: int, calls: seq<Call>, now: int)
    requires Steady(window, t0, calls + [Count(now)])
    ensures
      var r := Run(New(limit, window, t0), calls).ring;
      TotalCount(Advance(r, now), now) == Recent(window, t0, Past(limit, window, t0, calls), now)
  {
    SteadySnoc(window, t0, calls, Count(now));
    AdmitsLikeAList(limit, window, t0, calls);
    TotalIsRecent(limit, window, t0, calls, Past(limit, window, t0, calls), now);
  }
}
