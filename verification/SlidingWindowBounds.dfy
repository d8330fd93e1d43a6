/** Whole runs of the sliding-window limiter: the ring form, the slot bound and the rate bound. */
module SlidingWindowBounds {
  import opened Arithmetic
  import opened SlidingWindow

  // ------------------------------------------------ runs

  datatype Call = Allow(now: int, n: int) | Count(now: int)

  /** An admitted amount and the number of the window it was filed under. */
  datatype Event = Event(time: int, amount: int, window: int)

  /** A limiter with its history: `m` counts all rotation steps so far. */
  datatype Track = Track(ring: Ring, m: nat, hist: seq<Event>)

  function Step(t: Track, c: Call): (t': Track)
    requires Shape(t.ring)
    ensures Shape(t'.ring) && t'.ring.windows == t.ring.windows
    ensures t'.ring.size == t.ring.size && t'.ring.limit == t.ring.limit
  {
    var m := t.m + Steps(t.ring, c.now);
    match c
    case Count(now) => Track(Advance(t.ring, now), m, t.hist)
    case Allow(now, n) =>
      Track(AllowN(t.ring, now, n), m,
            if Admits(t.ring, now, n) then t.hist + [Event(now, n, m)] else t.hist)
  }

  function Run(r: Ring, calls: seq<Call>): (t: Track)
    requires Shape(r)
    ensures Shape(t.ring) && t.ring.windows == r.windows && t.ring.size == r.size && t.ring.limit == r.limit
    decreases |calls|, 1
  {
    if calls == [] then Track(r, 0, []) else LastStep(r, calls)
  }

  // The step is two calls away from Run: a proof about runs meets it only where it asks for it with RunLast.

  /** The track after the last call. */
  function LastStep(r: Ring, calls: seq<Call>): (t: Track)
    requires Shape(r) && calls != []
    ensures Shape(t.ring) && t.ring.windows == r.windows && t.ring.size == r.size && t.ring.limit == r.limit
    decreases |calls|, 0
  {
    StepAfter(r, calls[..|calls| - 1], calls[|calls| - 1])
  }

  function StepAfter(r: Ring, front: seq<Call>, c: Call): (t: Track)
    requires Shape(r)
    ensures Shape(t.ring) && t.ring.windows == r.windows && t.ring.size == r.size && t.ring.limit == r.limit
    decreases |front|, 2
  {
    Step(Run(r, front), c)
  }

  lemma RunLast(r: Ring, calls: seq<Call>)
    requires Shape(r) && calls != []
    ensures Run(r, calls) == Step(Run(r, calls[..|calls| - 1]), calls[|calls| - 1])
  {
    assert Run(r, calls) == LastStep(r, calls) == StepAfter(r, calls[..|calls| - 1], calls[|calls| - 1]);
  }

  // ------------------------------------------------ sums over the history

  /** The amounts filed under windows lo..hi. */
  function Filed(h: seq<Event>, lo: int, hi: int): int {
    if h == [] then 0
    else
      var e := h[|h| - 1];
      Filed(h[..|h| - 1], lo, hi) + (if lo <= e.window <= hi then e.amount else 0)
  }

  /** The amounts admitted at times a..b. */
  function Within(h: seq<Event>, a: int, b: int): int {
    if h == [] then 0
    else
      var e := h[|h| - 1];
      Within(h[..|h| - 1], a, b) + (if a <= e.time <= b then e.amount else 0)
  }

  predicate NonNegative(h: seq<Event>) {
    forall i :: 0 <= i < |h| ==> h[i].amount >= 0
  }

  predicate NoneAfter(h: seq<Event>, m: int) {
    forall i :: 0 <= i < |h| ==> h[i].window <= m
  }

  lemma {:induction false} FiledSplit(h: seq<Event>, lo: int, mid: int, hi: int)
    requires lo <= mid + 1 && mid <= hi
    ensures Filed(h, lo, hi) == Filed(h, lo, mid) + Filed(h, mid + 1, hi)
  {
    if h != [] { FiledSplit(h[..|h| - 1], lo, mid, hi); }
  }

  lemma {:induction false} FiledLater(h: seq<Event>, m: int, lo: int, hi: int)
    requires NoneAfter(h, m) && m < lo
    ensures Filed(h, lo, hi) == 0
  {
    if h != [] { FiledLater(h[..|h| - 1], m, lo, hi); }
  }

  lemma {:induction false} FiledNonNegative(h: seq<Event>, lo: int, hi: int)
    requires NonNegative(h)
    ensures Filed(h, lo, hi) >= 0
  {
    if h != [] { FiledNonNegative(h[..|h| - 1], lo, hi); }
  }

  lemma {:induction false} WithinAtMostFiled(h: seq<Event>, a: int, b: int, lo: int, hi: int)
    requires NonNegative(h)
    requires forall i :: 0 <= i < |h| && a <= h[i].time <= b ==> lo <= h[i].window <= hi
    ensures Within(h, a, b) <= Filed(h, lo, hi)
  {
    if h != [] { WithinAtMostFiled(h[..|h| - 1], a, b, lo, hi); }
  }

  // ------------------------------------------------ sums over the slots

  function SlotSum(counts: seq<int>, n: nat): int
    requires n <= |counts|
  {
    if n == 0 then 0 else SlotSum(counts, n - 1) + counts[n - 1]
  }

  lemma {:induction false} SlotSumUpdate(counts: seq<int>, i: nat, x: int, n: nat)
    requires i < |counts| && n <= |counts|
    ensures SlotSum(counts[i := x], n) == SlotSum(counts, n) + (if i < n then x - counts[i] else 0)
  {
    if n > 0 { SlotSumUpdate(counts, i, x, n - 1); }
  }

  lemma {:induction false} ActiveIsAll(counts: seq<int>, starts: seq<int>, cutoff: int, n: nat)
    requires n <= |counts| == |starts|
    requires forall i :: 0 <= i < n ==> starts[i] > cutoff || counts[i] == 0
    ensures ActiveSum(counts, starts, cutoff, n) == SlotSum(counts, n)
  {
    if n > 0 { ActiveIsAll(counts, starts, cutoff, n - 1); }
  }

  // ------------------------------------------------ the ring form

  /** When window number `k` starts; the first `windows` windows all start with the limiter. */
  function StartOf(t0: int, size: int, k: int): int {
    t0 + Multiple(k, size)
  }

  /** The slot of window `k` holds its start. */
  predicate StartAt(r: Ring, t0: int, k: int)
    requires Shape(r)
  {
    r.starts[Slot(k, r.windows)] == StartOf(t0, r.size, k)
  }

  /** The slot of window `k` holds the amounts filed under it. */
  predicate CountAt(r: Ring, h: seq<Event>, k: int)
    requires Shape(r)
  {
    r.counts[Slot(k, r.windows)] == Filed(h, k, k)
  }

  predicate StartsForm(r: Ring, t0: int, m: nat)
    requires Shape(r)
  {
    forall k :: m - r.windows < k <= m ==> StartAt(r, t0, k)
  }

  predicate CountsForm(r: Ring, m: nat, h: seq<Event>)
    requires Shape(r)
  {
    forall k :: m - r.windows < k <= m ==> CountAt(r, h, k)
  }

  /** After `m` rotation steps slot k mod windows holds window k, for the last `windows` values of k. */
  predicate RingForm(r: Ring, t0: int, m: nat, h: seq<Event>) {
    && Shape(r)
    && StartsForm(r, t0, m)
    && CountsForm(r, m, h)
    && SlotSum(r.counts, r.windows) == Filed(h, m - r.windows + 1, m)
    && NoneAfter(h, m)
  }

  /** The max-scan finds the newest window. */
  lemma CurrentIsNewest(r: Ring, t0: int, m: nat)
    requires Shape(r) && StartsForm(r, t0, m)
    ensures Current(r) == Slot(m, r.windows)
    ensures r.starts[Current(r)] == StartOf(t0, r.size, m)
  {
    var c := Current(r);
    var k := SlotCover(c, m, r.windows);
    assert StartAt(r, t0, k) && StartAt(r, t0, m);
    if k < m {
      MultipleOrder(if k > 0 then k else 0, m, r.size);
    }
    if m == 0 {
      assert Slot(0, r.windows) == 0;
    }
  }

  lemma RotateOne(r: Ring, t0: int, m: nat, h: seq<Event>, i: nat, start: int)
    requires RingForm(r, t0, m, h) && i == Slot(m + 1, r.windows) && start == StartOf(t0, r.size, m + 1)
    ensures RingForm(Cleared(r, i, start), t0, m + 1, h)
  {
    var w := r.windows;
    var r' := Cleared(r, i, start);
    forall k | m + 1 - w < k <= m + 1 ensures StartAt(r', t0, k) && CountAt(r', h, k) {
      if k == m + 1 {
        FiledLater(h, m, m + 1, m + 1);
      } else {
        assert StartAt(r, t0, k) && CountAt(r, h, k);
        SlotDistinct(k, m + 1, w);
      }
    }
    assert CountAt(r, h, m + 1 - w);
    SlotPeriod(m + 1 - w, w);
    SlotSumUpdate(r.counts, i, 0, w);
    FiledSplit(h, m - w + 1, m - w + 1, m);
    FiledSplit(h, m - w + 2, m, m + 1);
    FiledLater(h, m, m + 1, m + 1);
  }

  lemma {:induction false} SlotShift(m: nat, k: nat, w: nat)
    requires w >= 1
    ensures Slot(Slot(m, w) + k, w) == Slot(m + k, w)
    decreases m
  {
    if m >= w {
      SlotShift(m - w, k, w);
      SlotPeriod(m - w + k, w);
    }
  }

  lemma {:induction false} RotateMany(r: Ring, t0: int, m: nat, h: seq<Event>, from: nat, start: int, k: nat)
    requires RingForm(r, t0, m, h) && from == Slot(m, r.windows) && start == StartOf(t0, r.size, m)
    ensures RingForm(Rotated(r, from, start, k), t0, m + k, h)
  {
    if k > 0 {
      var p, i, start' := Rotated(r, from, start, k - 1), Slot(from + k, r.windows), start + Multiple(k, r.size);
      RotateMany(r, t0, m, h, from, start, k - 1);
      assert i == Slot(m + k, r.windows) by { SlotShift(m, k, r.windows); }
      assert start' == StartOf(t0, r.size, m + k) by { MultipleAdd(m, k, r.size); }
      RotateOne(p, t0, m + (k - 1), h, i, start');
    }
  }

  lemma AdvanceKeepsRing(r: Ring, t0: int, m: nat, h: seq<Event>, now: int)
    requires RingForm(r, t0, m, h)
    ensures RingForm(Advance(r, now), t0, m + Steps(r, now), h)
  {
    CurrentIsNewest(r, t0, m);
    RotateMany(r, t0, m, h, Current(r), r.starts[Current(r)], Steps(r, now));
  }

  /** After advance every non-empty slot is inside the span, so the test sees all of them. */
  lemma TotalIsSlotSum(r: Ring, t0: int, m: nat, h: seq<Event>, now: int)
    requires RingForm(r, t0, m, h)
    ensures var a := Advance(r, now); TotalCount(a, now) == SlotSum(a.counts, a.windows)
  {
    var a, w, m' := Advance(r, now), r.windows, m + Steps(r, now);
    AdvanceKeepsRing(r, t0, m, h, now);
    CurrentIsNewest(r, t0, m);
    forall i | 0 <= i < w
      ensures a.starts[i] > now - Multiple(w, r.size) || a.counts[i] == 0
    {
      var k := SlotCover(i, m', w);
      assert StartAt(a, t0, k) && CountAt(a, h, k);
      if Steps(r, now) == w {
        FiledLater(h, m, k, k);
      } else {
        SpanReaches(r, t0, m, now, k);
      }
    }
    ActiveIsAll(a.counts, a.starts, now - Multiple(w, r.size), w);
  }

  lemma SpanReaches(r: Ring, t0: int, m: nat, now: int, k: int)
    requires Shape(r) && StartsForm(r, t0, m) && Steps(r, now) < r.windows
    requires m + Steps(r, now) - r.windows < k <= m + Steps(r, now)
    ensures StartOf(t0, r.size, k) > now - Multiple(r.windows, r.size)
  {
    CurrentIsNewest(r, t0, m);
    var m', k' := m + Steps(r, now), if k > 0 then k else 0;
    FitsBounds(now - StartOf(t0, r.size, m), r.size);
    MultipleAdd(m, Steps(r, now), r.size);
    MultipleAdd(k', m' - k', r.size);
    MultipleOrder(m' - k' + 1, r.windows, r.size);
  }

  lemma FiledSnoc(h: seq<Event>, e: Event, lo: int, hi: int)
    ensures Filed(h + [e], lo, hi) == Filed(h, lo, hi) + (if lo <= e.window <= hi then e.amount else 0)
  {
    assert (h + [e])[..|h|] == h;
  }

  lemma CountAdded(a: Ring, m: nat, h: seq<Event>, e: Event, k: int)
    requires Shape(a) && CountAt(a, h, k) && e.window == m && m - a.windows < k <= m
    ensures CountAt(Added(a, Slot(m, a.windows), e.amount), h + [e], k)
  {
    FiledSnoc(h, e, k, k);
    if k < m { SlotDistinct(k, m, a.windows); }
  }

  lemma StartsAdded(a: Ring, t0: int, m: nat, i: nat, n: int)
    requires Shape(a) && StartsForm(a, t0, m) && i < a.windows
    ensures StartsForm(Added(a, i, n), t0, m)
  {
    forall k | m - a.windows < k <= m ensures StartAt(Added(a, i, n), t0, k) {
      assert StartAt(a, t0, k);
    }
  }

  lemma CountsAdded(a: Ring, m: nat, h: seq<Event>, e: Event)
    requires Shape(a) && CountsForm(a, m, h) && e.window == m
    ensures CountsForm(Added(a, Slot(m, a.windows), e.amount), m, h + [e])
  {
    forall k | m - a.windows < k <= m ensures CountAt(Added(a, Slot(m, a.windows), e.amount), h + [e], k) {
      CountAdded(a, m, h, e, k);
    }
  }

  /** An amount added to the newest slot and filed under the newest window. */
  lemma FileKeepsRing(a: Ring, t0: int, m: nat, h: seq<Event>, e: Event)
    requires RingForm(a, t0, m, h) && e.window == m
    ensures RingForm(Added(a, Slot(m, a.windows), e.amount), t0, m, h + [e])
  {
    var i := Slot(m, a.windows);
    StartsAdded(a, t0, m, i, e.amount);
    CountsAdded(a, m, h, e);
    FiledSnoc(h, e, m - a.windows + 1, m);
    SlotSumUpdate(a.counts, i, a.counts[i] + e.amount, a.windows);
  }

  lemma AllowKeepsRing(r: Ring, t0: int, m: nat, h: seq<Event>, now: int, n: int)
    requires RingForm(r, t0, m, h) && Admits(r, now, n)
    ensures
      var m' := m + Steps(r, now);
      RingForm(AllowN(r, now, n), t0, m', h + [Event(now, n, m')])
  {
    var a, m' := Advance(r, now), m + Steps(r, now);
    AdvanceKeepsRing(r, t0, m, h, now);
    CurrentIsNewest(a, t0, m');
    FileKeepsRing(a, t0, m', h, Event(now, n, m'));
  }

  lemma AdmittedStep(t: Track, t0: int, c: Call)
    requires RingForm(t.ring, t0, t.m, t.hist) && c.Allow? && Admits(t.ring, c.now, c.n)
    ensures RingForm(Step(t, c).ring, t0, Step(t, c).m, Step(t, c).hist)
  {
    AllowKeepsRing(t.ring, t0, t.m, t.hist, c.now, c.n);
  }

  lemma RefusedStep(t: Track, t0: int, c: Call)
    requires RingForm(t.ring, t0, t.m, t.hist) && (c.Allow? ==> !Admits(t.ring, c.now, c.n))
    ensures RingForm(Step(t, c).ring, t0, Step(t, c).m, Step(t, c).hist)
  {
    AdvanceKeepsRing(t.ring, t0, t.m, t.hist, c.now);
  }

  lemma StepKeepsRing(t: Track, t0: int, c: Call)
    requires RingForm(t.ring, t0, t.m, t.hist)
    ensures RingForm(Step(t, c).ring, t0, Step(t, c).m, Step(t, c).hist)
  {
    if c.Allow? && Admits(t.ring, c.now, c.n) {
      AdmittedStep(t, t0, c);
    } else {
      RefusedStep(t, t0, c);
    }
  }

  lemma NewRing(limit: int, window: int, t0: int)
    ensures RingForm(New(limit, window, t0), t0, 0, [])
  {
    var r := New(limit, window, t0);
    ZeroSum(r.counts, r.windows);
  }

  lemma {:induction false} ZeroSum(counts: seq<int>, n: nat)
    requires n <= |counts| && forall i :: 0 <= i < |counts| ==> counts[i] == 0
    ensures SlotSum(counts, n) == 0
  {
    if n > 0 { ZeroSum(counts, n - 1); }
  }

  /** The ring form holds in every state of every run, whatever the clock and the amounts do. */
  lemma {:induction false} RunRing(limit: int, window: int, t0: int, calls: seq<Call>)
    ensures var t := Run(New(limit, window, t0), calls); RingForm(t.ring, t0, t.m, t.hist)
  {
    if calls == [] {
      NewRing(limit, window, t0);
    } else {
      RunRing(limit, window, t0, calls[..|calls| - 1]);
      StepKeepsRing(Run(New(limit, window, t0), calls[..|calls| - 1]), t0, calls[|calls| - 1]);
      RunLast(New(limit, window, t0), calls);
    }
  }

  /** What slot (m - j) mod windows holds after m rotation steps, and what the max-scan returns. */
  predicate SlotAt(t: Track, t0: int, j: nat) {
    && Shape(t.ring)
    && t.ring.starts[(t.m - j) % t.ring.windows] == t0 + (if t.m - j > 0 then (t.m - j) * t.ring.size else 0)
    && t.ring.counts[(t.m - j) % t.ring.windows] == Filed(t.hist, t.m - j, t.m - j)
    && Current(t.ring) == t.m % t.ring.windows
  }

  lemma RingAt(t: Track, t0: int, j: nat)
    requires RingForm(t.ring, t0, t.m, t.hist) && j < t.ring.windows
    ensures SlotAt(t, t0, j)
  {
    CurrentIsNewest(t.ring, t0, t.m);
    SlotIsMod(t.m, t.ring.windows);
    SlotIsMod(t.m - j, t.ring.windows);
    assert StartAt(t.ring, t0, t.m - j) && CountAt(t.ring, t.hist, t.m - j);
    if t.m > j { MultipleIs(t.m - j, t.ring.size); }
  }

  /** The same in the terms of the source: starts and counts of all slots, and the slot the max-scan picks. */
  lemma RunRingForm(limit: int, window: int, t0: int, calls: seq<Call>, j: nat)
    requires j < New(limit, window, t0).windows
    ensures SlotAt(Run(New(limit, window, t0), calls), t0, j)
  {
    RunRing(limit, window, t0, calls);
    RingAt(Run(New(limit, window, t0), calls), t0, j);
  }

  // ------------------------------------------------ the slot bound

  predicate Requests(calls: seq<Call>) {
    forall i :: 0 <= i < |calls| ==> calls[i].Allow? ==> calls[i].n >= 0
  }

  lemma {:induction false} RunNonNegative(r: Ring, calls: seq<Call>)
    requires Shape(r) && Requests(calls)
    ensures NonNegative(Run(r, calls).hist)
  {
    if calls != [] {
      RunNonNegative(r, calls[..|calls| - 1]);
      RunLast(r, calls);
    }
  }

  /** As the ring turns, the windows it covers hold no more than before. */
  lemma FiledShrinks(h: seq<Event>, m: nat, m': nat, w: nat)
    requires NonNegative(h) && NoneAfter(h, m) && m <= m' && w >= 1
    ensures Filed(h, m' - w + 1, m') <= Filed(h, m - w + 1, m)
  {
    if m' - w + 1 <= m {
      FiledSplit(h, m - w + 1, m' - w, m);
      FiledNonNegative(h, m - w + 1, m' - w);
      FiledSplit(h, m' - w + 1, m, m');
      FiledLater(h, m, m + 1, m');
    } else {
      FiledLater(h, m, m' - w + 1, m');
      FiledNonNegative(h, m - w + 1, m);
    }
  }

  lemma AdvanceBound(r: Ring, t0: int, m: nat, h: seq<Event>, now: int)
    requires RingForm(r, t0, m, h) && NonNegative(h) && SlotSum(r.counts, r.windows) <= r.limit
    ensures SlotSum(Advance(r, now).counts, r.windows) <= r.limit
  {
    AdvanceKeepsRing(r, t0, m, h, now);
    FiledShrinks(h, m, m + Steps(r, now), r.windows);
  }

  lemma AllowBound(r: Ring, t0: int, m: nat, h: seq<Event>, now: int, n: int)
    requires RingForm(r, t0, m, h) && Admits(r, now, n)
    ensures SlotSum(AllowN(r, now, n).counts, r.windows) <= r.limit
  {
    var a := Advance(r, now);
    TotalIsSlotSum(r, t0, m, h, now);
    SlotSumUpdate(a.counts, Current(a), a.counts[Current(a)] + n, r.windows);
  }

  lemma StepBound(t: Track, t0: int, c: Call)
    requires RingForm(t.ring, t0, t.m, t.hist) && NonNegative(t.hist)
    requires SlotSum(t.ring.counts, t.ring.windows) <= t.ring.limit
    ensures SlotSum(Step(t, c).ring.counts, t.ring.windows) <= t.ring.limit
  {
    AdvanceBound(t.ring, t0, t.m, t.hist, c.now);
    if c.Allow? && Admits(t.ring, c.now, c.n) {
      AllowBound(t.ring, t0, t.m, t.hist, c.now, c.n);
    }
  }

  /** Whatever the idle gaps, the slots never hold more than the limit. */
  lemma {:induction false} SlotsWithinLimit(limit: int, window: int, t0: int, calls: seq<Call>)
    requires Requests(calls)
    ensures var t := Run(New(limit, window, t0), calls);
      SlotSum(t.ring.counts, t.ring.windows) <= t.ring.limit
  {
    var r := New(limit, window, t0);
    if calls == [] {
      ZeroSum(r.counts, r.windows);
    } else {
      var front := calls[..|calls| - 1];
      SlotsWithinLimit(limit, window, t0, front);
      RunRing(limit, window, t0, front);
      RunNonNegative(r, front);
      StepBound(Run(r, front), t0, calls[|calls| - 1]);
      RunLast(r, calls);
    }
  }

  // ------------------------------------------------ the rate bound

  /** The number of the window that contains `time`. */
  function WindowAt(t0: int, size: int, time: int): nat
    requires size >= 1
  {
    Fits(time - t0, size)
  }

  /** The schedule never outruns the catch-up: the clock does not go back and consecutive calls
      (counting construction) are at most `windows` windows apart. */
  predicate Synced(r: Ring, t0: int, calls: seq<Call>)
    requires Shape(r)
  {
    forall i :: 0 <= i < |calls| ==>
      && Before(t0, calls, i) <= calls[i].now
      && WindowAt(t0, r.size, calls[i].now) <= WindowAt(t0, r.size, Before(t0, calls, i)) + r.windows
  }

  /** The clock reading before call `i`. */
  function Before(t0: int, calls: seq<Call>, i: nat): int
    requires i <= |calls|
  {
    if i == 0 then t0 else calls[i - 1].now
  }

  lemma SyncedFront(r: Ring, t0: int, calls: seq<Call>)
    requires Shape(r) && Synced(r, t0, calls) && calls != []
    ensures Synced(r, t0, calls[..|calls| - 1])
  {
    var front := calls[..|calls| - 1];
    assert forall i :: 0 <= i < |front| ==> front[i] == calls[i] && Before(t0, front, i) == Before(t0, calls, i);
  }

  function LastTime(t0: int, calls: seq<Call>): int {
    if calls == [] then t0 else calls[|calls| - 1].now
  }

  lemma SyncedStep(t: Track, t0: int, last: int, c: Call)
    requires RingForm(t.ring, t0, t.m, t.hist)
    requires t0 <= last <= c.now && t.m == WindowAt(t0, t.ring.size, last)
    requires WindowAt(t0, t.ring.size, c.now) <= t.m + t.ring.windows
    ensures Step(t, c).m == WindowAt(t0, t.ring.size, c.now)
  {
    var size := t.ring.size;
    CurrentIsNewest(t.ring, t0, t.m);
    FitsBounds(last - t0, size);
    FitsAdd(c.now - StartOf(t0, size, t.m), t.m, size);
  }

  /** Under a synced schedule every amount is filed under the window that contains its time. */
  lemma {:induction false} SyncedRun(limit: int, window: int, t0: int, calls: seq<Call>)
    requires Synced(New(limit, window, t0), t0, calls)
    ensures var t := Run(New(limit, window, t0), calls);
      && t0 <= LastTime(t0, calls)
      && t.m == WindowAt(t0, t.ring.size, LastTime(t0, calls))
      && forall i :: 0 <= i < |t.hist| ==> t.hist[i].window == WindowAt(t0, t.ring.size, t.hist[i].time)
  {
    var r := New(limit, window, t0);
    if calls != [] {
      var front, c := calls[..|calls| - 1], calls[|calls| - 1];
      SyncedFront(r, t0, calls);
      SyncedRun(limit, window, t0, front);
      RunRing(limit, window, t0, front);
      assert LastTime(t0, front) == Before(t0, calls, |front|);
      SyncedStep(Run(r, front), t0, LastTime(t0, front), c);
      RunLast(r, calls);
    }
  }

  lemma WindowSpread(t0: int, size: int, windows: nat, a: int, b: int)
    requires size >= 1 && windows >= 1 && t0 <= a <= b && b - a <= (windows - 1) * size
    ensures WindowAt(t0, size, b) - windows < WindowAt(t0, size, a) <= WindowAt(t0, size, b)
  {
    MultipleIs(windows - 1, size);
    FitsOrder(a - t0, b - t0, size);
    FitsAdd(a - t0, windows - 1, size);
    FitsOrder(b - t0, a - t0 + Multiple(windows - 1, size), size);
  }

  /** The last admission of an interval sees everything admitted in it. */
  lemma LastAdmission(limit: int, window: int, t0: int, calls: seq<Call>, a: int, b: int)
    requires Synced(New(limit, window, t0), t0, calls) && Requests(calls) && calls != []
    requires var r := New(limit, window, t0); b - a <= (r.windows - 1) * r.size
    requires a <= LastTime(t0, calls) <= b
    ensures var t := Run(New(limit, window, t0), calls); Within(t.hist, a, b) <= t.ring.limit
  {
    var r := New(limit, window, t0);
    var t, now := Run(r, calls), LastTime(t0, calls);
    SyncedRun(limit, window, t0, calls);
    RunRing(limit, window, t0, calls);
    RunNonNegative(r, calls);
    SlotsWithinLimit(limit, window, t0, calls);
    HistoryTimes(r, t0, calls);
    RecentWindows(t.hist, t0, r.size, r.windows, a, b, now);
    WithinAtMostFiled(t.hist, a, b, t.m - r.windows + 1, t.m);
  }

  /** What was admitted in a short interval up to now is filed under the last windows. */
  lemma RecentWindows(h: seq<Event>, t0: int, size: int, windows: nat, a: int, b: int, now: int)
    requires size >= 1 && windows >= 1 && b - a <= (windows - 1) * size && a <= now <= b
    requires forall i :: 0 <= i < |h| ==> t0 <= h[i].time <= now && h[i].window == WindowAt(t0, size, h[i].time)
    ensures
      var m := WindowAt(t0, size, now);
      forall i :: 0 <= i < |h| && a <= h[i].time <= b ==> m - windows + 1 <= h[i].window <= m
  {
    forall i | 0 <= i < |h| && a <= h[i].time <= b
      ensures WindowAt(t0, size, now) - windows + 1 <= h[i].window <= WindowAt(t0, size, now)
    {
      WindowSpread(t0, size, windows, h[i].time, now);
    }
  }

  lemma {:induction false} HistoryTimes(r: Ring, t0: int, calls: seq<Call>)
    requires Shape(r) && Synced(r, t0, calls)
    ensures t0 <= LastTime(t0, calls)
    ensures forall i :: 0 <= i < |Run(r, calls).hist| ==> t0 <= Run(r, calls).hist[i].time <= LastTime(t0, calls)
  {
    if calls != [] {
      var front := calls[..|calls| - 1];
      SyncedFront(r, t0, calls);
      HistoryTimes(r, t0, front);
      assert LastTime(t0, front) == Before(t0, calls, |front|);
      StepTimes(Run(r, front), calls[|calls| - 1], t0, LastTime(t0, front));
      RunLast(r, calls);
    }
  }

  lemma StepTimes(t: Track, c: Call, t0: int, last: int)
    requires Shape(t.ring) && t0 <= last <= c.now
    requires forall i :: 0 <= i < |t.hist| ==> t0 <= t.hist[i].time <= last
    ensures forall i :: 0 <= i < |Step(t, c).hist| ==> t0 <= Step(t, c).hist[i].time <= c.now
  {
  }

  /** The rate bound: in a synced run the amounts admitted in any interval of length up to
      (windows - 1) * size sum to at most the limit. */
  lemma {:induction false} RateBound(limit: int, window: int, t0: int, calls: seq<Call>, a: int, b: int)
    requires Synced(New(limit, window, t0), t0, calls) && Requests(calls)
    requires var r := New(limit, window, t0); b - a <= (r.windows - 1) * r.size
    ensures var t := Run(New(limit, window, t0), calls); Within(t.hist, a, b) <= t.ring.limit
  {
    var r := New(limit, window, t0);
    if calls != [] {
      var front := calls[..|calls| - 1];
      SyncedFront(r, t0, calls);
      if a <= LastTime(t0, calls) <= b {
        LastAdmission(limit, window, t0, calls, a, b);
      } else {
        RateBound(limit, window, t0, front, a, b);
        var t, t' := Run(r, front), Run(r, calls);
        RunLast(r, calls);
        assert t'.hist != t.hist ==> t'.hist[..|t'.hist| - 1] == t.hist;
      }
    }
  }

  /** Calls at most one full span apart are synced. */
  lemma GapsAreSynced(r: Ring, t0: int, calls: seq<Call>)
    requires Shape(r)
    requires forall i :: 0 <= i < |calls| ==>
      Before(t0, calls, i) <= calls[i].now <= Before(t0, calls, i) + r.windows * r.size
    ensures Synced(r, t0, calls)
  {
    forall i | 0 <= i < |calls|
      ensures WindowAt(t0, r.size, calls[i].now) <= WindowAt(t0, r.size, Before(t0, calls, i)) + r.windows
    {
      NotEarlier(t0, calls, i);
      GapWindows(t0, r.size, r.windows, Before(t0, calls, i), calls[i].now);
    }
  }

  lemma {:induction false} NotEarlier(t0: int, calls: seq<Call>, i: nat)
    requires i <= |calls| && forall j :: 0 <= j < |calls| ==> Before(t0, calls, j) <= calls[j].now
    ensures t0 <= Before(t0, calls, i)
    decreases i
  {
    if i > 0 { NotEarlier(t0, calls, i - 1); }
  }

  lemma GapWindows(t0: int, size: int, windows: nat, a: int, b: int)
    requires size >= 1 && t0 <= a <= b && b - a <= windows * size
    ensures WindowAt(t0, size, b) <= WindowAt(t0, size, a) + windows
  {
    MultipleIs(windows, size);
    FitsAdd(a - t0, windows, size);
    FitsOrder(b - t0, a - t0 + Multiple(windows, size), size);
  }

  // ------------------------------------------------ where the rate bound ends

  /** A limiter that is a full span or more behind turns its whole ring. */
  lemma FarSteps(r: Ring, t0: int, m: nat, now: int)
    requires Shape(r) && StartsForm(r, t0, m) && now >= StartOf(t0, r.size, m + r.windows)
    ensures Steps(r, now) == r.windows
  {
    CurrentIsNewest(r, t0, m);
    MultipleAdd(m, r.windows, r.size);
    FitsAdd(0, r.windows, r.size);
    FitsOrder(Multiple(r.windows, r.size), now - StartOf(t0, r.size, m), r.size);
  }

  /** So it has emptied all its slots. */
  lemma FarBehind(r: Ring, t0: int, m: nat, h: seq<Event>, now: int)
    requires RingForm(r, t0, m, h) && now >= StartOf(t0, r.size, m + r.windows)
    ensures Steps(r, now) == r.windows
    ensures TotalCount(Advance(r, now), now) == 0
  {
    FarSteps(r, t0, m, now);
    AdvanceKeepsRing(r, t0, m, h, now);
    TotalIsSlotSum(r, t0, m, h, now);
    FiledLater(h, m, m + 1, m + r.windows);
  }

  lemma AdmitsWholeLimit(t: Track, t0: int, now: int)
    requires RingForm(t.ring, t0, t.m, t.hist) && now >= StartOf(t0, t.ring.size, t.m + t.ring.windows)
    ensures
      var t' := Step(t, Allow(now, t.ring.limit));
      && RingForm(t'.ring, t0, t'.m, t'.hist)
      && t'.m == t.m + t.ring.windows
      && t'.hist == t.hist + [Event(now, t.ring.limit, t'.m)]
  {
    FarBehind(t.ring, t0, t.m, t.hist, now);
    StepKeepsRing(t, t0, Allow(now, t.ring.limit));
  }

  lemma RunSnoc(r: Ring, calls: seq<Call>, c: Call)
    requires Shape(r)
    ensures Run(r, calls + [c]) == Step(Run(r, calls), c)
  {
    RunLast(r, calls + [c]);
    assert (calls + [c])[..|calls + [c]| - 1] == calls;
  }

  /** What a request for the whole limit does once the limiter is a full span behind. */
  predicate Granted(t: Track, t': Track, t0: int, now: int) {
    && RingForm(t'.ring, t0, t'.m, t'.hist) && t'.ring.size == t.ring.size && t'.ring.limit == t.ring.limit
    && t'.ring.windows == t.ring.windows && t'.m == t.m + t.ring.windows
    && t'.hist == t.hist + [Event(now, t.ring.limit, t'.m)]
  }

  lemma WholeLimitGranted(t: Track, c: Call, t': Track, t0: int)
    requires RingForm(t.ring, t0, t.m, t.hist) && c.now >= StartOf(t0, t.ring.size, t.m + t.ring.windows)
    requires c == Allow(c.now, t.ring.limit) && t' == Step(t, c)
    ensures Granted(t, t', t0, c.now)
  {
    AdmitsWholeLimit(t, t0, c.now);
  }

  /** The same at the end of a run. */
  lemma RunGranted(r: Ring, calls: seq<Call>, c: Call, t: Track, t': Track, t0: int)
    requires Shape(r) && t == Run(r, calls) && t' == Run(r, calls + [c])
    requires RingForm(t.ring, t0, t.m, t.hist) && c.now >= StartOf(t0, t.ring.size, t.m + t.ring.windows)
    requires c == Allow(c.now, t.ring.limit)
    ensures Granted(t, t', t0, c.now)
  {
    assert t' == Step(t, c) by { RunSnoc(r, calls, c); }
    WholeLimitGranted(t, c, t', t0);
  }

  /** When the limiter, having turned its ring once, is again a full span behind. */
  lemma CatchUpTime(t0: int, m: nat, w: nat, size: int, now: int) returns (later: int)
    requires w >= 1 && size >= 1 && now >= StartOf(t0, size, m + w + 1)
    ensures now >= StartOf(t0, size, m + w) && later >= StartOf(t0, size, m + w + w)
    ensures now <= later <= now + Multiple(w - 1, size)
  {
    MultipleOrder(0, w - 1, size);
    MultipleAdd(m + w + 1, w - 1, size);
    var caughtUp := StartOf(t0, size, m + w + w);
    later := if now <= caughtUp then caughtUp else now;
  }

  /** Two whole-limit requests, the second at `later`. */
  function Probe(r: Ring, calls: seq<Call>, now: int, later: int): seq<Call> {
    calls + [Allow(now, r.limit)] + [Allow(later, r.limit)]
  }

  /** A second whole limit, as soon as the limiter is again a full span behind. */
  lemma LagProbe(r: Ring, t0: int, calls: seq<Call>, t: Track, now: int) returns (later: int)
    requires Shape(r) && t == Run(r, calls) && RingForm(t.ring, t0, t.m, t.hist)
    requires now >= StartOf(t0, r.size, t.m + r.windows + 1)
    ensures now <= later <= now + Multiple(r.windows - 1, r.size)
    ensures Run(r, Probe(r, calls, now, later)).hist ==
      t.hist + [Event(now, r.limit, t.m + r.windows)] + [Event(later, r.limit, t.m + r.windows + r.windows)]
  {
    later := CatchUpTime(t0, t.m, r.windows, r.size, now);
    var c, d := Allow(now, r.limit), Allow(later, r.limit);
    var t1, t2 := Run(r, calls + [c]), Run(r, calls + [c] + [d]);
    RunGranted(r, calls, c, t, t1, t0);
    RunGranted(r, calls + [c], d, t1, t2, t0);
    GrantedTwice(t, t1, t2, t0, now, later);
  }

  lemma GrantedTwice(t: Track, t1: Track, t2: Track, t0: int, now: int, later: int)
    requires Granted(t, t1, t0, now) && Granted(t1, t2, t0, later)
    ensures
      var r := t.ring;
      t2.hist == t.hist + [Event(now, r.limit, t.m + r.windows)]
                        + [Event(later, r.limit, t.m + r.windows + r.windows)]
  {
  }

  /** The sync condition is exact: after any run, a call that outruns the catch-up, at or past the start of
      window m + windows + 1, can admit the whole limit, and a second call within (windows - 1) * size can admit
      it again. */
  lemma LagBreaksRateBound(limit: int, window: int, t0: int, calls: seq<Call>, now: int) returns (later: int)
    requires
      var t := Run(New(limit, window, t0), calls);
      now >= StartOf(t0, t.ring.size, t.m + t.ring.windows + 1)
    ensures
      var r := New(limit, window, t0);
      var t, t' := Run(r, calls), Run(r, Probe(r, calls, now, later));
      && now <= later <= now + (r.windows - 1) * r.size
      && t'.hist == t.hist + [Event(now, r.limit, t.m + r.windows)]
                           + [Event(later, r.limit, t.m + r.windows + r.windows)]
  {
    var r := New(limit, window, t0);
    RunRing(limit, window, t0, calls);
    later := LagProbe(r, t0, calls, Run(r, calls), now);
    MultipleIs(r.windows - 1, r.size);
  }

  lemma SyncedProbe(r: Ring, t0: int, calls: seq<Call>, now: int, later: int)
    requires Shape(r) && Synced(r, t0, calls) && LastTime(t0, calls) <= now <= later
    requires WindowAt(t0, r.size, now) <= WindowAt(t0, r.size, LastTime(t0, calls)) + r.windows
    requires later <= now + (r.windows - 1) * r.size
    ensures Synced(r, t0, Probe(r, calls, now, later))
  {
    var all := Probe(r, calls, now, later);
    MulMonotone(r.windows - 1, r.windows, r.size);
    NotEarlier(t0, calls, |calls|);
    GapWindows(t0, r.size, r.windows, now, later);
    forall i | 0 <= i < |all|
      ensures Before(t0, all, i) <= all[i].now
      ensures WindowAt(t0, r.size, all[i].now) <= WindowAt(t0, r.size, Before(t0, all, i)) + r.windows
    {
      if i < |calls| {
        assert all[i] == calls[i] && Before(t0, all, i) == Before(t0, calls, i);
      } else if i == |calls| {
        assert all[i].now == now && Before(t0, all, i) == LastTime(t0, calls);
      } else {
        assert all[i].now == later && Before(t0, all, i) == now;
      }
    }
  }

  lemma BehindByWindows(t0: int, size: int, windows: nat, m: nat, now: int)
    requires size >= 1 && WindowAt(t0, size, now) > m + windows
    ensures now >= StartOf(t0, size, m + windows + 1)
  {
    FitsBounds(now - t0, size);
    MultipleOrder(m + windows + 1, WindowAt(t0, size, now), size);
  }

  /** After a synced run, the next call time keeps the rate bound for every later second call exactly when
      it is at most `windows` windows ahead, which is the guard of the cap in advance. */
  lemma SyncIsExact(limit: int, window: int, t0: int, calls: seq<Call>, now: int)
    requires Synced(New(limit, window, t0), t0, calls) && Requests(calls) && LastTime(t0, calls) <= now
    ensures
      var r := New(limit, window, t0);
      WindowAt(t0, r.size, now) <= WindowAt(t0, r.size, LastTime(t0, calls)) + r.windows
      <==> forall later :: now <= later <= now + (r.windows - 1) * r.size ==>
             Within(Run(r, Probe(r, calls, now, later)).hist, now, later) <= r.limit
  {
    var r := New(limit, window, t0);
    if WindowAt(t0, r.size, now) <= WindowAt(t0, r.size, LastTime(t0, calls)) + r.windows {
      forall later | now <= later <= now + (r.windows - 1) * r.size
        ensures Within(Run(r, Probe(r, calls, now, later)).hist, now, later) <= r.limit
      {
        SyncedProbe(r, t0, calls, now, later);
        RateBound(limit, window, t0, Probe(r, calls, now, later), now, later);
      }
    } else {
      var later := LateProbe(limit, window, t0, calls, now);
      assert Within(Run(r, Probe(r, calls, now, later)).hist, now, later) > r.limit;
    }
  }

  lemma LateProbe(limit: int, window: int, t0: int, calls: seq<Call>, now: int) returns (later: int)
    requires Synced(New(limit, window, t0), t0, calls) && Requests(calls)
    requires
      var r := New(limit, window, t0);
      WindowAt(t0, r.size, now) > WindowAt(t0, r.size, LastTime(t0, calls)) + r.windows
    ensures
      var r := New(limit, window, t0);
      && now <= later <= now + (r.windows - 1) * r.size
      && Within(Run(r, Probe(r, calls, now, later)).hist, now, later) > r.limit
  {
    var r := New(limit, window, t0);
    SyncedRun(limit, window, t0, calls);
    BehindByWindows(t0, r.size, r.windows, Run(r, calls).m, now);
    later := LagBreaksRateBound(limit, window, t0, calls, now);
    RunNonNegative(r, calls);
    TwoWholeLimits(Run(r, calls).hist, now, later, r.limit, Run(r, Probe(r, calls, now, later)).hist);
  }

  lemma TwoWholeLimits(h: seq<Event>, a: int, b: int, limit: int, h': seq<Event>)
    requires NonNegative(h) && a <= b && limit >= 1 && |h'| == |h| + 2 && h == h'[..|h|]
    requires h'[|h|].time == a && h'[|h| + 1].time == b && h'[|h|].amount == h'[|h| + 1].amount == limit
    ensures Within(h', a, b) > limit
  {
    var h1 := h'[..|h'| - 1];
    assert h1[..|h1| - 1] == h;
    WithinNonNegative(h, a, b);
  }

  lemma {:induction false} WithinNonNegative(h: seq<Event>, a: int, b: int)
    requires NonNegative(h)
    ensures Within(h, a, b) >= 0
  {
    if h != [] { WithinNonNegative(h[..|h| - 1], a, b); }
  }

  /** Within the first window the ring does not turn. */
  lemma AdmittedAtOnce(t: Track, t0: int, now: int, n: int)
    requires RingForm(t.ring, t0, 0, t.hist) && t.m == 0 && t0 <= now < t0 + t.ring.size
    requires SlotSum(t.ring.counts, t.ring.windows) + n <= t.ring.limit
    ensures var t' := Step(t, Allow(now, n));
      && RingForm(t'.ring, t0, 0, t'.hist) && t'.m == 0
      && t'.hist == t.hist + [Event(now, n, 0)]
  {
    CurrentIsNewest(t.ring, t0, 0);
    assert Steps(t.ring, now) == 0;
    TotalIsSlotSum(t.ring, t0, 0, t.hist, now);
    StepKeepsRing(t, t0, Allow(now, n));
  }

  /** Requests must not be negative: after any negative one, a single later admission exceeds the limit. */
  lemma NegativeRequestBreaksBound(limit: int, window: int, t0: int, n: int)
    requires n < 0
    ensures
      var r := New(limit, window, t0);
      Run(r, [Allow(t0, n)] + [Allow(t0, r.limit - n)]).hist == [Event(t0, n, 0)] + [Event(t0, r.limit - n, 0)]
  {
    var r := New(limit, window, t0);
    NewRing(limit, window, t0);
    AdmittedAtOnce(Track(r, 0, []), t0, t0, n);
    var t := Step(Track(r, 0, []), Allow(t0, n));
    FiledOne(Event(t0, n, 0), 1 - r.windows, 0);
    AdmittedAtOnce(t, t0, t0, r.limit - n);
    assert [] + [Allow(t0, n)] == [Allow(t0, n)];
    RunSnoc(r, [], Allow(t0, n));
    RunSnoc(r, [Allow(t0, n)], Allow(t0, r.limit - n));
  }

  lemma FiledOne(e: Event, lo: int, hi: int)
    requires lo <= e.window <= hi
    ensures Filed([] + [e], lo, hi) == e.amount
  {
    assert ([] + [e])[..0] == [];
  }

  // ------------------------------------------------ the longest interval

  /** The limit that is enforced for an argument of the constructor. */
  function Enforced(limit: int): int { if limit >= 1 then limit else 1 }

  /** The bound holds in every synced run for every interval of at most that length. */
  ghost predicate BoundedOver(limit: int, window: int, t0: int, length: int) {
    forall calls, a, b :: Synced(New(limit, window, t0), t0, calls) && Requests(calls) && b - a <= length ==>
      InBound(New(limit, window, t0), calls, a, b, Enforced(limit))
  }

  predicate InBound(r: Ring, calls: seq<Call>, a: int, b: int, limit: int)
    requires Shape(r)
  {
    Within(Run(r, calls).hist, a, b) <= limit
  }

  /** A whole limit at the end of the first window, and another when the ring has just turned past it. */
  function EdgeCalls(r: Ring, t0: int): seq<Call> {
    [Allow(t0 + r.size - 1, r.limit)] + [Allow(t0 + Multiple(r.windows, r.size), r.limit)]
  }

  lemma EdgeSynced(r: Ring, t0: int)
    requires Shape(r) && r.limit >= 1
    ensures Synced(r, t0, EdgeCalls(r, t0)) && Requests(EdgeCalls(r, t0))
  {
    var calls, last := EdgeCalls(r, t0), t0 + Multiple(r.windows, r.size);
    MultipleOrder(1, r.windows, r.size);
    assert Multiple(1, r.size) == r.size;
    FitsAdd(0, r.windows, r.size);
    assert calls[0].now == t0 + r.size - 1 && calls[1].now == last && WindowAt(t0, r.size, last) == r.windows;
    forall i | 0 <= i < |calls|
      ensures Before(t0, calls, i) <= calls[i].now
      ensures WindowAt(t0, r.size, calls[i].now) <= WindowAt(t0, r.size, Before(t0, calls, i)) + r.windows
    {
      if i == 0 { assert WindowAt(t0, r.size, calls[0].now) == 0; }
    }
  }

  /** The first of the two, from a fresh limiter. */
  lemma EdgeFirst(r: Ring, c: Call, t: Track, t0: int)
    requires RingForm(r, t0, 0, []) && r.limit >= 1 && c == Allow(t0 + r.size - 1, r.limit) && t == Run(r, [c])
    ensures RingForm(t.ring, t0, 0, t.hist) && t.m == 0 && t.hist == [Event(c.now, r.limit, 0)]
  {
    assert [] + [c] == [c];
    RunSnoc(r, [], c);
    AdmittedAtOnce(Track(r, 0, []), t0, c.now, r.limit);
  }

  lemma EdgeRun(r: Ring, t0: int, a: int, b: int)
    requires RingForm(r, t0, 0, []) && r.limit >= 1
    requires a == t0 + r.size - 1 && b == t0 + Multiple(r.windows, r.size)
    ensures
      var h := Run(r, EdgeCalls(r, t0)).hist;
      && |h| == 2 && h[0].time == a && h[1].time == b && h[0].amount == h[1].amount == r.limit
  {
    var c, d := Allow(a, r.limit), Allow(b, r.limit);
    var t := Run(r, [c]);
    EdgeFirst(r, c, t, t0);
    RunGranted(r, [c], d, t, Run(r, [c] + [d]), t0);
  }

  lemma EdgeBreaksBound(r: Ring, t0: int, a: int, b: int)
    requires RingForm(r, t0, 0, []) && r.limit >= 1
    requires a == t0 + r.size - 1 && b == t0 + Multiple(r.windows, r.size)
    ensures !InBound(r, EdgeCalls(r, t0), a, b, r.limit)
  {
    EdgeRun(r, t0, a, b);
    MultipleOrder(1, r.windows, r.size);
    assert Multiple(1, r.size) == r.size;
    TwoWholeLimits([], a, b, r.limit, Run(r, EdgeCalls(r, t0)).hist);
  }

  /** What the constructor makes of its arguments: ten sub-windows of a tenth, or one of a millisecond. */
  lemma NewIs(limit: int, window: int, t0: int)
    ensures
      var r := New(limit, window, t0);
      && r.windows == (if window >= 10 then 10 else 1)
      && r.size == (if window >= 10 then window / 10 else 1_000_000)
      && r.limit == Enforced(limit)
  {
  }

  /** The rate bound, with the limit the limiter was made with, holds for exactly the lengths up to nine tenths of
      the window it was made for. */
  lemma LongestInterval(limit: int, window: int, t0: int, length: int)
    ensures BoundedOver(limit, window, t0, length) <==> length <= if window >= 10 then 9 * (window / 10) else 0
  {
    var r := New(limit, window, t0);
    NewIs(limit, window, t0);
    if length <= (r.windows - 1) * r.size {
      forall calls, a, b | Synced(r, t0, calls) && Requests(calls) && b - a <= length
        ensures InBound(r, calls, a, b, Enforced(limit))
      {
        RateBound(limit, window, t0, calls, a, b);
      }
    } else {
      var a, b := t0 + r.size - 1, t0 + Multiple(r.windows, r.size);
      EdgeSynced(r, t0);
      NewRing(limit, window, t0);
      EdgeBreaksBound(r, t0, a, b);
      MultipleAdd(r.windows - 1, 1, r.size);
      MultipleIs(r.windows - 1, r.size);
      assert Multiple(1, r.size) == r.size;
      assert b - a <= length;
    }
  }
}
