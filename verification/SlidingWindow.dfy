/**
 The sliding-window limiter of internal/ratelimit/sliding_window.go.
 Times and durations are integers (nanoseconds); each call reads the clock once.
 */
module SlidingWindow {
  import opened Arithmetic

  /** The limiter's fields as a value: `starts` are its timestamps. */
  datatype Ring = Ring(windows: nat, size: int, limit: int, counts: seq<int>, starts: seq<int>)

  predicate Shape(r: Ring) {
    r.windows >= 1 && r.size >= 1 && |r.counts| == r.windows && |r.starts| == r.windows
  }

  // ------------------------------------------------ what the methods compute

  const MILLISECOND := 1_000_000

  /** Go's integer division. */
  function TruncDiv(a: int, b: int): int
    requires b > 0
  {
    if a >= 0 then a / b else -((-a) / b)
  }

  function NumWindows(window: int): int {
    if TruncDiv(window, 10) > 0 then 10
    else if TruncDiv(window, MILLISECOND) <= 0 then 1 else TruncDiv(window, MILLISECOND)
  }

  function SubWindow(window: int): int {
    if TruncDiv(window, 10) > 0 then TruncDiv(window, 10) else MILLISECOND
  }

  /** NewSlidingWindow */
  function New(limit: int, window: int, now: int): (r: Ring)
    ensures Shape(r) && r.limit >= 1
  {
    var n := NumWindows(window);
    Ring(n, SubWindow(window), if limit <= 0 then 1 else limit, seq(n, _ => 0), seq(n, _ => now))
  }

  /** currentWindow over the first `n` slots: the first of the latest starts. */
  function LatestSlot(starts: seq<int>, n: nat): (i: nat)
    requires 1 <= n <= |starts|
    ensures i < n
    ensures forall k :: 0 <= k < n ==> starts[k] <= starts[i]
    ensures forall k :: 0 <= k < i ==> starts[k] < starts[i]
  {
    if n == 1 then 0
    else
      var i := LatestSlot(starts, n - 1);
      if starts[n - 1] > starts[i] then n - 1 else i
  }

  function Current(r: Ring): (i: nat)
    requires Shape(r)
    ensures i < r.windows
  {
    LatestSlot(r.starts, r.windows)
  }

  /** Slot `i` emptied for the window that starts at `start`. */
  function Cleared(r: Ring, i: nat, start: int): (r': Ring)
    requires Shape(r) && i < r.windows
    ensures Shape(r') && r'.windows == r.windows && r'.size == r.size && r'.limit == r.limit
  {
    r.(counts := r.counts[i := 0], starts := r.starts[i := start])
  }

  /** `k` rounds of the loop in advance, from slot `from` whose start was `start`. */
  function Rotated(r: Ring, from: nat, start: int, k: nat): (r': Ring)
    requires Shape(r)
    ensures Shape(r') && r'.windows == r.windows && r'.size == r.size && r'.limit == r.limit
  {
    if k == 0 then r
    else
      Cleared(Rotated(r, from, start, k - 1), Slot(from + k, r.windows), start + Multiple(k, r.size))
  }

  function Steps(r: Ring, now: int): nat
    requires Shape(r)
  {
    var passed := Fits(now - r.starts[Current(r)], r.size);
    if passed <= r.windows then passed else r.windows
  }

  function Advance(r: Ring, now: int): (r': Ring)
    requires Shape(r)
    ensures Shape(r') && r'.windows == r.windows && r'.size == r.size && r'.limit == r.limit
  {
    Rotated(r, Current(r), r.starts[Current(r)], Steps(r, now))
  }

  /** The counts of the first `n` slots that start after `cutoff`. */
  function ActiveSum(counts: seq<int>, starts: seq<int>, cutoff: int, n: nat): int
    requires n <= |counts| && n <= |starts|
  {
    if n == 0 then 0
    else ActiveSum(counts, starts, cutoff, n - 1) + (if starts[n - 1] > cutoff then counts[n - 1] else 0)
  }

  function TotalCount(r: Ring, now: int): int
    requires Shape(r)
  {
    ActiveSum(r.counts, r.starts, now - Multiple(r.windows, r.size), r.windows)
  }

  predicate Admits(r: Ring, now: int, n: int)
    requires Shape(r)
  {
    TotalCount(Advance(r, now), now) + n <= r.limit
  }

  /** The ring with `n` added to slot `i`. */
  function Added(r: Ring, i: nat, n: int): (r': Ring)
    requires Shape(r) && i < r.windows
    ensures Shape(r') && r'.windows == r.windows && r'.size == r.size && r'.limit == r.limit
  {
    r.(counts := r.counts[i := r.counts[i] + n])
  }

  function AllowN(r: Ring, now: int, n: int): (r': Ring)
    requires Shape(r)
    ensures Shape(r') && r'.windows == r.windows && r'.size == r.size && r'.limit == r.limit
  {
    var a := Advance(r, now);
    if Admits(r, now, n) then Added(a, Current(a), n) else a
  }

  // ------------------------------------------------ the code

  class SlidingWindowLimiter {
    const windowSize: int
    const windows: int
    const limit: int
    const counts: array<int>
    const timestamps: array<int>

    ghost predicate Valid()
      reads this, counts, timestamps
    {
      && windows >= 1 && windowSize >= 1
      && counts != timestamps && counts.Length == windows && timestamps.Length == windows
    }

    ghost function View(): (r: Ring)
      requires Valid()
      reads this, counts, timestamps
      ensures Shape(r)
    {
      Ring(windows, windowSize, limit, counts[..], timestamps[..])
    }

    constructor (limit: int, window: int, now: int)
      ensures Valid() && fresh(counts) && fresh(timestamps)
      ensures View() == New(limit, window, now)
    {
      var numWindows := 10;
      var subWindow := TruncDiv(window, numWindows);
      if subWindow <= 0 {
        subWindow := MILLISECOND;
        numWindows := TruncDiv(window, subWindow);
        if numWindows <= 0 {
          numWindows := 1;
        }
      }
      this.limit := if limit <= 0 then 1 else limit;
      windowSize, windows := subWindow, numWindows;
      counts := new int[numWindows](_ => 0);
      timestamps := new int[numWindows](_ => now);
      new;
      assert counts[..] == New(limit, window, now).counts;
      assert timestamps[..] == New(limit, window, now).starts;
    }

    method CurrentWindow() returns (latest: nat)
      requires Valid()
      ensures latest == Current(View())
    {
      latest := 0;
      for i := 1 to windows
        invariant latest == LatestSlot(timestamps[..], i)
      {
        if timestamps[i] > timestamps[latest] {
          latest := i;
        }
      }
    }

    /** One slot is emptied for a new window. */
    method Clear(slot: nat, start: int)
      requires Valid() && slot < windows
      modifies counts, timestamps
      ensures View() == Cleared(old(View()), slot, start)
    {
      counts[slot] := 0;
      timestamps[slot] := start;
    }

    method AdvanceTo(now: int)
      requires Valid()
      modifies counts, timestamps
      ensures Valid() && View() == Advance(old(View()), now)
    {
      var current := CurrentWindow();
      var latestStart := timestamps[current];
      var elapsed := now - latestStart;
      if elapsed < windowSize {
        return;
      }
      FitsIs(elapsed, windowSize);
      var steps := elapsed / windowSize;
      if steps > windows {
        steps := windows;
      }
      ghost var from := current;
      ghost var before := View();
      for i := 0 to steps
        invariant 0 <= current < windows && current == Slot(from + i, windows)
        invariant View() == Rotated(before, from, latestStart, i)
      {
        current := Turn(current, latestStart, i, from);
      }
    }

    /** Round `i` of the loop. */
    method Turn(current: nat, latestStart: int, i: nat, ghost from: nat) returns (next: nat)
      requires Valid() && current == Slot(from + i, windows)
      modifies counts, timestamps
      ensures Valid() && next == Slot(from + (i + 1), windows)
      ensures View() == Cleared(old(View()), next, latestStart + Multiple(i + 1, windowSize))
    {
      NextSlot(from + i, windows);
      MultipleIs(i + 1, windowSize);
      next := (current + 1) % windows;
      Clear(next, latestStart + (i + 1) * windowSize);
    }

    lemma NextSlot(k: nat, w: nat)
      requires w >= 1
      ensures (Slot(k, w) + 1) % w == Slot(k + 1, w)
    {
      SlotIsMod(k, w);
      SlotIsMod(k + 1, w);
      var q, x := k / w, k % w;
      assert k == q * w + x;
      if x + 1 == w {
        ModUnique(k + 1, w, q + 1, 0);
        ModUnique(x + 1, w, 1, 0);
      } else {
        ModUnique(k + 1, w, q, x + 1);
        ModUnique(x + 1, w, 0, x + 1);
      }
    }

    method Total(now: int) returns (total: int)
      requires Valid()
      ensures total == TotalCount(View(), now)
    {
      MultipleIs(windows, windowSize);
      var cutoff := now - windows * windowSize;
      total := 0;
      for i := 0 to windows
        invariant total == ActiveSum(counts[..], timestamps[..], cutoff, i)
      {
        if timestamps[i] > cutoff {
          total := total + counts[i];
        }
      }
    }

    method Allow(now: int, n: int) returns (ok: bool)
      requires Valid()
      modifies counts, timestamps
      ensures Valid() && View() == AllowN(old(View()), now, n)
      ensures ok == Admits(old(View()), now, n)
    {
      AdvanceTo(now);
      var total := Total(now);
      if total + n > limit {
        return false;
      }
      var current := CurrentWindow();
      counts[current] := counts[current] + n;
      ok := true;
    }

    method Count(now: int) returns (total: int)
      requires Valid()
      modifies counts, timestamps
      ensures Valid() && View() == Advance(old(View()), now)
      ensures total == TotalCount(View(), now)
    {
      AdvanceTo(now);
      total := Total(now);
    }
  }

  // ------------------------------------------------ slots of windows

  /** The slot of absolute window number `k`: k mod w, found by going round the ring. */
  function Slot(k: int, w: nat): (i: nat)
    requires w >= 1
    ensures i < w
    decreases if k < 0 then w - k else k
  {
    if k < 0 then Slot(k + w, w) else if k < w then k else Slot(k - w, w)
  }

  lemma {:induction false} SlotIsMod(k: int, w: nat)
    requires w >= 1
    ensures Slot(k, w) == k % w
    decreases if k < 0 then w - k else k
  {
    if k < 0 {
      SlotIsMod(k + w, w);
      ModUnique(k, w, (k + w) / w - 1, (k + w) % w);
    } else if k < w {
      ModUnique(k, w, 0, k);
    } else {
      SlotIsMod(k - w, w);
      ModUnique(k, w, (k - w) / w + 1, (k - w) % w);
    }
  }

  lemma SlotPeriod(k: int, w: nat)
    requires w >= 1
    ensures Slot(k + w, w) == Slot(k, w)
  {
  }

  lemma {:induction false} SlotDistinct(k: int, k': int, w: nat)
    requires w >= 1 && k < k' < k + w
    ensures Slot(k, w) != Slot(k', w)
    decreases if k < 0 then w - k else k
  {
    if k < 0 {
      SlotDistinct(k + w, k' + w, w);
      SlotPeriod(k', w);
    } else if k >= w {
      SlotDistinct(k - w, k' - w, w);
      SlotPeriod(k' - w, w);
    } else if k' >= w {
      SlotPeriod(k' - w, w);
    }
  }

  /** Every slot belongs to exactly one of any `w` consecutive windows. */
  lemma SlotCover(i: nat, m: int, w: nat) returns (k: int)
    requires i < w
    ensures m - w < k <= m && Slot(k, w) == i
  {
    k := m - (m - i) % w;
    SlotIsMod(k, w);
    var q := (m - i) / w;
    assert m - i == q * w + (m - i) % w;
    ModUnique(k, w, q, i);
  }
}
