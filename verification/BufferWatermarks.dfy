/** Which capacity and watermarks are in force, and what they do, over whole runs with Resize. */
module BufferWatermarks {
  import opened Wrappers
  import opened BufferMachine
  import opened BufferTheorems
  import opened BufferStop

  // ------------------------------------------------ the last Resize rules

  /** Capacity and watermarks chosen from three arguments, where `before` is the capacity to fall back on. */
  predicate Chosen(cap: int, high: int, low: int, capacity: int, highWM: int, lowWM: int, before: int) {
    && cap == (if capacity >= 1 then capacity else before)
    && high == (if 1 <= highWM <= cap then highWM else cap)
    && low == (if 0 <= lowWM <= high then lowWM else high / 2)
  }

  /** They are in force in that state. */
  predicate InForce(s: State, capacity: int, highWM: int, lowWM: int, before: int)
    requires WellFormed(s)
  {
    Chosen(s.q.chans[s.q.cur].cap, s.q.high, s.q.low, capacity, highWM, lowWM, before)
  }

  lemma SameSettings(s: State, l: Label)
    requires WellFormed(s) && Next(s, l).Some? && WellFormed(Next(s, l).value) && !l.Resize?
    ensures
      var s' := Next(s, l).value;
      && s'.q.cur == s.q.cur && s'.q.high == s.q.high && s'.q.low == s.q.low
      && s'.q.chans[s'.q.cur].cap == s.q.chans[s.q.cur].cap
  {
    if l.DrainStep? { assert DrainFits(s.drains[l.drain], |s.q.chans|); }
    if l.ForwardStep? { assert ForwardFits(s.forwards[l.forward], |s.q.chans|); }
  }

  lemma {:induction false} SettingsStay(s: State, ls: seq<Label>)
    requires WellFormed(s) && Run(s, ls).Some? && NoResize(ls)
    ensures
      var s' := Run(s, ls).value;
      && s'.q.high == s.q.high && s'.q.low == s.q.low
      && s'.q.chans[s'.q.cur].cap == s.q.chans[s.q.cur].cap
    decreases |ls|
  {
    if ls != [] {
      NextWellFormed(s, ls[0]);
      SameSettings(s, ls[0]);
      SettingsStay(Next(s, ls[0]).value, ls[1..]);
    }
  }

  lemma {:induction false} RunPrefix(s: State, ls: seq<Label>, n: nat)
    requires WellFormed(s) && Run(s, ls).Some? && n <= |ls|
    ensures Run(s, ls[..n]).Some?
    decreases |ls|
  {
    if n > 0 {
      NextWellFormed(s, ls[0]);
      RunPrefix(Next(s, ls[0]).value, ls[1..], n - 1);
      assert ls[..n][1..] == ls[1..][..n - 1];
    }
  }

  /** A run cut before one of its actions: the state before it, and the run goes on from the state after it. */
  lemma RunSplit(s: State, ls: seq<Label>, i: nat) returns (before: State, after: State)
    requires WellFormed(s) && Run(s, ls).Some? && i < |ls|
    ensures Run(s, ls[..i]) == Some(before) && WellFormed(before)
    ensures Next(before, ls[i]) == Some(after) && WellFormed(after) && Run(after, ls[i + 1..]) == Run(s, ls)
  {
    RunPrefix(s, ls, i);
    RunPrefix(s, ls, i + 1);
    before := Run(s, ls[..i]).value;
    assert ls[..i + 1] == ls[..i] + [ls[i]];
    RunAppend(s, ls[..i], [ls[i]]);
    assert [ls[i]] + [] == [ls[i]];
    assert Run(before, [ls[i]]).Some?;
    after := Next(before, ls[i]).value;
    NextWellFormed(before, ls[i]);
    RunCons(before, ls[i], ls[i + 1..]);
    assert ls == ls[..i] + ([ls[i]] + ls[i + 1..]);
    RunAppend(s, ls[..i], [ls[i]] + ls[i + 1..]);
  }

  /** Without Resize the construction's settings are in force, 1024 being the default capacity. */
  lemma SettingsOfConstruction(capacity: int, highWM: int, lowWM: int, ls: seq<Label>, s: State)
    requires Reaches(capacity, highWM, lowWM, ls, s) && NoResize(ls)
    ensures InForce(s, capacity, highWM, lowWM, 1024)
  {
    SettingsStay(Init(capacity, highWM, lowWM), ls);
  }

  /** In every run the settings in force are those of its last Resize, with the capacity before it as default. */
  lemma SettingsOfLastResize(capacity: int, highWM: int, lowWM: int, ls: seq<Label>, s: State, i: nat)
    returns (before: State)
    requires Reaches(capacity, highWM, lowWM, ls, s) && i < |ls| && ls[i].Resize? && NoResize(ls[i + 1..])
    ensures Reaches(capacity, highWM, lowWM, ls[..i], before) && WellFormed(before)
    ensures InForce(s, ls[i].capacity, ls[i].highWM, ls[i].lowWM, before.q.chans[before.q.cur].cap)
  {
    var after;
    before, after := RunSplit(Init(capacity, highWM, lowWM), ls, i);
    SettingsStay(after, ls[i + 1..]);
  }

  // ------------------------------------------------ what the watermarks do

  /** The low watermark that the last Resize of a run asked for, or its construction. */
  function LowAsked(lowWM: int, ls: seq<Label>): int
    decreases |ls|
  {
    if ls == [] then lowWM
    else if ls[|ls| - 1].Resize? then ls[|ls| - 1].lowWM else LowAsked(lowWM, ls[..|ls| - 1])
  }

  lemma NoResizeSnoc(ls: seq<Label>, from: nat)
    requires ls != [] && from < |ls| && NoResize(ls[..|ls| - 1][from..]) && !ls[|ls| - 1].Resize?
    ensures NoResize(ls[from..])
  {
    assert ls[from..] == ls[..|ls| - 1][from..] + [ls[|ls| - 1]];
  }

  lemma {:induction false} LowAskedAt(lowWM: int, ls: seq<Label>) returns (i: int)
    ensures -1 <= i < |ls| && NoResize(ls[i + 1..])
    ensures if i < 0 then LowAsked(lowWM, ls) == lowWM else ls[i].Resize? && LowAsked(lowWM, ls) == ls[i].lowWM
    decreases |ls|
  {
    i := -1;
    if ls != [] {
      var n := |ls| - 1;
      if ls[n].Resize? {
        i := n;
        assert ls[n + 1..] == [];
      } else {
        i := LowAskedAt(lowWM, ls[..n]);
        NoResizeSnoc(ls, i + 1);
      }
    }
  }

  /** The low watermark in force is the one asked for last, where that lies between 0 and the high watermark, and
      half the high watermark otherwise. */
  lemma LowInForce(capacity: int, highWM: int, lowWM: int, ls: seq<Label>, s: State)
    requires Reaches(capacity, highWM, lowWM, ls, s)
    ensures var l := LowAsked(lowWM, ls); s.q.low == if 0 <= l <= s.q.high then l else s.q.high / 2
  {
    var i := LowAskedAt(lowWM, ls);
    if i < 0 {
      assert ls[0..] == ls;
      SettingsOfConstruction(capacity, highWM, lowWM, ls, s);
    } else {
      var before := SettingsOfLastResize(capacity, highWM, lowWM, ls, s, i);
    }
  }

  /** A drain goroutine past its send leaves exactly when at most as many frames are queued as the low watermark
      asked for last allows, and goes on otherwise. */
  lemma LeavesAtLow(capacity: int, highWM: int, lowWM: int, ls: seq<Label>, s: State, i: nat, alt: bool, s': State)
    requires Reaches(capacity, highWM, lowWM, ls, s) && i < |s.drains| && s.drains[i].pc == CheckLow
    requires Next(s, DrainStep(i, alt)) == Some(s')
    ensures
      var l := LowAsked(lowWM, ls);
      var low := if 0 <= l <= s.q.high then l else s.q.high / 2;
      s'.drains[i].pc == if |s.q.chans[s.q.cur].items| <= low then Exit else Top
  {
    LowInForce(capacity, highWM, lowWM, ls, s);
  }

  /** A writer that holds the lock drops its frame exactly when the queue has reached the high watermark. */
  lemma DropsAtHigh(capacity: int, highWM: int, lowWM: int, ls: seq<Label>, s: State, s': State)
    requires Reaches(capacity, highWM, lowWM, ls, s) && Next(s, WriteDecide) == Some(s')
    ensures s'.stats.dropped == s.stats.dropped + if |s.q.chans[s.q.cur].items| >= s.q.high then 1 else 0
    ensures s'.critical == if |s.q.chans[s.q.cur].items| >= s.q.high then Free else Decided(s.critical.frame)
  {
  }

  /** Only the goroutine that Start spawned obeys a context. */
  lemma OnlyStartTakesAContext(s: State, l: Label, s': State)
    requires WellFormed(s) && Next(s, l) == Some(s') && |s'.drains| > |s.drains| && WellFormed(s')
    ensures |s'.drains| == |s.drains| + 1 && (Next(s', Cancel(|s.drains|)).Some? <==> l.Start?)
  {
  }
}
