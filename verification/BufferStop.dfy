/** Exactly when Stop hands over everything that was accepted before it. */
module BufferStop {
  import opened Wrappers
  import opened BufferMachine
  import opened BufferInvariants
  import opened BufferTheorems

  // ------------------------------------------------ the condition

  /** With `n` frames queued and writers refused, goroutine `d` cannot leave before all are handed over. */
  predicate Empties(d: Drain, n: nat, low: int) {
    match d.pc
    case Top => d.ctxDone || n == 1
    case Measure => n == 1
    case Take(_) => n == 1
    case Sent(_) => n > low && (d.ctxDone || n == 1)
    case CheckLow => n > low && (d.ctxDone || n == 1)
    case FlushEnter => true
    case Flush(_) => true
    case FlushHand(_, _) => true
    case FlushSent(_, _) => true
    case _ => false
  }

  ghost predicate Safe(s: State)
    requires WellFormed(s)
  {
    || CurLen(s.q) == 0
    || exists i :: 0 <= i < |s.drains| && Empties(s.drains[i], CurLen(s.q), s.q.low)
  }

  ghost predicate NoResize(ls: seq<Label>) { forall l <- ls :: !l.Resize? }

  /** If the run has got past the return of the first Stop, everything accepted has been handed over. */
  predicate AllHanded(r: Option<State>) {
    r.Some? && r.value.flags.stopReturned ==> r.value.hist.handed == r.value.hist.accepted
  }

  /** A Stop entered in `s` delivers everything, however it is interleaved with the other goroutines. */
  ghost predicate StopDelivers(s: State)
    requires WellFormed(s)
  {
    forall more :: NoResize(more) ==> AllHanded(Run(s, [StopMark] + more))
  }

  predicate Stopping(s: State) {
    WellFormed(s) && Control(s) && Ordered(s) && s.flags.stopped
  }

  lemma StoppingStep(s: State, l: Label)
    requires Stopping(s) && Next(s, l).Some? && !l.Resize?
    ensures Stopping(Next(s, l).value)
  {
    NextWellFormed(s, l);
    ControlStep(s, l);
    OrderedStep(s, l);
  }

  lemma RunCons(s: State, l: Label, more: seq<Label>)
    requires WellFormed(s) && Next(s, l).Some? && WellFormed(Next(s, l).value)
    ensures Run(s, [l] + more) == Run(Next(s, l).value, more)
  {
    assert ([l] + more)[1..] == more;
  }

  // ------------------------------------------------ safe states deliver

  lemma ActEmpties(s: State, d: Drain, alt: bool)
    requires WellFormed(s) && |s.q.chans| == 1 && s.q.cur == 0 && DrainFits(d, 1)
    requires CurLen(s.q) > 0 && Empties(d, CurLen(s.q), s.q.low) && DrainAct(s, d, alt).Some?
    ensures
      var (e, pc) := DrainAct(s, d, alt).value;
      if e.Receive? then CurLen(s.q) == 1 || Empties(d.(pc := pc), CurLen(s.q) - 1, s.q.low)
      else Empties(d.(pc := pc), CurLen(s.q), s.q.low)
  {
  }

  /** What an action of a drain goroutine does to the one queue. */
  lemma PerformLength(s: State, i: nat, alt: bool)
    requires WellFormed(s) && |s.q.chans| == 1 && s.q.cur == 0 && i < |s.drains| && DrainNext(s, i, alt).Some?
    requires DrainFits(s.drains[i], 1)
    ensures
      var (e, pc) := DrainAct(s, s.drains[i], alt).value;
      var s' := DrainNext(s, i, alt).value;
      && s'.q.cur == 0 && |s'.q.chans| == 1 && s'.q.low == s.q.low
      && CurLen(s'.q) == CurLen(s.q) - (if e.Receive? then 1 else 0)
      && s'.drains == s.drains[i := s.drains[i].(pc := pc)]
      && s'.flags.stopped == s.flags.stopped && s'.flags.stopClosed == s.flags.stopClosed
      && s'.flags.stopReturned == s.flags.stopReturned
  {
  }

  /** Only the goroutine in its loop does anything but end. */
  lemma OthersEnd(s: State, i: nat, j: nat, alt: bool)
    requires WellFormed(s) && Control(s) && i < |s.drains| && j < |s.drains| && i != j
    requires InLoop(s.drains[i]) && DrainFits(s.drains[j], |s.q.chans|) && DrainAct(s, s.drains[j], alt).Some?
    ensures DrainAct(s, s.drains[j], alt) == Some((WgDone, Gone)) && !InLoop(s.drains[j])
  {
    if InLoop(s.drains[j]) {
      TallyPair(s.drains, LOOPING, if i < j then i else j, if i < j then j else i);
    }
  }

  lemma SafeDrain(s: State, j: nat, alt: bool)
    requires Stopping(s) && Safe(s) && j < |s.drains| && DrainNext(s, j, alt).Some?
    requires WellFormed(DrainNext(s, j, alt).value)
    ensures Safe(DrainNext(s, j, alt).value)
  {
    assert DrainFits(s.drains[j], 1);
    var s' := DrainNext(s, j, alt).value;
    PerformLength(s, j, alt);
    if CurLen(s.q) > 0 {
      var i :| 0 <= i < |s.drains| && Empties(s.drains[i], CurLen(s.q), s.q.low);
      if j == i {
        ActEmpties(s, s.drains[i], alt);
        assert CurLen(s'.q) == 0 || Empties(s'.drains[i], CurLen(s'.q), s'.q.low);
      } else {
        OthersEnd(s, i, j, alt);
        assert Empties(s'.drains[i], CurLen(s'.q), s'.q.low);
      }
    }
  }

  lemma SafeCancel(s: State, k: nat)
    requires Stopping(s) && Safe(s) && Next(s, Cancel(k)).Some? && WellFormed(Next(s, Cancel(k)).value)
    ensures Safe(Next(s, Cancel(k)).value)
  {
    var s' := Next(s, Cancel(k)).value;
    if CurLen(s.q) > 0 {
      var i :| 0 <= i < |s.drains| && Empties(s.drains[i], CurLen(s.q), s.q.low);
      assert Empties(s'.drains[i], CurLen(s'.q), s'.q.low);
    }
  }

  /** Writers are refused and Start does nothing. */
  lemma OtherStep(s: State, l: Label)
    requires Stopping(s) && Next(s, l).Some? && !l.Resize? && !l.DrainStep? && !l.Cancel?
    ensures Next(s, l).value.q == s.q && Next(s, l).value.drains == s.drains
  {
  }

  lemma SafeStep(s: State, l: Label)
    requires Stopping(s) && Safe(s) && Next(s, l).Some? && !l.Resize? && WellFormed(Next(s, l).value)
    ensures Safe(Next(s, l).value)
  {
    match l {
      case DrainStep(j, alt) => SafeDrain(s, j, alt);
      case Cancel(k) => SafeCancel(s, k);
      case _ => OtherStep(s, l);
    }
  }

  lemma {:induction false} SafeRun(s: State, more: seq<Label>)
    requires Stopping(s) && Safe(s) && NoResize(more) && Run(s, more).Some?
    ensures Stopping(Run(s, more).value) && Safe(Run(s, more).value)
    decreases |more|
  {
    if more != [] {
      StoppingStep(s, more[0]);
      SafeStep(s, more[0]);
      SafeRun(Next(s, more[0]).value, more[1..]);
    }
  }

  /** After the return no goroutine is left, so a safe state has an empty queue. */
  lemma SafeReturned(s: State)
    requires Stopping(s) && Safe(s) && s.flags.stopReturned
    ensures s.hist.handed == s.hist.accepted
  {
    forall i | 0 <= i < |s.drains| ensures s.drains[i].pc.Gone? {
      NobodyLive(s.drains, i);
    }
    assert CurLen(s.q) == 0;
    assert !s.flags.running by {
      if s.flags.running { var i := SomeCounted(s.drains, LOOPING); }
    }
    NobodyUnseen(s.drains);
  }

  lemma {:induction false} SomeCounted(ds: seq<Drain>, w: Drain -> nat) returns (i: nat)
    requires Tally(ds, w) > 0
    ensures i < |ds| && w(ds[i]) > 0
    decreases |ds|
  {
    if w(ds[0]) > 0 {
      i := 0;
    } else {
      i := SomeCounted(ds[1..], w);
      i := i + 1;
    }
  }

  // ------------------------------------------------ unsafe states can strand a frame

  /** How many actions a goroutine is from its end when its next send fails. */
  const RANK: Drain -> nat := (d: Drain) =>
    match d.pc
    case Gone => 0
    case Leaving => 1
    case Exit => 2
    case Hand(_) => 3
    case Take(_) => 4
    case Measure => 5
    case Top => 6
    case CheckLow => 7
    case Sent(_) => 8
    case _ => 9

  /** The goroutine's next action, its send failing, leaves a frame behind. */
  lemma ActDoomed(s: State, d: Drain)
    requires WellFormed(s) && |s.q.chans| == 1 && s.q.cur == 0 && DrainFits(d, 1) && s.critical.Free?
    requires !s.flags.stopClosed && CurLen(s.q) > 0 && !d.pc.Gone? && !Empties(d, CurLen(s.q), s.q.low)
    ensures DrainAct(s, d, d.pc.Hand?).Some?
    ensures
      var (e, pc) := DrainAct(s, d, d.pc.Hand?).value;
      var n := CurLen(s.q) - (if e.Receive? then 1 else 0);
      RANK(d.(pc := pc)) < RANK(d) && n > 0 && !Empties(d.(pc := pc), n, s.q.low) && (e.Receive? ==> InLoop(d))
  {
  }

  lemma DoomedStep(s: State, i: nat) returns (s': State)
    requires Stopping(s) && !s.flags.stopClosed && !Safe(s) && i < |s.drains| && !s.drains[i].pc.Gone?
    ensures Next(s, DrainStep(i, s.drains[i].pc.Hand?)) == Some(s')
    ensures Stopping(s') && !s'.flags.stopClosed && !Safe(s')
    ensures Tally(s'.drains, RANK) < Tally(s.drains, RANK)
  {
    var d, alt := s.drains[i], s.drains[i].pc.Hand?;
    assert DrainFits(d, 1);
    ActDoomed(s, d);
    var (e, pc) := DrainAct(s, d, alt).value;
    s' := DrainNext(s, i, alt).value;
    PerformLength(s, i, alt);
    TallyUpdate(s.drains, RANK, i, d.(pc := pc));
    StoppingStep(s, DrainStep(i, alt));
    forall j | 0 <= j < |s'.drains| ensures !Empties(s'.drains[j], CurLen(s'.q), s'.q.low) {
      if j != i && e.Receive? { OneInLoop(s, i, j); }
    }
  }

  lemma OneInLoop(s: State, i: nat, j: nat)
    requires Control(s) && i < |s.drains| && j < |s.drains| && i != j && InLoop(s.drains[i])
    ensures !InLoop(s.drains[j])
  {
    if InLoop(s.drains[j]) {
      TallyPair(s.drains, LOOPING, if i < j then i else j, if i < j then j else i);
    }
  }

  /** Let every goroutine run to its end with failing sends, then let Stop go on and return. */
  lemma {:induction false} Strand(s: State) returns (more: seq<Label>, s': State)
    requires Stopping(s) && !s.flags.stopClosed && !Safe(s)
    ensures NoResize(more) && Run(s, more) == Some(s')
    ensures s'.flags.stopReturned && s'.hist.handed != s'.hist.accepted
    decreases Tally(s.drains, RANK)
  {
    if s.flags.wg == 0 {
      var s1 := Next(s, StopClose).value;
      s' := Next(s1, StopReturn).value;
      more := [StopClose] + ([StopReturn] + []);
      RunCons(s1, StopReturn, []);
      RunCons(s, StopClose, [StopReturn] + []);
      assert InOrder(s') && CurLen(s'.q) > 0;
    } else {
      var i := SomeCounted(s.drains, LIVE);
      var s1 := DoomedStep(s, i);
      var rest;
      rest, s' := Strand(s1);
      more := [DrainStep(i, s.drains[i].pc.Hand?)] + rest;
      RunCons(s, DrainStep(i, s.drains[i].pc.Hand?), rest);
    }
  }

  // ------------------------------------------------ the theorem

  lemma SafeAtMark(s: State)
    requires WellFormed(s) && Control(s) && Ordered(s) && Next(s, StopMark).Some?
    ensures Stopping(Next(s, StopMark).value)
    ensures Safe(Next(s, StopMark).value) <==> Safe(s)
    ensures !Next(s, StopMark).value.flags.stopClosed
  {
    ControlStep(s, StopMark);
    OrderedStep(s, StopMark);
  }

  /** In every reachable state without Resize where Stop can be entered: every way the run can go on up to the
      return of Stop hands over everything that was accepted, if and only if the state is safe. */
  lemma StopDeliversExactly(capacity: int, highWM: int, lowWM: int, ls: seq<Label>, s: State)
    requires Reaches(capacity, highWM, lowWM, ls, s) && NoResize(ls) && Next(s, StopMark).Some?
    ensures StopDelivers(s) <==> Safe(s)
  {
    InitInvariant(capacity, highWM, lowWM);
    RunControl(Init(capacity, highWM, lowWM), ls);
    RunOrdered(Init(capacity, highWM, lowWM), ls);
    SafeAtMark(s);
    var s1 := Next(s, StopMark).value;
    if Safe(s) {
      forall more | NoResize(more) ensures AllHanded(Run(s, [StopMark] + more)) {
        RunCons(s, StopMark, more);
        if Run(s1, more).Some? && Run(s1, more).value.flags.stopReturned {
          SafeRun(s1, more);
          SafeReturned(Run(s1, more).value);
        }
      }
    } else {
      var more, s' := Strand(s1);
      RunCons(s, StopMark, more);
      assert !AllHanded(Run(s, [StopMark] + more));
    }
  }

  // ------------------------------------------------ what a caller can rely on

  lemma WriteOne(capacity: int, highWM: int, lowWM: int, ls0: seq<Label>, s0: State, f: Frame)
    returns (ls: seq<Label>, s: State)
    requires Reaches(capacity, highWM, lowWM, ls0, s0) && WellFormed(s0) && NoResize(ls0)
    requires s0.critical.Free? && !s0.flags.stopped && s0.flags.running
    requires CurLen(s0.q) < s0.q.high <= s0.q.chans[s0.q.cur].cap
    ensures Reaches(capacity, highWM, lowWM, ls, s) && WellFormed(s) && NoResize(ls)
    ensures s.q == Push(s0.q, s0.q.cur, f) && s.flags == s0.flags && s.drains == s0.drains && s.critical.Free?
  {
    ls, s := Do(capacity, highWM, lowWM, ls0, s0, WriteEnter(f));
    ls, s := Do(capacity, highWM, lowWM, ls, s, WriteDecide);
    ls, s := Do(capacity, highWM, lowWM, ls, s, WriteSend);
  }

  lemma {:induction false} WriteAll(capacity: int, highWM: int, lowWM: int, ls0: seq<Label>, s0: State, fs: seq<Frame>)
    returns (ls: seq<Label>, s: State)
    requires Reaches(capacity, highWM, lowWM, ls0, s0) && WellFormed(s0) && NoResize(ls0)
    requires s0.critical.Free? && !s0.flags.stopped && s0.flags.running
    requires CurLen(s0.q) + |fs| <= s0.q.high <= s0.q.chans[s0.q.cur].cap
    ensures Reaches(capacity, highWM, lowWM, ls, s) && WellFormed(s) && NoResize(ls)
    ensures s.q.cur == s0.q.cur && s.q.chans[s.q.cur].items == s0.q.chans[s0.q.cur].items + fs
    ensures s.flags == s0.flags && s.drains == s0.drains && s.critical.Free?
    decreases |fs|
  {
    ls, s := ls0, s0;
    if fs == [] {
      assert s0.q.chans[s0.q.cur].items + fs == s0.q.chans[s0.q.cur].items;
    } else {
      ls, s := WriteOne(capacity, highWM, lowWM, ls0, s0, fs[0]);
      ls, s := WriteAll(capacity, highWM, lowWM, ls, s, fs[1..]);
      assert fs == [fs[0]] + fs[1..];
    }
  }

  lemma FirstWrite(capacity: int, highWM: int, lowWM: int, x: Frame) returns (ls: seq<Label>, s: State)
    ensures Reaches(capacity, highWM, lowWM, ls, s) && WellFormed(s) && NoResize(ls)
    ensures s.critical.Free? && !s.flags.stopped && s.flags.running && s.drains == [Drain(false, false, Top)]
    ensures !s.flags.stopClosed && |s.q.chans| == 1 && s.q.cur == 0 && s.q.chans[0].items == [x]
    ensures s.q.high == Init(capacity, highWM, lowWM).q.high <= s.q.chans[0].cap
  {
    ls, s := [], Init(capacity, highWM, lowWM);
    ls, s := Do(capacity, highWM, lowWM, ls, s, WriteEnter(x));
    ls, s := Do(capacity, highWM, lowWM, ls, s, WriteDecide);
    ls, s := Do(capacity, highWM, lowWM, ls, s, WriteSend);
    assert s.q.chans[0].items == [x];
  }

  /** One frame taken by the drain goroutine and not yet sent. */
  lemma OneInHand(capacity: int, highWM: int, lowWM: int, x: Frame) returns (ls: seq<Label>, s: State)
    ensures Reaches(capacity, highWM, lowWM, ls, s) && WellFormed(s) && NoResize(ls)
    ensures s.critical.Free? && !s.flags.stopped && s.flags.running && s.drains == [Drain(false, false, Hand(x))]
    ensures CurLen(s.q) == 0 && s.q.high == Init(capacity, highWM, lowWM).q.high <= s.q.chans[s.q.cur].cap
  {
    ls, s := FirstWrite(capacity, highWM, lowWM, x);
    ls, s := Do(capacity, highWM, lowWM, ls, s, DrainStep(0, false));
    assert s.drains == [Drain(false, false, Measure)];
    ls, s := Do(capacity, highWM, lowWM, ls, s, DrainStep(0, false));
    assert s.drains == [Drain(false, false, Take(0))];
    ls, s := Do(capacity, highWM, lowWM, ls, s, DrainStep(0, false));
    assert s.drains == [Drain(false, false, Hand(x))];
  }

  /** To a caller who sees only the queue, an empty one is the only guarantee: with any other contents there is
      a reachable state in which Stop can leave a frame behind. */
  lemma OnlyAnEmptyQueueIsCertain(capacity: int, highWM: int, lowWM: int, fs: seq<Frame>)
    returns (ls: seq<Label>, s: State)
    requires |fs| <= Init(capacity, highWM, lowWM).q.high
    ensures Reaches(capacity, highWM, lowWM, ls, s) && NoResize(ls) && Next(s, StopMark).Some?
    ensures s.q.chans[s.q.cur].items == fs
    ensures StopDelivers(s) <==> fs == []
  {
    ls, s := OneInHand(capacity, highWM, lowWM, 0);
    ls, s := WriteAll(capacity, highWM, lowWM, ls, s, fs);
    StopDeliversExactly(capacity, highWM, lowWM, ls, s);
  }
}
