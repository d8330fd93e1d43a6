/** Exactly when Stop hands over everything that the relay had accepted before the signal. */
module RelayStop {
  import opened Wrappers
  import opened RelayMachine
  import opened RelayTheorems

  // ------------------------------------------------ the condition

  /** How many frames may wait for a destination: its side closes only by a send that fails, which takes one. */
  function Spare(closed: bool): nat { if closed then 0 else 1 }

  /** Whether a stop signal given now finds every accepted frame on a way out. */
  predicate SafeToStop(s: State) {
    match s.pc
    case Idle => s.client.queue == [] && s.backend.queue == []
    case Ended(_) => s.client.queue == [] && s.backend.queue == []
    case Carry(FromClient, _) => s.client.queue == [] && |s.backend.queue| <= Spare(s.flags.clientClosed)
    case Carry(FromBackend, _) => |s.client.queue| <= Spare(s.flags.backendClosed) && s.backend.queue == []
    case Drain(side, _) => side.FromBackend? ==> s.client.queue == []
    case DrainCarry(side, _, _) => side.FromBackend? ==> s.client.queue == []
    case _ => |s.client.queue| <= Spare(s.flags.backendClosed) && |s.backend.queue| <= Spare(s.flags.clientClosed)
  }

  /** If the run has got past the return of Stop, everything up to the mark has been handed over. */
  predicate AllGiven(r: Option<State>, m: Mark) {
    r.Some? && r.value.flags.stopReturned ==>
      Delivered(r.value.client, m.client) && Delivered(r.value.backend, m.backend)
  }

  /** However the run goes on after the signal, Stop returns only when all of it has been handed over. */
  ghost predicate StopDelivers(s: State) {
    forall more :: AllGiven(Run(s, [StopClose] + more), Now(s))
  }

  lemma RunCons(s: State, l: Label, more: seq<Label>)
    requires Next(s, l).Some?
    ensures Run(s, [l] + more) == Run(Next(s, l).value, more)
  {
    assert ([l] + more)[1..] == more;
  }

  // ------------------------------------------------ frames left after the signal

  function MarkFor(s: State, side: Side): nat {
    if side.FromClient? then s.stopMark.client else s.stopMark.backend
  }

  /** The frames accepted before the signal and not yet handed over (zero or less: none). */
  function Left(s: State, side: Side): int {
    MarkFor(s, side) - |LaneOf(s, side).accepted| + |Held(s.pc, side)| + |LaneOf(s, side).queue|
  }

  lemma LeftIsUndelivered(s: State, side: Side)
    requires Lanes(s)
    ensures Left(s, side) <= 0 <==> Delivered(LaneOf(s, side), MarkFor(s, side))
  {
  }

  /** The condition in these terms, after the signal. */
  predicate Covered(s: State) {
    match s.pc
    case Idle => Left(s, FromClient) <= 0 && Left(s, FromBackend) <= 0
    case Ended(_) => Left(s, FromClient) <= 0 && Left(s, FromBackend) <= 0
    case Carry(FromClient, _) => Left(s, FromClient) <= 1 && Left(s, FromBackend) <= Spare(s.flags.clientClosed)
    case Carry(FromBackend, _) => Left(s, FromClient) <= Spare(s.flags.backendClosed) && Left(s, FromBackend) <= 1
    case Drain(side, _) => side.FromBackend? ==> Left(s, FromClient) <= 0
    case DrainCarry(side, _, _) => side.FromBackend? ==> Left(s, FromClient) <= 0
    case _ => Left(s, FromClient) <= Spare(s.flags.backendClosed) && Left(s, FromBackend) <= Spare(s.flags.clientClosed)
  }

  lemma CoveredSelect(s: State, choice: Choice)
    requires MarksPast(s) && s.pc.Select? && Covered(s) && SelectNext(s, choice).Some?
    ensures Covered(SelectNext(s, choice).value)
  {
  }

  lemma CoveredDrain(s: State, side: Side, cause: Cause)
    requires MarksPast(s) && s.pc == Drain(side, cause) && Covered(s)
    ensures Covered(DrainNext(s, side, cause))
  {
  }

  /** A send takes the held frame off what is left. */
  lemma SendLeft(s: State, choice: Choice, fail: bool)
    requires s.pc.Carry? || s.pc.Beat? || s.pc.DrainCarry?
    ensures
      var s' := LoopNext(s, choice, fail).value;
      && Left(s', FromClient) == Left(s, FromClient) - |Held(s.pc, FromClient)|
      && Left(s', FromBackend) == Left(s, FromBackend) - |Held(s.pc, FromBackend)|
  {
  }

  lemma CoveredCarry(s: State, choice: Choice, fail: bool)
    requires (s.pc.Carry? || s.pc.Beat? || s.pc.DrainCarry?) && Covered(s)
    ensures Covered(LoopNext(s, choice, fail).value)
  {
    SendLeft(s, choice, fail);
  }

  lemma CoveredAccept(s: State, side: Side, f: Frame)
    requires Covered(s) && Next(s, Accept(side, f)).Some?
    ensures Covered(Next(s, Accept(side, f)).value)
  {
    var s' := Next(s, Accept(side, f)).value;
    assert Left(s', FromClient) == Left(s, FromClient) && Left(s', FromBackend) == Left(s, FromBackend);
  }

  /** After the signal its mark stays. */
  lemma MarkStays(s: State, l: Label)
    requires s.flags.stopClosed && Next(s, l).Some?
    ensures Next(s, l).value.stopMark == s.stopMark && Next(s, l).value.flags.stopClosed
  {
    SignalStep(s, l, Next(s, l).value, ByStop);
  }

  /** Actions outside the loop and the senders. */
  lemma CoveredOther(s: State, l: Label)
    requires s.flags.stopClosed && Covered(s) && Next(s, l).Some? && !l.Loop? && !l.Accept?
    ensures Covered(Next(s, l).value)
  {
    var s' := Next(s, l).value;
    assert s'.client == s.client && s'.backend == s.backend && s'.stopMark == s.stopMark;
  }

  lemma CoveredStep(s: State, l: Label)
    requires Inv(s) && s.flags.stopClosed && Covered(s) && Next(s, l).Some?
    ensures Covered(Next(s, l).value)
  {
    match l {
      case Accept(side, f) => CoveredAccept(s, side, f);
      case Loop(choice, fail) =>
        if s.pc.Select? {
          CoveredSelect(s, choice);
        } else if s.pc.Drain? {
          CoveredDrain(s, s.pc.side, s.pc.cause);
        } else {
          CoveredCarry(s, choice, fail);
        }
      case _ => CoveredOther(s, l);
    }
  }

  lemma {:induction false} CoveredRun(s: State, more: seq<Label>)
    requires Inv(s) && s.flags.stopClosed && Covered(s) && Run(s, more).Some?
    ensures
      var s' := Run(s, more).value;
      Inv(s') && Covered(s') && s'.stopMark == s.stopMark
    decreases |more|
  {
    if more != [] {
      InvStep(s, more[0]);
      CoveredStep(s, more[0]);
      MarkStays(s, more[0]);
      CoveredRun(Next(s, more[0]).value, more[1..]);
    }
  }

  /** Once Stop has returned the loop is over and stays over, so nothing is left. */
  predicate Returned(s: State) {
    s.flags.stopReturned ==> Left(s, FromClient) <= 0 && Left(s, FromBackend) <= 0
  }

  lemma ReturnedStep(s: State, l: Label)
    requires Control(s) && MarksPast(s) && s.flags.stopClosed && Covered(s) && Returned(s) && Next(s, l).Some?
    ensures Returned(Next(s, l).value)
  {
    if l.Loop? { LoopLeft(s, l.choice, l.fail); }
  }

  /** The loop never adds to what is left. */
  lemma LoopLeft(s: State, choice: Choice, fail: bool)
    requires LoopNext(s, choice, fail).Some?
    ensures
      var s' := LoopNext(s, choice, fail).value;
      && Left(s', FromClient) <= Left(s, FromClient) && Left(s', FromBackend) <= Left(s, FromBackend)
      && s'.flags.stopReturned == s.flags.stopReturned
  {
  }

  lemma {:induction false} ReturnedRun(s: State, more: seq<Label>)
    requires Inv(s) && s.flags.stopClosed && Covered(s) && Returned(s) && Run(s, more).Some?
    ensures Returned(Run(s, more).value)
    decreases |more|
  {
    if more != [] {
      InvStep(s, more[0]);
      CoveredStep(s, more[0]);
      MarkStays(s, more[0]);
      ReturnedStep(s, more[0]);
      ReturnedRun(Next(s, more[0]).value, more[1..]);
    }
  }

  // ------------------------------------------------ losing a frame

  predicate Lost(s: State) { Left(s, FromClient) > 0 || Left(s, FromBackend) > 0 }

  predicate Doomed(s: State) {
    Inv(s) && s.flags.stopClosed && !s.flags.stopReturned && !Covered(s)
  }

  function Open(s: State): nat { Spare(s.flags.clientClosed) + Spare(s.flags.backendClosed) }

  /** Actions to the next decision. */
  function Distance(s: State): nat {
    match s.pc
    case Drain(_, _) => 2 * |s.backend.queue|
    case DrainCarry(_, _, _) => 2 * |s.backend.queue| + 1
    case Carry(_, _) => 1
    case Beat => 1
    case _ => 0
  }

  /** Between two decisions: the send fails, or the drain of the second queue goes on. */
  lemma DoomedMove(s: State) returns (s': State)
    requires Doomed(s) && !s.pc.Select? && !s.pc.Idle? && !s.pc.Ended?
    ensures Next(s, Loop(Tick, true)) == Some(s') && Doomed(s')
    ensures s'.pc.Ended? || (Open(s') <= Open(s) && Distance(s') < Distance(s))
  {
    s' := Next(s, Loop(Tick, true)).value;
    InvStep(s, Loop(Tick, true));
  }

  /** Make sure that a frame of that side can be taken. */
  lemma Refill(s: State, side: Side) returns (more: seq<Label>, s': State)
    requires Doomed(s) && s.pc.Select?
    ensures Run(s, more) == Some(s') && Doomed(s') && s'.pc.Select? && s'.flags == s.flags && s'.stopMark == s.stopMark
    ensures LaneOf(s', side).queue != []
  {
    if LaneOf(s, side).queue != [] {
      more, s' := [], s;
    } else {
      var l := Accept(side, 0);
      s' := Next(s, l).value;
      InvStep(s, l);
      more := [l] + [];
      RunCons(s, l, []);
    }
  }

  /** Take one frame of that side and let its send fail. */
  lemma FailOne(s: State, side: Side) returns (more: seq<Label>, s': State)
    requires Doomed(s) && s.pc.Select? && LaneOf(s, side).queue != []
    requires if side.FromClient? then !s.flags.backendClosed else !s.flags.clientClosed
    ensures Run(s, more) == Some(s') && Doomed(s') && s'.pc.Select? && Open(s') < Open(s)
    ensures s'.stopMark == s.stopMark
  {
    var l := Loop(if side.FromClient? then TakeClient else TakeBackend, true);
    var s1 := Next(s, l).value;
    InvStep(s, l);
    s' := Next(s1, l).value;
    InvStep(s1, l);
    RunCons(s1, l, []);
    RunCons(s, l, [l] + []);
    more := [l] + ([l] + []);
  }

  /** A way to lose a frame from every state that is not covered. */
  lemma {:induction false} Lose(s: State) returns (more: seq<Label>, s': State)
    requires Doomed(s)
    ensures Run(s, more) == Some(s') && Inv(s') && s'.flags.stopReturned && Lost(s') && s'.stopMark == s.stopMark
    decreases Open(s), if s.pc.Ended? then 0 else 1, Distance(s)
  {
    if s.pc.Idle? || s.pc.Ended? {
      s' := Next(s, StopReturn).value;
      InvStep(s, StopReturn);
      more := [StopReturn] + [];
      RunCons(s, StopReturn, []);
    } else if !s.pc.Select? || (s.flags.clientClosed && s.flags.backendClosed) {
      more, s' := LoseByMove(s);
    } else {
      var side := if s.flags.backendClosed then FromBackend else FromClient;
      var refill, s1 := Refill(s, side);
      var fail, s2 := FailOne(s1, side);
      var rest;
      rest, s' := Lose(s2);
      RunAppend(s1, fail, rest);
      RunAppend(s, refill, fail + rest);
      more := refill + (fail + rest);
    }
  }

  lemma {:induction false} LoseByMove(s: State) returns (more: seq<Label>, s': State)
    requires Doomed(s) && !s.pc.Idle? && !s.pc.Ended?
    requires !s.pc.Select? || (s.flags.clientClosed && s.flags.backendClosed)
    ensures Run(s, more) == Some(s') && Inv(s') && s'.flags.stopReturned && Lost(s') && s'.stopMark == s.stopMark
    decreases Open(s), if s.pc.Ended? then 0 else 1, Distance(s), 0
  {
    var l := Loop(Tick, true);
    var s1 := Next(s, l).value;
    InvStep(s, l);
    if !s.pc.Select? { s1 := DoomedMove(s); }
    more, s' := Lose(s1);
    RunCons(s, l, more);
    more := [l] + more;
  }

  // ------------------------------------------------ the theorem

  lemma SafeIsCovered(s: State)
    requires Inv(s) && Next(s, StopClose).Some?
    ensures Inv(Next(s, StopClose).value) && Next(s, StopClose).value.stopMark == Now(s)
    ensures Covered(Next(s, StopClose).value) <==> SafeToStop(s)
  {
    InvStep(s, StopClose);
  }

  /** In every reachable state where the stop signal can be given: every way the run can go on up to the return
      of Stop hands over everything accepted before the signal, if and only if the state is safe to stop. */
  lemma StopDeliversExactly(ls: seq<Label>, s: State)
    requires Run(INITIAL, ls) == Some(s) && Next(s, StopClose).Some?
    ensures StopDelivers(s) <==> SafeToStop(s)
  {
    RunInv(INITIAL, ls);
    SafeIsCovered(s);
    var s1 := Next(s, StopClose).value;
    if SafeToStop(s) {
      forall more ensures AllGiven(Run(s, [StopClose] + more), Now(s)) {
        RunCons(s, StopClose, more);
        if Run(s1, more).Some? {
          CoveredRun(s1, more);
          ReturnedRun(s1, more);
          LeftIsUndelivered(Run(s1, more).value, FromClient);
          LeftIsUndelivered(Run(s1, more).value, FromBackend);
        }
      }
    } else {
      var more, s' := Lose(s1);
      RunCons(s, StopClose, more);
      LeftIsUndelivered(s', FromClient);
      LeftIsUndelivered(s', FromBackend);
      assert !AllGiven(Run(s, [StopClose] + more), Now(s));
    }
  }
}
