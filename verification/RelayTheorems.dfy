/** What every run of the relay keeps. */
module RelayTheorems {
  import opened Wrappers
  import opened RelayMachine

  /** The frames among what a destination was given, keep-alives left out. */
  function Frames(given: seq<Sent>): seq<Frame> {
    if given == [] then []
    else
      var x := given[|given| - 1];
      Frames(given[..|given| - 1]) + (if x.Forwarded? then [x.frame] else [])
  }

  lemma FramesAppend(given: seq<Sent>, x: Sent)
    ensures Frames(given + [x]) == Frames(given) + (if x.Forwarded? then [x.frame] else [])
  {
    assert (given + [x])[..|given + [x]| - 1] == given;
  }

  /** The frame of that side that the loop holds. */
  function Held(pc: Pc, side: Side): seq<Frame> {
    if (pc.Carry? || pc.DrainCarry?) && pc.side == side then [pc.frame] else []
  }

  /** Nothing lost, nothing duplicated, nothing reordered. */
  predicate Fifo(l: Lane, held: seq<Frame>) {
    l.accepted == Frames(l.given) + held + l.queue
  }

  /** Everything accepted up to the mark has been handed over. */
  predicate Delivered(l: Lane, n: nat) {
    n <= |Frames(l.given)|
  }

  function MarkOf(s: State, cause: Cause): Mark {
    if cause.ByStop? then s.stopMark else s.cancelMark
  }

  predicate Signalled(s: State, cause: Cause) {
    if cause.ByStop? then s.flags.stopClosed else s.flags.cancelled
  }

  /** How far a drain has come. */
  predicate Progress(s: State) {
    match s.pc
    case Drain(side, cause) =>
      Signalled(s, cause) && (side.FromBackend? ==> Delivered(s.client, MarkOf(s, cause).client))
    case DrainCarry(side, cause, _) =>
      Signalled(s, cause) && (side.FromBackend? ==> Delivered(s.client, MarkOf(s, cause).client))
    case Ended(Some(cause)) =>
      && Signalled(s, cause)
      && Delivered(s.client, MarkOf(s, cause).client) && Delivered(s.backend, MarkOf(s, cause).backend)
    case _ => true
  }

  predicate MarksPast(s: State) {
    && s.stopMark.client <= |s.client.accepted| && s.stopMark.backend <= |s.backend.accepted|
    && s.cancelMark.client <= |s.client.accepted| && s.cancelMark.backend <= |s.backend.accepted|
  }

  predicate Control(s: State) {
    && s.flags.wg == (if s.pc.Idle? || s.pc.Ended? then 0 else 1)
    && (!s.pc.Idle? ==> s.flags.started)
    && (s.flags.stopReturned ==> s.flags.stopClosed) && (s.flags.stopClosed ==> s.flags.stopped)
  }

  predicate Lanes(s: State) {
    && Fifo(s.client, Held(s.pc, FromClient)) && Fifo(s.backend, Held(s.pc, FromBackend))
    && |s.client.queue| <= CAPACITY && |s.backend.queue| <= CAPACITY
  }

  predicate Inv(s: State) {
    Lanes(s) && Progress(s) && MarksPast(s) && Control(s)
  }

  lemma PopFifo(l: Lane)
    requires Fifo(l, []) && l.queue != []
    ensures Fifo(Pop(l), [l.queue[0]])
  {
    assert l.queue == [l.queue[0]] + l.queue[1..];
  }

  lemma GiveFifo(l: Lane, f: Frame)
    requires Fifo(l, [f])
    ensures Fifo(Give(l, Forwarded(f)), [])
    ensures Frames(Give(l, Forwarded(f)).given) == Frames(l.given) + [f]
  {
    FramesAppend(l.given, Forwarded(f));
  }

  lemma BeatFifo(l: Lane, held: seq<Frame>)
    requires Fifo(l, held)
    ensures Fifo(Give(l, Heartbeat), held) && Frames(Give(l, Heartbeat).given) == Frames(l.given)
  {
    FramesAppend(l.given, Heartbeat);
  }

  lemma SelectKeeps(s: State, choice: Choice)
    requires Inv(s) && s.pc.Select? && SelectNext(s, choice).Some?
    ensures Inv(SelectNext(s, choice).value)
  {
    if s.flags.clientClosed && s.flags.backendClosed {
    } else {
      match choice {
        case TakeClient => PopFifo(s.client);
        case TakeBackend => PopFifo(s.backend);
        case Tick => BeatFifo(s.backend, []);
        case _ =>
      }
    }
  }

  lemma DrainKeeps(s: State, side: Side, cause: Cause)
    requires Inv(s) && s.pc == Drain(side, cause)
    ensures Inv(DrainNext(s, side, cause))
  {
    if LaneOf(s, side).queue != [] { PopFifo(LaneOf(s, side)); }
  }

  /** Giving the held frame to its destination keeps both lanes in order. */
  lemma GiveLanes(s: State, side: Side, f: Frame, s': State)
    requires Lanes(s) && Held(s.pc, side) == [f]
    requires Held(s'.pc, FromClient) == [] && Held(s'.pc, FromBackend) == []
    requires var given := SetLane(s, side, Give(LaneOf(s, side), Forwarded(f)));
      s'.client == given.client && s'.backend == given.backend
    ensures Lanes(s')
    ensures s'.client.accepted == s.client.accepted && s'.backend.accepted == s.backend.accepted
    ensures |Frames(s'.client.given)| >= |Frames(s.client.given)|
    ensures |Frames(s'.backend.given)| >= |Frames(s.backend.given)|
  {
    GiveFifo(LaneOf(s, side), f);
  }

  /** The state after the held frame was given. */
  function Given(s: State, side: Side, f: Frame): State { SetLane(s, side, Give(LaneOf(s, side), Forwarded(f))) }

  lemma CarryKeeps(s: State, side: Side, f: Frame, fail: bool)
    requires Inv(s) && s.pc == Carry(side, f)
    ensures Inv(Given(s, side, f).(pc := Select, flags := Close(s.flags, side, fail)))
  {
    GiveLanes(s, side, f, Given(s, side, f).(pc := Select, flags := Close(s.flags, side, fail)));
  }

  lemma DrainCarryKeeps(s: State, side: Side, cause: Cause, f: Frame)
    requires Inv(s) && s.pc == DrainCarry(side, cause, f)
    ensures Inv(Given(s, side, f).(pc := Drain(side, cause)))
  {
    var s' := Given(s, side, f).(pc := Drain(side, cause));
    GiveLanes(s, side, f, s');
    assert Progress(s') by { DrainCarryProgress(s, s', side, cause); }
  }

  lemma DrainCarryProgress(s: State, s': State, side: Side, cause: Cause)
    requires Progress(s) && s.pc.DrainCarry? && s.pc.side == side && s.pc.cause == cause && s'.pc == Drain(side, cause)
    requires s'.flags == s.flags && s'.stopMark == s.stopMark && s'.cancelMark == s.cancelMark
    requires |Frames(s'.client.given)| >= |Frames(s.client.given)|
    ensures Progress(s')
  {
  }

  lemma LoopKeeps(s: State, choice: Choice, fail: bool)
    requires Inv(s) && LoopNext(s, choice, fail).Some?
    ensures Inv(LoopNext(s, choice, fail).value)
  {
    match s.pc {
      case Select => SelectKeeps(s, choice);
      case Carry(side, f) => CarryKeeps(s, side, f, fail);
      case Beat => BeatFifo(s.client, []);
      case Drain(side, cause) => DrainKeeps(s, side, cause);
      case DrainCarry(side, cause, f) => DrainCarryKeeps(s, side, cause, f);
    }
  }

  lemma AcceptKeeps(s: State, side: Side, f: Frame)
    requires Inv(s) && Next(s, Accept(side, f)).Some?
    ensures Inv(Next(s, Accept(side, f)).value)
  {
    var l := LaneOf(s, side);
    var l' := l.(queue := l.queue + [f], accepted := l.accepted + [f]);
    assert Fifo(l', Held(s.pc, side));
  }

  lemma InvStep(s: State, l: Label)
    requires Inv(s) && Next(s, l).Some?
    ensures Inv(Next(s, l).value)
  {
    match l {
      case Loop(choice, fail) => LoopKeeps(s, choice, fail);
      case Accept(side, f) => AcceptKeeps(s, side, f);
      case StopClose => SignalKeeps(s, l);
      case Cancel => SignalKeeps(s, l);
      case _ =>
    }
  }

  lemma SignalKeeps(s: State, l: Label)
    requires Inv(s) && (l.StopClose? || l.Cancel?) && Next(s, l).Some?
    ensures Inv(Next(s, l).value)
  {
  }

  lemma {:induction false} RunInv(s: State, ls: seq<Label>)
    requires Inv(s) && Run(s, ls).Some?
    ensures Inv(Run(s, ls).value)
    decreases |ls|
  {
    if ls != [] {
      InvStep(s, ls[0]);
      RunInv(Next(s, ls[0]).value, ls[1..]);
    }
  }

  /** In each direction and every reachable state, the forwarded frames are a prefix of the accepted ones,
      and at most one more is on its way. */
  lemma ForwardsInOrder(ls: seq<Label>, s: State, side: Side)
    requires Run(INITIAL, ls) == Some(s)
    ensures Frames(LaneOf(s, side).given) <= LaneOf(s, side).accepted
    ensures LaneOf(s, side).accepted == Frames(LaneOf(s, side).given) + Held(s.pc, side) + LaneOf(s, side).queue
    ensures |LaneOf(s, side).queue| <= CAPACITY
  {
    RunInv(INITIAL, ls);
  }

  /** When the loop ends through stop or cancel, every frame accepted before that signal has been handed over. */
  lemma DrainsBeforeEnding(ls: seq<Label>, s: State, cause: Cause)
    requires Run(INITIAL, ls) == Some(s) && s.pc == Ended(Some(cause))
    ensures
      var m := MarkOf(s, cause);
      && m.client <= |s.client.accepted| && s.client.accepted[..m.client] <= Frames(s.client.given)
      && m.backend <= |s.backend.accepted| && s.backend.accepted[..m.backend] <= Frames(s.backend.given)
  {
    RunInv(INITIAL, ls);
  }

  lemma {:induction false} RunAppend(s: State, ls: seq<Label>, more: seq<Label>)
    requires Run(s, ls).Some?
    ensures Run(s, ls + more) == Run(Run(s, ls).value, more)
    decreases |ls|
  {
    if ls == [] {
      assert ls + more == more;
    } else {
      RunAppend(Next(s, ls[0]).value, ls[1..], more);
      assert (ls + more)[1..] == ls[1..] + more;
    }
  }

  lemma {:induction false} RunPrefix(s: State, ls: seq<Label>, n: nat)
    requires Run(s, ls).Some? && n <= |ls|
    ensures Run(s, ls[..n]).Some?
    decreases |ls|
  {
    if n > 0 {
      RunPrefix(Next(s, ls[0]).value, ls[1..], n - 1);
      assert ls[..n][1..] == ls[1..][..n - 1];
    }
  }

  /** The last action of a run. */
  lemma RunLast(ls: seq<Label>, s: State) returns (s0: State)
    requires ls != [] && Run(INITIAL, ls) == Some(s)
    ensures Run(INITIAL, ls[..|ls| - 1]) == Some(s0) && Next(s0, ls[|ls| - 1]) == Some(s)
  {
    var n := |ls| - 1;
    RunPrefix(INITIAL, ls, n);
    s0 := Run(INITIAL, ls[..n]).value;
    assert ls == ls[..n] + [ls[n]];
    RunAppend(INITIAL, ls[..n], [ls[n]]);
    assert Run(s0, [ls[n]]) == Next(s0, ls[n]);
  }

  function Signal(cause: Cause): Label { if cause.ByStop? then StopClose else Cancel }

  /** Only the signal itself sets its mark. */
  lemma SignalStep(s: State, l: Label, s': State, cause: Cause)
    requires Next(s, l) == Some(s')
    ensures l == Signal(cause) ==> MarkOf(s', cause) == Now(s)
    ensures l != Signal(cause) ==> MarkOf(s', cause) == MarkOf(s, cause) && Signalled(s', cause) == Signalled(s, cause)
  {
  }

  /** The action at index `i` gives the signal, and the sides have then accepted as many frames as `m` says. */
  predicate SignalAt(ls: seq<Label>, i: nat, cause: Cause, m: Mark)
    requires i < |ls|
  {
    && ls[i] == Signal(cause)
    && Run(INITIAL, ls[..i]).Some? && Now(Run(INITIAL, ls[..i]).value) == m
  }

  /** The marks are what they are named for: in every run in which a signal was given, its mark is the accepted
      counts at the point of the run where it was given. */
  lemma {:induction false} MarkIsSignalTime(ls: seq<Label>, s: State, cause: Cause) returns (i: nat)
    requires Run(INITIAL, ls) == Some(s) && Signalled(s, cause)
    ensures i < |ls| && SignalAt(ls, i, cause, MarkOf(s, cause))
    decreases |ls|
  {
    var n := |ls| - 1;
    var s0 := RunLast(ls, s);
    SignalStep(s0, ls[n], s, cause);
    if ls[n] == Signal(cause) {
      i := n;
    } else {
      i := MarkIsSignalTime(ls[..n], s0, cause);
      assert ls[..n][..i] == ls[..i];
    }
  }

  /** Once Stop has returned for a loop that was spawned before, the loop is over, and unless both sides had
      closed or the context was cancelled, every frame accepted before Stop has been handed over. */
  lemma StopWaitsForLoop(ls: seq<Label>, s: State, s': State)
    requires Run(INITIAL, ls) == Some(s) && !s.pc.Idle? && Next(s, StopReturn) == Some(s')
    ensures s'.pc.Ended?
    ensures s'.pc == Ended(Some(ByStop)) ==>
      && s'.stopMark.client <= |s'.client.accepted| && s'.stopMark.backend <= |s'.backend.accepted|
      && s'.client.accepted[..s'.stopMark.client] <= Frames(s'.client.given)
      && s'.backend.accepted[..s'.stopMark.backend] <= Frames(s'.backend.given)
  {
    RunInv(INITIAL, ls);
  }

  /** Stop can return early: between the flag that Start sets and the spawn of the loop
      there is nothing to wait for, and a queued frame has not been handed over. */
  lemma StopCanOvertakeStart(f: Frame) returns (ls: seq<Label>, s: State)
    ensures Run(INITIAL, ls) == Some(s)
    ensures s.flags.started && s.flags.stopReturned
    ensures s.client.accepted == [f] && s.stopMark.client == 1 && s.client.given == []
  {
    var s1 := Next(INITIAL, StartMark).value;
    var s2 := Next(s1, Accept(FromClient, f)).value;
    var s3 := Next(s2, StopMark).value;
    var s4 := Next(s3, StopClose).value;
    s := Next(s4, StopReturn).value;
    ls := [StartMark, Accept(FromClient, f), StopMark, StopClose, StopReturn];
    assert ls[1..] == [Accept(FromClient, f), StopMark, StopClose, StopReturn];
    assert ls[1..][1..] == [StopMark, StopClose, StopReturn];
    assert ls[1..][1..][1..] == [StopClose, StopReturn];
    assert ls[1..][1..][1..][1..] == [StopReturn];
    assert Run(s4, [StopReturn]) == Some(s);
    assert Run(s3, [StopClose, StopReturn]) == Some(s);
    assert Run(s2, [StopMark, StopClose, StopReturn]) == Some(s);
    assert Run(s1, ls[1..]) == Some(s);
  }
}
