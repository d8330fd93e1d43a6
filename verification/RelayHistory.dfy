/** The relay's flags, queues and keep-alives told from the positions of the actions in a run. */
module RelayHistory {
  import opened Wrappers
  import opened RelayMachine
  import opened RelayTheorems

  /** The state after the first `i` actions. */
  function At(ls: seq<Label>, i: nat): State
    requires i <= |ls|
  {
    match Run(INITIAL, ls[..i]) case Some(s) => s case None => INITIAL
  }

  lemma AtStep(ls: seq<Label>, i: nat)
    requires Run(INITIAL, ls).Some? && i < |ls|
    ensures Next(At(ls, i), ls[i]) == Some(At(ls, i + 1))
  {
    RunPrefix(INITIAL, ls, i + 1);
    var s0 := RunLast(ls[..i + 1], At(ls, i + 1));
    assert ls[..i + 1][..i] == ls[..i];
  }

  lemma AtEnd(ls: seq<Label>)
    requires Run(INITIAL, ls).Some?
    ensures Run(INITIAL, ls) == Some(At(ls, |ls|))
  {
    assert ls[..|ls|] == ls;
  }

  // ------------------------------------------------ closed sides

  /** The action is a failed send of a frame that came from that side. */
  predicate FailsAt(ls: seq<Label>, i: nat, source: Side)
    requires i < |ls|
  {
    && ls[i].Loop? && ls[i].fail
    && At(ls, i).pc.Carry? && At(ls, i).pc.side == source
  }

  predicate ClosedTo(f: Flags, source: Side) { if source.FromClient? then f.backendClosed else f.clientClosed }

  lemma ClosedStep(s: State, l: Label, s': State, source: Side)
    requires Next(s, l) == Some(s')
    ensures ClosedTo(s'.flags, source) <==>
      (l.Loop? && l.fail && s.pc.Carry? && s.pc.side == source) || ClosedTo(s.flags, source)
  {
  }

  lemma ClosedAfter(ls: seq<Label>, i: nat, source: Side)
    requires Run(INITIAL, ls).Some? && i < |ls|
    ensures ClosedTo(At(ls, i + 1).flags, source) <==> FailsAt(ls, i, source) || ClosedTo(At(ls, i).flags, source)
  {
    AtStep(ls, i);
    ClosedStep(At(ls, i), ls[i], At(ls, i + 1), source);
  }

  /** The loop takes a destination for closed exactly when a frame forwarded to it has failed; failures while
      draining and of keep-alives do not count. */
  lemma {:induction false} ClosedExactly(ls: seq<Label>, i: nat, source: Side)
    requires Run(INITIAL, ls).Some? && i <= |ls|
    ensures ClosedTo(At(ls, i).flags, source) <==> exists j :: 0 <= j < i && FailsAt(ls, j, source)
    decreases i
  {
    if i > 0 {
      ClosedExactly(ls, i - 1, source);
      ClosedAfter(ls, i - 1, source);
    }
  }

  ghost predicate BothFailed(ls: seq<Label>) {
    && (exists i :: 0 <= i < |ls| && FailsAt(ls, i, FromClient))
    && (exists i :: 0 <= i < |ls| && FailsAt(ls, i, FromBackend))
  }

  lemma BothClosed(ls: seq<Label>)
    requires Run(INITIAL, ls).Some?
    ensures At(ls, |ls|).flags.clientClosed && At(ls, |ls|).flags.backendClosed <==> BothFailed(ls)
  {
    ClosedExactly(ls, |ls|, FromClient);
    ClosedExactly(ls, |ls|, FromBackend);
  }

  /** At the head of the loop with both sides closed: it ends and forwards nothing more, whatever is ready. */
  lemma EndsWhenClosed(ls: seq<Label>, choice: Choice, fail: bool)
    requires Run(INITIAL, ls).Some? && At(ls, |ls|).pc == Select && BothFailed(ls)
    ensures
      var s := At(ls, |ls|);
      var r := Next(s, Loop(choice, fail));
      r.Some? && r.value.pc == Ended(None) && r.value.client == s.client && r.value.backend == s.backend
  {
    BothClosed(ls);
    ClosedEnds(At(ls, |ls|), choice, fail);
  }

  lemma ClosedEnds(s: State, choice: Choice, fail: bool)
    requires s.pc == Select && s.flags.clientClosed && s.flags.backendClosed
    ensures
      var r := Next(s, Loop(choice, fail));
      r.Some? && r.value.pc == Ended(None) && r.value.client == s.client && r.value.backend == s.backend
  {
  }

  /** At the head of the loop otherwise: a queued frame can be taken, and a stop or cancel is seen exactly when
      it was given. */
  lemma ReadyCases(ls: seq<Label>, choice: Choice, fail: bool)
    requires Run(INITIAL, ls).Some? && At(ls, |ls|).pc == Select && !BothFailed(ls)
    ensures
      var s := At(ls, |ls|);
      Next(s, Loop(choice, fail)).Some? <==>
        match choice
        case TakeClient => s.client.queue != []
        case TakeBackend => s.backend.queue != []
        case Tick => true
        case SeeStop => StopClose in ls
        case SeeCancel => Cancel in ls
  {
    BothClosed(ls);
    Occurred(ls);
  }

  // ------------------------------------------------ signals

  lemma SelectFlags(s: State, choice: Choice, s': State)
    requires SelectNext(s, choice) == Some(s')
    ensures s'.pc != Idle && s'.flags.(wg := s.flags.wg) == s.flags
  {
  }

  lemma LoopFlags(s: State, choice: Choice, fail: bool, s': State)
    requires LoopNext(s, choice, fail) == Some(s')
    ensures s'.flags.stopClosed == s.flags.stopClosed && s'.flags.cancelled == s.flags.cancelled
    ensures s'.flags.started == s.flags.started && s'.flags.stopped == s.flags.stopped
    ensures s'.flags.stopReturned == s.flags.stopReturned && s.pc != Idle && s'.pc != Idle
  {
    match s.pc {
      case Select => SelectFlags(s, choice, s');
      case Carry(side, f) => assert s'.pc == Select;
      case Drain(side, cause) => assert s' == DrainNext(s, side, cause);
      case _ =>
    }
  }

  lemma FlagsStep(s: State, l: Label, s': State)
    requires Next(s, l) == Some(s')
    ensures s'.flags.stopClosed == (s.flags.stopClosed || l == StopClose)
    ensures s'.flags.cancelled == (s.flags.cancelled || l == Cancel)
    ensures s'.flags.started == (s.flags.started || l == StartMark)
    ensures s'.flags.stopped == (s.flags.stopped || l == StopMark)
    ensures s'.flags.stopReturned == (s.flags.stopReturned || l == StopReturn)
    ensures s'.pc == Idle <==> s.pc == Idle && l != StartSpawn
  {
    if l.Loop? { LoopFlags(s, l.choice, l.fail, s'); }
  }

  lemma {:induction false} OccurredAt(ls: seq<Label>, i: nat)
    requires Run(INITIAL, ls).Some? && i <= |ls|
    ensures
      var s := At(ls, i);
      && s.flags.stopClosed == (StopClose in ls[..i]) && s.flags.cancelled == (Cancel in ls[..i])
      && s.flags.started == (StartMark in ls[..i]) && s.flags.stopped == (StopMark in ls[..i])
      && s.flags.stopReturned == (StopReturn in ls[..i]) && (s.pc == Idle <==> StartSpawn !in ls[..i])
    decreases i
  {
    if i > 0 {
      OccurredAt(ls, i - 1);
      AtStep(ls, i - 1);
      FlagsStep(At(ls, i - 1), ls[i - 1], At(ls, i));
      assert ls[..i] == ls[..i - 1] + [ls[i - 1]];
    }
  }

  /** Each flag says whether its action is in the run. */
  lemma Occurred(ls: seq<Label>)
    requires Run(INITIAL, ls).Some?
    ensures
      var s := At(ls, |ls|);
      && s.flags.stopClosed == (StopClose in ls) && s.flags.cancelled == (Cancel in ls)
      && s.flags.started == (StartMark in ls) && s.flags.stopped == (StopMark in ls)
      && s.flags.stopReturned == (StopReturn in ls) && (s.pc == Idle <==> StartSpawn !in ls)
  {
    OccurredAt(ls, |ls|);
    assert ls[..|ls|] == ls;
  }

  /** A run has at most one Start that is not refused, no such Start behind a stop signal, at most one loop, and at
      most one Stop that signals. */
  lemma StartsOnce(ls: seq<Label>, i: nat, j: nat)
    requires Run(INITIAL, ls).Some? && i < j < |ls|
    ensures ls[i] == StartMark || ls[i] == StopClose ==> ls[j] != StartMark
    ensures ls[i] == StartSpawn ==> ls[j] != StartSpawn
    ensures ls[j] == StartRefused ==> StartMark in ls[..j] || StopClose in ls[..j]
    ensures ls[i] == StopMark ==> ls[j] != StopMark
    ensures ls[j] == StopAgain ==> StopMark in ls[..j]
  {
    OccurredAt(ls, j);
    AtStep(ls, j);
    assert ls[i] in ls[..j];
  }

  // ------------------------------------------------ queues and keep-alives

  /** A side's sender accepts a frame exactly while fewer than 256 frames of that side wait for the loop. */
  lemma AcceptsBelow256(ls: seq<Label>, side: Side, f: Frame)
    requires Run(INITIAL, ls).Some?
    ensures
      var s := At(ls, |ls|);
      var waiting := |LaneOf(s, side).accepted| - |Frames(LaneOf(s, side).given)| - |Held(s.pc, side)|;
      && (Next(s, Accept(side, f)).Some? <==> waiting < 256)
      && (Next(s, Refuse(side)).Some? <==> waiting >= 256)
  {
    AtEnd(ls);
    ForwardsInOrder(ls, At(ls, |ls|), side);
  }

  function Beats(given: seq<Sent>): nat {
    if given == [] then 0
    else Beats(given[..|given| - 1]) + (if given[|given| - 1].Heartbeat? then 1 else 0)
  }

  lemma BeatsAppend(given: seq<Sent>, x: Sent)
    ensures Beats(given + [x]) == Beats(given) + (if x.Heartbeat? then 1 else 0)
  {
    assert (given + [x])[..|given|] == given;
  }

  /** The action serves a tick of the keep-alive timer. */
  predicate TickAt(ls: seq<Label>, i: nat)
    requires i < |ls|
  {
    && ls[i].Loop? && ls[i].choice == Tick && At(ls, i).pc == Select
    && !(At(ls, i).flags.clientClosed && At(ls, i).flags.backendClosed)
  }

  function Ticks(ls: seq<Label>, i: nat): nat
    requires i <= |ls|
  {
    if i == 0 then 0 else Ticks(ls, i - 1) + (if TickAt(ls, i - 1) then 1 else 0)
  }

  lemma BeatsStep(s: State, l: Label, s': State)
    requires Next(s, l) == Some(s')
    ensures
      var served := l.Loop? && l.choice == Tick && s.pc == Select && !(s.flags.clientClosed && s.flags.backendClosed);
      && Beats(s'.backend.given) == Beats(s.backend.given) + (if served then 1 else 0)
      && Beats(s'.client.given) == Beats(s.client.given) + (if l.Loop? && s.pc == Beat then 1 else 0)
      && (s'.pc == Beat <==> served || (s.pc == Beat && !l.Loop?))
  {
    if l.Loop? {
      match s.pc {
        case Carry(side, f) => BeatsAppend(LaneOf(s, side).given, Forwarded(f));
        case DrainCarry(side, cause, f) => BeatsAppend(LaneOf(s, side).given, Forwarded(f));
        case Select => SelectBeats(s, l.choice, s');
        case Beat => BeatsAppend(s.client.given, Heartbeat);
        case Drain(side, cause) => assert s' == DrainNext(s, side, cause);
        case _ =>
      }
    }
  }

  lemma SelectBeats(s: State, choice: Choice, s': State)
    requires SelectNext(s, choice) == Some(s')
    ensures
      var served := choice == Tick && !(s.flags.clientClosed && s.flags.backendClosed);
      && Beats(s'.backend.given) == Beats(s.backend.given) + (if served then 1 else 0)
      && Beats(s'.client.given) == Beats(s.client.given) && (s'.pc == Beat <==> served)
  {
    BeatsAppend(s.backend.given, Heartbeat);
  }

  /** Each tick gives one keep-alive to the client and then one to the backend, and nothing else gives any. */
  lemma {:induction false} BeatsAreTicks(ls: seq<Label>, i: nat)
    requires Run(INITIAL, ls).Some? && i <= |ls|
    ensures
      var s := At(ls, i);
      && Beats(s.backend.given) == Ticks(ls, i)
      && Beats(s.client.given) == Ticks(ls, i) - (if s.pc == Beat then 1 else 0)
    decreases i
  {
    if i > 0 {
      BeatsAreTicks(ls, i - 1);
      AtStep(ls, i - 1);
      BeatsStep(At(ls, i - 1), ls[i - 1], At(ls, i));
    }
  }
}
