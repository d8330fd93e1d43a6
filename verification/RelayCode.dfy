/**
 The methods of internal/streaming/relay.go as code over the relay's fields.  The
 ghost `now` is the state of the transition system that the object has reached.
 */
module RelayCode {
  import opened Wrappers
  import opened RelayMachine
  import opened RelayTheorems

  function Other(side: Side): Side { if side.FromClient? then FromBackend else FromClient }

  /** A frame put into the queue of its side. */
  function Accepted(s: State, side: Side, f: Frame): State {
    var l := LaneOf(s, side);
    SetLane(s, side, l.(queue := l.queue + [f], accepted := l.accepted + [f]))
  }

  /** The loop spawned. */
  function Started(s: State): State {
    s.(pc := Select, flags := s.flags.(started := true, wg := s.flags.wg + 1))
  }

  /** The head of that side's queue sent to its destination. */
  function ForwardedOne(s: State, side: Side, fail: bool): State
    requires LaneOf(s, side).queue != []
  {
    var l := LaneOf(s, side);
    SetLane(s, side, Give(Pop(l), Forwarded(l.queue[0]))).(flags := Close(s.flags, side, fail))
  }

  /** What a turn of the loop does that is not its last one. */
  function Turned(s: State, choice: Choice, fail: bool): State
    requires choice.TakeClient? ==> s.client.queue != []
    requires choice.TakeBackend? ==> s.backend.queue != []
  {
    match choice
    case TakeClient => ForwardedOne(s, FromClient, fail)
    case TakeBackend => ForwardedOne(s, FromBackend, fail)
    case _ => s.(client := Give(s.client, Heartbeat), backend := Give(s.backend, Heartbeat))
  }

  class Relay {
    var fromClient: seq<Frame>
    var fromBackend: seq<Frame>
    var started: bool
    var stopped: bool
    var stopClosed: bool
    var clientClosed: bool             // the two locals of relayLoop
    var backendClosed: bool
    ghost var now: State
    ghost var trace: seq<Label>

    ghost predicate Valid()
      reads this
    {
      Run(INITIAL, trace) == Some(now) && Tied()
    }

    ghost predicate Tied()
      reads this
    {
      && now.client.queue == fromClient && now.backend.queue == fromBackend
      && now.flags.started == started && now.flags.stopped == stopped && now.flags.stopClosed == stopClosed
      && now.flags.clientClosed == clientClosed && now.flags.backendClosed == backendClosed
    }

    constructor ()
      ensures Valid() && now == INITIAL && trace == []
    {
      fromClient, fromBackend := [], [];
      started, stopped, stopClosed, clientClosed, backendClosed := false, false, false, false, false;
      now, trace := INITIAL, [];
    }

    /** The ghost state takes a step. */
    ghost method Step(l: Label)
      requires Run(INITIAL, trace) == Some(now) && Next(now, l).Some?
      modifies this`now, this`trace
      ensures Run(INITIAL, trace) == Some(now) && Some(now) == old(Next(now, l)) && trace == old(trace) + [l]
    {
      RunAppend(INITIAL, trace, [l]);
      assert Run(now, [l]) == Next(now, l);
      now, trace := Next(now, l).value, trace + [l];
    }

    /** relaySideSender.SendFrame: a full queue refuses the frame. */
    method SendFrame(side: Side, f: Frame) returns (ok: bool)
      requires Valid()
      modifies this
      ensures Valid() && ok == (|old(LaneOf(now, side).queue)| < CAPACITY)
      ensures now == if ok then Accepted(old(now), side, f) else old(now)
    {
      if side == FromClient {
        ok := |fromClient| < CAPACITY;
        if ok { fromClient := fromClient + [f]; }
      } else {
        ok := |fromBackend| < CAPACITY;
        if ok { fromBackend := fromBackend + [f]; }
      }
      Step(if ok then Accept(side, f) else Refuse(side));
    }

    /** Start up to the spawn of the loop. */
    method Start() returns (ok: bool)
      requires Valid()
      modifies this
      ensures Valid() && ok == (!old(started) && !old(stopClosed))
      ensures now == if ok then Started(old(now)) else old(now)
    {
      RunInv(INITIAL, trace);
      if started || stopClosed {
        Step(StartRefused);
        return false;
      }
      Step(StartMark);
      started := true;
      Step(StartSpawn);
      ok := true;
    }

    /** Stop up to the point where it starts to wait. */
    method SignalStop()
      requires Valid()
      modifies this
      ensures Valid() && stopped
      ensures old(stopped) ==> now == old(now)
      ensures !old(stopped) ==>
        now == old(now).(stopMark := old(Now(now)), flags := old(now.flags).(stopped := true, stopClosed := true))
    {
      RunInv(INITIAL, trace);
      if stopped {
        Step(StopAgain);
        return;
      }
      Step(StopMark);
      stopped := true;
      Step(StopClose);
      stopClosed := true;
    }

    /** drainChannel, undisturbed: everything queued on that side is forwarded in order. */
    method DrainChannel(side: Side, cause: Cause)
      requires Valid() && now.pc == Drain(side, cause)
      modifies this
      ensures Valid() && LaneOf(now, side).queue == []
      ensures Frames(LaneOf(now, side).given) == old(Frames(LaneOf(now, side).given)) + old(LaneOf(now, side).queue)
      ensures LaneOf(now, side).accepted == old(LaneOf(now, side).accepted)
      ensures LaneOf(now, Other(side)) == old(LaneOf(now, Other(side)))
      ensures now.pc == if side.FromClient? then Drain(FromBackend, cause) else Ended(Some(cause))
    {
      var rest := if side == FromClient then fromClient else fromBackend;
      while rest != []
        invariant Valid() && now.pc == Drain(side, cause) && rest == LaneOf(now, side).queue
        invariant LaneOf(now, side).accepted == old(LaneOf(now, side).accepted)
        invariant LaneOf(now, Other(side)) == old(LaneOf(now, Other(side)))
        invariant Frames(LaneOf(now, side).given) + rest
               == old(Frames(LaneOf(now, side).given)) + old(LaneOf(now, side).queue)
        decreases |rest|
      {
        DrainOne(side, cause);
        assert rest == [rest[0]] + rest[1..];
        rest := rest[1..];
      }
      LeaveDrain(side, cause);
    }

    /** drainChannel meets an empty channel. */
    ghost method LeaveDrain(side: Side, cause: Cause)
      requires Valid() && now.pc == Drain(side, cause) && LaneOf(now, side).queue == []
      modifies this`now, this`trace
      ensures Valid() && now.client == old(now.client) && now.backend == old(now.backend)
      ensures now.pc == if side.FromClient? then Drain(FromBackend, cause) else Ended(Some(cause))
    {
      Step(Loop(SeeStop, false));
    }

    method DrainOne(side: Side, cause: Cause)
      requires Valid() && now.pc == Drain(side, cause) && LaneOf(now, side).queue != []
      modifies this
      ensures Valid() && now.pc == Drain(side, cause)
      ensures LaneOf(now, side).queue == old(LaneOf(now, side).queue)[1..]
      ensures LaneOf(now, side).accepted == old(LaneOf(now, side).accepted)
      ensures LaneOf(now, Other(side)) == old(LaneOf(now, Other(side)))
      ensures Frames(LaneOf(now, side).given)
           == old(Frames(LaneOf(now, side).given)) + [old(LaneOf(now, side).queue)[0]]
    {
      FramesAppend(LaneOf(now, side).given, Forwarded(LaneOf(now, side).queue[0]));
      if side == FromClient {
        fromClient := fromClient[1..];
      } else {
        fromBackend := fromBackend[1..];
      }
      Step(Loop(SeeStop, false));
      Step(Loop(SeeStop, false));
    }

    /** The two receive cases of the select; `fail` is the sender's answer. */
    method ForwardOne(side: Side, fail: bool)
      requires Valid() && now.pc.Select? && !(clientClosed && backendClosed) && LaneOf(now, side).queue != []
      modifies this
      ensures Valid() && now == ForwardedOne(old(now), side, fail)
    {
      ghost var pick := Loop(if side.FromClient? then TakeClient else TakeBackend, fail);
      Step(pick);
      Step(pick);
      if side == FromClient {
        fromClient := fromClient[1..];
        if fail { backendClosed := true; }
      } else {
        fromBackend := fromBackend[1..];
        if fail { clientClosed := true; }
      }
    }

    /** The stop and cancel cases: drain both queues and leave. */
    method Shutdown(cause: Cause)
      requires Valid() && now.pc.Select? && !(clientClosed && backendClosed) && Signalled(now, cause)
      modifies this
      ensures Valid() && now.pc == Ended(Some(cause)) && fromClient == [] && fromBackend == []
      ensures Frames(now.client.given) == old(Frames(now.client.given)) + old(fromClient)
      ensures Frames(now.backend.given) == old(Frames(now.backend.given)) + old(fromBackend)
    {
      Step(Loop(if cause.ByStop? then SeeStop else SeeCancel, false));
      DrainChannel(FromClient, cause);
      DrainChannel(FromBackend, cause);
    }

    /** One turn of relayLoop with the ready case the select picked; the result says whether it goes on. */
    method Turn(choice: Choice, fail: bool) returns (more: bool)
      requires Valid() && now.pc.Select?
      requires choice.TakeClient? ==> fromClient != []
      requires choice.TakeBackend? ==> fromBackend != []
      requires choice.SeeStop? ==> stopClosed
      requires choice.SeeCancel? ==> now.flags.cancelled
      modifies this
      ensures Valid()
      ensures more == !((old(clientClosed) && old(backendClosed)) || choice.SeeStop? || choice.SeeCancel?)
      ensures more ==> now == Turned(old(now), choice, fail)
      ensures old(clientClosed) && old(backendClosed) ==>
        now.pc == Ended(None) && now.client == old(now.client) && now.backend == old(now.backend)
      ensures !more && !(old(clientClosed) && old(backendClosed)) ==>
        && now.pc == Ended(Some(if choice.SeeStop? then ByStop else ByCancel)) && fromClient == [] && fromBackend == []
        && Frames(now.client.given) == old(Frames(now.client.given)) + old(fromClient)
        && Frames(now.backend.given) == old(Frames(now.backend.given)) + old(fromBackend)
    {
      if clientClosed && backendClosed {
        Step(Loop(choice, fail));
        return false;
      }
      more := true;
      match choice {
        case TakeClient => ForwardOne(FromClient, fail);
        case TakeBackend => ForwardOne(FromBackend, fail);
        case Tick =>
          Step(Loop(Tick, false));
          Step(Loop(Tick, false));
        case SeeStop =>
          Shutdown(ByStop);
          more := false;
        case SeeCancel =>
          Shutdown(ByCancel);
          more := false;
      }
    }
  }
}
