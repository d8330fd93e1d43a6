/**
 The relay of internal/streaming/relay.go as a labelled transition system: two
 bounded queues, one forwarding loop, and the Start, Stop and cancel signals.
 Each label is one atomic action.
 */
module RelayMachine {
  import opened Wrappers

  type Frame = nat

  const CAPACITY := 256

  datatype Side = FromClient | FromBackend

  /** What a destination is given: a forwarded frame or a keep-alive the relay inserts. */
  datatype Sent = Forwarded(frame: Frame) | Heartbeat

  /** One direction: the source's queue, what it accepted, and what the destination was given. */
  datatype Lane = Lane(queue: seq<Frame>, accepted: seq<Frame>, given: seq<Sent>)

  datatype Cause = ByStop | ByCancel

  datatype Pc =
    | Idle                                    // the loop has not been spawned
    | Select                                  // at the head of the loop
    | Carry(side: Side, frame: Frame)         // frame received, SendFrame not yet called
    | Beat                                    // keep-alive sent to the client, not yet to the backend
    | Drain(side: Side, cause: Cause)
    | DrainCarry(side: Side, cause: Cause, frame: Frame)
    | Ended(why: Option<Cause>)               // None: both sides closed

  datatype Flags = Flags(
    started: bool, stopped: bool, stopClosed: bool, stopReturned: bool, cancelled: bool,
    clientClosed: bool, backendClosed: bool, wg: int)

  /** How many frames each side had accepted when a signal was given. */
  datatype Mark = Mark(client: nat, backend: nat)

  datatype State = State(
    client: Lane, backend: Lane, pc: Pc, flags: Flags, stopMark: Mark, cancelMark: Mark)

  datatype Choice = TakeClient | TakeBackend | Tick | SeeStop | SeeCancel

  datatype Label =
    | Accept(side: Side, frame: Frame)        // SendFrame of a side's sender
    | Refuse(side: Side)                      // the same on a full queue
    | StartMark | StartSpawn | StartRefused
    | StopMark | StopClose | StopReturn | StopAgain
    | Cancel
    | Loop(choice: Choice, fail: bool)        // `fail`: the sender returns an error

  const INITIAL := State(
    Lane([], [], []), Lane([], [], []), Idle,
    Flags(false, false, false, false, false, false, false, 0), Mark(0, 0), Mark(0, 0))

  function LaneOf(s: State, side: Side): Lane {
    if side.FromClient? then s.client else s.backend
  }

  function SetLane(s: State, side: Side, l: Lane): State {
    if side.FromClient? then s.(client := l) else s.(backend := l)
  }

  function Give(l: Lane, x: Sent): Lane { l.(given := l.given + [x]) }

  function Pop(l: Lane): Lane
    requires l.queue != []
  {
    l.(queue := l.queue[1..])
  }

  function Now(s: State): Mark { Mark(|s.client.accepted|, |s.backend.accepted|) }

  /** A failed send closes the destination, which is the other side. */
  function Close(f: Flags, source: Side, fail: bool): Flags {
    if !fail then f else if source.FromClient? then f.(backendClosed := true) else f.(clientClosed := true)
  }

  function SelectNext(s: State, choice: Choice): Option<State> {
    if s.flags.clientClosed && s.flags.backendClosed
    then Some(s.(pc := Ended(None), flags := s.flags.(wg := s.flags.wg - 1)))
    else match choice
      case TakeClient =>
        if s.client.queue == [] then None
        else Some(s.(client := Pop(s.client), pc := Carry(FromClient, s.client.queue[0])))
      case TakeBackend =>
        if s.backend.queue == [] then None
        else Some(s.(backend := Pop(s.backend), pc := Carry(FromBackend, s.backend.queue[0])))
      case Tick => Some(s.(backend := Give(s.backend, Heartbeat), pc := Beat))
      case SeeStop => if s.flags.stopClosed then Some(s.(pc := Drain(FromClient, ByStop))) else None
      case SeeCancel => if s.flags.cancelled then Some(s.(pc := Drain(FromClient, ByCancel))) else None
  }

  function DrainNext(s: State, side: Side, cause: Cause): State {
    var l := LaneOf(s, side);
    if l.queue != [] then SetLane(s, side, Pop(l)).(pc := DrainCarry(side, cause, l.queue[0]))
    else if side.FromClient? then s.(pc := Drain(FromBackend, cause))
    else s.(pc := Ended(Some(cause)), flags := s.flags.(wg := s.flags.wg - 1))
  }

  /** One action of the forwarding loop; None when it is blocked or over. */
  function LoopNext(s: State, choice: Choice, fail: bool): Option<State> {
    match s.pc
    case Idle => None
    case Select => SelectNext(s, choice)
    case Carry(side, f) =>
      Some(SetLane(s, side, Give(LaneOf(s, side), Forwarded(f))).(pc := Select, flags := Close(s.flags, side, fail)))
    case Beat => Some(s.(client := Give(s.client, Heartbeat), pc := Select))
    case Drain(side, cause) => Some(DrainNext(s, side, cause))
    case DrainCarry(side, cause, f) =>
      Some(SetLane(s, side, Give(LaneOf(s, side), Forwarded(f))).(pc := Drain(side, cause)))
    case Ended(_) => None
  }

  function Next(s: State, l: Label): Option<State> {
    match l
    case Accept(side, f) =>
      var lane := LaneOf(s, side);
      if |lane.queue| < CAPACITY
      then Some(SetLane(s, side, lane.(queue := lane.queue + [f], accepted := lane.accepted + [f]))) else None
    case Refuse(side) => if |LaneOf(s, side).queue| < CAPACITY then None else Some(s)
    case StartMark =>
      if !s.flags.started && !s.flags.stopClosed then Some(s.(flags := s.flags.(started := true))) else None
    case StartSpawn =>
      if s.flags.started && s.pc.Idle?
      then Some(s.(pc := Select, flags := s.flags.(wg := s.flags.wg + 1))) else None
    case StartRefused => if s.flags.started || s.flags.stopClosed then Some(s) else None
    case StopMark => if !s.flags.stopped then Some(s.(flags := s.flags.(stopped := true))) else None
    case StopClose =>
      if s.flags.stopped && !s.flags.stopClosed
      then Some(s.(flags := s.flags.(stopClosed := true), stopMark := Now(s))) else None
    case StopReturn =>
      if s.flags.stopClosed && !s.flags.stopReturned && s.flags.wg == 0
      then Some(s.(flags := s.flags.(stopReturned := true))) else None
    case StopAgain => if s.flags.stopped then Some(s) else None
    case Cancel =>
      if !s.flags.cancelled then Some(s.(flags := s.flags.(cancelled := true), cancelMark := Now(s))) else None
    case Loop(choice, fail) => LoopNext(s, choice, fail)
  }

  function Run(s: State, ls: seq<Label>): Option<State>
    decreases |ls|
  {
    if ls == [] then Some(s)
    else match Next(s, ls[0]) case None => None case Some(s1) => Run(s1, ls[1..])
  }
}
