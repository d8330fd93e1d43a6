/**
 The concurrent frame buffer of internal/streaming/buffer.go as a labelled
 transition system.

 Every label is one atomic action of some goroutine: one channel operation, one
 call of the sender, one atomic counter update, or one critical section that
 touches nothing another goroutine can change without the lock.  `Write` is
 split in three because the drain goroutine and the forwarders of `Resize` take
 from and put into channels without holding the lock.
 */
module BufferMachine {
  import opened Wrappers

  /** The identity of a frame. */
  type Frame = nat

  datatype Channel = Channel(cap: nat, items: seq<Frame>)

  /** Where a drain goroutine is.  `drainLoop` and `drainLoopCtx` differ only in `hasCtx`. */
  datatype DrainPc =
    | Top                              // the non-blocking select at the head of the loop
    | Measure                          // about to read the queue length under the lock
    | Take(buf: nat)                   // in the blocking select on the captured channel
    | Hand(frame: Frame)               // frame received, SendFrame not yet called
    | Sent(frame: Frame)               // SendFrame succeeded, TotalSent not yet bumped
    | CheckLow                         // about to compare with the low watermark
    | FlushEnter                       // flushRemaining, before it captures the channel
    | Flush(buf: nat)                  // flushRemaining, non-blocking receive
    | FlushHand(buf: nat, frame: Frame)
    | FlushSent(buf: nat, frame: Frame)
    | Exit                             // left the loop, `running` still true
    | Leaving                          // `running` cleared, wg.Done still due
    | Gone

  datatype Drain = Drain(hasCtx: bool, ctxDone: bool, pc: DrainPc)

  /** A `forwardItems` goroutine started by `Resize`. */
  datatype ForwardPc = Poll | Put(frame: Frame) | Finished
  datatype Forward = Forward(src: nat, dst: nat, pc: ForwardPc)

  /** Who holds the lock across several actions: nobody, or a writer. */
  datatype Critical = Free | Entered(frame: Frame) | Decided(frame: Frame)

  /** Every channel ever made (the index is its identity), b.buffer, and the watermarks. */
  datatype Queue = Queue(chans: seq<Channel>, cur: nat, high: int, low: int)

  datatype Flags = Flags(running: bool, stopped: bool, stopClosed: bool, stopReturned: bool, wg: int)

  datatype Stats = Stats(received: int, sent: int, dropped: int)

  /** Histories, which no action reads. */
  datatype History = History(
    written: seq<Frame>,               // frames counted in TotalReceived
    accepted: seq<Frame>,              // frames put into the queue by Write, in order
    handed: seq<Frame>,                // frames passed to SendFrame, in order
    sent: seq<Frame>,                  // frames counted in TotalSent
    dropped: seq<Frame>,               // frames counted in TotalDropped
    failed: seq<Frame>)                // frames whose send failed in the drain loop

  datatype State = State(
    q: Queue, flags: Flags, drains: seq<Drain>, forwards: seq<Forward>,
    critical: Critical, stats: Stats, hist: History)

  datatype Label =
    | WriteRefused                     // Write on a stopped buffer
    | WriteEnter(frame: Frame)         // lock taken, TotalReceived bumped
    | WriteDecide                      // watermark test; a drop releases the lock
    | WriteSend                        // channel send, possible spawn, lock released
    | Start
    | StopMark                         // first Stop: the stopped flag
    | StopClose                        // close(stopCh)
    | StopReturn                       // wg.Wait returned in the first Stop
    | StopAgain                        // a later Stop
    | Resize(capacity: int, highWM: int, lowWM: int)
    | Cancel(drain: nat)               // the context given to Start is cancelled
    | DrainStep(drain: nat, alt: bool) // alt: the stop/cancel case, or a failing send
    | ForwardStep(forward: nat)

  // ---------------------------------------------------------------- actions

  function PickCapacity(capacity: int, fallback: nat): nat {
    if capacity <= 0 then fallback else capacity
  }

  function PickHigh(highWM: int, capacity: nat): int {
    if highWM <= 0 || highWM > capacity then capacity else highWM
  }

  function PickLow(lowWM: int, high: int): int {
    if lowWM < 0 || lowWM > high then high / 2 else lowWM
  }

  /** NewBackpressureBuffer */
  function Init(bufferCapacity: int, highWM: int, lowWM: int): State {
    var capacity := PickCapacity(bufferCapacity, 1024);
    var high := PickHigh(highWM, capacity);
    State(Queue([Channel(capacity, [])], 0, high, PickLow(lowWM, high)),
          Flags(false, false, false, false, 0), [], [], Free, Stats(0, 0, 0),
          History([], [], [], [], [], []))
  }

  function Push(q: Queue, c: nat, f: Frame): Queue
    requires c < |q.chans|
  {
    q.(chans := q.chans[c := q.chans[c].(items := q.chans[c].items + [f])])
  }

  function Pop(q: Queue, c: nat): Queue
    requires c < |q.chans| && q.chans[c].items != []
  {
    q.(chans := q.chans[c := q.chans[c].(items := q.chans[c].items[1..])])
  }

  function CurLen(q: Queue): nat
    requires q.cur < |q.chans|
  {
    |q.chans[q.cur].items|
  }

  /** wg.Add(1) and a new goroutine at the head of its loop. */
  function Spawn(s: State, hasCtx: bool): State {
    s.(flags := s.flags.(running := true, wg := s.flags.wg + 1),
       drains := s.drains + [Drain(hasCtx, false, Top)])
  }

  function Goto(s: State, i: nat, pc: DrainPc): State
    requires i < |s.drains|
  {
    s.(drains := s.drains[i := s.drains[i].(pc := pc)])
  }

  function CountDropped(s: State, f: Frame): State {
    s.(stats := s.stats.(dropped := s.stats.dropped + 1), hist := s.hist.(dropped := s.hist.dropped + [f]))
  }

  /** Channel indices name channels that exist. */
  predicate WellFormed(s: State) {
    && s.q.cur < |s.q.chans|
    && (forall i :: 0 <= i < |s.drains| ==> DrainFits(s.drains[i], |s.q.chans|))
    && (forall k :: 0 <= k < |s.forwards| ==> ForwardFits(s.forwards[k], |s.q.chans|))
  }

  predicate DrainFits(d: Drain, n: nat) {
    (d.pc.Take? || d.pc.Flush? || d.pc.FlushHand? || d.pc.FlushSent?) ==> d.pc.buf < n
  }

  predicate ForwardFits(w: Forward, n: nat) {
    w.src < n && w.dst < n
  }

  predicate Interrupted(s: State, d: Drain) {
    s.flags.stopClosed || d.ctxDone
  }

  /** What an action of a drain goroutine does to the rest of the buffer. */
  datatype Effect =
    | Quiet
    | Receive(buf: nat)                // one frame leaves the channel
    | Deliver(frame: Frame)            // SendFrame
    | DeliverFail(frame: Frame)        // SendFrame returned an error in the drain loop
    | CountSent(frame: Frame)          // TotalSent
    | ClearRunning
    | WgDone

  /** The next action of a drain goroutine and where it leaves it; None when it is blocked. */
  function DrainAct(s: State, d: Drain, alt: bool): Option<(Effect, DrainPc)>
    requires WellFormed(s) && DrainFits(d, |s.q.chans|)
  {
    match d.pc
    case Top => Some((Quiet, if Interrupted(s, d) then FlushEnter else Measure))
    case Measure =>
      if !s.critical.Free? then None
      else Some((Quiet, if CurLen(s.q) == 0 then Exit else Take(s.q.cur)))
    case Take(b) =>
      if alt then
        if Interrupted(s, d) then Some((Quiet, FlushEnter)) else None
      else if s.q.chans[b].items == [] then None
      else Some((Receive(b), Hand(s.q.chans[b].items[0])))
    case Hand(f) => if alt then Some((DeliverFail(f), Exit)) else Some((Deliver(f), Sent(f)))
    case Sent(f) => Some((CountSent(f), CheckLow))
    case CheckLow =>
      if !s.critical.Free? then None
      else Some((Quiet, if CurLen(s.q) <= s.q.low then Exit else Top))
    case FlushEnter => if !s.critical.Free? then None else Some((Quiet, Flush(s.q.cur)))
    case Flush(b) =>
      if s.q.chans[b].items == [] then Some((Quiet, Exit))
      else Some((Receive(b), FlushHand(b, s.q.chans[b].items[0])))
    case FlushHand(b, f) => Some((Deliver(f), FlushSent(b, f)))
    case FlushSent(b, f) => Some((CountSent(f), Flush(b)))
    case Exit => if !s.critical.Free? then None else Some((ClearRunning, Leaving))
    case Leaving => Some((WgDone, Gone))
    case Gone => None
  }

  predicate Possible(s: State, e: Effect) {
    e.Receive? ==> e.buf < |s.q.chans| && s.q.chans[e.buf].items != []
  }

  function Perform(s: State, e: Effect): State
    requires Possible(s, e)
  {
    match e
    case Quiet => s
    case Receive(b) => s.(q := Pop(s.q, b))
    case Deliver(f) => s.(hist := s.hist.(handed := s.hist.handed + [f]))
    case DeliverFail(f) =>
      s.(hist := s.hist.(handed := s.hist.handed + [f], failed := s.hist.failed + [f]))
    case CountSent(f) =>
      s.(stats := s.stats.(sent := s.stats.sent + 1), hist := s.hist.(sent := s.hist.sent + [f]))
    case ClearRunning => s.(flags := s.flags.(running := false))
    case WgDone => s.(flags := s.flags.(wg := s.flags.wg - 1))
  }

  /** One action of drain goroutine `i`. */
  function DrainNext(s: State, i: nat, alt: bool): Option<State>
    requires WellFormed(s) && i < |s.drains|
  {
    assert DrainFits(s.drains[i], |s.q.chans|);
    match DrainAct(s, s.drains[i], alt)
    case None => None
    case Some((e, pc)) => Some(Goto(Perform(s, e), i, pc))
  }

  function ForwardGoto(s: State, k: nat, pc: ForwardPc): State
    requires k < |s.forwards|
  {
    s.(forwards := s.forwards[k := s.forwards[k].(pc := pc)])
  }

  /** One action of forwarder `k`. */
  function ForwardNext(s: State, k: nat): Option<State>
    requires WellFormed(s) && k < |s.forwards|
  {
    var w := s.forwards[k];
    assert ForwardFits(w, |s.q.chans|);
    match w.pc
    case Poll =>
      var items := s.q.chans[w.src].items;
      if items == [] then Some(ForwardGoto(s, k, Finished))
      else Some(ForwardGoto(s.(q := Pop(s.q, w.src)), k, Put(items[0])))
    case Put(f) =>
      var s1 := ForwardGoto(s, k, Poll);
      if |s.q.chans[w.dst].items| < s.q.chans[w.dst].cap
      then Some(s1.(q := Push(s.q, w.dst, f)))
      else Some(CountDropped(s1, f))
    case Finished => None
  }

  /** One action of a writer. */
  function WriteNext(s: State, l: Label): Option<State>
    requires WellFormed(s) && (l.WriteRefused? || l.WriteEnter? || l.WriteDecide? || l.WriteSend?)
  {
    match l
    case WriteRefused =>
      if s.critical.Free? && s.flags.stopped then Some(s) else None
    case WriteEnter(f) =>
      if s.critical.Free? && !s.flags.stopped
      then Some(s.(critical := Entered(f), stats := s.stats.(received := s.stats.received + 1),
                   hist := s.hist.(written := s.hist.written + [f])))
      else None
    case WriteDecide =>
      if !s.critical.Entered? then None
      else if CurLen(s.q) >= s.q.high
      then Some(CountDropped(s.(critical := Free), s.critical.frame))
      else Some(s.(critical := Decided(s.critical.frame)))
    case WriteSend =>
      if !s.critical.Decided? || CurLen(s.q) >= s.q.chans[s.q.cur].cap then None
      else
        var f := s.critical.frame;
        var s1 := s.(critical := Free, q := Push(s.q, s.q.cur, f),
                     hist := s.hist.(accepted := s.hist.accepted + [f]));
        Some(if s.flags.running then s1 else Spawn(s1, false))
  }

  /** The critical section of Resize. */
  function ResizeNext(s: State, capacity: int, highWM: int, lowWM: int): State
    requires WellFormed(s)
  {
    var cap := PickCapacity(capacity, s.q.chans[s.q.cur].cap);
    var high := PickHigh(highWM, cap);
    s.(q := Queue(s.q.chans + [Channel(cap, [])], |s.q.chans|, high, PickLow(lowWM, high)),
       forwards := s.forwards + [Forward(s.q.cur, |s.q.chans|, Poll)])
  }

  /** The successor under a label; None when the action is not enabled. */
  function Next(s: State, l: Label): Option<State>
    requires WellFormed(s)
  {
    match l
    case Start =>
      if !s.critical.Free? then None
      else Some(if s.flags.running || s.flags.stopped then s else Spawn(s, true))
    case StopMark =>
      if s.critical.Free? && !s.flags.stopped
      then Some(s.(flags := s.flags.(stopped := true))) else None
    case StopClose =>
      if s.flags.stopped && !s.flags.stopClosed
      then Some(s.(flags := s.flags.(stopClosed := true))) else None
    case StopReturn =>
      if s.flags.stopClosed && !s.flags.stopReturned && s.flags.wg == 0
      then Some(s.(flags := s.flags.(stopReturned := true))) else None
    case StopAgain =>
      if s.critical.Free? && s.flags.stopped then Some(s) else None
    case Resize(capacity, highWM, lowWM) =>
      if !s.critical.Free? then None else Some(ResizeNext(s, capacity, highWM, lowWM))
    case Cancel(i) =>
      if i < |s.drains| && s.drains[i].hasCtx
      then Some(s.(drains := s.drains[i := s.drains[i].(ctxDone := true)])) else None
    case DrainStep(i, alt) =>
      if i < |s.drains| then DrainNext(s, i, alt) else None
    case ForwardStep(k) =>
      if k < |s.forwards| then ForwardNext(s, k) else None
    case _ => WriteNext(s, l)
  }

  lemma DrainWellFormed(s: State, i: nat, alt: bool)
    requires WellFormed(s) && i < |s.drains| && DrainNext(s, i, alt).Some?
    ensures WellFormed(DrainNext(s, i, alt).value)
  {
    assert DrainFits(s.drains[i], |s.q.chans|);
    var (e, pc) := DrainAct(s, s.drains[i], alt).value;
    var s1 := Perform(s, e);
    assert |s1.q.chans| == |s.q.chans| && s1.forwards == s.forwards && s1.q.cur == s.q.cur && s1.drains == s.drains;
  }

  lemma NextWellFormed(s: State, l: Label)
    requires WellFormed(s) && Next(s, l).Some?
    ensures WellFormed(Next(s, l).value)
  {
    match l {
      case DrainStep(i, alt) => DrainWellFormed(s, i, alt);
      case _ =>
    }
  }

  /** The state after a whole run of labels; None when some label was not enabled. */
  function Run(s: State, ls: seq<Label>): (r: Option<State>)
    requires WellFormed(s)
    ensures r.Some? ==> WellFormed(r.value)
    decreases |ls|
  {
    if ls == [] then Some(s)
    else
      match Next(s, ls[0])
      case None => None
      case Some(s1) => NextWellFormed(s, ls[0]); Run(s1, ls[1..])
  }
}
