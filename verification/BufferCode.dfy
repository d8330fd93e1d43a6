/**
 The methods of internal/streaming/buffer.go as code that updates the buffer's
 fields in place.  The object carries, as a ghost, the labels it has performed
 since construction; `Valid` says that they form a run of the transition system
 that ends in the object's state, so every guarantee proved of runs holds of it.
 */
module BufferCode {
  import opened Wrappers
  import opened BufferMachine
  import opened BufferTheorems

  class BackpressureBuffer {
    var highWatermark: int
    var lowWatermark: int
    var channels: seq<Channel>         // every channel made so far
    var buffer: nat                    // which of them is b.buffer
    var running: bool
    var stopped: bool
    var stopClosed: bool
    var wg: int
    var stats: Stats
    ghost var stopReturned: bool
    ghost var drains: seq<Drain>
    ghost var forwards: seq<Forward>
    ghost var hist: History
    ghost var trace: seq<Label>
    ghost const capacity0: int
    ghost const high0: int
    ghost const low0: int

    /** The machine state between two critical sections. */
    ghost function View(): State
      reads this
    {
      State(Queue(channels, buffer, highWatermark, lowWatermark),
            Flags(running, stopped, stopClosed, stopReturned, wg), drains, forwards, Free,
            stats, hist)
    }

    ghost predicate Valid()
      reads this
    {
      && WellFormed(View())
      && highWatermark <= channels[buffer].cap
      && Reaches(capacity0, high0, low0, trace, View())
    }

    constructor (bufferCapacity: int, highWM: int, lowWM: int)
      ensures Valid() && View() == Init(bufferCapacity, highWM, lowWM) && trace == []
      ensures capacity0 == bufferCapacity && high0 == highWM && low0 == lowWM
    {
      var capacity := if bufferCapacity <= 0 then 1024 else bufferCapacity;
      var high := if highWM <= 0 || highWM > capacity then capacity else highWM;
      highWatermark := high;
      lowWatermark := if lowWM < 0 || lowWM > high then high / 2 else lowWM;
      channels, buffer := [Channel(capacity, [])], 0;
      running, stopped, stopClosed, wg := false, false, false, 0;
      stats := Stats(0, 0, 0);
      stopReturned, drains, forwards := false, [], [];
      hist := History([], [], [], [], [], []);
      trace := [];
      capacity0, high0, low0 := bufferCapacity, highWM, lowWM;
    }

    /** The labels of one uninterrupted Write. */
    ghost function WriteLabels(s: State, frame: Frame): seq<Label>
      requires WellFormed(s)
    {
      if s.flags.stopped then [WriteRefused]
      else if CurLen(s.q) >= s.q.high then [WriteEnter(frame), WriteDecide]
      else [WriteEnter(frame), WriteDecide, WriteSend]
    }

    /** What one uninterrupted Write does. */
    ghost function Written(s: State, frame: Frame): State
      requires WellFormed(s)
    {
      var entered := s.(stats := s.stats.(received := s.stats.received + 1),
                        hist := s.hist.(written := s.hist.written + [frame]));
      if s.flags.stopped then s
      else if CurLen(s.q) >= s.q.high then CountDropped(entered, frame)
      else Enqueued(entered, frame)
    }

    ghost function Enqueued(s: State, frame: Frame): State
      requires WellFormed(s)
    {
      var sent := s.(q := Push(s.q, s.q.cur, frame),
                     hist := s.hist.(accepted := s.hist.accepted + [frame]));
      if s.flags.running then sent else Spawn(sent, false)
    }

    lemma WriteRun(s: State, frame: Frame)
      requires Reaches(capacity0, high0, low0, trace, s)
      requires WellFormed(s) && s.critical.Free? && s.q.high <= s.q.chans[s.q.cur].cap
      ensures Reaches(capacity0, high0, low0, trace + WriteLabels(s, frame), Written(s, frame))
      ensures WellFormed(Written(s, frame))
    {
      if s.flags.stopped {
        var ls, s' := Do(capacity0, high0, low0, trace, s, WriteRefused);
      } else {
        var ls, s1 := Do(capacity0, high0, low0, trace, s, WriteEnter(frame));
        var ls2, s2 := Do(capacity0, high0, low0, ls, s1, WriteDecide);
        if CurLen(s.q) < s.q.high {
          var ls3, s3 := Do(capacity0, high0, low0, ls2, s2, WriteSend);
          assert ls3 == trace + WriteLabels(s, frame);
        } else {
          assert ls2 == trace + WriteLabels(s, frame);
        }
      }
    }

    /** The channel send and the spawn at the end of Write. */
    method Enqueue(frame: Frame)
      requires WellFormed(View())
      modifies this`channels, this`hist, this`running, this`wg, this`drains
      ensures View() == Enqueued(old(View()), frame)
    {
      channels := channels[buffer := channels[buffer].(items := channels[buffer].items + [frame])];
      hist := hist.(accepted := hist.accepted + [frame]);
      if !running {
        running := true;
        wg := wg + 1;
        drains := drains + [Drain(false, false, Top)];
      }
    }

    method Write(frame: Frame) returns (ok: bool)
      requires Valid()
      modifies this
      ensures Valid()
      ensures ok == !old(stopped)
      ensures View() == Written(old(View()), frame)
    {
      WriteRun(View(), frame);
      trace := trace + WriteLabels(View(), frame);
      ok := !stopped;
      if ok {
        stats := stats.(received := stats.received + 1);
        hist := hist.(written := hist.written + [frame]);
        if |channels[buffer].items| >= highWatermark {
          stats := stats.(dropped := stats.dropped + 1);
          hist := hist.(dropped := hist.dropped + [frame]);
        } else {
          Enqueue(frame);
        }
      }
    }

    method Start()
      requires Valid()
      modifies this
      ensures Valid()
      ensures View() == if old(running) || old(stopped) then old(View()) else Spawn(old(View()), true)
    {
      var ls, s' := Do(capacity0, high0, low0, trace, View(), BufferMachine.Start);
      trace := ls;
      if running || stopped {
        return;
      }
      running := true;
      wg := wg + 1;
      drains := drains + [Drain(true, false, Top)];
    }

    ghost function Signalled(s: State): State {
      s.(flags := s.flags.(stopped := true, stopClosed := true))
    }

    lemma StopRun(s: State)
      requires Reaches(capacity0, high0, low0, trace, s)
      requires WellFormed(s) && s.critical.Free? && !s.flags.stopped
      ensures Reaches(capacity0, high0, low0, trace + [StopMark] + [StopClose], Signalled(s))
      ensures WellFormed(Signalled(s))
    {
      RunControl(Init(capacity0, high0, low0), trace);
      var ls, s1 := Do(capacity0, high0, low0, trace, s, StopMark);
      ls, s1 := Do(capacity0, high0, low0, ls, s1, StopClose);
    }

    /** Stop up to the point where it starts to wait for the goroutines. */
    method SignalStop()
      requires Valid()
      modifies this
      ensures Valid()
      ensures View() == if old(stopped) then old(View()) else Signalled(old(View()))
    {
      if stopped {
        var ls, s := Do(capacity0, high0, low0, trace, View(), StopAgain);
        trace := ls;
        return;
      }
      StopRun(View());
      trace := trace + [StopMark] + [StopClose];
      stopped := true;
      stopClosed := true;
    }

    /** The critical section of Resize. */
    method SwapChannel(newCapacity: int, newHighWM: int, newLowWM: int)
      requires WellFormed(View())
      modifies this`channels, this`buffer, this`highWatermark, this`lowWatermark, this`forwards
      ensures View() == ResizeNext(old(View()), newCapacity, newHighWM, newLowWM)
    {
      var capacity := if newCapacity <= 0 then channels[buffer].cap else newCapacity;
      var high := if newHighWM <= 0 || newHighWM > capacity then capacity else newHighWM;
      forwards := forwards + [Forward(buffer, |channels|, Poll)];
      channels, buffer := channels + [Channel(capacity, [])], |channels|;
      highWatermark, lowWatermark := high, if newLowWM < 0 || newLowWM > high then high / 2 else newLowWM;
    }

    method ResizeTo(newCapacity: int, newHighWM: int, newLowWM: int)
      requires Valid()
      modifies this
      ensures Valid()
      ensures View() == ResizeNext(old(View()), newCapacity, newHighWM, newLowWM)
    {
      var ls, s' := Do(capacity0, high0, low0, trace, View(), Resize(newCapacity, newHighWM, newLowWM));
      trace := ls;
      SwapChannel(newCapacity, newHighWM, newLowWM);
    }

    // -------------------------------------------- the drain goroutine, action by action

    /** The run goes on with an action of goroutine `i`. */
    lemma Acted(i: nat, alt: bool, e: Effect, pc: DrainPc)
      requires Valid() && i < |drains| && DrainFits(drains[i], |channels|)
      requires DrainAct(View(), drains[i], alt) == Some((e, pc))
      ensures Possible(View(), e)
      ensures
        var s' := Goto(Perform(View(), e), i, pc);
        Reaches(capacity0, high0, low0, trace + [DrainStep(i, alt)], s') && WellFormed(s')
    {
      var ls, s' := Do(capacity0, high0, low0, trace, View(), DrainStep(i, alt));
    }

    /** Goroutine `i` moves to `pc` in an action that only reads. */
    ghost method Look(i: nat, alt: bool, pc: DrainPc)
      requires Valid() && i < |drains| && DrainFits(drains[i], |channels|)
      requires DrainAct(View(), drains[i], alt) == Some((Quiet, pc))
      modifies this`drains, this`trace
      ensures Valid()
      ensures drains == old(drains)[i := old(drains)[i].(pc := pc)]
    {
      Acted(i, alt, Quiet, pc);
      trace := trace + [DrainStep(i, alt)];
      drains := drains[i := drains[i].(pc := pc)];
    }

    /** A frame leaves channel `b`. */
    method ReceiveFrom(i: nat, b: nat) returns (frame: Frame)
      requires Valid() && i < |drains| && b < |channels| && channels[b].items != []
      requires drains[i].pc == Take(b) || drains[i].pc == Flush(b)
      modifies this`drains, this`channels, this`trace
      ensures Valid()
      ensures frame == old(channels[b].items[0])
      ensures channels == old(channels)[b := old(channels[b]).(items := old(channels[b].items)[1..])]
      ensures
        var pc := if old(drains[i].pc.Take?) then Hand(frame) else FlushHand(b, frame);
        drains == old(drains)[i := old(drains)[i].(pc := pc)]
    {
      frame := channels[b].items[0];
      ghost var pc := if drains[i].pc.Take? then Hand(frame) else FlushHand(b, frame);
      Acted(i, false, Receive(b), pc);
      trace := trace + [DrainStep(i, false)];
      channels := channels[b := channels[b].(items := channels[b].items[1..])];
      drains := drains[i := drains[i].(pc := pc)];
    }

    /** The call of the sender; `fail` is what it answered. */
    method SendFrame(i: nat, frame: Frame, fail: bool)
      requires Valid() && i < |drains|
      requires drains[i].pc == Hand(frame) || (drains[i].pc.FlushHand? && drains[i].pc.frame == frame)
      modifies this`drains, this`hist, this`trace
      ensures Valid()
      ensures hist.handed == old(hist.handed) + [frame] && hist.accepted == old(hist.accepted)
      ensures hist.failed == old(hist.failed) + if fail && old(drains[i].pc.Hand?) then [frame] else []
      ensures |drains| == |old(drains)| && drains[i] == old(drains[i]).(pc :=
        if old(drains[i].pc.FlushHand?) then FlushSent(old(drains[i].pc).buf, frame)
        else if fail then Exit else Sent(frame))
    {
      ghost var pc :=
        if drains[i].pc.FlushHand? then FlushSent(drains[i].pc.buf, frame)
        else if fail then Exit else Sent(frame);
      ghost var lost := fail && drains[i].pc.Hand?;
      Acted(i, fail, if lost then DeliverFail(frame) else Deliver(frame), pc);
      trace := trace + [DrainStep(i, fail)];
      hist := hist.(handed := hist.handed + [frame]);
      if lost {
        hist := hist.(failed := hist.failed + [frame]);
      }
      drains := drains[i := drains[i].(pc := pc)];
    }

    method CountSent(i: nat, ghost frame: Frame)
      requires Valid() && i < |drains|
      requires drains[i].pc == Sent(frame) || (drains[i].pc.FlushSent? && drains[i].pc.frame == frame)
      modifies this`drains, this`hist, this`stats, this`trace
      ensures Valid()
      ensures stats == old(stats).(sent := old(stats.sent) + 1)
      ensures hist == old(hist).(sent := old(hist.sent) + [frame])
      ensures |drains| == |old(drains)|
      ensures drains[i] == old(drains[i]).(pc :=
        if old(drains[i].pc.Sent?) then CheckLow else Flush(old(drains[i].pc).buf))
    {
      ghost var pc := if drains[i].pc.Sent? then CheckLow else Flush(drains[i].pc.buf);
      Acted(i, false, Effect.CountSent(frame), pc);
      trace := trace + [DrainStep(i, false)];
      stats := stats.(sent := stats.sent + 1);
      hist := hist.(sent := hist.sent + [frame]);
      drains := drains[i := drains[i].(pc := pc)];
    }

    /** One round of flushRemaining: the send's answer is ignored and the frame counted. */
    method FlushOne(i: nat, buf: nat, sendFails: Frame -> bool)
      requires Valid() && i < |drains| && drains[i].pc == Flush(buf)
      requires buf < |channels| && channels[buf].items != []
      modifies this`drains, this`channels, this`hist, this`stats, this`trace
      ensures Valid() && |drains| == |old(drains)| && drains[i].pc == Flush(buf)
      ensures |channels| == |old(channels)| && channels[buf].items == old(channels[buf].items)[1..]
      ensures hist.handed == old(hist.handed) + [old(channels[buf].items[0])]
      ensures hist.accepted == old(hist.accepted) && hist.failed == old(hist.failed)
      ensures stats == old(stats).(sent := old(stats.sent) + 1)
    {
      var frame := ReceiveFrom(i, buf);
      SendFrame(i, frame, sendFails(frame));
      CountSent(i, frame);
    }

    /** The loop of flushRemaining on the captured channel. */
    method FlushLoop(i: nat, buf: nat, sendFails: Frame -> bool)
      requires Valid() && i < |drains| && drains[i].pc == Flush(buf) && buf < |channels|
      modifies this`drains, this`channels, this`hist, this`stats, this`trace
      ensures Valid() && |drains| == |old(drains)| && drains[i].pc == Flush(buf)
      ensures |channels| == |old(channels)| && channels[buf].items == []
      ensures hist.handed == old(hist.handed) + old(channels[buf].items)
      ensures hist.accepted == old(hist.accepted) && hist.failed == old(hist.failed)
      ensures stats == old(stats).(sent := old(stats.sent) + |old(channels[buf].items)|)
    {
      while channels[buf].items != []
        invariant Valid()
        invariant |drains| == |old(drains)| && |channels| == |old(channels)| && drains[i].pc == Flush(buf)
        invariant hist.accepted == old(hist.accepted) && hist.failed == old(hist.failed)
        invariant hist.handed + channels[buf].items == old(hist.handed) + old(channels[buf].items)
        invariant stats == old(stats).(sent := old(stats.sent) + |old(channels[buf].items)| - |channels[buf].items|)
        decreases |channels[buf].items|
      {
        ghost var items := channels[buf].items;
        FlushOne(i, buf, sendFails);
        assert items == [items[0]] + items[1..];
      }
    }

    /** flushRemaining of goroutine `i`, undisturbed: everything queued is handed over in order and counted,
        whatever the sender answers. */
    method FlushRemaining(i: nat, sendFails: Frame -> bool)
      requires Valid() && i < |drains| && drains[i].pc == FlushEnter
      modifies this`drains, this`channels, this`hist, this`stats, this`trace
      ensures Valid()
      ensures |drains| == |old(drains)| && drains[i].pc == Exit
      ensures |channels| == |old(channels)| && channels[buffer].items == []
      ensures hist.handed == old(hist.handed) + old(channels[buffer].items)
      ensures hist.accepted == old(hist.accepted) && hist.failed == old(hist.failed)
      ensures stats == old(stats).(sent := old(stats.sent) + |old(channels[buffer].items)|)
    {
      Look(i, false, Flush(buffer));
      FlushLoop(i, buffer, sendFails);
      Look(i, false, Exit);
    }

    /** The first deferred function of both drain loops. */
    method ClearRunning(i: nat)
      requires Valid() && i < |drains| && drains[i].pc == Exit
      modifies this`drains, this`running, this`trace
      ensures Valid() && !running
      ensures |drains| == |old(drains)| && drains[i].pc == Leaving
    {
      Acted(i, false, Effect.ClearRunning, Leaving);
      trace := trace + [DrainStep(i, false)];
      running := false;
      drains := drains[i := drains[i].(pc := Leaving)];
    }

    /** The second one. */
    method WgDone(i: nat)
      requires Valid() && i < |drains| && drains[i].pc == Leaving
      modifies this`drains, this`wg, this`trace
      ensures Valid() && wg == old(wg) - 1
      ensures |drains| == |old(drains)| && drains[i].pc == Gone
    {
      Acted(i, false, Effect.WgDone, Gone);
      trace := trace + [DrainStep(i, false)];
      wg := wg - 1;
      drains := drains[i := drains[i].(pc := Gone)];
    }

    method LeaveLoop(i: nat)
      requires Valid() && i < |drains| && drains[i].pc == Exit
      modifies this`drains, this`running, this`wg, this`trace
      ensures Valid() && !running && wg == old(wg) - 1
      ensures |drains| == |old(drains)| && drains[i].pc == Gone
    {
      ClearRunning(i);
      WgDone(i);
    }

    /** One frame goes from the captured channel to the sender. */
    method HandOver(i: nat, buf: nat, sendFails: Frame -> bool) returns (sent: bool)
      requires Valid() && i < |drains| && drains[i].pc == Take(buf)
      requires buf < |channels| && channels[buf].items != []
      modifies this`drains, this`channels, this`hist, this`stats, this`trace
      ensures Valid() && |drains| == |old(drains)| && |channels| == |old(channels)|
      ensures drains[i] == old(drains[i]).(pc := if sent then CheckLow else Exit)
      ensures channels[buf].items == old(channels[buf].items)[1..]
      ensures hist.handed == old(hist.handed) + [old(channels[buf].items[0])]
      ensures sent == !sendFails(old(channels[buf].items[0]))
      ensures stats == old(stats).(sent := old(stats.sent) + if sent then 1 else 0)
      ensures hist.failed == old(hist.failed) + if sent then [] else [old(channels[buf].items[0])]
    {
      var frame := ReceiveFrom(i, buf);
      SendFrame(i, frame, sendFails(frame));
      sent := !sendFails(frame);
      if sent {
        CountSent(i, frame);
      }
    }

    /** One pass of drainLoop or drainLoopCtx below the first select, undisturbed.  `more` says whether the
        goroutine is back at the head of its loop. */
    method DrainOnce(i: nat, sendFails: Frame -> bool) returns (more: bool)
      requires Valid() && i < |drains| && drains[i].pc == Measure
      modifies this`drains, this`channels, this`hist, this`stats, this`trace
      ensures Valid()
      ensures |drains| == |old(drains)| && |channels| == |old(channels)|
      ensures drains[i] == old(drains[i]).(pc := if more then Top else Exit)
      ensures old(channels[buffer].items) == [] ==>
        !more && channels == old(channels) && hist == old(hist) && stats == old(stats)
      ensures old(channels[buffer].items) != [] ==>
        var fails := sendFails(old(channels[buffer].items[0]));
        && channels[buffer].items == old(channels[buffer].items)[1..]
        && hist.handed == old(hist.handed) + [old(channels[buffer].items[0])]
        && stats == old(stats).(sent := old(stats.sent) + if fails then 0 else 1)
        && hist.failed == old(hist.failed) + (if fails then [old(channels[buffer].items[0])] else [])
        && more == (!fails && |channels[buffer].items| > lowWatermark)
    {
      var n, buf := |channels[buffer].items|, buffer;
      if n == 0 {
        Look(i, false, Exit);
        return false;
      }
      Look(i, false, Take(buf));
      var sent := HandOver(i, buf, sendFails);
      if !sent {
        return false;
      }
      var shouldStop := |channels[buffer].items| <= lowWatermark;
      Look(i, false, if shouldStop then Exit else Top);
      more := !shouldStop;
    }

    /** Frames counted as sent or failed, less frames handed over: a drain goroutine at rest keeps it. */
    ghost function Balance(): int
      reads this
    {
      stats.sent + |hist.failed| - |hist.handed|
    }

    /** One whole turn of the loop, undisturbed. */
    method Turn(i: nat, ctxDone: bool, sendFails: Frame -> bool) returns (more: bool)
      requires Valid() && i < |drains| && drains[i].pc == Top && drains[i].ctxDone == ctxDone
      modifies this`drains, this`channels, this`hist, this`stats, this`trace
      ensures Valid()
      ensures |drains| == |old(drains)| && |channels| == |old(channels)|
      ensures drains[i].pc == (if more then Top else Exit) && (more ==> drains[i].ctxDone == ctxDone)
      ensures hist.handed + channels[buffer].items == old(hist.handed) + old(channels[buffer].items)
      ensures more ==> |channels[buffer].items| < |old(channels[buffer].items)| && !stopClosed && !ctxDone
      ensures Balance() == old(Balance()) && stats == old(stats).(sent := stats.sent)
      ensures |hist.failed| <= |old(hist.failed)| + (if more then 0 else 1)
      ensures !more ==> Rested(sendFails)
      ensures !more && (stopClosed || ctxDone) ==> channels[buffer].items == []
    {
      if stopClosed || ctxDone {
        FlushTurn(i, sendFails);
        return false;
      }
      more := PassTurn(i, sendFails);
    }

    /** A turn without a signal. */
    method PassTurn(i: nat, sendFails: Frame -> bool) returns (more: bool)
      requires Valid() && i < |drains| && drains[i].pc == Top && !stopClosed && !drains[i].ctxDone
      modifies this`drains, this`channels, this`hist, this`stats, this`trace
      ensures Valid() && |drains| == |old(drains)| && |channels| == |old(channels)|
      ensures drains[i] == old(drains[i]).(pc := if more then Top else Exit)
      ensures hist.handed + channels[buffer].items == old(hist.handed) + old(channels[buffer].items)
      ensures Balance() == old(Balance()) && stats == old(stats).(sent := stats.sent)
      ensures |hist.failed| <= |old(hist.failed)| + (if more then 0 else 1)
      ensures if more then |channels[buffer].items| < |old(channels[buffer].items)| else Rested(sendFails)
    {
      Look(i, false, Measure);
      ghost var items := channels[buffer].items;
      more := DrainOnce(i, sendFails);
      assert items != [] ==> items == [items[0]] + items[1..];
    }

    /** The last turn, after a stop or cancel signal. */
    method FlushTurn(i: nat, sendFails: Frame -> bool)
      requires Valid() && i < |drains| && drains[i].pc == Top && (stopClosed || drains[i].ctxDone)
      modifies this`drains, this`channels, this`hist, this`stats, this`trace
      ensures Valid() && |drains| == |old(drains)| && |channels| == |old(channels)| && drains[i].pc == Exit
      ensures hist.handed == old(hist.handed) + old(channels[buffer].items) && channels[buffer].items == []
      ensures Balance() == old(Balance()) && stats == old(stats).(sent := stats.sent)
      ensures hist.failed == old(hist.failed)
    {
      Look(i, false, FlushEnter);
      FlushRemaining(i, sendFails);
    }

    /** Why a drain goroutine may leave its loop. */
    ghost predicate Rested(sendFails: Frame -> bool)
      reads this
      requires buffer < |channels|
    {
      || channels[buffer].items == []
      || (hist.handed != [] && sendFails(hist.handed[|hist.handed| - 1]))
      || |channels[buffer].items| <= lowWatermark
    }

    /** A drain goroutine from spawn to end, undisturbed: it hands over a prefix of the queue in order and
        stops early only on a failed send or at the low watermark; a stop signal makes it flush everything. */
    method DrainLoop(i: nat, ctxDone: bool, sendFails: Frame -> bool)
      requires Valid() && i < |drains| && drains[i].pc == Top && drains[i].ctxDone == ctxDone
      modifies this`drains, this`channels, this`hist, this`stats, this`running, this`wg, this`trace
      ensures Valid()
      ensures !running && wg == old(wg) - 1 && |drains| == |old(drains)| && drains[i].pc == Gone
      ensures hist.handed + channels[buffer].items == old(hist.handed) + old(channels[buffer].items)
      ensures Balance() == old(Balance()) && stats == old(stats).(sent := stats.sent)
      ensures |hist.failed| <= |old(hist.failed)| + 1
      ensures Rested(sendFails)
      ensures stopClosed || ctxDone ==> channels[buffer].items == []
    {
      var more := true;
      while more
        invariant Valid()
        invariant |drains| == |old(drains)| && |channels| == |old(channels)| && wg == old(wg)
        invariant drains[i].pc == (if more then Top else Exit) && (more ==> drains[i].ctxDone == ctxDone)
        invariant hist.handed + channels[buffer].items == old(hist.handed) + old(channels[buffer].items)
        invariant Balance() == old(Balance()) && stats == old(stats).(sent := stats.sent)
        invariant |hist.failed| <= |old(hist.failed)| + (if more then 0 else 1)
        invariant !more ==> Rested(sendFails)
        invariant !more && (stopClosed || ctxDone) ==> channels[buffer].items == []
        decreases more, |channels[buffer].items|
      {
        more := Turn(i, ctxDone, sendFails);
      }
      LeaveLoop(i);
    }

    // -------------------------------------------- the forwarder of Resize

    method ForwardReceive(k: nat, src: nat, dst: nat) returns (item: Frame)
      requires Valid() && k < |forwards| && forwards[k] == Forward(src, dst, Poll)
      requires src < |channels| && channels[src].items != []
      modifies this`forwards, this`channels, this`trace
      ensures Valid() && |forwards| == |old(forwards)| && forwards[k] == Forward(src, dst, Put(item))
      ensures item == old(channels[src].items[0])
      ensures channels == old(channels)[src := old(channels[src]).(items := old(channels[src].items)[1..])]
    {
      var ls, s := Do(capacity0, high0, low0, trace, View(), ForwardStep(k));
      trace := ls;
      item := channels[src].items[0];
      channels := channels[src := channels[src].(items := channels[src].items[1..])];
      forwards := forwards[k := Forward(src, dst, Put(item))];
    }

    /** The non-blocking send; a full channel turns the frame into a drop. */
    method ForwardPut(k: nat, src: nat, dst: nat, item: Frame)
      requires Valid() && k < |forwards| && forwards[k] == Forward(src, dst, Put(item))
      requires dst < |channels|
      modifies this`forwards, this`channels, this`stats, this`hist, this`trace
      ensures Valid() && |forwards| == |old(forwards)| && forwards[k] == Forward(src, dst, Poll)
      ensures if |old(channels[dst].items)| < old(channels[dst].cap)
              then channels == old(channels)[dst := old(channels[dst]).(items := old(channels[dst].items) + [item])]
                   && stats == old(stats)
              else channels == old(channels) && stats == old(stats).(dropped := old(stats.dropped) + 1)
    {
      var ls, s := Do(capacity0, high0, low0, trace, View(), ForwardStep(k));
      trace := ls;
      if |channels[dst].items| < channels[dst].cap {
        channels := channels[dst := channels[dst].(items := channels[dst].items + [item])];
      } else {
        stats := stats.(dropped := stats.dropped + 1);
        hist := hist.(dropped := hist.dropped + [item]);
      }
      forwards := forwards[k := Forward(src, dst, Poll)];
    }

    /** forwardItems, undisturbed: the old channel is emptied, the oldest frames that fit keep their order
        behind what the new channel already held, and each frame that does not fit is one drop. */
    method ForwardItems(k: nat, src: nat, dst: nat)
      requires Valid() && k < |forwards| && forwards[k] == Forward(src, dst, Poll)
      requires src < |channels| && dst < |channels| && src != dst
      requires |channels[dst].items| <= channels[dst].cap
      modifies this`forwards, this`channels, this`stats, this`hist, this`trace
      ensures Valid() && |channels| == |old(channels)| && channels[src].items == []
      ensures
        var room := old(channels[dst].cap) - |old(channels[dst].items)|;
        var moved := if |old(channels[src].items)| <= room then |old(channels[src].items)| else room;
        && channels[dst].items == old(channels[dst].items) + old(channels[src].items)[..moved]
        && stats == old(stats).(dropped := old(stats.dropped) + |old(channels[src].items)| - moved)
    {
      ghost var items := channels[src].items;
      ghost var room := channels[dst].cap - |channels[dst].items|;
      ghost var n := 0;
      while channels[src].items != []
        invariant Valid() && k < |forwards| && forwards[k] == Forward(src, dst, Poll)
        invariant |channels| == |old(channels)| && channels[dst].cap == old(channels[dst].cap)
        invariant n <= |items| && channels[src].items == items[n..]
        invariant channels[dst].items == old(channels[dst].items) + items[..if n <= room then n else room]
        invariant stats == old(stats).(dropped := old(stats.dropped) + if n <= room then 0 else n - room)
        decreases |channels[src].items|
      {
        var item := ForwardReceive(k, src, dst);
        ForwardPut(k, src, dst, item);
        assert items[..n + 1] == items[..n] + [item];
        n := n + 1;
      }
      FinishForward(k, src, dst);
    }

    ghost method FinishForward(k: nat, src: nat, dst: nat)
      requires Valid() && k < |forwards| && forwards[k] == Forward(src, dst, Poll)
      requires src < |channels| && channels[src].items == []
      modifies this`forwards, this`trace
      ensures Valid()
    {
      var ls, s := Do(capacity0, high0, low0, trace, View(), ForwardStep(k));
      trace := ls;
      forwards := forwards[k := Forward(src, dst, Finished)];
    }
  }
}
