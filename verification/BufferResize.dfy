/** Which Resize keeps the promise that the send under the lock never blocks. */
module BufferResize {
  import opened Wrappers
  import opened BufferMachine
  import opened BufferInvariants
  import opened BufferTheorems
  import opened BufferStop

  const CARRIED: Forward -> nat := (w: Forward) => if w.pc.Put? then 1 else 0

  /** The frames in all channels and in the forwarders' hands. */
  function Stored(s: State): nat { Tally(s.q.chans, LENGTH) + Tally(s.forwards, CARRIED) }

  /** A Resize leaves room above its high watermark for everything stored. */
  predicate Roomy(s: State, l: Label)
    requires WellFormed(s)
  {
    l.Resize? ==>
      var cap := PickCapacity(l.capacity, s.q.chans[s.q.cur].cap);
      PickHigh(l.highWM, cap) + Stored(s) <= cap
  }

  predicate RoomyRun(s: State, ls: seq<Label>)
    requires WellFormed(s)
    decreases |ls|
  {
    ls != [] && Next(s, ls[0]).Some? ==>
      Roomy(s, ls[0]) && (NextWellFormed(s, ls[0]); RoomyRun(Next(s, ls[0]).value, ls[1..]))
  }

  // ------------------------------------------------ what a roomy run keeps

  /** What may still flow into the current channel fits above its high watermark, and everything that is or
      may come to be in it fits into it. */
  predicate Room(s: State)
    requires WellFormed(s)
  {
    && (forall k :: 0 <= k < |s.forwards| ==> s.forwards[k].src < s.q.cur)
    && Stored(s) - CurLen(s.q) + s.q.high <= s.q.chans[s.q.cur].cap
    && Stored(s) + (if s.critical.Decided? then 1 else 0) <= s.q.chans[s.q.cur].cap
  }

  lemma DrainRoom(s: State, i: nat, alt: bool)
    requires WellFormed(s) && Room(s) && i < |s.drains| && DrainNext(s, i, alt).Some?
    requires WellFormed(DrainNext(s, i, alt).value)
    ensures Room(DrainNext(s, i, alt).value)
  {
    assert DrainFits(s.drains[i], |s.q.chans|);
    var (e, pc) := DrainAct(s, s.drains[i], alt).value;
    if e.Receive? {
      var c := s.q.chans[e.buf];
      TallyUpdate(s.q.chans, LENGTH, e.buf, c.(items := c.items[1..]));
    }
  }

  lemma PollRoom(s: State, k: nat)
    requires WellFormed(s) && Room(s) && k < |s.forwards| && s.forwards[k].pc.Poll?
    requires WellFormed(ForwardNext(s, k).value)
    ensures Room(ForwardNext(s, k).value)
  {
    var w := s.forwards[k];
    assert ForwardFits(w, |s.q.chans|);
    var c := s.q.chans[w.src];
    if c.items == [] {
      TallyUpdate(s.forwards, CARRIED, k, w.(pc := Finished));
    } else {
      TallyUpdate(s.forwards, CARRIED, k, w.(pc := Put(c.items[0])));
      TallyUpdate(s.q.chans, LENGTH, w.src, c.(items := c.items[1..]));
    }
  }

  lemma PutRoom(s: State, k: nat)
    requires WellFormed(s) && Room(s) && k < |s.forwards| && s.forwards[k].pc.Put?
    requires WellFormed(ForwardNext(s, k).value)
    ensures Room(ForwardNext(s, k).value)
  {
    var w := s.forwards[k];
    assert ForwardFits(w, |s.q.chans|);
    var c := s.q.chans[w.dst];
    TallyUpdate(s.forwards, CARRIED, k, w.(pc := Poll));
    TallyUpdate(s.q.chans, LENGTH, w.dst, c.(items := c.items + [w.pc.frame]));
  }

  lemma SendRoom(s: State)
    requires WellFormed(s) && Room(s) && Next(s, WriteSend).Some? && WellFormed(Next(s, WriteSend).value)
    ensures Room(Next(s, WriteSend).value)
  {
    var c := s.q.chans[s.q.cur];
    TallyUpdate(s.q.chans, LENGTH, s.q.cur, c.(items := c.items + [s.critical.frame]));
  }

  lemma ResizeRoom(s: State, l: Label)
    requires WellFormed(s) && Room(s) && l.Resize? && Roomy(s, l) && Next(s, l).Some? && WellFormed(Next(s, l).value)
    ensures Room(Next(s, l).value)
  {
    var cap := PickCapacity(l.capacity, s.q.chans[s.q.cur].cap);
    TallyAppend(s.q.chans, LENGTH, Channel(cap, []));
    TallyAppend(s.forwards, CARRIED, Forward(s.q.cur, |s.q.chans|, Poll));
  }

  lemma RoomStep(s: State, l: Label)
    requires WellFormed(s) && Room(s) && Roomy(s, l) && Next(s, l).Some? && WellFormed(Next(s, l).value)
    ensures Room(Next(s, l).value)
  {
    match l {
      case DrainStep(i, alt) => DrainRoom(s, i, alt);
      case ForwardStep(k) => if s.forwards[k].pc.Poll? { PollRoom(s, k); } else { PutRoom(s, k); }
      case WriteSend => SendRoom(s);
      case Resize(_, _, _) => ResizeRoom(s, l);
      case _ =>
    }
  }

  lemma {:induction false} RoomyKeeps(s: State, ls: seq<Label>)
    requires WellFormed(s) && Room(s) && RoomyRun(s, ls) && Run(s, ls).Some?
    ensures Room(Run(s, ls).value)
    decreases |ls|
  {
    if ls != [] {
      NextWellFormed(s, ls[0]);
      RoomStep(s, ls[0]);
      RoomyKeeps(Next(s, ls[0]).value, ls[1..]);
    }
  }

  lemma OneChannel(s: State)
    requires WellFormed(s) && |s.q.chans| == 1 && s.forwards == []
    ensures Stored(s) == CurLen(s.q)
  {
    assert s.q.chans[1..] == [] && Tally(s.q.chans[1..], LENGTH) == 0;
  }

  lemma InitRoom(capacity: int, highWM: int, lowWM: int)
    ensures Room(Init(capacity, highWM, lowWM))
  {
    OneChannel(Init(capacity, highWM, lowWM));
  }

  /** In every run whose Resizes are all roomy, a writer past the watermark test can send in every state. */
  lemma RoomyWriterNeverBlocks(capacity: int, highWM: int, lowWM: int, ls: seq<Label>, s: State)
    requires Reaches(capacity, highWM, lowWM, ls, s)
    requires RoomyRun(Init(capacity, highWM, lowWM), ls)
    ensures s.critical.Decided? ==> Next(s, WriteSend).Some?
  {
    InitRoom(capacity, highWM, lowWM);
    RoomyKeeps(Init(capacity, highWM, lowWM), ls);
    CurStored(s);
  }

  lemma CurStored(s: State)
    requires WellFormed(s)
    ensures CurLen(s.q) <= Stored(s)
  {
    TallyUpdate(s.q.chans, LENGTH, s.q.cur, s.q.chans[s.q.cur]);
  }

  // ------------------------------------------------ a Resize without room

  /** The drain goroutine works on channel `c`. */
  predicate Captured(d: Drain, c: nat) {
    (d.pc.Take? || d.pc.Flush? || d.pc.FlushHand? || d.pc.FlushSent?) && d.pc.buf == c
  }

  /** A writer holds the lock and waits for room that nobody can make: no one has captured the full channel, and
      no one can capture it without the lock. */
  predicate Stuck(s: State) {
    && WellFormed(s) && s.critical.Decided? && CurLen(s.q) >= s.q.chans[s.q.cur].cap
    && (forall i :: 0 <= i < |s.drains| ==> !Captured(s.drains[i], s.q.cur))
    && (forall k :: 0 <= k < |s.forwards| ==> s.forwards[k].src != s.q.cur)
  }

  lemma StuckDrain(s: State, i: nat, alt: bool)
    requires Stuck(s) && i < |s.drains| && DrainNext(s, i, alt).Some? && WellFormed(DrainNext(s, i, alt).value)
    ensures Stuck(DrainNext(s, i, alt).value) && DrainNext(s, i, alt).value.critical == s.critical
  {
    assert DrainFits(s.drains[i], |s.q.chans|);
    var (e, pc) := DrainAct(s, s.drains[i], alt).value;
    assert !Captured(s.drains[i], s.q.cur);
    assert !Captured(s.drains[i].(pc := pc), s.q.cur) && (e.Receive? ==> e.buf != s.q.cur);
  }

  lemma StuckForward(s: State, k: nat)
    requires Stuck(s) && k < |s.forwards| && ForwardNext(s, k).Some? && WellFormed(ForwardNext(s, k).value)
    ensures Stuck(ForwardNext(s, k).value) && ForwardNext(s, k).value.critical == s.critical
  {
    assert ForwardFits(s.forwards[k], |s.q.chans|);
  }

  lemma StuckStep(s: State, l: Label)
    requires Stuck(s) && Next(s, l).Some? && WellFormed(Next(s, l).value)
    ensures Stuck(Next(s, l).value) && Next(s, l).value.critical == s.critical
  {
    match l {
      case DrainStep(i, alt) => StuckDrain(s, i, alt);
      case ForwardStep(k) => StuckForward(s, k);
      case _ =>
    }
  }

  lemma {:induction false} StuckForever(s: State, ls: seq<Label>)
    requires Stuck(s) && Run(s, ls).Some?
    ensures Run(s, ls).value.critical == s.critical
    decreases |ls|
  {
    if ls != [] {
      NextWellFormed(s, ls[0]);
      StuckStep(s, ls[0]);
      StuckForever(Next(s, ls[0]).value, ls[1..]);
    }
  }

  /** A writer past the watermark test keeps the lock in every further run, Resize or not. */
  ghost predicate Deadlocked(s: State)
    requires WellFormed(s)
  {
    s.critical.Decided? && forall more :: Run(s, more).Some? ==> Run(s, more).value.critical == s.critical
  }

  lemma StuckIsDeadlocked(s: State)
    requires Stuck(s)
    ensures Deadlocked(s)
  {
    forall more | Run(s, more).Some? ensures Run(s, more).value.critical == s.critical {
      StuckForever(s, more);
    }
  }

  /** The start of the witness: a running refill. */
  predicate Refilling(s: State) {
    && WellFormed(s) && !s.flags.stopped && s.q.cur == 1 && |s.q.chans| == 2
    && s.forwards == [Forward(0, 1, Poll)] && s.q.high <= s.q.chans[1].cap
    && (forall i :: 0 <= i < |s.drains| ==> !Captured(s.drains[i], 1))
  }

  /** A writer fills the new channel with `k` frames. */
  lemma {:induction false} Fill(s: State, k: nat) returns (more: seq<Label>, s': State)
    requires Refilling(s) && s.critical.Free? && CurLen(s.q) + k <= s.q.high
    ensures NoResize(more) && Run(s, more) == Some(s')
    ensures Refilling(s') && s'.critical.Free? && CurLen(s'.q) == CurLen(s.q) + k
    ensures s'.q.high == s.q.high && s'.q.chans[0] == s.q.chans[0] && s'.q.chans[1].cap == s.q.chans[1].cap
    decreases k
  {
    more, s' := [], s;
    if k > 0 {
      var s1 := Next(s, WriteEnter(0)).value;
      var s2 := Next(s1, WriteDecide).value;
      var s3 := Next(s2, WriteSend).value;
      more, s' := Fill(s3, k - 1);
      RunCons(s2, WriteSend, more);
      RunCons(s1, WriteDecide, [WriteSend] + more);
      RunCons(s, WriteEnter(0), [WriteDecide] + ([WriteSend] + more));
      more := [WriteEnter(0)] + ([WriteDecide] + ([WriteSend] + more));
    }
  }

  /** The forwarder moves `k` frames. */
  lemma {:induction false} Pour(s: State, k: nat) returns (more: seq<Label>, s': State)
    requires Refilling(s) && |s.q.chans[0].items| >= k && CurLen(s.q) + k <= s.q.chans[1].cap
    ensures NoResize(more) && Run(s, more) == Some(s')
    ensures Refilling(s') && s'.critical == s.critical && CurLen(s'.q) == CurLen(s.q) + k
    ensures s'.q.chans[1].cap == s.q.chans[1].cap
    decreases k
  {
    more, s' := [], s;
    if k > 0 {
      var s1 := Next(s, ForwardStep(0)).value;
      var s2 := Next(s1, ForwardStep(0)).value;
      more, s' := Pour(s2, k - 1);
      RunCons(s1, ForwardStep(0), more);
      RunCons(s, ForwardStep(0), [ForwardStep(0)] + more);
      more := [ForwardStep(0)] + ([ForwardStep(0)] + more);
    }
  }

  /** The writer decides one frame below the watermark, then the forwarder takes all the room. */
  lemma Clog(s: State) returns (more: seq<Label>, s': State)
    requires Refilling(s) && s.critical.Free? && CurLen(s.q) == 0 && s.q.high >= 1
    requires |s.q.chans[0].items| + s.q.high > s.q.chans[1].cap
    ensures NoResize(more) && Run(s, more) == Some(s')
    ensures Stuck(s')
  {
    var fill, s1 := Fill(s, s.q.high - 1);
    var s2 := Next(s1, WriteEnter(0)).value;
    var s3 := Next(s2, WriteDecide).value;
    var pour;
    pour, s' := Pour(s3, s3.q.chans[1].cap - CurLen(s3.q));
    RunCons(s2, WriteDecide, pour);
    RunCons(s1, WriteEnter(0), [WriteDecide] + pour);
    more := fill + ([WriteEnter(0)] + ([WriteDecide] + pour));
    RunAppend(s, fill, [WriteEnter(0)] + ([WriteDecide] + pour));
  }

  /** A writer in that state is not stuck. */
  predicate CanSend(r: Option<State>)
    requires r.Some? ==> WellFormed(r.value)
  {
    r.Some? && r.value.critical.Decided? ==> Next(r.value, WriteSend).Some?
  }

  /** After `l` no writer ever finds the channel full behind the watermark test. */
  ghost predicate NeverBlocksAfter(s: State, l: Label)
    requires WellFormed(s)
  {
    forall more :: NoResize(more) ==> CanSend(Run(s, [l] + more))
  }

  lemma {:induction false} PlainIsRoomy(s: State, ls: seq<Label>)
    requires WellFormed(s) && NoResize(ls)
    ensures RoomyRun(s, ls)
    decreases |ls|
  {
    if ls != [] && Next(s, ls[0]).Some? {
      NextWellFormed(s, ls[0]);
      PlainIsRoomy(Next(s, ls[0]).value, ls[1..]);
    }
  }

  lemma RoomyNeverBlocks(s: State, l: Label, more: seq<Label>)
    requires WellFormed(s) && Room(s) && Roomy(s, l) && NoResize(more) && Next(s, l).Some?
    ensures CanSend(Run(s, [l] + more))
  {
    NextWellFormed(s, l);
    RunCons(s, l, more);
    RoomStep(s, l);
    var s1 := Next(s, l).value;
    PlainIsRoomy(s1, more);
    if Run(s1, more).Some? {
      RoomyKeeps(s1, more);
      CurStored(Run(s1, more).value);
    }
  }

  lemma StoppedNeverBlocks(s: State, l: Label, more: seq<Label>)
    requires WellFormed(s) && Control(s) && s.flags.stopped && Next(s, l).Some?
    ensures CanSend(Run(s, [l] + more))
  {
    if Run(s, [l] + more).Some? { StoppedStays(s, [l] + more); }
  }

  lemma {:induction false} StoppedStays(s: State, ls: seq<Label>)
    requires WellFormed(s) && Control(s) && s.flags.stopped && Run(s, ls).Some?
    ensures Run(s, ls).value.critical.Free?
    decreases |ls|
  {
    if ls != [] {
      NextWellFormed(s, ls[0]);
      ControlStep(s, ls[0]);
      StoppedStays(Next(s, ls[0]).value, ls[1..]);
    }
  }

  /** Some continuation after `l` ends in a deadlock. */
  ghost predicate CanDeadlockAfter(s: State, l: Label)
    requires WellFormed(s)
  {
    exists more :: NoResize(more) && DeadlockedAt(Run(s, [l] + more))
  }

  ghost predicate DeadlockedAt(r: Option<State>)
    requires r.Some? ==> WellFormed(r.value)
  {
    r.Some? && Deadlocked(r.value)
  }

  /** Who can send is not deadlocked. */
  lemma SendingIsNoDeadlock(s: State)
    requires WellFormed(s) && s.critical.Decided? && Next(s, WriteSend).Some?
    ensures !Deadlocked(s)
  {
    NextWellFormed(s, WriteSend);
    RunCons(s, WriteSend, []);
    assert Run(s, [WriteSend] + []).Some?;
  }

  /** Every Resize without room can end in a deadlock: the forwarder refills the new channel between the
      watermark test and the send, and the drain goroutine needs the lock to get at it. */
  lemma ResizeCanDeadlock(s: State, l: Label) returns (more: seq<Label>)
    requires WellFormed(s) && Ordered(s) && !s.flags.stopped && l.Resize? && Next(s, l).Some?
    requires
      var cap := PickCapacity(l.capacity, s.q.chans[s.q.cur].cap);
      PickHigh(l.highWM, cap) + CurLen(s.q) > cap
    ensures NoResize(more) && !CanSend(Run(s, [l] + more)) && DeadlockedAt(Run(s, [l] + more))
  {
    NextWellFormed(s, l);
    var s1 := Next(s, l).value;
    forall i | 0 <= i < |s1.drains| ensures !Captured(s1.drains[i], 1) {
      assert DrainFits(s.drains[i], 1);
    }
    var s';
    more, s' := Clog(s1);
    RunCons(s, l, more);
    StuckIsDeadlocked(s');
  }

  /** What is known of a state reached without Resize. */
  lemma PlainState(capacity: int, highWM: int, lowWM: int, ls: seq<Label>, s: State)
    requires Reaches(capacity, highWM, lowWM, ls, s) && NoResize(ls)
    ensures WellFormed(s) && Control(s) && Ordered(s) && Room(s) && Stored(s) == CurLen(s.q)
  {
    var init := Init(capacity, highWM, lowWM);
    InitInvariant(capacity, highWM, lowWM);
    RunControl(init, ls);
    RunOrdered(init, ls);
    PlainIsRoomy(init, ls);
    InitRoom(capacity, highWM, lowWM);
    RoomyKeeps(init, ls);
    OneChannel(s);
  }

  /** From every state reached without Resize: after a Resize no writer can block, if and only if the buffer
      was stopped or the new capacity leaves room above the new high watermark for the queue; and otherwise a
      writer can block for good, with the lock in its hands. */
  lemma ResizeIsSafeExactly(capacity: int, highWM: int, lowWM: int, ls: seq<Label>, s: State, l: Label)
    requires Reaches(capacity, highWM, lowWM, ls, s) && NoResize(ls) && l.Resize? && Next(s, l).Some?
    ensures
      var cap := PickCapacity(l.capacity, s.q.chans[s.q.cur].cap);
      var safe := s.flags.stopped || PickHigh(l.highWM, cap) + CurLen(s.q) <= cap;
      (NeverBlocksAfter(s, l) <==> safe) && (CanDeadlockAfter(s, l) <==> !safe)
  {
    PlainState(capacity, highWM, lowWM, ls, s);
    var cap := PickCapacity(l.capacity, s.q.chans[s.q.cur].cap);
    if s.flags.stopped || PickHigh(l.highWM, cap) + CurLen(s.q) <= cap {
      forall more | NoResize(more) ensures CanSend(Run(s, [l] + more)) && !DeadlockedAt(Run(s, [l] + more)) {
        if s.flags.stopped { StoppedNeverBlocks(s, l, more); } else { RoomyNeverBlocks(s, l, more); }
        NoDeadlock(Run(s, [l] + more));
      }
    } else {
      var more := ResizeCanDeadlock(s, l);
      assert !CanSend(Run(s, [l] + more));
    }
  }

  lemma NoDeadlock(r: Option<State>)
    requires r.Some? ==> WellFormed(r.value)
    requires CanSend(r)
    ensures !DeadlockedAt(r)
  {
    if r.Some? && r.value.critical.Decided? { SendingIsNoDeadlock(r.value); }
  }
}
