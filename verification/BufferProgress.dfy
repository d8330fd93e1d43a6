/** Which actions of the buffer are possible, told from the actions of the run before. */
module BufferProgress {
  import opened Wrappers
  import opened BufferMachine
  import opened BufferTheorems

  // ------------------------------------------------ what the flags record

  lemma FlagsStep(s: State, l: Label, s': State)
    requires WellFormed(s) && Next(s, l) == Some(s')
    ensures s'.flags.stopped == (s.flags.stopped || l == StopMark)
    ensures s'.flags.stopClosed == (s.flags.stopClosed || l == StopClose)
    ensures s'.flags.stopReturned == (s.flags.stopReturned || l == StopReturn)
  {
    if l.DrainStep? { assert DrainFits(s.drains[l.drain], |s.q.chans|); }
    if l.ForwardStep? { assert ForwardFits(s.forwards[l.forward], |s.q.chans|); }
  }

  lemma {:induction false} FlagsFrom(s: State, ls: seq<Label>, s': State)
    requires WellFormed(s) && Run(s, ls) == Some(s')
    ensures s'.flags.stopped == (s.flags.stopped || StopMark in ls)
    ensures s'.flags.stopClosed == (s.flags.stopClosed || StopClose in ls)
    ensures s'.flags.stopReturned == (s.flags.stopReturned || StopReturn in ls)
    decreases |ls|
  {
    if ls != [] {
      var s1 := Next(s, ls[0]).value;
      NextWellFormed(s, ls[0]);
      FlagsStep(s, ls[0], s1);
      FlagsFrom(s1, ls[1..], s');
      assert ls == [ls[0]] + ls[1..];
    }
  }

  /** With the lock free, a Write enters exactly before the first Stop and is refused exactly after it; each of
      the first Stop's own steps is possible once, and every later Stop returns at once. */
  lemma StopDecides(capacity: int, highWM: int, lowWM: int, ls: seq<Label>, s: State, f: Frame)
    requires Reaches(capacity, highWM, lowWM, ls, s) && s.critical.Free?
    ensures Next(s, WriteEnter(f)).Some? <==> StopMark !in ls
    ensures Next(s, WriteRefused).Some? <==> StopMark in ls
    ensures Next(s, StopMark).Some? <==> StopMark !in ls
    ensures Next(s, StopAgain).Some? <==> StopMark in ls
    ensures Next(s, StopClose).Some? <==> StopMark in ls && StopClose !in ls
  {
    FlagsFrom(Init(capacity, highWM, lowWM), ls, s);
  }

  // ------------------------------------------------ when a goroutine waits

  /** A goroutine that found the queue empty leaves, and one that found a frame waits for it. */
  lemma EmptyLeaves(s: State, i: nat, alt: bool)
    requires WellFormed(s) && s.critical.Free? && i < |s.drains| && s.drains[i].pc == Measure
    ensures
      var r := Next(s, DrainStep(i, alt));
      r.Some? && r.value.drains[i].pc == if s.q.chans[s.q.cur].items == [] then Exit else Take(s.q.cur)
  {
  }

  /** It waits for a frame of a channel that has none, and neither stop nor cancellation has been signalled. */
  predicate Starved(s: State, i: nat, stopped: bool)
    requires WellFormed(s) && i < |s.drains|
  {
    assert DrainFits(s.drains[i], |s.q.chans|);
    var d := s.drains[i];
    d.pc.Take? && s.q.chans[d.pc.buf].items == [] && !stopped && !d.ctxDone
  }

  /** With the lock free, a goroutine that is not over can take a step unless it is starved. */
  lemma WaitsOnlyStarved(capacity: int, highWM: int, lowWM: int, ls: seq<Label>, s: State, i: nat)
    requires Reaches(capacity, highWM, lowWM, ls, s) && WellFormed(s) && s.critical.Free?
    requires i < |s.drains| && !s.drains[i].pc.Gone?
    ensures Next(s, DrainStep(i, true)).Some? || Next(s, DrainStep(i, false)).Some?
       <==> !Starved(s, i, StopClose in ls)
  {
    FlagsFrom(Init(capacity, highWM, lowWM), ls, s);
    assert DrainFits(s.drains[i], |s.q.chans|);
  }
}
