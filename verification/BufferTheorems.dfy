/** The buffer's guarantees over whole runs, stated for every interleaving. */
module BufferTheorems {
  import opened Wrappers
  import opened BufferMachine
  import opened BufferInvariants

  // ------------------------------------------------ invariants along a run

  lemma {:induction false} RunControl(s: State, ls: seq<Label>)
    requires WellFormed(s) && Control(s) && Run(s, ls).Some?
    ensures Control(Run(s, ls).value)
    decreases |ls|
  {
    if ls != [] {
      ControlStep(s, ls[0]);
      NextWellFormed(s, ls[0]);
      RunControl(Next(s, ls[0]).value, ls[1..]);
    }
  }

  lemma {:induction false} RunConserved(s: State, ls: seq<Label>, mu: Weight)
    requires WellFormed(s) && Conserved(s, mu) && Counted(s) && Run(s, ls).Some?
    ensures Conserved(Run(s, ls).value, mu) && Counted(Run(s, ls).value)
    decreases |ls|
  {
    if ls != [] {
      ConservedStep(s, ls[0], mu);
      CountedStep(s, ls[0]);
      NextWellFormed(s, ls[0]);
      RunConserved(Next(s, ls[0]).value, ls[1..], mu);
    }
  }

  lemma {:induction false} RunOrdered(s: State, ls: seq<Label>)
    requires WellFormed(s) && Control(s) && Ordered(s) && Run(s, ls).Some?
    requires forall l <- ls :: !l.Resize?
    ensures Ordered(Run(s, ls).value)
    decreases |ls|
  {
    if ls != [] {
      ControlStep(s, ls[0]);
      OrderedStep(s, ls[0]);
      NextWellFormed(s, ls[0]);
      RunOrdered(Next(s, ls[0]).value, ls[1..]);
    }
  }

  lemma {:induction false} RunAppend(s: State, ls: seq<Label>, more: seq<Label>)
    requires WellFormed(s) && Run(s, ls).Some?
    ensures Run(s, ls + more) == Run(Run(s, ls).value, more)
    decreases |ls|
  {
    if ls == [] {
      assert ls + more == more;
    } else {
      NextWellFormed(s, ls[0]);
      RunAppend(Next(s, ls[0]).value, ls[1..], more);
      assert (ls + more)[1..] == ls[1..] + more;
    }
  }

  // ------------------------------------------------ main results

  /** Some run of a freshly made buffer ends in `s`. */
  ghost predicate Reaches(capacity: int, highWM: int, lowWM: int, ls: seq<Label>, s: State) {
    Run(Init(capacity, highWM, lowWM), ls) == Some(s)
  }

  /** At most one drain goroutine is ever in its loop, Resize or not. */
  lemma AtMostOneDrain(capacity: int, highWM: int, lowWM: int, ls: seq<Label>, s: State, i: nat, j: nat)
    requires Reaches(capacity, highWM, lowWM, ls, s)
    requires i < |s.drains| && j < |s.drains| && InLoop(s.drains[i]) && InLoop(s.drains[j])
    ensures i == j && s.flags.running
  {
    RunControl(Init(capacity, highWM, lowWM), ls);
    if i < j { TallyPair(s.drains, LOOPING, i, j); }
    if j < i { TallyPair(s.drains, LOOPING, j, i); }
    TallyUpdate(s.drains, LOOPING, i, s.drains[i]);
  }

  const ONE: Weight := (f: Frame) => 1
  const LENGTH: Channel -> nat := (c: Channel) => |c.items|

  lemma {:induction false} TallyOne(fs: seq<Frame>)
    ensures Tally(fs, ONE) == |fs|
    decreases |fs|
  {
    if fs != [] { TallyOne(fs[1..]); }
  }

  /** Frames in all channels. */
  function Queued(s: State): nat { Tally(s.q.chans, LENGTH) }

  /** Frames in the hand of a drain goroutine, a forwarder or a writer. */
  function InHand(s: State): nat {
    Tally(s.drains, DrainWeight(ONE)) + Tally(s.forwards, ForwardWeight(ONE)) + WriterWeight(ONE, s.critical)
  }

  lemma {:induction false} QueuedIsWeight(cs: seq<Channel>, w: Channel -> nat)
    requires forall c: Channel :: w(c) == |c.items|
    ensures Tally(cs, ChannelWeight(ONE)) == Tally(cs, w)
    decreases |cs|
  {
    if cs != [] {
      TallyOne(cs[0].items);
      QueuedIsWeight(cs[1..], w);
    }
  }

  lemma InitConserved(capacity: int, highWM: int, lowWM: int, mu: Weight)
    ensures Conserved(Init(capacity, highWM, lowWM), mu)
  {
    var chans := Init(capacity, highWM, lowWM).q.chans;
    assert chans[1..] == [];
    assert Tally(chans, ChannelWeight(mu)) == 0;
  }

  /** Conservation of the counters, in every state of every interleaving, Resize included. */
  lemma CountersConserved(capacity: int, highWM: int, lowWM: int, ls: seq<Label>, s: State)
    requires Reaches(capacity, highWM, lowWM, ls, s)
    ensures s.stats.received == s.stats.sent + s.stats.dropped + Queued(s) + InHand(s) + |s.hist.failed|
    ensures s.stats.sent + s.stats.dropped <= s.stats.received
  {
    InitConserved(capacity, highWM, lowWM, ONE);
    RunConserved(Init(capacity, highWM, lowWM), ls, ONE);
    TallyOne(s.hist.written);
    TallyOne(s.hist.sent);
    TallyOne(s.hist.dropped);
    TallyOne(s.hist.failed);
    QueuedIsWeight(s.q.chans, LENGTH);
  }

  function Indicator(f: Frame): Weight { (g: Frame) => if g == f then 1 else 0 }

  lemma {:induction false} TallyIndicator(fs: seq<Frame>, f: Frame)
    ensures Tally(fs, Indicator(f)) == multiset(fs)[f]
    decreases |fs|
  {
    if fs != [] {
      TallyIndicator(fs[1..], f);
      assert fs == [fs[0]] + fs[1..];
    }
  }

  /** Conservation of each single frame: no action ever duplicates or loses one. */
  lemma FramesConserved(capacity: int, highWM: int, lowWM: int, ls: seq<Label>, s: State, f: Frame)
    requires Reaches(capacity, highWM, lowWM, ls, s)
    ensures multiset(s.hist.written)[f]
         == multiset(s.hist.sent)[f] + multiset(s.hist.dropped)[f] + multiset(s.hist.failed)[f]
            + Inside(s, Indicator(f))
  {
    InitConserved(capacity, highWM, lowWM, Indicator(f));
    RunConserved(Init(capacity, highWM, lowWM), ls, Indicator(f));
    TallyIndicator(s.hist.written, f);
    TallyIndicator(s.hist.sent, f);
    TallyIndicator(s.hist.dropped, f);
    TallyIndicator(s.hist.failed, f);
  }

  lemma InitInvariant(capacity: int, highWM: int, lowWM: int)
    ensures WellFormed(Init(capacity, highWM, lowWM)) && Control(Init(capacity, highWM, lowWM))
    ensures Ordered(Init(capacity, highWM, lowWM))
  {
  }

  /** Without Resize: first in, first out, nothing lost on the way to the sender. */
  lemma HandedInOrder(capacity: int, highWM: int, lowWM: int, ls: seq<Label>, s: State)
    requires Reaches(capacity, highWM, lowWM, ls, s)
    requires forall l <- ls :: !l.Resize?
    ensures |s.q.chans| == 1
    ensures s.hist.accepted == s.hist.handed + AllUnseen(s.drains) + s.q.chans[0].items
    ensures |AllUnseen(s.drains)| <= 1
    ensures s.hist.handed <= s.hist.accepted
  {
    InitInvariant(capacity, highWM, lowWM);
    RunControl(Init(capacity, highWM, lowWM), ls);
    RunOrdered(Init(capacity, highWM, lowWM), ls);
    UnseenAtMostOne(s.drains);
  }

  lemma {:induction false} UnseenAtMostOne(ds: seq<Drain>)
    ensures |AllUnseen(ds)| <= Tally(ds, LOOPING)
    decreases |ds|
  {
    if ds != [] { UnseenAtMostOne(ds[1..]); }
  }

  /** Without Resize the queue respects the high watermark, so the send under the lock never blocks. */
  lemma WriterNeverBlocks(capacity: int, highWM: int, lowWM: int, ls: seq<Label>, s: State)
    requires Reaches(capacity, highWM, lowWM, ls, s)
    requires forall l <- ls :: !l.Resize?
    ensures CurLen(s.q) <= s.q.high
    ensures s.critical.Decided? ==> Next(s, WriteSend).Some?
  {
    InitInvariant(capacity, highWM, lowWM);
    RunOrdered(Init(capacity, highWM, lowWM), ls);
  }

  lemma {:induction false} NobodyLive(ds: seq<Drain>, i: nat)
    requires i < |ds| && Tally(ds, LIVE) == 0
    ensures ds[i].pc.Gone?
    decreases |ds|
  {
    TallyUpdate(ds, LIVE, i, ds[i]);
  }

  lemma QuietStep(s: State, l: Label)
    requires WellFormed(s) && Control(s) && s.flags.stopReturned && Next(s, l).Some?
    ensures Next(s, l).value.flags == s.flags
    ensures Next(s, l).value.hist.handed == s.hist.handed
    ensures Next(s, l).value.hist.accepted == s.hist.accepted
    ensures Next(s, l).value.stats.sent == s.stats.sent
    ensures Next(s, l).value.stats.received == s.stats.received
  {
    if l.DrainStep? { NobodyLive(s.drains, l.drain); }
  }

  lemma {:induction false} QuietRun(s: State, ls: seq<Label>)
    requires WellFormed(s) && Control(s) && s.flags.stopReturned && Run(s, ls).Some?
    ensures Run(s, ls).value.hist.handed == s.hist.handed
    ensures Run(s, ls).value.hist.accepted == s.hist.accepted
    ensures Run(s, ls).value.stats.sent == s.stats.sent
    ensures Run(s, ls).value.stats.received == s.stats.received
    decreases |ls|
  {
    if ls != [] {
      QuietStep(s, ls[0]);
      ControlStep(s, ls[0]);
      NextWellFormed(s, ls[0]);
      QuietRun(Next(s, ls[0]).value, ls[1..]);
    }
  }

  /** Once the first Stop has returned, nothing is handed over or accepted ever again. */
  lemma QuiescentAfterStop(capacity: int, highWM: int, lowWM: int, ls: seq<Label>, s: State,
                           more: seq<Label>, s': State)
    requires Reaches(capacity, highWM, lowWM, ls, s) && s.flags.stopReturned
    requires Reaches(capacity, highWM, lowWM, ls + more, s')
    ensures s'.hist.handed == s.hist.handed && s'.hist.accepted == s.hist.accepted
    ensures s'.stats.sent == s.stats.sent && s'.stats.received == s.stats.received
  {
    var init := Init(capacity, highWM, lowWM);
    RunControl(init, ls);
    RunAppend(init, ls, more);
    QuietRun(s, more);
  }

  // ------------------------------------------------ where the guarantees end

  /** One more label at the end of a run. */
  lemma Extend(capacity: int, highWM: int, lowWM: int, ls: seq<Label>, s: State, l: Label)
    requires Reaches(capacity, highWM, lowWM, ls, s)
    requires WellFormed(s) && Next(s, l).Some?
    ensures Reaches(capacity, highWM, lowWM, ls + [l], Next(s, l).value)
  {
    RunAppend(Init(capacity, highWM, lowWM), ls, [l]);
    assert Run(s, [l]) == Some(Next(s, l).value);
  }

  /** One frame written and its drain goroutine spawned. */
  lemma OneWrite(capacity: int, highWM: int, lowWM: int, f: Frame) returns (ls: seq<Label>, s: State)
    requires 1 <= highWM <= capacity && 0 <= lowWM <= highWM
    ensures Reaches(capacity, highWM, lowWM, ls, s)
    ensures s.q == Queue([Channel(capacity, [f])], 0, highWM, lowWM)
    ensures s.flags == Flags(true, false, false, false, 1)
    ensures s.drains == [Drain(false, false, Top)] && s.forwards == [] && s.critical == Free
    ensures s.hist == History([f], [f], [], [], [], [])
    ensures forall l <- ls :: !l.Resize?
  {
    ls, s := [], Init(capacity, highWM, lowWM);
    ls, s := Do(capacity, highWM, lowWM, ls, s, WriteEnter(f));
    ls, s := Do(capacity, highWM, lowWM, ls, s, WriteDecide);
    ls, s := Do(capacity, highWM, lowWM, ls, s, WriteSend);
    assert s.q.chans[0].items == [f];
    assert s.q.chans == [Channel(capacity, [f])];
  }

  lemma Do(capacity: int, highWM: int, lowWM: int, ls: seq<Label>, s: State, l: Label)
    returns (ls': seq<Label>, s': State)
    requires Reaches(capacity, highWM, lowWM, ls, s)
    requires WellFormed(s) && Next(s, l).Some?
    ensures Reaches(capacity, highWM, lowWM, ls', s') && WellFormed(s')
    ensures ls' == ls + [l] && s' == Next(s, l).value
  {
    Extend(capacity, highWM, lowWM, ls, s, l);
    NextWellFormed(s, l);
    ls', s' := ls + [l], Next(s, l).value;
  }

  /** Stop can leave an accepted frame behind: the drain goroutine stops at the low
      watermark before Stop is called, and Stop itself flushes nothing. */
  lemma StopCanStrandAFrame(f: Frame, g: Frame) returns (ls: seq<Label>, s: State)
    ensures Reaches(2, 2, 1, ls, s) && (forall l <- ls :: !l.Resize?)
    ensures s.flags.stopReturned && s.hist.accepted == [f, g] && s.hist.handed == [f]
  {
    ls, s := OneWrite(2, 2, 1, f);
    ls, s := Do(2, 2, 1, ls, s, DrainStep(0, false));
    assert s.drains[0].pc == Measure;
    ls, s := Do(2, 2, 1, ls, s, DrainStep(0, false));
    assert s.drains[0].pc == Take(0);
    ls, s := Do(2, 2, 1, ls, s, DrainStep(0, false));
    assert s.drains[0].pc == Hand(f);
    ls, s := Do(2, 2, 1, ls, s, WriteEnter(g));
    ls, s := Do(2, 2, 1, ls, s, WriteDecide);
    ls, s := Do(2, 2, 1, ls, s, WriteSend);
    ls, s := DrainOut(ls, s);
    ls, s := Do(2, 2, 1, ls, s, StopMark);
    ls, s := Do(2, 2, 1, ls, s, StopClose);
    ls, s := Do(2, 2, 1, ls, s, StopReturn);
  }

  lemma DrainOut(ls0: seq<Label>, s0: State) returns (ls: seq<Label>, s: State)
    requires Reaches(2, 2, 1, ls0, s0) && WellFormed(s0) && (forall l <- ls0 :: !l.Resize?)
    requires |s0.drains| == 1 && s0.drains[0].pc.Hand? && s0.critical.Free? && s0.flags.wg == 1
    requires CurLen(s0.q) <= s0.q.low
    ensures Reaches(2, 2, 1, ls, s) && WellFormed(s) && (forall l <- ls :: !l.Resize?)
    ensures s.critical == s0.critical
    ensures s.flags == s0.flags.(running := false, wg := 0)
    ensures s.hist.accepted == s0.hist.accepted && s.hist.handed == s0.hist.handed + [s0.drains[0].pc.frame]
  {
    ls, s := Do(2, 2, 1, ls0, s0, DrainStep(0, false));
    ls, s := Do(2, 2, 1, ls, s, DrainStep(0, false));
    assert s.drains[0].pc == CheckLow && s.q == s0.q && s.flags == s0.flags;
    ls, s := LeaveAtLow(ls, s);
  }

  lemma LeaveAtLow(ls0: seq<Label>, s0: State) returns (ls: seq<Label>, s: State)
    requires Reaches(2, 2, 1, ls0, s0) && WellFormed(s0) && (forall l <- ls0 :: !l.Resize?)
    requires |s0.drains| == 1 && s0.drains[0].pc == CheckLow && s0.critical.Free? && s0.flags.wg == 1
    requires CurLen(s0.q) <= s0.q.low
    ensures Reaches(2, 2, 1, ls, s) && WellFormed(s) && (forall l <- ls :: !l.Resize?)
    ensures s.critical == s0.critical && s.hist == s0.hist
    ensures s.flags == s0.flags.(running := false, wg := 0)
  {
    ls, s := Do(2, 2, 1, ls0, s0, DrainStep(0, false));
    ls, s := Do(2, 2, 1, ls, s, DrainStep(0, false));
    ls, s := Do(2, 2, 1, ls, s, DrainStep(0, false));
  }
}
