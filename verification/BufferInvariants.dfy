/** What every run of the buffer keeps. */
module BufferInvariants {
  import opened Wrappers
  import opened BufferMachine

  // ------------------------------------------------ one fold for every census

  function Tally<T>(xs: seq<T>, w: T -> nat): nat {
    if xs == [] then 0 else w(xs[0]) + Tally(xs[1..], w)
  }

  lemma {:induction false} TallyUpdate<T>(xs: seq<T>, w: T -> nat, i: nat, x: T)
    requires i < |xs|
    ensures Tally(xs[i := x], w) + w(xs[i]) == Tally(xs, w) + w(x)
    ensures Tally(xs, w) >= w(xs[i])
    decreases |xs|
  {
    if i == 0 {
      assert xs[i := x][1..] == xs[1..];
    } else {
      TallyUpdate(xs[1..], w, i - 1, x);
      assert xs[i := x][1..] == xs[1..][i - 1 := x];
    }
  }

  lemma {:induction false} TallyAppend<T>(xs: seq<T>, w: T -> nat, x: T)
    ensures Tally(xs + [x], w) == Tally(xs, w) + w(x)
    decreases |xs|
  {
    if xs != [] {
      TallyAppend(xs[1..], w, x);
      assert (xs + [x])[1..] == xs[1..] + [x];
    }
  }

  lemma {:induction false} TallyPair<T>(xs: seq<T>, w: T -> nat, i: nat, j: nat)
    requires i < j < |xs|
    ensures Tally(xs, w) >= w(xs[i]) + w(xs[j])
    decreases |xs|
  {
    if i == 0 {
      TallyUpdate(xs[1..], w, j - 1, xs[j]);
    } else {
      TallyPair(xs[1..], w, i - 1, j - 1);
    }
  }

  // ------------------------------------------------ control: goroutines and flags

  predicate InLoop(d: Drain) { !d.pc.Leaving? && !d.pc.Gone? }

  const LOOPING: Drain -> nat := (d: Drain) => if InLoop(d) then 1 else 0
  const LIVE: Drain -> nat := (d: Drain) => if d.pc.Gone? then 0 else 1

  /** `running` says exactly whether the one goroutine allowed in its loop is there. */
  predicate Control(s: State) {
    && Tally(s.drains, LOOPING) == (if s.flags.running then 1 else 0)
    && s.flags.wg == Tally(s.drains, LIVE)
    && (s.flags.stopClosed ==> s.flags.stopped)
    && (s.flags.stopReturned ==> s.flags.stopClosed && s.flags.wg == 0)
    && (s.flags.stopped ==> s.critical.Free?)
  }

  /** A drain goroutine leaves its loop only by clearing `running`, and ends only with wg.Done. */
  lemma ActLoop(s: State, d: Drain, alt: bool)
    requires WellFormed(s) && DrainFits(d, |s.q.chans|) && DrainAct(s, d, alt).Some?
    ensures var (e, pc) := DrainAct(s, d, alt).value;
      && !d.pc.Gone?
      && (e.WgDone? ==> d.pc.Leaving? && pc.Gone?)
      && (e.ClearRunning? ==> d.pc.Exit? && pc.Leaving? && s.critical.Free?)
      && (!e.WgDone? && !e.ClearRunning? ==> InLoop(d) && InLoop(d.(pc := pc)))
  {
  }

  lemma DrainControl(s: State, i: nat, alt: bool)
    requires WellFormed(s) && Control(s) && i < |s.drains| && DrainNext(s, i, alt).Some?
    ensures Control(DrainNext(s, i, alt).value)
  {
    assert DrainFits(s.drains[i], |s.q.chans|);
    var (e, pc) := DrainAct(s, s.drains[i], alt).value;
    ActLoop(s, s.drains[i], alt);
    TallyUpdate(s.drains, LOOPING, i, s.drains[i].(pc := pc));
    TallyUpdate(s.drains, LIVE, i, s.drains[i].(pc := pc));
  }

  lemma CancelControl(s: State, i: nat)
    requires WellFormed(s) && Control(s) && Next(s, Cancel(i)).Some?
    ensures Control(Next(s, Cancel(i)).value)
  {
    TallyUpdate(s.drains, LOOPING, i, s.drains[i].(ctxDone := true));
    TallyUpdate(s.drains, LIVE, i, s.drains[i].(ctxDone := true));
  }

  lemma StartControl(s: State)
    requires WellFormed(s) && Control(s) && Next(s, Start).Some?
    ensures Control(Next(s, Start).value)
  {
    SpawnControl(s, true);
  }

  lemma SendControl(s: State)
    requires WellFormed(s) && Control(s) && Next(s, WriteSend).Some?
    ensures Control(Next(s, WriteSend).value)
  {
    SpawnControl(s, false);
  }

  /** Actions that leave the goroutines alone. */
  lemma FlagControl(s: State, l: Label)
    requires WellFormed(s) && Control(s) && Next(s, l).Some?
    requires !l.DrainStep? && !l.Cancel? && !l.WriteSend? && !l.Start?
    ensures Control(Next(s, l).value)
  {
    assert Next(s, l).value.drains == s.drains;
  }

  lemma ControlStep(s: State, l: Label)
    requires WellFormed(s) && Control(s) && Next(s, l).Some?
    ensures Control(Next(s, l).value)
  {
    match l {
      case DrainStep(i, alt) => DrainControl(s, i, alt);
      case Cancel(i) => CancelControl(s, i);
      case WriteSend => SendControl(s);
      case Start => StartControl(s);
      case _ => FlagControl(s, l);
    }
  }

  lemma SpawnControl(s: State, hasCtx: bool)
    requires Control(s)
    ensures Tally(Spawn(s, hasCtx).drains, LOOPING) == Tally(s.drains, LOOPING) + 1
    ensures Tally(Spawn(s, hasCtx).drains, LIVE) == Tally(s.drains, LIVE) + 1
  {
    TallyAppend(s.drains, LOOPING, Drain(hasCtx, false, Top));
    TallyAppend(s.drains, LIVE, Drain(hasCtx, false, Top));
  }

  // ------------------------------------------------ conservation

  /** A weight on frames.  Constant 1 counts frames; an indicator follows one frame. */
  type Weight = Frame -> nat

  function ChannelWeight(mu: Weight): Channel -> nat { (c: Channel) => Tally(c.items, mu) }

  /** What a drain goroutine has taken from a channel and not yet accounted for. */
  function Holding(mu: Weight, pc: DrainPc): nat {
    if pc.Hand? || pc.Sent? || pc.FlushHand? || pc.FlushSent? then mu(pc.frame) else 0
  }

  function Carrying(mu: Weight, pc: ForwardPc): nat {
    if pc.Put? then mu(pc.frame) else 0
  }

  function DrainWeight(mu: Weight): Drain -> nat { (d: Drain) => Holding(mu, d.pc) }

  function ForwardWeight(mu: Weight): Forward -> nat { (w: Forward) => Carrying(mu, w.pc) }

  function WriterWeight(mu: Weight, c: Critical): nat {
    if c.Free? then 0 else mu(c.frame)
  }

  /** The weight of everything that is somewhere inside the buffer. */
  function Inside(s: State, mu: Weight): nat {
    Tally(s.q.chans, ChannelWeight(mu)) + Tally(s.drains, DrainWeight(mu))
    + Tally(s.forwards, ForwardWeight(mu)) + WriterWeight(mu, s.critical)
  }

  function Accounted(h: History, mu: Weight): nat {
    Tally(h.sent, mu) + Tally(h.dropped, mu) + Tally(h.failed, mu)
  }

  predicate Conserved(s: State, mu: Weight) {
    Tally(s.hist.written, mu) == Accounted(s.hist, mu) + Inside(s, mu)
  }

  /** The three counters count what their names say. */
  predicate Counted(s: State) {
    && s.stats.received == |s.hist.written|
    && s.stats.sent == |s.hist.sent|
    && s.stats.dropped == |s.hist.dropped|
  }

  lemma PopWeight(q: Queue, c: nat, mu: Weight)
    requires c < |q.chans| && q.chans[c].items != []
    ensures Tally(Pop(q, c).chans, ChannelWeight(mu)) + mu(q.chans[c].items[0])
         == Tally(q.chans, ChannelWeight(mu))
  {
    TallyUpdate(q.chans, ChannelWeight(mu), c, q.chans[c].(items := q.chans[c].items[1..]));
  }

  lemma PushWeight(q: Queue, c: nat, f: Frame, mu: Weight)
    requires c < |q.chans|
    ensures Tally(Push(q, c, f).chans, ChannelWeight(mu)) == Tally(q.chans, ChannelWeight(mu)) + mu(f)
  {
    TallyUpdate(q.chans, ChannelWeight(mu), c, q.chans[c].(items := q.chans[c].items + [f]));
    TallyAppend(q.chans[c].items, mu, f);
  }

  /** What a drain goroutine picks up and puts down is what its effect says. */
  lemma ActWeight(s: State, d: Drain, alt: bool, mu: Weight)
    requires WellFormed(s) && DrainFits(d, |s.q.chans|) && DrainAct(s, d, alt).Some?
    ensures var (e, pc) := DrainAct(s, d, alt).value;
      match e
      case Receive(b) => Holding(mu, d.pc) == 0 && Holding(mu, pc) == mu(s.q.chans[b].items[0])
      case DeliverFail(f) => Holding(mu, d.pc) == mu(f) && Holding(mu, pc) == 0
      case CountSent(f) => Holding(mu, d.pc) == mu(f) && Holding(mu, pc) == 0
      case _ => Holding(mu, d.pc) == Holding(mu, pc)
  {
  }

  lemma DrainConserved(s: State, i: nat, alt: bool, mu: Weight)
    requires WellFormed(s) && Conserved(s, mu) && i < |s.drains| && DrainNext(s, i, alt).Some?
    ensures Conserved(DrainNext(s, i, alt).value, mu)
  {
    assert DrainFits(s.drains[i], |s.q.chans|);
    var (e, pc) := DrainAct(s, s.drains[i], alt).value;
    ActWeight(s, s.drains[i], alt, mu);
    TallyUpdate(s.drains, DrainWeight(mu), i, s.drains[i].(pc := pc));
    match e {
      case Receive(b) => PopWeight(s.q, b, mu);
      case DeliverFail(f) => TallyAppend(s.hist.failed, mu, f);
      case CountSent(f) => TallyAppend(s.hist.sent, mu, f);
      case _ =>
    }
  }

  lemma ForwardConserved(s: State, k: nat, mu: Weight)
    requires WellFormed(s) && Conserved(s, mu) && k < |s.forwards| && ForwardNext(s, k).Some?
    ensures Conserved(ForwardNext(s, k).value, mu)
  {
    var w := s.forwards[k];
    var s' := ForwardNext(s, k).value;
    TallyUpdate(s.forwards, ForwardWeight(mu), k, s'.forwards[k]);
    match w.pc {
      case Poll => if s.q.chans[w.src].items != [] { PopWeight(s.q, w.src, mu); }
      case Put(f) =>
        PushWeight(s.q, w.dst, f, mu);
        TallyAppend(s.hist.dropped, mu, f);
    }
  }

  lemma SpawnConserved(s: State, hasCtx: bool, mu: Weight)
    requires Conserved(s, mu)
    ensures Conserved(Spawn(s, hasCtx), mu)
  {
    TallyAppend(s.drains, DrainWeight(mu), Drain(hasCtx, false, Top));
  }

  lemma WriteSendConserved(s: State, mu: Weight)
    requires WellFormed(s) && Conserved(s, mu) && WriteNext(s, WriteSend).Some?
    ensures Conserved(WriteNext(s, WriteSend).value, mu)
  {
    var f := s.critical.frame;
    PushWeight(s.q, s.q.cur, f, mu);
    var s1 := s.(critical := Free, q := Push(s.q, s.q.cur, f),
                 hist := s.hist.(accepted := s.hist.accepted + [f]));
    assert Conserved(s1, mu);
    if !s.flags.running { SpawnConserved(s1, false, mu); }
  }

  lemma WriteConserved(s: State, l: Label, mu: Weight)
    requires WellFormed(s) && Conserved(s, mu)
    requires l.WriteRefused? || l.WriteEnter? || l.WriteDecide? || l.WriteSend?
    requires WriteNext(s, l).Some?
    ensures Conserved(WriteNext(s, l).value, mu)
  {
    match l {
      case WriteEnter(f) => TallyAppend(s.hist.written, mu, f);
      case WriteDecide => TallyAppend(s.hist.dropped, mu, s.critical.frame);
      case WriteSend => WriteSendConserved(s, mu);
      case _ =>
    }
  }

  lemma ConservedStep(s: State, l: Label, mu: Weight)
    requires WellFormed(s) && Conserved(s, mu) && Next(s, l).Some?
    ensures Conserved(Next(s, l).value, mu)
  {
    var s' := Next(s, l).value;
    match l {
      case DrainStep(i, alt) => DrainConserved(s, i, alt, mu);
      case ForwardStep(k) => ForwardConserved(s, k, mu);
      case Cancel(i) => TallyUpdate(s.drains, DrainWeight(mu), i, s'.drains[i]);
      case Start => SpawnConserved(s, true, mu);
      case Resize(_, _, _) =>
        TallyAppend(s.q.chans, ChannelWeight(mu), s'.q.chans[|s.q.chans|]);
        TallyAppend(s.forwards, ForwardWeight(mu), s'.forwards[|s.forwards|]);
      case StopMark =>
      case StopClose =>
      case StopReturn =>
      case StopAgain =>
      case _ => WriteConserved(s, l, mu);
    }
  }

  lemma CountedStep(s: State, l: Label)
    requires WellFormed(s) && Counted(s) && Next(s, l).Some?
    ensures Counted(Next(s, l).value)
  {
  }

  // ------------------------------------------------ order and capacity without Resize

  /** The frame a drain goroutine holds that the sender has not seen yet. */
  function Unseen(d: Drain): seq<Frame> {
    if d.pc.Hand? || d.pc.FlushHand? then [d.pc.frame] else []
  }

  function AllUnseen(ds: seq<Drain>): seq<Frame> {
    if ds == [] then [] else Unseen(ds[0]) + AllUnseen(ds[1..])
  }

  lemma {:induction false} NobodyUnseen(ds: seq<Drain>)
    requires Tally(ds, LOOPING) == 0
    ensures AllUnseen(ds) == []
    decreases |ds|
  {
    if ds != [] { NobodyUnseen(ds[1..]); }
  }

  lemma {:induction false} OnlyUnseen(ds: seq<Drain>, i: nat)
    requires i < |ds| && InLoop(ds[i]) && Tally(ds, LOOPING) == 1
    ensures AllUnseen(ds) == Unseen(ds[i])
    decreases |ds|
  {
    if i == 0 {
      NobodyUnseen(ds[1..]);
    } else {
      TallyUpdate(ds[1..], LOOPING, i - 1, ds[i]);
      OnlyUnseen(ds[1..], i - 1);
    }
  }

  lemma {:induction false} AppendUnseen(ds: seq<Drain>, d: Drain)
    requires Unseen(d) == []
    ensures AllUnseen(ds + [d]) == AllUnseen(ds)
    decreases |ds|
  {
    if ds != [] {
      AppendUnseen(ds[1..], d);
      assert (ds + [d])[1..] == ds[1..] + [d];
    }
  }

  lemma {:induction false} QuietUpdate(ds: seq<Drain>, i: nat, d: Drain)
    requires i < |ds| && Unseen(d) == Unseen(ds[i])
    ensures AllUnseen(ds[i := d]) == AllUnseen(ds)
    decreases |ds|
  {
    if i == 0 {
      assert ds[i := d][1..] == ds[1..];
    } else {
      QuietUpdate(ds[1..], i - 1, d);
      assert ds[i := d][1..] == ds[1..][i - 1 := d];
    }
  }

  predicate InOrder(s: State)
    requires |s.q.chans| == 1
  {
    s.hist.accepted == s.hist.handed + AllUnseen(s.drains) + s.q.chans[0].items
  }

  predicate WithinCapacity(s: State)
    requires |s.q.chans| == 1
  {
    && 0 <= s.q.low <= s.q.high <= s.q.chans[0].cap && 0 < s.q.high
    && |s.q.chans[0].items| + (if s.critical.Decided? then 1 else 0) <= s.q.high
  }

  /** The shape of a state reached without Resize. */
  predicate Ordered(s: State) {
    && |s.q.chans| == 1 && s.q.cur == 0 && s.forwards == []
    && InOrder(s)
    && WithinCapacity(s)
  }

  lemma DrainUnseen(s: State, i: nat, d: Drain)
    requires Control(s) && i < |s.drains| && InLoop(s.drains[i])
    ensures AllUnseen(s.drains) == Unseen(s.drains[i])
    ensures AllUnseen(s.drains[i := d]) == Unseen(d)
  {
    TallyUpdate(s.drains, LOOPING, i, d);
    OnlyUnseen(s.drains, i);
    if InLoop(d) {
      OnlyUnseen(s.drains[i := d], i);
    } else {
      NobodyUnseen(s.drains[i := d]);
    }
  }

  /** How the frame in a drain goroutine's hand changes with its effect. */
  predicate UnseenChange(s: State, e: Effect, u: seq<Frame>, u': seq<Frame>)
    requires Possible(s, e)
  {
    match e
    case Receive(b) => u == [] && u' == [s.q.chans[b].items[0]]
    case Deliver(f) => u == [f] && u' == []
    case DeliverFail(f) => u == [f] && u' == []
    case _ => u' == u
  }

  lemma ActUnseen(s: State, d: Drain, alt: bool)
    requires WellFormed(s) && DrainFits(d, |s.q.chans|) && DrainAct(s, d, alt).Some?
    ensures var (e, pc) := DrainAct(s, d, alt).value; UnseenChange(s, e, Unseen(d), Unseen(d.(pc := pc)))
  {
  }

  lemma PerformOrdered(s: State, e: Effect, u: seq<Frame>, u': seq<Frame>)
    requires Ordered(s) && Possible(s, e) && UnseenChange(s, e, u, u')
    requires AllUnseen(s.drains) == u
    ensures var s1 := Perform(s, e);
      && |s1.q.chans| == 1 && s1.q.cur == 0 && s1.forwards == [] && s1.drains == s.drains
      && s1.hist.accepted == s1.hist.handed + u' + s1.q.chans[0].items
      && WithinCapacity(s1)
  {
    if e.Receive? {
      var items := s.q.chans[0].items;
      assert items == [items[0]] + items[1..];
    }
  }

  lemma GotoOrdered(s: State, i: nat, e: Effect, pc: DrainPc, u': seq<Frame>)
    requires Ordered(s) && Possible(s, e) && i < |s.drains|
    requires UnseenChange(s, e, AllUnseen(s.drains), u')
    requires AllUnseen(s.drains[i := s.drains[i].(pc := pc)]) == u'
    ensures Ordered(Goto(Perform(s, e), i, pc))
  {
    PerformOrdered(s, e, AllUnseen(s.drains), u');
  }

  lemma EffectOrdered(s: State, i: nat, e: Effect, pc: DrainPc)
    requires Control(s) && Ordered(s) && Possible(s, e) && i < |s.drains|
    requires UnseenChange(s, e, Unseen(s.drains[i]), Unseen(s.drains[i].(pc := pc)))
    requires if e.WgDone? then s.drains[i].pc.Leaving? else InLoop(s.drains[i])
    ensures Ordered(Goto(Perform(s, e), i, pc))
  {
    var d' := s.drains[i].(pc := pc);
    if e.WgDone? {
      QuietUpdate(s.drains, i, d');
      GotoOrdered(s, i, e, pc, AllUnseen(s.drains));
    } else {
      DrainUnseen(s, i, d');
      GotoOrdered(s, i, e, pc, Unseen(d'));
    }
  }

  lemma DrainOrdered(s: State, i: nat, alt: bool)
    requires WellFormed(s) && Control(s) && Ordered(s) && i < |s.drains| && DrainNext(s, i, alt).Some?
    ensures Ordered(DrainNext(s, i, alt).value)
  {
    assert DrainFits(s.drains[i], |s.q.chans|);
    var (e, pc) := DrainAct(s, s.drains[i], alt).value;
    ActUnseen(s, s.drains[i], alt);
    ActLoop(s, s.drains[i], alt);
    EffectOrdered(s, i, e, pc);
  }

  lemma OrderedStep(s: State, l: Label)
    requires WellFormed(s) && Control(s) && Ordered(s) && Next(s, l).Some? && !l.Resize?
    ensures Ordered(Next(s, l).value)
  {
    var s' := Next(s, l).value;
    match l {
      case DrainStep(i, alt) => DrainOrdered(s, i, alt);
      case Cancel(i) => QuietUpdate(s.drains, i, s'.drains[i]);
      case WriteSend => AppendUnseen(s.drains, Drain(false, false, Top));
      case Start => AppendUnseen(s.drains, Drain(true, false, Top));
      case _ =>
    }
  }
}
