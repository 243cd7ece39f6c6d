/** What every run of the interrupt-driven message queue guarantees. */
module QueueRuns {
  import opened Chains
  import opened Iterations
  import opened Interleaving
  import opened Messages
  import opened Subscribers

  /** No dangling pointer was used; whenever interrupts are enabled the queue is a proper
      list, and the popped message is never part of it; the accepted posts are, in the order
      in which they were linked, those dispatched, the one in flight and those queued; and
      the loop has called and freed exactly what those lives prescribe. The subscriber lists,
      from which a message takes its subscribers when its dispatch begins, are what the
      ledger says. */
  ghost predicate Sound(m: Machine, g: Ledger) {
    && !m.fault
    && (m.irq ==>
          && Chain(m.mem, m.first, g.queue) && m.last == Tail(g.queue)
          && (m.first == NULL <==> m.last == NULL)
          && (m.last != NULL ==> m.last in m.mem && m.mem[m.last].next == NULL))
    && InFlight(m.loop) !in g.queue
    && InMemory(m.mem, g.queue)
    && m.posted == Msgs(g.done) + Flying(m.mem, InFlight(m.loop)) + Vals(m.mem, g.queue)
    && m.log == Lives(g.done) + Partial(m.mem, m.loop, g.turn.called)
    && ListsOk(m.subs, m.block, g.lists)
  }

  /** Every interleaving of task posts, interrupt posts, subscriptions and the dispatch loop
      is sound. */
  lemma EveryInterleaving(ls: seq<Label>)
    requires Legal(ls)
    ensures Sound(Run(ls).m, Run(ls).g)
  {
    RunKeeps(ls);
    InvIsSound(Run(ls));
  }

  lemma InvIsSound(w: World)
    requires Inv(w)
    ensures Sound(w.m, w.g)
  {
    var m, q := w.m, w.g.queue;
    if m.irq && q != [] {
      assert q[|q| - 1] == m.last && m.mem[m.last].next == At(q, |q|);
    }
  }

  /** No leak: an allocated message node is queued, popped, or about to be linked. */
  lemma NoLeak(ls: seq<Label>)
    requires Legal(ls)
    ensures
      var m, g := Run(ls).m, Run(ls).g;
      forall a :: a in m.mem ==> a in g.queue || a == InFlight(m.loop) || a == Pending(m.post)
  {
    RunKeeps(ls);
  }

  // Ownership of contexts

  /** How many of the messages own context c. */
  function Owned(ms: seq<Msg>, c: Addr): nat {
    if ms == [] then 0
    else
      Owned(ms[..|ms| - 1], c) +
      if ms[|ms| - 1].owner != OwnerCaller && ms[|ms| - 1].context == c then 1 else 0
  }

  lemma {:induction false} OwnedConcat(a: seq<Msg>, b: seq<Msg>, c: Addr)
    ensures Owned(a + b, c) == Owned(a, c) + Owned(b, c)
  {
    if b == [] {
      assert a + b == a;
    } else {
      assert (a + b)[..|a + b| - 1] == a + b[..|b| - 1];
      OwnedConcat(a, b[..|b| - 1], c);
    }
  }

  function Freed(log: seq<Event>, c: Addr): nat {
    multiset(log)[FreeContext(c)]
  }

  lemma FreedConcat(a: seq<Event>, b: seq<Event>, c: Addr)
    ensures Freed(a + b, c) == Freed(a, c) + Freed(b, c)
  {
  }

  lemma CallsFreeNothing(v: Msg, hs: seq<Handler>, c: Addr)
    ensures Freed(Calls(v, hs), c) == 0
  {
    assert FreeContext(c) !in Calls(v, hs);
  }

  lemma FreesOnce(v: Msg, c: Addr)
    requires c != NULL
    ensures Freed(Frees(v), c) == Owned([v], c)
  {
    assert Owned([v], c) == Owned([], c) + if v.owner != OwnerCaller && v.context == c then 1 else 0;
    if Frees(v) != [] {
      assert Frees(v) == [FreeContext(v.context)];
    }
  }

  lemma LifeFrees(d: Dispatch, c: Addr)
    requires c != NULL
    ensures Freed(Life(d), c) == Owned([d.msg], c)
  {
    var calls, frees := Calls(d.msg, Attended(d)), Frees(d.msg);
    CallsFreeNothing(d.msg, Attended(d), c);
    FreesOnce(d.msg, c);
    FreedConcat(calls, frees, c);
    FreedConcat(calls + frees, [FreeMessage(d.node)], c);
    assert Freed([FreeMessage(d.node)], c) == 0;
  }

  lemma MsgsSnoc(done: seq<Dispatch>)
    requires done != []
    ensures Msgs(done) == Msgs(done[..|done| - 1]) + [done[|done| - 1].msg]
  {
  }

  lemma {:induction false} LivesFree(done: seq<Dispatch>, c: Addr)
    requires c != NULL
    ensures Freed(Lives(done), c) == Owned(Msgs(done), c)
  {
    if done != [] {
      var pre, d := done[..|done| - 1], done[|done| - 1];
      LivesFree(pre, c);
      LifeFrees(d, c);
      FreedConcat(Lives(pre), Life(d), c);
      MsgsSnoc(done);
      OwnedConcat(Msgs(pre), [d.msg], c);
    }
  }

  /** The messages that still hold their context: queued ones, and the popped one until its
      context is released. */
  function Holders(m: Machine, q: seq<Addr>): seq<Msg>
    requires forall i :: 0 <= i < |q| ==> q[i] in m.mem
  {
    (if m.loop.Discard? then [] else Flying(m.mem, InFlight(m.loop))) + Vals(m.mem, q)
  }

  /** Conservation of contexts: counted with multiplicity, each context that was accepted as
      owned by the queue is either still held by a message or has been freed, once per
      acceptance. A context that was never accepted as owned is never freed. */
  lemma ContextsConserved(ls: seq<Label>, c: Addr)
    requires Legal(ls) && c != NULL
    ensures
      var m, g := Run(ls).m, Run(ls).g;
      && InMemory(m.mem, g.queue)
      && Owned(m.posted, c) == Freed(m.log, c) + Owned(Holders(m, g.queue), c)
  {
    RunKeeps(ls);
    var m, g := Run(ls).m, Run(ls).g;
    var fly := Flying(m.mem, InFlight(m.loop));
    LivesFree(g.done, c);
    FreedConcat(Lives(g.done), Partial(m.mem, m.loop, g.turn.called), c);
    Assoc(Msgs(g.done), fly, Vals(m.mem, g.queue));
    OwnedConcat(Msgs(g.done), fly + Vals(m.mem, g.queue), c);
    OwnedConcat(fly, Vals(m.mem, g.queue), c);
    assert [] + Vals(m.mem, g.queue) == Vals(m.mem, g.queue);
    PartialFrees(m, g, c);
  }

  lemma PartialFrees(m: Machine, g: Ledger, c: Addr)
    requires c != NULL && (m.loop.Discard? ==> InFlight(m.loop) in m.mem)
    ensures Freed(Partial(m.mem, m.loop, g.turn.called), c)
            == if m.loop.Discard? then Owned(Flying(m.mem, InFlight(m.loop)), c) else 0
  {
    if InFlight(m.loop) in m.mem {
      var v := m.mem[InFlight(m.loop)].val;
      CallsFreeNothing(v, g.turn.called, c);
      FreesOnce(v, c);
      FreedConcat(Calls(v, g.turn.called), Frees(v), c);
    }
  }

  /** When the queue-owned contexts are distinct, each is held by one message or freed once. */
  lemma ContextsFreedOnce(ls: seq<Label>, c: Addr)
    requires Legal(ls) && c != NULL && Owned(Run(ls).m.posted, c) == 1
    ensures
      var m, g := Run(ls).m, Run(ls).g;
      && InMemory(m.mem, g.queue)
      && ((Freed(m.log, c) == 1 && Owned(Holders(m, g.queue), c) == 0) ||
          (Freed(m.log, c) == 0 && Owned(Holders(m, g.queue), c) == 1))
  {
    ContextsConserved(ls, c);
  }

  // Service: every run is a sequence of iterations of the FIFO

  /** The messages waiting in the queue: the newest of the accepted ones. */
  function Waiting(w: World): seq<Msg>
    requires |w.g.queue| <= |w.m.posted|
  {
    w.m.posted[|w.m.posted| - |w.g.queue|..]
  }

  /** What a step means for the FIFO. */
  function Emits(m: Machine, l: Label): seq<Act<Msg>> {
    if m.fault then []
    else if l.PostStep? && m.post.Posting? && (m.post.pc.SetFirst? || m.post.pc.MoveLast?) then
      [Arrive(m.post.msg)]
    else if l.LoopStep? && m.post.NoPost? && (m.loop.Advance? || (m.loop.Read? && m.first == NULL)) then
      [Take]
    else []
  }

  predicate Refines(q: nat, q': nat, acts: seq<Act<Msg>>) {
    if acts == [] then q' == q
    else if acts[0].Arrive? then q' == q + 1
    else q' == if q == 0 then 0 else q - 1
  }

  lemma EmitsOne(m: Machine, l: Label)
    ensures
      var e := Emits(m, l);
      || (e == [] && Arrivals(e) == [] && Takes(e) == 0)
      || (e == [Take] && Arrivals(e) == [] && Takes(e) == 1)
      || (m.post.Posting? && e == [Arrive(m.post.msg)] && Arrivals(e) == [m.post.msg] && Takes(e) == 0)
  {
    var e := Emits(m, l);
    if e != [] {
      assert e == [e[0]];
      OneAct(e[0]);
    }
  }

  lemma OneAct<M>(a: Act<M>)
    ensures Arrivals([a]) == (if a.Arrive? then [a.m] else []) && Takes([a]) == if a.Take? then 1 else 0
  {
    assert [a][..0] == [];
  }

  lemma PostCounts(m: Machine, g: Ledger, addr: Addr)
    requires m.post.Posting? && !m.fault
    ensures StepPost(m, addr).posted == m.posted + Arrivals(Emits(m, PostStep(addr)))
    ensures Refines(|g.queue|, |LedgerPost(g, m.post).queue|, Emits(m, PostStep(addr)))
  {
    EmitsOne(m, PostStep(addr));
  }

  lemma PostLeavesLoop(m: Machine, addr: Addr)
    requires m.post.Posting?
    ensures StepPost(m, addr).loop == m.loop && Takes(Emits(m, PostStep(addr))) == 0
  {
    EmitsOne(m, PostStep(addr));
  }

  lemma LoopCounts(m: Machine, g: Ledger)
    requires m.post.NoPost? && !m.fault && (m.first == NULL && m.loop.Read? ==> g.queue == [])
    ensures StepLoop(m).posted == m.posted + Arrivals(Emits(m, LoopStep))
    ensures Refines(|g.queue|, |LedgerLoop(m, g).queue|, Emits(m, LoopStep))
  {
    EmitsOne(m, LoopStep);
    LoopLeavesPosted(m);
    if !m.loop.Advance? && !m.loop.Read? {
      LoopLeavesQueue(m, g);
    }
  }

  lemma LoopLeavesPosted(m: Machine)
    ensures StepLoop(m).posted == m.posted
  {
    if m.loop.Lookup? || m.loop.Dispatching? || m.loop.Handling? || m.loop.Release? || m.loop.Discard? {
      DispatchLeavesPosted(m);
    }
  }

  lemma DispatchLeavesPosted(m: Machine)
    requires m.loop.Lookup? || m.loop.Dispatching? || m.loop.Handling? || m.loop.Release? || m.loop.Discard?
    ensures StepLoop(m).posted == m.posted
  {
  }

  lemma LoopLeavesQueue(m: Machine, g: Ledger)
    requires !m.loop.Advance?
    ensures LedgerLoop(m, g).queue == g.queue
  {
  }

  ghost predicate Settled(w: World) {
    && !w.m.fault
    && (w.m.first == NULL && w.m.loop.Read? ==> w.g.queue == [])
    && (!w.m.loop.Idle? && !w.m.loop.Round? ==> w.m.loop.left > 0)
    && (w.m.loop.Advance? ==> w.m.loop.msg in w.m.mem)
    && |w.g.queue| <= |w.m.posted|
  }

  /** After every run the messages waiting are those the queue's nodes hold. */
  lemma RunSettles(ls: seq<Label>)
    requires Legal(ls)
    ensures Settled(Run(ls)) && InMemory(Run(ls).m.mem, Run(ls).g.queue)
    ensures Waiting(Run(ls)) == Vals(Run(ls).m.mem, Run(ls).g.queue)
    ensures Run(ls).m.loop.Idle? ==> Run(ls).m.posted == Msgs(Run(ls).g.done) + Waiting(Run(ls))
  {
    RunKeeps(ls);
    IdleFlight(Run(ls));
  }

  lemma IdleFlight(w: World)
    requires Inv(w)
    ensures |w.g.queue| <= |w.m.posted| && Waiting(w) == Vals(w.m.mem, w.g.queue)
    ensures w.m.loop.Idle? ==> w.m.posted == Msgs(w.g.done) + Waiting(w)
  {
    var done, fly, q := Msgs(w.g.done), Flying(w.m.mem, InFlight(w.m.loop)), Vals(w.m.mem, w.g.queue);
    assert (done + fly + q)[|done + fly|..] == q;
    if w.m.loop.Idle? {
      assert fly == [] && done + fly == done;
    }
  }

  lemma Newest(s: seq<Msg>, q: nat, q': nat, acts: seq<Act<Msg>>)
    requires q <= |s| && |acts| <= 1 && Refines(q, q', acts)
    ensures var s' := s + Arrivals(acts);
            q' <= |s'| && s'[|s'| - q'..] == After(s[|s| - q..], acts)
  {
    if acts == [] {
      assert s + Arrivals(acts) == s;
    } else {
      assert acts == [acts[0]] && acts[..0] == [];
      OneAct(acts[0]);
      NewestOne(s, q, q', acts[0]);
    }
  }

  lemma NewestOne(s: seq<Msg>, q: nat, q': nat, a: Act<Msg>)
    requires q <= |s| && Refines(q, q', [a])
    ensures var s' := s + if a.Arrive? then [a.m] else [];
            q' <= |s'| && s'[|s'| - q'..] == Apply(s[|s| - q..], a)
  {
  }

  predicate Starts(m: Machine, l: Label) {
    !m.fault && l.StartLoop? && m.post.NoPost? && m.loop.Idle?
  }

  function Extend(its: seq<seq<Act<Msg>>>, acts: seq<Act<Msg>>): seq<seq<Act<Msg>>> {
    if its == [] then [acts] else its[..|its| - 1] + [its[|its| - 1] + acts]
  }

  function Continue(its: seq<seq<Act<Msg>>>, m: Machine, l: Label): seq<seq<Act<Msg>>> {
    if Starts(m, l) then its + [[]] else Extend(its, Emits(m, l))
  }

  /** The iterations of a run, from the machine before each step; setup counts as one whose
      takes all found the queue empty. */
  function ItsOf(before: seq<Label> -> Machine, ls: seq<Label>, max: nat): seq<seq<Act<Msg>>> {
    if ls == [] then [seq(max, _ => Take)]
    else Continue(ItsOf(before, ls[..|ls| - 1], max), before(ls[..|ls| - 1]), ls[|ls| - 1])
  }

  function MachineAfter(ls: seq<Label>): Machine {
    Run(ls).m
  }

  function Its(ls: seq<Label>, max: nat): seq<seq<Act<Msg>>> {
    ItsOf(MachineAfter, ls, max)
  }

  predicate Steady(ls: seq<Label>, max: nat) {
    forall i :: 0 <= i < |ls| && ls[i].StartLoop? ==> ls[i].max == max
  }

  /** Takes that the running Loop call still has to make. */
  function Owed(l: LoopPc): nat {
    if l.Idle? then 0
    else if l.Round? || l.Read? || l.Advance? || l.left == 0 then l.left
    else l.left - 1
  }

  ghost predicate PaceOk(its: seq<seq<Act<Msg>>>, owed: nat, max: nat) {
    && |its| > 0
    && (forall i :: 0 <= i < |its| - 1 ==> Takes(its[i]) == max)
    && Takes(its[|its| - 1]) + owed == max
  }

  lemma LoopOwes(m: Machine)
    requires (!m.loop.Idle? && !m.loop.Round? ==> m.loop.left > 0) && (m.loop.Advance? ==> m.loop.msg in m.mem)
    ensures Owed(StepLoop(m).loop) ==
            Owed(m.loop) - if m.loop.Advance? || (m.loop.Read? && m.first == NULL) then 1 else 0
  {
    if m.loop.Advance? || m.loop.Read? || m.loop.Round? || m.loop.Next? || m.loop.Idle? {
      LoopOwesOutside(m);
    } else {
      LoopOwesInside(m);
    }
  }

  lemma LoopOwesOutside(m: Machine)
    requires m.loop.Advance? || m.loop.Read? || m.loop.Round? || m.loop.Next? || m.loop.Idle?
    requires (!m.loop.Idle? && !m.loop.Round? ==> m.loop.left > 0) && (m.loop.Advance? ==> m.loop.msg in m.mem)
    ensures Owed(StepLoop(m).loop) ==
            Owed(m.loop) - if m.loop.Advance? || (m.loop.Read? && m.first == NULL) then 1 else 0
  {
  }

  lemma LoopOwesInside(m: Machine)
    requires !(m.loop.Advance? || m.loop.Read? || m.loop.Round? || m.loop.Next? || m.loop.Idle?) && m.loop.left > 0
    ensures Owed(StepLoop(m).loop) == Owed(m.loop)
  {
    if m.loop.Trim? || m.loop.Unmask? || m.loop.Discard? {
      LoopOwesAround(m);
    } else {
      LoopOwesDispatching(m);
    }
  }

  lemma LoopOwesAround(m: Machine)
    requires (m.loop.Trim? || m.loop.Unmask? || m.loop.Discard?) && m.loop.left > 0
    ensures Owed(StepLoop(m).loop) == Owed(m.loop)
  {
  }

  lemma LoopOwesDispatching(m: Machine)
    requires m.loop.Lookup? || m.loop.Dispatching? || m.loop.Handling? || m.loop.Release?
    requires m.loop.left > 0
    ensures Owed(StepLoop(m).loop) == Owed(m.loop)
  {
  }

  lemma {:induction false} TakesConcat<M>(a: seq<Act<M>>, b: seq<Act<M>>)
    ensures Takes(a + b) == Takes(a) + Takes(b)
    ensures Arrivals(a + b) == Arrivals(a) + Arrivals(b)
  {
    if b == [] {
      assert a + b == a;
    } else {
      assert (a + b)[..|a + b| - 1] == a + b[..|b| - 1];
      TakesConcat(a, b[..|b| - 1]);
    }
  }

  lemma {:induction false} AfterConcat<M>(q: seq<M>, a: seq<Act<M>>, b: seq<Act<M>>)
    ensures After(q, a + b) == After(After(q, a), b)
  {
    if b == [] {
      assert a + b == a;
    } else {
      assert (a + b)[..|a + b| - 1] == a + b[..|b| - 1];
      AfterConcat(q, a, b[..|b| - 1]);
    }
  }

  lemma ExtendAdds(its: seq<seq<Act<Msg>>>, acts: seq<Act<Msg>>, owed: nat, max: nat)
    requires PaceOk(its, owed, max) && Takes(acts) <= owed
    ensures PaceOk(Extend(its, acts), owed - Takes(acts), max)
    ensures Backlog(Extend(its, acts)) == After(Backlog(its), acts)
    ensures Arrived(Extend(its, acts)) == Arrived(its) + Arrivals(acts)
  {
    var n := |its| - 1;
    var its' := Extend(its, acts);
    assert its'[..n] == its[..n];
    TakesConcat(its[n], acts);
    AfterConcat(Backlog(its[..n]), its[n], acts);
    assert forall i :: 0 <= i < n ==> its'[i] == its[i];
  }

  lemma NewIteration(its: seq<seq<Act<Msg>>>, max: nat)
    requires PaceOk(its, 0, max)
    ensures PaceOk(its + [[]], max, max)
    ensures Backlog(its + [[]]) == Backlog(its) && Arrived(its + [[]]) == Arrived(its)
  {
    assert (its + [[]])[..|its|] == its;
    ArrivedSnoc(its, []);
    assert After(Backlog(its), []) == Backlog(its);
  }

  lemma EmptyRun(max: nat)
    ensures PaceOk(Its([], max), 0, max) && Backlog(Its([], max)) == [] && Arrived(Its([], max)) == []
  {
    var its, dummy := Its([], max), Msg(0, NULL, OwnerCaller);
    EmptyTakes(max, dummy, 0);
    assert its[0] == seq(max, _ => Take) + seq(0, _ => Arrive(dummy));
    assert its == [] + [its[0]];
    ArrivedSnoc([], its[0]);
    assert its[..0] == [];
  }

  /** The iterations tell the story of the machine: the queue holds their backlog, the
      accepted posts are their arrivals, and every finished one tried max takes. */
  ghost predicate Tells(its: seq<seq<Act<Msg>>>, w: World, max: nat) {
    Told(its, w.m.posted, |w.g.queue|, Owed(w.m.loop), max)
  }

  ghost predicate Told(its: seq<seq<Act<Msg>>>, posted: seq<Msg>, q: nat, owed: nat, max: nat) {
    && q <= |posted|
    && posted[|posted| - q..] == Backlog(its)
    && posted == Arrived(its)
    && PaceOk(its, owed, max)
  }

  /** Each step refines what it emits. */
  lemma StoryGoesOn(its: seq<seq<Act<Msg>>>, posted: seq<Msg>, q: nat, q': nat, owed: nat, acts: seq<Act<Msg>>,
                    max: nat)
    requires Told(its, posted, q, owed, max) && |acts| <= 1
    requires Refines(q, q', acts) && Takes(acts) <= owed
    ensures Told(Extend(its, acts), posted + Arrivals(acts), q', owed - Takes(acts), max)
  {
    Newest(posted, q, q', acts);
    ExtendAdds(its, acts, owed, max);
  }

  lemma StoryPost(its: seq<seq<Act<Msg>>>, w: World, addr: Addr, max: nat)
    requires Tells(its, w, max) && Settled(w) && w.m.post.Posting?
    ensures Tells(Extend(its, Emits(w.m, PostStep(addr))),
                  World(StepPost(w.m, addr), LedgerPost(w.g, w.m.post)), max)
  {
    var m', q', e := StepPost(w.m, addr), |LedgerPost(w.g, w.m.post).queue|, Emits(w.m, PostStep(addr));
    EmitsOne(w.m, PostStep(addr));
    PostCounts(w.m, w.g, addr);
    PostLeavesLoop(w.m, addr);
    assert m'.posted == w.m.posted + Arrivals(e) && Owed(m'.loop) == Owed(w.m.loop) - Takes(e);
    StoryGoesOn(its, w.m.posted, |w.g.queue|, q', Owed(w.m.loop), e, max);
    assert Told(Extend(its, e), m'.posted, q', Owed(m'.loop), max);
  }

  lemma StoryLoop(its: seq<seq<Act<Msg>>>, w: World, max: nat)
    requires Tells(its, w, max) && Settled(w) && w.m.post.NoPost?
    ensures Tells(Extend(its, Emits(w.m, LoopStep)), World(StepLoop(w.m), LedgerLoop(w.m, w.g)), max)
  {
    EmitsOne(w.m, LoopStep);
    LoopCounts(w.m, w.g);
    LoopOwes(w.m);
    var q' := |LedgerLoop(w.m, w.g).queue|;
    StoryGoesOn(its, w.m.posted, |w.g.queue|, q', Owed(w.m.loop), Emits(w.m, LoopStep), max);
  }

  lemma StoryStart(its: seq<seq<Act<Msg>>>, w: World, max: nat)
    requires Tells(its, w, max) && w.m.loop.Idle?
    ensures Tells(its + [[]], World(w.m.(loop := Round(max)), w.g), max)
  {
    NewIteration(its, max);
  }

  lemma ExtendNothing(its: seq<seq<Act<Msg>>>)
    requires its != []
    ensures Extend(its, []) == its
  {
    assert its[|its| - 1] + [] == its[|its| - 1];
  }

  lemma StoryQuiet(its: seq<seq<Act<Msg>>>, w: World, l: Label, max: nat)
    requires Tells(its, w, max) && Settled(w) && !Starts(w.m, l)
    requires (l.PostStep? ==> w.m.post.NoPost?) && (l.LoopStep? ==> w.m.post.Posting?)
    ensures Tells(Continue(its, w.m, l), Step(w, l), max)
  {
    ExtendNothing(its);
  }

  lemma StoryStep(its: seq<seq<Act<Msg>>>, w: World, l: Label, max: nat)
    requires Tells(its, w, max) && Settled(w) && (l.StartLoop? ==> l.max == max)
    ensures Tells(Continue(its, w.m, l), Step(w, l), max)
  {
    if l.PostStep? && w.m.post.Posting? {
      StoryPost(its, w, l.addr, max);
    } else if l.LoopStep? && w.m.post.NoPost? {
      StoryLoop(its, w, max);
    } else if Starts(w.m, l) {
      StoryStart(its, w, max);
    } else {
      StoryQuiet(its, w, l, max);
    }
  }

  /** Every run of the machine is a run of the FIFO. */
  lemma {:induction false} RunRefines(ls: seq<Label>, max: nat)
    requires Legal(ls) && Steady(ls, max)
    ensures Tells(Its(ls, max), Run(ls), max)
  {
    if ls == [] {
      EmptyRun(max);
    } else {
      var n := |ls| - 1;
      RunRefines(ls[..n], max);
      RunSettles(ls[..n]);
      StoryStep(Its(ls[..n], max), Run(ls[..n]), ls[n], max);
    }
  }

  /** Between two Loop calls, what the iterations served is what was dispatched, and their
      backlog is what waits. */
  ghost predicate Boundary(its: seq<seq<Act<Msg>>>, w: World, max: nat) {
    && Quota(its, max)
    && Served(its) == Msgs(w.g.done)
    && |Backlog(its)| == |w.g.queue|
    && w.m.posted == Msgs(w.g.done) + Backlog(its)
  }

  lemma IdleIsBoundary(ls: seq<Label>, max: nat)
    requires Legal(ls) && Steady(ls, max) && Run(ls).m.loop.Idle?
    ensures Boundary(Its(ls, max), Run(ls), max)
  {
    RunRefines(ls, max);
    RunSettles(ls);
    FifoService(Its(ls, max));
    SamePrefix(Served(Its(ls, max)), Msgs(Run(ls).g.done), Waiting(Run(ls)));
  }

  lemma SamePrefix<T>(a: seq<T>, b: seq<T>, c: seq<T>)
    requires a + c == b + c
    ensures a == b
  {
    assert |a| == |b|;
    assert a == (a + c)[..|a|] && b == (b + c)[..|b|];
  }

  /** Steps after the start of an iteration only add to the iterations begun by it. */
  lemma {:induction false} ItsGrow(before: seq<Label> -> Machine, ls: seq<Label>, pre: seq<Label>, max: nat)
    requires pre < ls && Starts(before(pre), ls[|pre|])
    ensures Grows(ItsOf(before, pre, max), ItsOf(before, ls, max))
    decreases |ls|
  {
    var now := ls[..|ls| - 1];
    if |pre| < |now| {
      assert pre < now && now[|pre|] == ls[|pre|];
      ItsGrow(before, now, pre, max);
    } else {
      assert now == pre;
    }
    ItsStep(ItsOf(before, pre, max), ItsOf(before, now, max), before(now), ls[|ls| - 1], |pre| < |now|);
  }

  lemma ItsStep(its: seq<seq<Act<Msg>>>, now: seq<seq<Act<Msg>>>, m: Machine, l: Label, begun: bool)
    requires if begun then Grows(its, now) else now == its && Starts(m, l)
    ensures Grows(its, Continue(now, m, l))
  {
    if begun {
      ContinueGrows(its, now, m, l);
    } else {
      StartGrows(its);
    }
  }

  predicate Grows(its: seq<seq<Act<Msg>>>, its': seq<seq<Act<Msg>>>) {
    |its'| > |its| && its'[..|its|] == its
  }

  lemma StartGrows(its: seq<seq<Act<Msg>>>)
    ensures Grows(its, its + [[]])
  {
  }

  lemma ContinueGrows(its: seq<seq<Act<Msg>>>, its': seq<seq<Act<Msg>>>, m: Machine, l: Label)
    requires Grows(its, its')
    ensures Grows(its, Continue(its', m, l))
  {
    var more := Continue(its', m, l);
    assert forall i :: 0 <= i < |its| ==> more[i] == its'[i] && its'[i] == its'[..|its|][i];
  }

  /** The message that has k messages ahead of it in w is, in the later w', dispatched, and
      that happened in iteration k / max after w (numbering the next one 0). Its ticket is
      its rank among all accepted posts. */
  ghost predicate DispatchedOnTime(its: seq<seq<Act<Msg>>>, w: World, its': seq<seq<Act<Msg>>>, w': World,
                                   max: nat, k: nat)
    requires max > 0
  {
    var ticket := |w.g.done| + k;
    && DispatchedIn(its', ticket, |its| + k / max)
    && ticket < |w'.g.done| && ticket < |w.m.posted|
    && w'.g.done[ticket].msg == w.m.posted[ticket]
  }

  lemma LatencyBetween(its: seq<seq<Act<Msg>>>, w: World, its': seq<seq<Act<Msg>>>, w': World, max: nat, k: nat)
    requires max > 0 && Boundary(its, w, max) && Boundary(its', w', max)
    requires Grows(its, its')
    requires k < |w.g.queue| && k / max < |its'| - |its|
    ensures DispatchedOnTime(its, w, its', w', max, k)
  {
    Latency(its', max, |its|, k);
    assert |Msgs(w.g.done)| == |w.g.done| && |Msgs(w'.g.done)| == |w'.g.done|;
    assert Msgs(w'.g.done)[|w.g.done| + k] == w'.g.done[|w.g.done| + k].msg;
  }

  lemma SteadyPrefix(ls: seq<Label>, n: nat, max: nat)
    requires Steady(ls, max) && n <= |ls|
    ensures Steady(ls[..n], max)
  {
  }

  /** Latency: a message with k messages ahead of it when a Loop call starts is dispatched in
      iteration k / max after that, whatever tasks, handlers and interrupts post, at any
      point, in the meantime. */
  lemma MessageLatency(ls: seq<Label>, n: nat, max: nat, k: nat)
    requires max > 0 && Legal(ls) && Steady(ls, max) && Run(ls).m.loop.Idle?
    requires n < |ls| && ls[n] == StartLoop(max) && Starts(Run(ls[..n]).m, StartLoop(max))
    requires k < |Run(ls[..n]).g.queue| && k / max < |Its(ls, max)| - |Its(ls[..n], max)|
    ensures DispatchedOnTime(Its(ls[..n], max), Run(ls[..n]), Its(ls, max), Run(ls), max, k)
  {
    LegalPrefix(ls, n);
    SteadyPrefix(ls, n, max);
    IdleIsBoundary(ls[..n], max);
    IdleIsBoundary(ls, max);
    ItsGrow(MachineAfter, ls, ls[..n], max);
    LatencyBetween(Its(ls[..n], max), Run(ls[..n]), Its(ls, max), Run(ls), max, k);
  }

  /** Backlog: if every m consecutive iterations accept at most b + max * m posts, then no
      more than b + max messages wait whenever the loop is between two calls. */
  lemma BacklogBounded(ls: seq<Label>, max: nat, b: nat)
    requires Legal(ls) && Steady(ls, max) && Run(ls).m.loop.Idle?
    requires Paced(Its(ls, max), max, b)
    ensures |Run(ls).g.queue| <= b + max
  {
    IdleIsBoundary(ls, max);
    BacklogBound(Its(ls, max), max, b);
  }
}
