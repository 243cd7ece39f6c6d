/** That things happen in module Interleaving: a valid post is accepted whatever the queue holds,
    and the dispatch loop comes to its end. */
module Progress {
  import opened Chains
  import opened Interleaving
  import opened Messages
  import opened Subscribers

  // Posts

  /** n steps of the running Post; `new` yields addr. */
  function Steps(w: World, addr: Addr, n: nat): World {
    if n == 0 then w else Step(Steps(w, addr, n - 1), PostStep(addr))
  }

  lemma StepsIs(w: World, addr: Addr, n: nat, mid: World)
    requires Steps(w, addr, n) == mid
    ensures Steps(w, addr, n + 1) == Step(mid, PostStep(addr))
  {
  }

  /** A valid post that gets memory goes on to the test for an empty queue. */
  lemma Allocates(w: World, addr: Addr)
    requires !w.m.fault && w.m.post.Posting? && w.m.post.pc.Alloc?
    requires -1 < w.m.post.msg.id < 26 && addr != NULL && addr !in w.m.mem
    ensures
      var msg := w.m.post.msg;
      Step(w, PostStep(addr)) == World(w.m.(mem := w.m.mem[addr := Node(msg, NULL)], post := Posting(msg, Test(addr))), w.g)
  {
  }

  /** What a Post that is about to return 0 has done: its message is the last one accepted and
      the last one in the queue, and nothing else has happened. */
  ghost predicate Linked(w: World, w': World, msg: Msg, addr: Addr) {
    && w'.m.post == Posting(msg, Exit(0))
    && w'.m.posted == w.m.posted + [msg] && w'.g.queue == w.g.queue + [addr]
    && SameElse(w.m, w'.m) && w'.g == w.g.(queue := w'.g.queue)
  }

  /** Everything but the queue and the running Post. */
  ghost predicate SameElse(m: Machine, m': Machine) {
    m' == m.(mem := m'.mem, first := m'.first, last := m'.last, post := m'.post, posted := m'.posted)
  }

  lemma LinksFirst(w: World, addr: Addr, n: Addr)
    requires !w.m.fault && w.m.post.Posting? && w.m.post.pc == Test(n) && w.m.first == NULL
    ensures Linked(w, Steps(w, addr, 3), w.m.post.msg, n)
  {
    var m, msg := w.m, w.m.post.msg;
    var w1 := World(m.(post := Posting(msg, SetLast(n))), w.g);
    var w2 := World(m.(last := n, post := Posting(msg, SetFirst(n))), w.g);
    assert Steps(w, addr, 0) == w && Step(w, PostStep(addr)) == w1;
    StepsIs(w, addr, 0, w);
    assert Step(w1, PostStep(addr)) == w2;
    StepsIs(w, addr, 1, w1);
    StepsIs(w, addr, 2, w2);
  }

  lemma LinksBehind(w: World, addr: Addr, n: Addr)
    requires !w.m.fault && w.m.post.Posting? && w.m.post.pc == Test(n) && w.m.first != NULL && w.m.last in w.m.mem
    ensures Linked(w, Steps(w, addr, 3), w.m.post.msg, n)
  {
    var m, msg := w.m, w.m.post.msg;
    var w1 := World(m.(post := Posting(msg, Link(n))), w.g);
    var w2 := World(m.(mem := m.mem[m.last := m.mem[m.last].(next := n)], post := Posting(msg, MoveLast(n))), w.g);
    assert Steps(w, addr, 0) == w && Step(w, PostStep(addr)) == w1;
    StepsIs(w, addr, 0, w);
    assert Step(w1, PostStep(addr)) == w2;
    StepsIs(w, addr, 1, w1);
    StepsIs(w, addr, 2, w2);
  }

  lemma {:induction false} StepsAfter(w: World, addr: Addr, n: nat)
    ensures Steps(w, addr, n + 1) == Steps(Step(w, PostStep(addr)), addr, n)
  {
    if n > 0 {
      StepsAfter(w, addr, n - 1);
    } else {
      assert Steps(w, addr, 0) == w && Steps(Step(w, PostStep(addr)), addr, 0) == Step(w, PostStep(addr));
    }
  }

  lemma LastInMemory(w: World)
    requires Inv(w) && w.m.post.Posting? && w.m.post.pc.Test? && w.m.first != NULL
    ensures w.m.last in w.m.mem
  {
  }

  /** From the test on, three steps link the message, whatever the queue holds. */
  lemma LinksAnywhere(w: World, addr: Addr)
    requires Inv(w) && w.m.post.Posting? && w.m.post.pc.Test?
    ensures Linked(w, Steps(w, addr, 3), w.m.post.msg, w.m.post.pc.node)
  {
    var n := w.m.post.pc.node;
    if w.m.first == NULL {
      LinksFirst(w, addr, n);
    } else {
      LastInMemory(w);
      LinksBehind(w, addr, n);
    }
  }

  /** A post of an id from 0 to 25 that gets memory is accepted, whatever the queue holds. */
  lemma PostAccepted(w: World, addr: Addr)
    requires Inv(w) && w.m.post.Posting? && w.m.post.pc.Alloc?
    requires -1 < w.m.post.msg.id < 26 && addr != NULL && addr !in w.m.mem
    ensures Linked(w, Steps(w, addr, 4), w.m.post.msg, addr)
  {
    var w1 := Step(w, PostStep(addr));
    Allocates(w, addr);
    StepKeeps(w, PostStep(addr));
    LinksAnywhere(w1, addr);
    StepsAfter(w, addr, 3);
  }

  /** Any other post returns -1 and changes nothing. */
  lemma PostRejected(w: World, addr: Addr)
    requires Inv(w) && w.m.post.Posting? && w.m.post.pc.Alloc?
    requires !(-1 < w.m.post.msg.id < 26) || addr == NULL
    ensures Step(w, PostStep(addr)) == World(w.m.(post := Posting(w.m.post.msg, Exit(-1))), w.g)
  {
  }

  /** While a Post has interrupts masked nothing else can happen. */
  lemma OthersWait(w: World, l: Label)
    requires Inv(w) && Masked(w.m.post) && !l.PostStep?
    ensures Step(w, l) == w
  {
  }

  /** How a Post begins. */
  function Entered(w: World, msg: Msg, isr: bool, addr: Addr): World {
    if isr then Step(w, IsrPost(msg)) else Step(Step(w, TaskPost(msg)), PostStep(addr))
  }

  /** A task or a handler may post when no Post is running; an interrupt whenever it can fire. */
  predicate MayPost(m: Machine, isr: bool) {
    if isr then m.irq else m.post.NoPost? && (m.loop.Idle? || m.loop.Handling?)
  }

  lemma PostBegins(w: World, msg: Msg, isr: bool, addr: Addr)
    requires Inv(w) && MayPost(w.m, isr)
    ensures
      Entered(w, msg, isr, addr) ==
      World(w.m.(irq := false, post := Posting(msg, Alloc), inIsr := isr, parked := if isr then w.m.post else NoPost), w.g)
  {
  }

  lemma PostEnds(w: World, addr: Addr)
    requires !w.m.fault && w.m.post.Posting? && w.m.post.pc.Exit?
    ensures Step(w, PostStep(addr)) == World(w.m.(irq := true, post := w.m.parked, inIsr := false, parked := NoPost), w.g)
  {
  }

  /** In every run, from a task, a handler or an interrupt: a valid post that gets memory is
      accepted and stands last in the queue; then interrupts are enabled, and what it came upon
      goes on. */
  lemma EveryPostAccepted(ls: seq<Label>, msg: Msg, isr: bool, addr: Addr)
    requires Legal(ls) && MayPost(Run(ls).m, isr)
    requires -1 < msg.id < 26 && addr != NULL && addr !in Run(ls).m.mem
    ensures
      var w := Run(ls);
      var w' := Steps(Entered(w, msg, isr, addr), addr, 5);
      && w'.m.posted == w.m.posted + [msg] && w'.g.queue == w.g.queue + [addr]
      && w'.m.irq && w'.m.post == w.m.post && w'.m.loop == w.m.loop && w'.m.log == w.m.log
  {
    var w, w1 := Run(ls), Entered(Run(ls), msg, isr, addr);
    RunKeeps(ls);
    EnteredKeeps(w, msg, isr, addr);
    PostBegins(w, msg, isr, addr);
    PostAccepted(w1, addr);
    StepsIs(w1, addr, 4, Steps(w1, addr, 4));
    PostEnds(Steps(w1, addr, 4), addr);
  }

  lemma EnteredKeeps(w: World, msg: Msg, isr: bool, addr: Addr)
    requires Inv(w) && msg.id >= -1
    ensures Inv(Entered(w, msg, isr, addr))
  {
    if isr {
      StepKeeps(w, IsrPost(msg));
    } else {
      StepKeeps(w, TaskPost(msg));
      StepKeeps(Step(w, TaskPost(msg)), PostStep(addr));
    }
  }

  /** Interrupts are enabled everywhere but inside Post and while Loop takes a message off the
      queue; in particular while handlers run. */
  lemma InterruptsEnabledIff(ls: seq<Label>)
    requires Legal(ls)
    ensures
      var m := Run(ls).m;
      m.irq <==> !(m.post.Posting? && !m.post.pc.Enter?)
                 && !(m.loop.Read? || m.loop.Advance? || m.loop.Trim? || m.loop.Unmask?)
  {
    RunKeeps(ls);
  }

  // Subscriptions

  /** A subscription puts its node in front of its list and changes no other. */
  lemma SubscribeDoes(w: World, sid: nat, h: Handler, addr: Addr)
    requires Inv(w) && w.m.post.NoPost? && (w.m.loop.Idle? || w.m.loop.Handling?)
    requires sid < 26 && addr != NULL && addr !in w.m.subs
    ensures
      var w' := Step(w, Subscribe(sid, h, addr));
      && w'.g.lists == w.g.lists[sid := [addr] + w.g.lists[sid]]
      && w'.m.subs.Keys == w.m.subs.Keys + {addr} && w'.m.subs[addr].val == h
  {
  }

  /** An unsubscription is possible wherever its list has that many nodes, and takes exactly that
      node out of the list. */
  lemma UnsubscribeRemoves(w: World, sid: nat, k: nat)
    requires Inv(w) && w.m.post.NoPost? && (w.m.loop.Idle? || w.m.loop.Handling?)
    requires sid < 26 && k < |w.g.lists[sid]|
    ensures
      var w' := Step(w, Unsubscribe(sid, k));
      && w'.g.lists == w.g.lists[sid := Drop(w.g.lists[sid], k)]
      && w'.m.subs.Keys == w.m.subs.Keys - {w.g.lists[sid][k]}
  {
    assert Chain(w.m.subs, w.m.block[sid], w.g.lists[sid]);
    WalkChain(w.m.subs, w.m.block[sid], w.g.lists[sid], k);
    UnsubscribeDoes(w, Unsubscribe(sid, k));
    UnlinkKeys(w.m.subs, At(w.g.lists[sid], k as int - 1), w.g.lists[sid][k]);
  }

  lemma UnlinkKeys(subs: map<Addr, Node<Handler>>, prev: Addr, a: Addr)
    requires a in subs
    ensures Unlink(subs, prev, a).Keys == subs.Keys - {a}
  {
  }

  /** The steps a legal run can go on with: all but posts of ids below -1, and unsubscriptions
      of the node through which a handler is being called. */
  lemma LegalIff(ls: seq<Label>, l: Label)
    requires Legal(ls)
    ensures
      Legal(ls + [l]) <==>
      match l
      case TaskPost(msg) => msg.id >= -1
      case IsrPost(msg) => msg.id >= -1
      case Unsubscribe(sid, k) =>
        var m := Run(ls).m;
        !(m.loop.Handling? && sid < 26 && Walk(m.subs, At(m.block, sid), k) == m.loop.cur)
      case _ => true
  {
    assert (ls + [l])[..|ls|] == ls;
    RunKeeps(ls);
  }

  // The dispatch loop

  function Stage(l: LoopPc): nat {
    match l
    case Idle => 0
    case Next(_) => 1
    case Discard(_, _) => 2
    case Release(_, _) => 3
    case Dispatching(_, _, _) => 4
    case Handling(_, _, _) => 4
    case Lookup(_, _) => 5
    case Unmask(_, _) => 6
    case Trim(_, _) => 7
    case Advance(_, _) => 8
    case Read(_) => 9
    case Round(_) => 10
  }

  /** How much a Loop call still has to do: messages, stage, handlers. */
  datatype Rank = Rank(rounds: nat, stage: nat, handlers: nat)

  function RankOf(l: LoopPc, rest: seq<Addr>): Rank {
    Rank(if l.Idle? then 0 else l.left + 1, Stage(l),
         if l.Dispatching? then 2 * |rest| + 1 else if l.Handling? then 2 * |rest| else 0)
  }

  predicate Less(a: Rank, b: Rank) {
    || a.rounds < b.rounds
    || (a.rounds == b.rounds && a.stage < b.stage)
    || (a.rounds == b.rounds && a.stage == b.stage && a.handlers < b.handlers)
  }

  /** Every step of a running Loop call brings it nearer to its end. */
  lemma LoopAdvances(w: World)
    requires Inv(w) && w.m.post.NoPost? && !w.m.loop.Idle?
    ensures
      var w' := Step(w, LoopStep);
      Less(RankOf(w'.m.loop, w'.g.turn.rest), RankOf(w.m.loop, w.g.turn.rest))
  {
    StepKeeps(w, LoopStep);
    Advances(w.m, w.g);
  }

  lemma Advances(m: Machine, g: Ledger)
    requires !m.loop.Idle? && !StepLoop(m).fault && (!m.loop.Round? ==> m.loop.left > 0)
    requires m.loop.Dispatching? ==> m.loop.cur == NULL || m.loop.cur in m.subs
    requires m.loop.Handling? ==> g.turn.rest != []
    ensures Less(RankOf(StepLoop(m).loop, LedgerLoop(m, g).turn.rest), RankOf(m.loop, g.turn.rest))
  {
    if m.loop.Dispatching? || m.loop.Handling? {
      WalkAdvances(m, g);
    } else if m.loop.Lookup? || m.loop.Release? || m.loop.Discard? {
      MessageAdvances(m);
    } else {
      PopAdvances(m);
    }
  }

  predicate Descends(l: LoopPc, l': LoopPc) {
    var a, b := RankOf(l', []), RankOf(l, []);
    a.rounds < b.rounds || (a.rounds == b.rounds && a.stage < b.stage)
  }

  lemma MessageAdvances(m: Machine)
    requires (m.loop.Lookup? || m.loop.Release? || m.loop.Discard?) && !StepLoop(m).fault
    ensures Descends(m.loop, StepLoop(m).loop)
  {
  }

  lemma PopAdvances(m: Machine)
    requires m.loop.Round? || m.loop.Read? || m.loop.Advance? || m.loop.Trim? || m.loop.Unmask? || m.loop.Next?
    requires !StepLoop(m).fault && (!m.loop.Round? ==> m.loop.left > 0)
    ensures Descends(m.loop, StepLoop(m).loop)
  {
  }

  lemma WalkAdvances(m: Machine, g: Ledger)
    requires (m.loop.Dispatching? || m.loop.Handling?) && !StepLoop(m).fault
    requires m.loop.Dispatching? ==> m.loop.cur == NULL || m.loop.cur in m.subs
    requires m.loop.Handling? ==> g.turn.rest != []
    ensures Less(RankOf(StepLoop(m).loop, LedgerLoop(m, g).turn.rest), RankOf(m.loop, g.turn.rest))
  {
  }

  /** Nothing else but the start of a Loop call sets it back. */
  lemma OthersKeepRank(w: World, l: Label)
    requires !l.LoopStep? && !l.StartLoop?
    ensures
      var w' := Step(w, l);
      w'.m.loop == w.m.loop && |w'.g.turn.rest| <= |w.g.turn.rest|
  {
  }

  lemma LoopStarts(w: World, max: nat)
    requires !w.m.fault && w.m.post.NoPost? && w.m.loop.Idle?
    ensures Step(w, StartLoop(max)) == World(w.m.(loop := Round(max)), w.g)
  {
  }
}
