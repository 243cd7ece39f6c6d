/** What callers of the message queue must respect, and that the code does fail when they do
    not: ids not below -1, and no handler unsubscribes the node through which it is called. */
module CallerRules {
  import opened Chains
  import opened Interleaving
  import opened Messages
  import opened Subscribers

  lemma RunSnoc(ls: seq<Label>, l: Label)
    ensures Run(ls + [l]) == Step(Run(ls), l)
  {
    assert (ls + [l])[..|ls|] == ls;
  }

  function MachineRun(m: Machine, ls: seq<Label>): Machine
    decreases |ls|
  {
    if ls == [] then m else MachineRun(StepMachine(m, ls[0]), ls[1..])
  }

  /** The history beside the machine has no influence on it. */
  lemma {:induction false} HistoryIsPassive(pre: seq<Label>, ls: seq<Label>)
    ensures Run(pre + ls).m == MachineRun(Run(pre).m, ls)
    decreases |ls|
  {
    if ls == [] {
      assert pre + ls == pre;
    } else {
      RunSnoc(pre, ls[0]);
      HistoryIsPassive(pre + [ls[0]], ls[1..]);
      assert pre + [ls[0]] + ls[1..] == pre + ls;
    }
  }

  lemma {:induction false} MachineRunConcat(m: Machine, a: seq<Label>, b: seq<Label>)
    ensures MachineRun(m, a + b) == MachineRun(MachineRun(m, a), b)
    decreases |a|
  {
    if a == [] {
      assert a + b == b;
    } else {
      assert (a + b)[1..] == a[1..] + b;
      MachineRunConcat(StepMachine(m, a[0]), a[1..], b);
    }
  }

  const POST: seq<Label> :=
    [PostStep(1), PostStep(1), PostStep(1), PostStep(1), PostStep(1), PostStep(1)]

  const POP: seq<Label> := [LoopStep, LoopStep, LoopStep, LoopStep, LoopStep]

  /** A task's Post onto an empty queue, run to its end. */
  lemma PostRuns(m: Machine, msg: Msg)
    requires !m.fault && m.irq && m.post == NoPost && !m.inIsr && m.parked == NoPost && m.loop == Idle
    requires m.first == NULL && m.mem == map[] && msg.id < MSG_MAX_MSG_IDS && msg.id != MSG_ID_NOMESSAGE
    ensures MachineRun(m.(post := Posting(msg, Enter)), POST) ==
            m.(mem := map[1 := Node(msg, NULL)], first := 1, last := 1, posted := m.posted + [msg])
  {
    var m1 := m.(irq := false, post := Posting(msg, Alloc));
    var m2 := m1.(mem := map[1 := Node(msg, NULL)], post := Posting(msg, Test(1)));
    var m3 := m2.(post := Posting(msg, SetLast(1)));
    var m4 := m3.(last := 1, post := Posting(msg, SetFirst(1)));
    var m5 := m4.(first := 1, posted := m.posted + [msg], post := Posting(msg, Exit(0)));
    var p := PostStep(1);
    assert StepMachine(m.(post := Posting(msg, Enter)), p) == m1;
    assert StepMachine(m1, p) == m2;
    assert StepMachine(m2, p) == m3;
    assert StepMachine(m3, p) == m4;
    assert StepMachine(m4, p) == m5;
    assert MachineRun(m3, [p, p, p]) == MachineRun(m5, [p]);
    assert MachineRun(m.(post := Posting(msg, Enter)), POST) == MachineRun(m2, [p, p, p, p]);
  }

  /** Popping the only message. */
  lemma PopRuns(m: Machine, msg: Msg)
    requires !m.fault && m.irq && m.post == NoPost && m.loop == Round(1)
    requires m.mem == map[1 := Node(msg, NULL)] && m.first == 1
    ensures MachineRun(m, POP) == m.(first := NULL, last := NULL, loop := Lookup(1, 1))
  {
    var m1 := m.(irq := false, loop := Read(1));
    var m2 := m1.(loop := Advance(1, 1));
    var m3 := m2.(first := NULL, loop := Trim(1, 1));
    var m4 := m3.(last := NULL, loop := Unmask(1, 1));
    assert StepMachine(m, LoopStep) == m1;
    assert StepMachine(m1, LoopStep) == m2;
    assert StepMachine(m2, LoopStep) == m3;
    assert StepMachine(m3, LoopStep) == m4;
    assert MachineRun(m3, [LoopStep, LoopStep]) == StepMachine(m4, LoopStep);
    assert MachineRun(m, POP) == MachineRun(m2, [LoopStep, LoopStep, LoopStep]);
  }

  /** Post, then start the loop. */
  lemma PostThenStart(m: Machine, msg: Msg)
    requires !m.fault && m.irq && m.post == NoPost && !m.inIsr && m.parked == NoPost && m.loop == Idle
    requires m.first == NULL && m.mem == map[] && msg.id < MSG_MAX_MSG_IDS && msg.id != MSG_ID_NOMESSAGE
    ensures MachineRun(m, [TaskPost(msg)] + POST + [StartLoop(1)]) ==
            m.(mem := map[1 := Node(msg, NULL)], first := 1, last := 1, posted := m.posted + [msg], loop := Round(1))
  {
    var m1 := m.(post := Posting(msg, Enter));
    var m2 := m.(mem := map[1 := Node(msg, NULL)], first := 1, last := 1, posted := m.posted + [msg]);
    PostRuns(m, msg);
    MachineRunConcat(m, [TaskPost(msg)], POST);
    assert MachineRun(m, [TaskPost(msg)]) == m1;
    MachineRunConcat(m, [TaskPost(msg)] + POST, [StartLoop(1)]);
    assert MachineRun(m2, [StartLoop(1)]) == m2.(loop := Round(1));
  }

  /** Post, start the loop, pop: the message is about to be looked up. */
  lemma DeliverRuns(m: Machine, msg: Msg)
    requires !m.fault && m.irq && m.post == NoPost && !m.inIsr && m.parked == NoPost && m.loop == Idle
    requires m.first == NULL && m.mem == map[] && msg.id < MSG_MAX_MSG_IDS && msg.id != MSG_ID_NOMESSAGE
    ensures MachineRun(m, [TaskPost(msg)] + POST + [StartLoop(1)] + POP) ==
            m.(mem := map[1 := Node(msg, NULL)], first := NULL, last := NULL,
               posted := m.posted + [msg], loop := Lookup(1, 1))
  {
    var m3 := m.(mem := map[1 := Node(msg, NULL)], first := 1, last := 1, posted := m.posted + [msg], loop := Round(1));
    PostThenStart(m, msg);
    PopRuns(m3, msg);
    MachineRunConcat(m, [TaskPost(msg)] + POST + [StartLoop(1)], POP);
  }

  /** Any post with an id below -1 passes the test in Post and makes the loop index outside
      the table of subscribers. */
  lemma NegativeIdFaults(msg: Msg)
    requires msg.id < -1
    ensures Run([TaskPost(msg)] + POST + [StartLoop(1)] + POP + [LoopStep]).m.fault
  {
    var ls := [TaskPost(msg)] + POST + [StartLoop(1)] + POP;
    HistoryIsPassive([], ls);
    assert [] + ls == ls;
    DeliverRuns(Start().m, msg);
    RunSnoc(ls, LoopStep);
  }

  /** Which unsubscriptions inside a handler fail: in whatever legal run, the loop then reads a
      deleted node exactly if the node is the one through which the handler was called. */
  lemma UnsubscribeFaultsIff(ls: seq<Label>, sid: nat, k: nat)
    requires Legal(ls) && Run(ls).m.loop.Handling? && Run(ls).m.post.NoPost? && CanUnsubscribe(Run(ls).m, Unsubscribe(sid, k))
    ensures
      var m := Run(ls).m;
      Run(ls + [Unsubscribe(sid, k)] + [LoopStep]).m.fault <==> Walk(m.subs, m.block[sid], k) == m.loop.cur
    ensures
      var m := Run(ls).m;
      Legal(ls + [Unsubscribe(sid, k)]) <==> Walk(m.subs, m.block[sid], k) != m.loop.cur
  {
    var u := Unsubscribe(sid, k);
    RunKeeps(ls);
    RunSnoc(ls, u);
    RunSnoc(ls + [u], LoopStep);
    assert (ls + [u])[..|ls|] == ls;
    if Walk(Run(ls).m.subs, Run(ls).m.block[sid], k) == Run(ls).m.loop.cur {
      OwnNodeFaults(Run(ls), u);
    } else {
      StepKeeps(Run(ls), u);
      StepKeeps(Run(ls + [u]), LoopStep);
    }
  }

  lemma OwnNodeFaults(w: World, l: Label)
    requires Inv(w) && w.m.loop.Handling? && w.m.post.NoPost? && l.Unsubscribe? && CanUnsubscribe(w.m, l)
    requires Walk(w.m.subs, w.m.block[l.sid], l.k) == w.m.loop.cur
    ensures StepMachine(Step(w, l).m, LoopStep).fault
  {
    UnsubscribeDoes(w, l);
  }

  /** A handler that unsubscribes itself makes the loop read its deleted node. */
  lemma SelfUnsubscribeFaults(h: Handler)
    ensures
      var ls := [Subscribe(0, h, 1), TaskPost(Msg(0, NULL, OwnerCaller))] + POST + [StartLoop(1)] + POP;
      Run(ls + [LoopStep, LoopStep, Unsubscribe(0, 0), LoopStep]).m.fault
  {
    var msg := Msg(0, NULL, OwnerCaller);
    var sub, deliver := Subscribe(0, h, 1), [TaskPost(msg)] + POST + [StartLoop(1)] + POP;
    var ls := [sub, TaskPost(msg)] + POST + [StartLoop(1)] + POP;
    var m0 := Start().m;
    var m1 := m0.(subs := map[1 := Node(h, NULL)], block := m0.block[0 := 1]);
    assert ls == [sub] + deliver && [] + ls == ls;
    HistoryIsPassive([], ls);
    MachineRunConcat(m0, [sub], deliver);
    assert StepMachine(m0, sub) == m1 && MachineRun(m0, [sub]) == m1;
    DeliverRuns(m1, msg);
    HistoryIsPassive(ls, [LoopStep, LoopStep, Unsubscribe(0, 0), LoopStep]);
    SelfUnsubscribeRuns(Run(ls).m, msg, h);
  }

  lemma SelfUnsubscribeRuns(m2: Machine, msg: Msg, h: Handler)
    requires m2.loop == Lookup(1, 1) && m2.post == NoPost && !m2.fault
    requires m2.mem == map[1 := Node(msg, NULL)] && msg.id == 0
    requires m2.subs == map[1 := Node(h, NULL)] && |m2.block| > 0 && m2.block[0] == 1
    ensures MachineRun(m2, [LoopStep, LoopStep, Unsubscribe(0, 0), LoopStep]).fault
  {
    var m3 := m2.(loop := Dispatching(1, 1, 1));
    var m4 := StepMachine(m3, LoopStep);
    var m5 := StepMachine(m4, Unsubscribe(0, 0));
    assert StepMachine(m2, LoopStep) == m3;
    assert m4.loop == Handling(1, 1, 1) && m4.post == NoPost && !m4.fault && m4.subs == m2.subs && m4.block == m2.block;
    assert Walk(m4.subs, m4.block[0], 0) == 1;
    assert 1 !in m5.subs && m5.loop == m4.loop && m5.post == NoPost && !m5.fault;
    var tail := [LoopStep, LoopStep, Unsubscribe(0, 0), LoopStep];
    assert MachineRun(m2, tail) == MachineRun(m4, [Unsubscribe(0, 0), LoopStep]) == StepMachine(m5, LoopStep);
  }
}
