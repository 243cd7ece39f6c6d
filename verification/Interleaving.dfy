/** The message queue of kernel/mq.cpp as a transition system. A step is one pointer write,
    one test, one `cli`/`sei`, one `new` or one `delete`; an interrupt that posts may start
    between any two steps while interrupts are enabled, and then runs alone until it
    returns. Handlers called by the dispatch loop may post, subscribe and unsubscribe in the
    middle of it. Memory is a map of allocated nodes, and addresses may be used again after `delete`,
    so a dangling pointer shows up as a fault. */
module Interleaving {
  import opened Chains
  import opened Messages
  import opened Subscribers

  /** Where a Post stands; `node` is the message it has allocated. */
  datatype PostPc =
    | Enter              // before cli (task context only)
    | Alloc              // the id test and `new`
    | Test(node: Addr)   // if(MsgQueueFirst == NULL)
    | SetLast(node: Addr)
    | SetFirst(node: Addr)
    | Link(node: Addr)   // MsgQueueLast->pNextMsg = newMessage
    | MoveLast(node: Addr)
    | Exit(rc: int)      // sei, or the return from the interrupt; rc is returned

  datatype PostFrame = NoPost | Posting(msg: Msg, pc: PostPc)

  /** Where Loop stands; `left` is MaxMessages. */
  datatype LoopPc =
    | Idle
    | Round(left: nat)                            // while(MaxMessages), then cli
    | Read(left: nat)                             // msg = MsgQueueFirst
    | Advance(left: nat, msg: Addr)               // MsgQueueFirst = msg->pNextMsg
    | Trim(left: nat, msg: Addr)                  // if MsgQueueFirst is NULL, so is Last
    | Unmask(left: nat, msg: Addr)                // sei
    | Lookup(left: nat, msg: Addr)                // curHandler = QueueBlock[msg->msgid]
    | Dispatching(left: nat, msg: Addr, cur: Addr) // while(curHandler)
    | Handling(left: nat, msg: Addr, cur: Addr)   // inside curHandler->Call
    | Release(left: nat, msg: Addr)               // delete msg->context, if owned
    | Discard(left: nat, msg: Addr)               // delete msg
    | Next(left: nat)                             // MaxMessages--

  datatype Machine = Machine(
    mem: map<Addr, Node<Msg>>,      // allocated MESSAGE nodes
    first: Addr, last: Addr,        // MsgQueueFirst, MsgQueueLast
    subs: map<Addr, Node<Handler>>, // allocated MESSAGEHANDLER nodes
    block: seq<Addr>,               // QueueBlock
    irq: bool,                      // the global interrupt flag
    post: PostFrame,                // the running Post
    inIsr: bool,                    // it runs in an interrupt
    parked: PostFrame,              // a task's Post that the interrupt came upon
    loop: LoopPc,
    posted: seq<Msg>,               // posts that will return 0, in order of linking
    log: seq<Event>,
    fault: bool)                    // a dangling pointer was used

  /** One scheduling choice. A choice that is not possible in a state changes nothing. */
  datatype Label =
    | TaskPost(msg: Msg)            // a task or a handler calls Post
    | IsrPost(msg: Msg)             // an interrupt fires and calls Post
    | PostStep(addr: Addr)         // next step of the running Post; `new` yields addr
    | StartLoop(max: nat)
    | LoopStep
    | Subscribe(sid: nat, handler: Handler, addr: Addr)
    | Unsubscribe(sid: nat, k: nat) // unlink the k-th subscriber

  // The machine

  function StepPost(m: Machine, addr: Addr): Machine
    requires m.post.Posting?
  {
    var msg := m.post.msg;
    match m.post.pc
    case Enter => m.(irq := false, post := Posting(msg, Alloc))
    case Alloc =>
      if msg.id < MSG_MAX_MSG_IDS && msg.id != MSG_ID_NOMESSAGE && addr != NULL then
        if addr in m.mem then m
        else m.(mem := m.mem[addr := Node(msg, NULL)], post := Posting(msg, Test(addr)))
      else m.(post := Posting(msg, Exit(-1)))
    case Test(n) => m.(post := Posting(msg, if m.first == NULL then SetLast(n) else Link(n)))
    case SetLast(n) => m.(last := n, post := Posting(msg, SetFirst(n)))
    case SetFirst(n) => m.(first := n, posted := m.posted + [msg], post := Posting(msg, Exit(0)))
    case Link(n) =>
      if m.last !in m.mem then m.(fault := true)
      else m.(mem := m.mem[m.last := m.mem[m.last].(next := n)], post := Posting(msg, MoveLast(n)))
    case MoveLast(n) => m.(last := n, posted := m.posted + [msg], post := Posting(msg, Exit(0)))
    case Exit(_) => m.(irq := true, post := m.parked, inIsr := false, parked := NoPost)
  }

  function StepLoop(m: Machine): Machine {
    match m.loop
    case Idle => m
    case Round(left) => if left == 0 then m.(loop := Idle) else m.(irq := false, loop := Read(left))
    case Read(left) =>
      m.(loop := if m.first == NULL then Unmask(left, NULL) else Advance(left, m.first))
    case Advance(left, msg) =>
      if msg !in m.mem then m.(fault := true)
      else m.(first := m.mem[msg].next, loop := Trim(left, msg))
    case Trim(left, msg) =>
      m.(last := if m.first == NULL then NULL else m.last, loop := Unmask(left, msg))
    case Unmask(left, msg) =>
      m.(irq := true, loop := if msg == NULL then Next(left) else Lookup(left, msg))
    case Lookup(left, msg) =>
      if msg !in m.mem || !(0 <= m.mem[msg].val.id < |m.block|) then m.(fault := true)
      else m.(loop := Dispatching(left, msg, m.block[m.mem[msg].val.id]))
    case Dispatching(left, msg, cur) =>
      if cur == NULL then m.(loop := Release(left, msg))
      else if cur !in m.subs || msg !in m.mem then m.(fault := true)
      else
        var v := m.mem[msg].val;
        m.(log := m.log + [Call(m.subs[cur].val, v.id, v.context)], loop := Handling(left, msg, cur))
    case Handling(left, msg, cur) =>
      if cur !in m.subs then m.(fault := true)
      else m.(loop := Dispatching(left, msg, m.subs[cur].next))
    case Release(left, msg) =>
      if msg !in m.mem then m.(fault := true)
      else
        var v := m.mem[msg].val;
        m.(log := m.log + (if v.owner != OwnerCaller && v.context != NULL
                           then [FreeContext(v.context)] else []),
           loop := Discard(left, msg))
    case Discard(left, msg) =>
      if msg !in m.mem then m.(fault := true)
      else m.(mem := m.mem - {msg}, log := m.log + [FreeMessage(msg)], loop := Next(left))
    case Next(left) => m.(loop := Round(if left == 0 then 0 else left - 1))
  }

  predicate CanSubscribe(m: Machine, l: Label)
    requires l.Subscribe?
  {
    && m.post.NoPost? && (m.loop.Idle? || m.loop.Handling?)
    && l.sid < |m.block| && l.addr != NULL && l.addr !in m.subs
  }

  predicate CanUnsubscribe(m: Machine, l: Label)
    requires l.Unsubscribe?
  {
    && m.post.NoPost? && (m.loop.Idle? || m.loop.Handling?)
    && l.sid < |m.block| && Walk(m.subs, m.block[l.sid], l.k) in m.subs
  }

  function StepMachine(m: Machine, l: Label): Machine {
    if m.fault then m else
    match l
    case TaskPost(msg) =>
      if m.post.NoPost? && (m.loop.Idle? || m.loop.Handling?) then m.(post := Posting(msg, Enter)) else m
    case IsrPost(msg) =>
      if m.irq then m.(irq := false, post := Posting(msg, Alloc), inIsr := true, parked := m.post) else m
    case PostStep(addr) => if m.post.Posting? then StepPost(m, addr) else m
    case StartLoop(max) => if m.post.NoPost? && m.loop.Idle? then m.(loop := Round(max)) else m
    case LoopStep => if m.post.NoPost? then StepLoop(m) else m
    case Subscribe(id, h, addr) =>
      if CanSubscribe(m, l) then
        m.(subs := m.subs[addr := Node(h, m.block[id])], block := m.block[id := addr])
      else m
    case Unsubscribe(id, k) =>
      if CanUnsubscribe(m, l) then
        var a := Walk(m.subs, m.block[id], k);
        var prev := if k == 0 then NULL else Walk(m.subs, m.block[id], k - 1);
        m.(subs := Unlink(m.subs, prev, a),
           block := if k == 0 then m.block[id := m.subs[a].next] else m.block)
      else m
  }

  // The history of a run, kept beside the machine: it never influences a step.

  /** A message with its subscribers when its dispatch began; and the nodes of those that were
      unsubscribed, by handlers of others, before their turn came. */
  datatype Dispatch = Dispatch(msg: Msg, node: Addr, listed: seq<Subscriber>, gone: set<Addr>)

  datatype Ledger = Ledger(
    queue: seq<Addr>,          // nodes of accepted, not yet popped messages
    lists: seq<seq<Addr>>,     // nodes of each subscriber list
    done: seq<Dispatch>,       // messages fully dispatched
    turn: Turn)

  datatype World = World(m: Machine, g: Ledger)

  function LedgerPost(g: Ledger, f: PostFrame): Ledger
    requires f.Posting?
  {
    match f.pc
    case SetFirst(n) => g.(queue := g.queue + [n])
    case MoveLast(n) => g.(queue := g.queue + [n])
    case _ => g
  }

  function LedgerLoop(m: Machine, g: Ledger): Ledger {
    match m.loop
    case Advance(left, msg) => g.(queue := if g.queue == [] then [] else g.queue[1..])
    case Lookup(left, msg) =>
      if msg in m.mem && 0 <= m.mem[msg].val.id < |g.lists| then
        var nodes := g.lists[m.mem[msg].val.id];
        if forall i :: 0 <= i < |nodes| ==> nodes[i] in m.subs then
          g.(turn := Begin(m.mem[msg].val.id, Roster(m.subs, nodes), nodes))
        else g
      else g
    case Dispatching(left, msg, cur) =>
      if cur in m.subs then g.(turn := g.turn.(called := g.turn.called + [m.subs[cur].val])) else g
    case Handling(left, msg, cur) => g.(turn := g.turn.(rest := if g.turn.rest == [] then [] else g.turn.rest[1..]))
    case Discard(left, msg) =>
      if msg in m.mem then g.(done := g.done + [Dispatch(m.mem[msg].val, msg, g.turn.listed, g.turn.gone)]) else g
    case _ => g
  }

  function StepLedger(m: Machine, g: Ledger, l: Label): Ledger {
    if m.fault then g else
    match l
    case PostStep(addr) => if m.post.Posting? then LedgerPost(g, m.post) else g
    case LoopStep => if m.post.NoPost? then LedgerLoop(m, g) else g
    case Subscribe(id, h, addr) =>
      if CanSubscribe(m, l) && id < |g.lists| then g.(lists := g.lists[id := [addr] + g.lists[id]]) else g
    case Unsubscribe(id, k) =>
      if CanUnsubscribe(m, l) && id < |g.lists| && k < |g.lists[id]| then
        var s := g.lists[id];
        g.(lists := g.lists[id := Drop(s, k)],
           turn := if m.loop.Handling? then TurnWithout(g.turn, g.lists, id, k) else g.turn)
      else g
    case _ => g
  }

  function Step(w: World, l: Label): World {
    World(StepMachine(w.m, l), StepLedger(w.m, w.g, l))
  }

  function Start(): World {
    World(
      Machine(map[], NULL, NULL, map[], seq(MSG_MAX_MSG_IDS, _ => NULL), true, NoPost, false, NoPost, Idle,
              [], [], false),
      Ledger([], seq(MSG_MAX_MSG_IDS, _ => []), [], Begin(0, [], [])))
  }

  function Run(ls: seq<Label>): World {
    if ls == [] then Start() else Step(Run(ls[..|ls| - 1]), ls[|ls| - 1])
  }

  /** What callers must respect: ids not below -1, and a handler does not unsubscribe the
      node through which it is being called. */
  predicate Allowed(m: Machine, l: Label) {
    match l
    case TaskPost(msg) => msg.id >= -1
    case IsrPost(msg) => msg.id >= -1
    case Unsubscribe(id, k) => m.loop.Handling? && id < |m.block| ==> Walk(m.subs, m.block[id], k) != m.loop.cur
    case _ => true
  }

  predicate Legal(ls: seq<Label>) {
    ls == [] || (Legal(ls[..|ls| - 1]) && Allowed(Run(ls[..|ls| - 1]).m, ls[|ls| - 1]))
  }

  // What a run looks like from outside

  /** The handlers called for a message: its subscribers when its dispatch began, in order and
      once each, without those unsubscribed before their turn. */
  function Attended(d: Dispatch): seq<Handler> {
    HandlersIn(Staying(d.listed, d.gone))
  }

  /** The life of one message after it was popped. */
  function Life(d: Dispatch): seq<Event> {
    Calls(d.msg, Attended(d)) + Frees(d.msg) + [FreeMessage(d.node)]
  }

  function Lives(done: seq<Dispatch>): seq<Event> {
    if done == [] then [] else Lives(done[..|done| - 1]) + Life(done[|done| - 1])
  }

  function Msgs(done: seq<Dispatch>): seq<Msg> {
    seq(|done|, i requires 0 <= i < |done| => done[i].msg)
  }

  // The invariant

  predicate Masked(f: PostFrame) {
    f.Posting? && f.pc != Enter
  }

  predicate LoopMasked(l: LoopPc) {
    l.Read? || l.Advance? || l.Trim? || l.Unmask?
  }

  /** Interrupts are enabled exactly outside the critical sections, and at most one
      critical section is open. */
  ghost predicate ControlOk(irq: bool, post: PostFrame, inIsr: bool, parked: PostFrame, l: LoopPc) {
    && irq == !(Masked(post) || LoopMasked(l))
    && (inIsr ==> Masked(post) && !LoopMasked(l))
    && (!inIsr ==> parked.NoPost?)
    && (!inIsr && post.Posting? ==> l.Idle? || l.Handling?)
    && (parked.Posting? ==> parked.pc == Enter && (l.Idle? || l.Handling?))
    && (!l.Idle? && !l.Round? ==> l.left > 0)
    && (l.Advance? || l.Trim? || l.Lookup? || l.Dispatching? || l.Handling? || l.Release? || l.Discard?
        ==> l.msg != NULL)
    && (post.Posting? ==> post.msg.id >= -1) && (parked.Posting? ==> parked.msg.id >= -1)
  }

  /** The message a Post has allocated and not yet linked. */
  function Pending(f: PostFrame): Addr {
    if f.NoPost? then NULL else
    match f.pc
    case Test(n) => n
    case SetLast(n) => n
    case SetFirst(n) => n
    case Link(n) => n
    case MoveLast(n) => n
    case _ => NULL
  }

  /** The message popped and not yet deleted. */
  function InFlight(l: LoopPc): Addr {
    if l.Idle? || l.Round? || l.Read? || l.Advance? || l.Next? then NULL else l.msg
  }

  /** The message Loop is about to pop, and the one it has just popped. */
  function Advancing(l: LoopPc): Addr {
    if l.Advance? then l.msg else NULL
  }

  function Trimming(l: LoopPc): Addr {
    if l.Trim? then l.msg else NULL
  }

  /** The queue, and how far a critical section has taken it apart. */
  ghost predicate QueueOk(mem: map<Addr, Node<Msg>>, first: Addr, last: Addr, f: PostFrame,
                          advancing: Addr, trimming: Addr, q: seq<Addr>) {
    && Chain(mem, first, if f.Posting? && f.pc.MoveLast? then q + [f.pc.node] else q)
    && (forall i :: 0 <= i < |q| ==> q[i] in mem)
    && last == (if f.Posting? && f.pc.SetFirst? then f.pc.node
                else if trimming != NULL && q == [] then trimming else Tail(q))
    && (f.Posting? && (f.pc.SetLast? || f.pc.SetFirst?) ==> q == [])
    && (f.Posting? && (f.pc.Link? || f.pc.MoveLast?) ==> q != [])
    && (advancing != NULL ==> q != [] && advancing == q[0])
  }

  /** The allocated messages are the queued ones, the popped one and the pending one: no
      leak, and no freed message within reach. */
  ghost predicate HeapOk(mem: map<Addr, Node<Msg>>, f: PostFrame, flying: Addr, q: seq<Addr>) {
    && NULL !in mem
    && (forall a :: a in mem ==> a in q || a == Pending(f) || a == flying)
    && (forall a :: a in mem ==> 0 <= mem[a].val.id < MSG_MAX_MSG_IDS)
    && Pending(f) !in q && flying !in q
    && (Pending(f) != NULL ==> Pending(f) != flying && Pending(f) in mem && mem[Pending(f)].val == f.msg)
    && (Pending(f) != NULL && !f.pc.MoveLast? ==> mem[Pending(f)].next == NULL)
    && (f.Posting? && !f.pc.Enter? && !f.pc.Alloc? && !f.pc.Exit? ==> f.pc.node != NULL)
    && (flying != NULL ==> flying in mem)
  }

  ghost predicate CursorOk(subs: map<Addr, Node<Handler>>, l: LoopPc, list: seq<Addr>, staying: seq<Subscriber>,
                           called: seq<Handler>, rest: seq<Addr>) {
    match l
    case Dispatching(_, _, cur) => Choosing(subs, cur, list, staying, called, rest)
    case Handling(_, _, cur) => Called(subs, cur, list, staying, called, rest)
    case Release(_, _) => HandlersIn(staying) == called
    case Discard(_, _) => HandlersIn(staying) == called
    case _ => true
  }

  ghost predicate TurnOk(subs: map<Addr, Node<Handler>>, l: LoopPc, lists: seq<seq<Addr>>, t: Turn) {
    && t.sid < |lists| && CursorOk(subs, l, lists[t.sid], t.staying, t.called, t.rest)
    && RosterOk(t.listed, t.gone, t.staying)
  }

  function Flying(mem: map<Addr, Node<Msg>>, flying: Addr): seq<Msg> {
    if flying in mem then [mem[flying].val] else []
  }

  /** The part of its Life that the popped message has behind it. */
  function Partial(mem: map<Addr, Node<Msg>>, l: LoopPc, called: seq<Handler>): seq<Event> {
    if InFlight(l) !in mem then []
    else
      var v := mem[InFlight(l)].val;
      match l
      case Dispatching(_, _, _) => Calls(v, called)
      case Handling(_, _, _) => Calls(v, called)
      case Release(_, _) => Calls(v, called)
      case Discard(_, _) => Calls(v, called) + Frees(v)
      case _ => []
  }

  // The three parts of the invariant: queue and heap, subscriber lists, history.

  ghost predicate QueueInv(m: Machine, q: seq<Addr>) {
    && ControlOk(m.irq, m.post, m.inIsr, m.parked, m.loop)
    && QueueOk(m.mem, m.first, m.last, m.post, Advancing(m.loop), Trimming(m.loop), q)
    && HeapOk(m.mem, m.post, InFlight(m.loop), q)
  }

  ghost predicate ListsInv(subs: map<Addr, Node<Handler>>, block: seq<Addr>, l: LoopPc, lists: seq<seq<Addr>>, t: Turn) {
    ListsOk(subs, block, lists) && TurnOk(subs, l, lists, t)
  }

  ghost predicate InMemory(mem: map<Addr, Node<Msg>>, q: seq<Addr>) {
    forall i :: 0 <= i < |q| ==> q[i] in mem
  }

  /** Accepted messages are those dispatched, the one in flight and those queued. */
  ghost predicate Conserved(posted: seq<Msg>, done: seq<Dispatch>, mem: map<Addr, Node<Msg>>, flying: Addr,
                            q: seq<Addr>) {
    InMemory(mem, q) && posted == Msgs(done) + Flying(mem, flying) + Vals(mem, q)
  }

  ghost predicate HistoryInv(m: Machine, g: Ledger) {
    && Conserved(m.posted, g.done, m.mem, InFlight(m.loop), g.queue)
    && m.log == Lives(g.done) + Partial(m.mem, m.loop, g.turn.called)
  }

  ghost predicate Inv(w: World) {
    && !w.m.fault
    && QueueInv(w.m, w.g.queue)
    && ListsInv(w.m.subs, w.m.block, w.m.loop, w.g.lists, w.g.turn)
    && HistoryInv(w.m, w.g)
  }

  // Every step keeps the invariant

  // What the steps do to the queue and the heap; adv and trim say where Loop stands.

  lemma HeapNew(mem: map<Addr, Node<Msg>>, first: Addr, last: Addr, msg: Msg, flying: Addr, q: seq<Addr>, addr: Addr)
    requires -1 < msg.id < MSG_MAX_MSG_IDS && addr != NULL && addr !in mem
    requires QueueOk(mem, first, last, Posting(msg, Alloc), NULL, NULL, q)
    requires HeapOk(mem, Posting(msg, Alloc), flying, q)
    ensures
      var mem' := mem[addr := Node(msg, NULL)];
      && QueueOk(mem', first, last, Posting(msg, Test(addr)), NULL, NULL, q)
      && HeapOk(mem', Posting(msg, Test(addr)), flying, q)
      && Vals(mem', q) == Vals(mem, q) && Flying(mem', flying) == Flying(mem, flying)
  {
    ChainFrame(mem, mem[addr := Node(msg, NULL)], first, q);
  }

  lemma HeapLink(mem: map<Addr, Node<Msg>>, first: Addr, last: Addr, msg: Msg, flying: Addr, q: seq<Addr>, n: Addr)
    requires QueueOk(mem, first, last, Posting(msg, Link(n)), NULL, NULL, q)
    requires HeapOk(mem, Posting(msg, Link(n)), flying, q)
    ensures last in mem
    ensures
      var mem' := mem[last := mem[last].(next := n)];
      && QueueOk(mem', first, last, Posting(msg, MoveLast(n)), NULL, NULL, q)
      && HeapOk(mem', Posting(msg, MoveLast(n)), flying, q)
      && Vals(mem', q) == Vals(mem, q) && Flying(mem', flying) == Flying(mem, flying)
  {
    ChainLink(mem, first, q, n);
  }

  lemma HeapFirst(mem: map<Addr, Node<Msg>>, last: Addr, msg: Msg, flying: Addr, q: seq<Addr>, n: Addr)
    requires QueueOk(mem, NULL, last, Posting(msg, SetFirst(n)), NULL, NULL, q)
    requires HeapOk(mem, Posting(msg, SetFirst(n)), flying, q)
    ensures QueueOk(mem, n, n, Posting(msg, Exit(0)), NULL, NULL, q + [n])
    ensures HeapOk(mem, Posting(msg, Exit(0)), flying, q + [n])
    ensures Vals(mem, q + [n]) == Vals(mem, q) + [msg]
  {
    assert q + [n] == [n];
  }

  lemma HeapMove(mem: map<Addr, Node<Msg>>, first: Addr, last: Addr, msg: Msg, flying: Addr, q: seq<Addr>, n: Addr)
    requires QueueOk(mem, first, last, Posting(msg, MoveLast(n)), NULL, NULL, q)
    requires HeapOk(mem, Posting(msg, MoveLast(n)), flying, q)
    ensures QueueOk(mem, first, n, Posting(msg, Exit(0)), NULL, NULL, q + [n])
    ensures HeapOk(mem, Posting(msg, Exit(0)), flying, q + [n])
    ensures Vals(mem, q + [n]) == Vals(mem, q) + [msg]
  {
    ChainSnoc(mem, first, q, n);
    HeapAdopt(mem, msg, flying, q, n);
  }

  /** The pending message becomes a queued one. */
  lemma HeapAdopt(mem: map<Addr, Node<Msg>>, msg: Msg, flying: Addr, q: seq<Addr>, n: Addr)
    requires HeapOk(mem, Posting(msg, MoveLast(n)), flying, q) && NULL !in q
    ensures HeapOk(mem, Posting(msg, Exit(0)), flying, q + [n])
  {
    var q' := q + [n];
    forall a | a in mem ensures a in q' || a == flying {
      if a in q {
        var i :| 0 <= i < |q| && q[i] == a;
        assert q'[i] == a;
      } else {
        assert q'[|q|] == n;
      }
    }
    assert flying !in q' && NULL !in q';
  }

  lemma HeapPop(mem: map<Addr, Node<Msg>>, first: Addr, last: Addr, q: seq<Addr>, a: Addr)
    requires QueueOk(mem, first, last, NoPost, a, NULL, q) && HeapOk(mem, NoPost, NULL, q) && a != NULL
    ensures a in mem && QueueOk(mem, mem[a].next, last, NoPost, NULL, a, q[1..])
    ensures HeapOk(mem, NoPost, a, q[1..])
    ensures Vals(mem, q) == [mem[a].val] + Vals(mem, q[1..])
  {
    ChainRest(mem, first, q);
    HeapFlies(mem, q, a);
  }

  lemma HeapFlies(mem: map<Addr, Node<Msg>>, q: seq<Addr>, a: Addr)
    requires HeapOk(mem, NoPost, NULL, q) && q != [] && a == q[0] && a in mem && a !in q[1..]
    ensures HeapOk(mem, NoPost, a, q[1..])
  {
    InRest(q);
  }

  lemma HeapDiscard(mem: map<Addr, Node<Msg>>, first: Addr, last: Addr, q: seq<Addr>, a: Addr)
    requires QueueOk(mem, first, last, NoPost, NULL, NULL, q) && HeapOk(mem, NoPost, a, q)
    ensures QueueOk(mem - {a}, first, last, NoPost, NULL, NULL, q) && HeapOk(mem - {a}, NoPost, NULL, q)
    ensures Vals(mem - {a}, q) == Vals(mem, q)
  {
    ChainFrame(mem, mem - {a}, first, q);
  }

  /** Writes that keep the contents of queued and popped messages keep the history. */
  lemma SameValues(m: Machine, g: Ledger, mem': map<Addr, Node<Msg>>)
    requires HistoryInv(m, g)
    requires InMemory(mem', g.queue) && Vals(mem', g.queue) == Vals(m.mem, g.queue)
    requires Flying(mem', InFlight(m.loop)) == Flying(m.mem, InFlight(m.loop))
    ensures HistoryInv(m.(mem := mem'), g)
  {
  }

  lemma Accepted(posted: seq<Msg>, done: seq<Dispatch>, mem: map<Addr, Node<Msg>>, flying: Addr, q: seq<Addr>,
                 n: Addr, msg: Msg)
    requires Conserved(posted, done, mem, flying, q) && InMemory(mem, q + [n])
    requires Vals(mem, q + [n]) == Vals(mem, q) + [msg]
    ensures Conserved(posted + [msg], done, mem, flying, q + [n])
  {
    Assoc(Msgs(done) + Flying(mem, flying), Vals(mem, q), [msg]);
  }

  lemma PostEnters(w: World, addr: Addr)
    requires Inv(w) && w.m.post.Posting? && w.m.post.pc.Enter?
    ensures Inv(World(StepPost(w.m, addr), LedgerPost(w.g, w.m.post)))
  {
  }

  lemma PostAllocates(w: World, addr: Addr)
    requires Inv(w) && w.m.post.Posting? && w.m.post.pc.Alloc?
    ensures Inv(World(StepPost(w.m, addr), LedgerPost(w.g, w.m.post)))
  {
    var id := w.m.post.msg.id;
    if id < MSG_MAX_MSG_IDS && id != MSG_ID_NOMESSAGE && addr != NULL {
      if addr !in w.m.mem {
        PostNew(w, addr);
      }
    } else {
      PostRefused(w, addr);
    }
  }

  lemma PostRefused(w: World, addr: Addr)
    requires Inv(w) && w.m.post.Posting? && w.m.post.pc.Alloc?
    requires w.m.post.msg.id >= MSG_MAX_MSG_IDS || w.m.post.msg.id == MSG_ID_NOMESSAGE || addr == NULL
    ensures Inv(World(StepPost(w.m, addr), LedgerPost(w.g, w.m.post)))
  {
    assert StepPost(w.m, addr) == w.m.(post := Posting(w.m.post.msg, Exit(-1)));
  }

  lemma PostNew(w: World, addr: Addr)
    requires Inv(w) && w.m.post.Posting? && w.m.post.pc.Alloc?
    requires w.m.post.msg.id < MSG_MAX_MSG_IDS && w.m.post.msg.id != MSG_ID_NOMESSAGE
    requires addr != NULL && addr !in w.m.mem
    ensures Inv(World(StepPost(w.m, addr), LedgerPost(w.g, w.m.post)))
  {
    var m := w.m;
    HeapNew(m.mem, m.first, m.last, m.post.msg, InFlight(m.loop), w.g.queue, addr);
    SameValues(m, w.g, m.mem[addr := Node(m.post.msg, NULL)]);
  }

  lemma PostTests(w: World, addr: Addr)
    requires Inv(w) && w.m.post.Posting? && w.m.post.pc.Test?
    ensures Inv(World(StepPost(w.m, addr), LedgerPost(w.g, w.m.post)))
  {
  }

  lemma PostSetsLast(w: World, addr: Addr)
    requires Inv(w) && w.m.post.Posting? && w.m.post.pc.SetLast?
    ensures Inv(World(StepPost(w.m, addr), LedgerPost(w.g, w.m.post)))
  {
  }

  lemma PostSetsFirst(w: World, addr: Addr)
    requires Inv(w) && w.m.post.Posting? && w.m.post.pc.SetFirst?
    ensures Inv(World(StepPost(w.m, addr), LedgerPost(w.g, w.m.post)))
  {
    var m, g, n := w.m, w.g, w.m.post.pc.node;
    HeapFirst(m.mem, m.last, m.post.msg, InFlight(m.loop), g.queue, n);
    Accepted(m.posted, g.done, m.mem, InFlight(m.loop), g.queue, n, m.post.msg);
  }

  lemma PostLinks(w: World, addr: Addr)
    requires Inv(w) && w.m.post.Posting? && w.m.post.pc.Link?
    ensures Inv(World(StepPost(w.m, addr), LedgerPost(w.g, w.m.post)))
  {
    var m, n := w.m, w.m.post.pc.node;
    HeapLink(m.mem, m.first, m.last, m.post.msg, InFlight(m.loop), w.g.queue, n);
    SameValues(m, w.g, m.mem[m.last := m.mem[m.last].(next := n)]);
  }

  lemma PostMovesLast(w: World, addr: Addr)
    requires Inv(w) && w.m.post.Posting? && w.m.post.pc.MoveLast?
    ensures Inv(World(StepPost(w.m, addr), LedgerPost(w.g, w.m.post)))
  {
    var m, g, n := w.m, w.g, w.m.post.pc.node;
    HeapMove(m.mem, m.first, m.last, m.post.msg, InFlight(m.loop), g.queue, n);
    Accepted(m.posted, g.done, m.mem, InFlight(m.loop), g.queue, n, m.post.msg);
  }

  lemma PostExits(w: World, addr: Addr)
    requires Inv(w) && w.m.post.Posting? && w.m.post.pc.Exit?
    ensures Inv(World(StepPost(w.m, addr), LedgerPost(w.g, w.m.post)))
  {
  }

  lemma LoopRounds(w: World)
    requires Inv(w) && w.m.post.NoPost? && w.m.loop.Round?
    ensures Inv(World(StepLoop(w.m), LedgerLoop(w.m, w.g)))
  {
    if w.m.loop.left == 0 {
      LoopReturns(w);
    } else {
      LoopMasks(w);
    }
  }

  lemma LoopReturns(w: World)
    requires Inv(w) && w.m.post.NoPost? && w.m.loop == Round(0)
    ensures Inv(World(w.m.(loop := Idle), w.g))
  {
  }

  lemma LoopMasks(w: World)
    requires Inv(w) && w.m.post.NoPost? && w.m.loop.Round? && w.m.loop.left > 0
    ensures Inv(World(w.m.(irq := false, loop := Read(w.m.loop.left)), w.g))
  {
  }

  lemma LoopReads(w: World)
    requires Inv(w) && w.m.post.NoPost? && w.m.loop.Read?
    ensures Inv(World(StepLoop(w.m), LedgerLoop(w.m, w.g)))
  {
    var m := w.m;
    if m.first == NULL {
      assert StepLoop(m) == m.(loop := Unmask(m.loop.left, NULL));
    } else {
      LoopFinds(w);
    }
  }

  lemma LoopFinds(w: World)
    requires Inv(w) && w.m.post.NoPost? && w.m.loop.Read? && w.m.first != NULL
    ensures Inv(World(w.m.(loop := Advance(w.m.loop.left, w.m.first)), w.g))
  {
  }

  lemma Popped(posted: seq<Msg>, done: seq<Dispatch>, mem: map<Addr, Node<Msg>>, q: seq<Addr>, a: Addr)
    requires Conserved(posted, done, mem, NULL, q) && NULL !in mem && a in mem
    requires q != [] && Vals(mem, q) == [mem[a].val] + Vals(mem, q[1..])
    ensures Conserved(posted, done, mem, a, q[1..])
  {
    assert posted == Msgs(done) + ([mem[a].val] + Vals(mem, q[1..]));
  }

  lemma AdvanceHistory(w: World)
    requires Inv(w) && w.m.post.NoPost? && w.m.loop.Advance?
    ensures HistoryInv(StepLoop(w.m), LedgerLoop(w.m, w.g))
  {
    var m, g, a := w.m, w.g, w.m.loop.msg;
    HeapPop(m.mem, m.first, m.last, g.queue, a);
    Popped(m.posted, g.done, m.mem, g.queue, a);
  }

  lemma AdvanceQueue(w: World)
    requires Inv(w) && w.m.post.NoPost? && w.m.loop.Advance?
    ensures QueueInv(StepLoop(w.m), LedgerLoop(w.m, w.g).queue)
  {
    HeapPop(w.m.mem, w.m.first, w.m.last, w.g.queue, w.m.loop.msg);
  }

  lemma LoopAdvances(w: World)
    requires Inv(w) && w.m.post.NoPost? && w.m.loop.Advance?
    ensures Inv(World(StepLoop(w.m), LedgerLoop(w.m, w.g)))
  {
    var m, g, a := w.m, w.g, w.m.loop.msg;
    assert StepLoop(m) == m.(first := m.mem[a].next, loop := Trim(m.loop.left, a));
    assert LedgerLoop(m, g) == g.(queue := g.queue[1..]);
    AdvanceQueue(w);
    AdvanceHistory(w);
  }

  lemma LoopTrims(w: World)
    requires Inv(w) && w.m.post.NoPost? && w.m.loop.Trim?
    ensures Inv(World(StepLoop(w.m), LedgerLoop(w.m, w.g)))
  {
  }

  lemma LoopUnmasks(w: World)
    requires Inv(w) && w.m.post.NoPost? && w.m.loop.Unmask?
    ensures Inv(World(StepLoop(w.m), LedgerLoop(w.m, w.g)))
  {
    if w.m.loop.msg == NULL {
      UnmasksEmpty(w);
    } else {
      UnmasksMessage(w);
    }
  }

  lemma UnmasksEmpty(w: World)
    requires Inv(w) && w.m.post.NoPost? && w.m.loop.Unmask? && w.m.loop.msg == NULL
    ensures Inv(World(w.m.(irq := true, loop := Next(w.m.loop.left)), w.g))
  {
  }

  lemma UnmasksMessage(w: World)
    requires Inv(w) && w.m.post.NoPost? && w.m.loop.Unmask? && w.m.loop.msg != NULL
    ensures Inv(World(w.m.(irq := true, loop := Lookup(w.m.loop.left, w.m.loop.msg)), w.g))
  {
  }

  lemma LoopLooksUp(w: World)
    requires Inv(w) && w.m.post.NoPost? && w.m.loop.Lookup?
    ensures Inv(World(StepLoop(w.m), LedgerLoop(w.m, w.g)))
  {
    var m, g := w.m, w.g;
    var id := m.mem[m.loop.msg].val.id;
    assert Chain(m.subs, m.block[id], g.lists[id]);
    TurnBegins(m.subs, m.block[id], g.lists[id]);
    DispatchBegins(w, id, Begin(id, Roster(m.subs, g.lists[id]), g.lists[id]));
  }

  lemma DispatchBegins(w: World, id: nat, t: Turn)
    requires Inv(w) && w.m.post.NoPost? && w.m.loop.Lookup? && id < |w.g.lists| && t.sid == id && t.called == []
    requires Choosing(w.m.subs, w.m.block[id], w.g.lists[id], t.staying, t.called, t.rest)
    requires RosterOk(t.listed, t.gone, t.staying)
    ensures Inv(World(w.m.(loop := Dispatching(w.m.loop.left, w.m.loop.msg, w.m.block[id])), w.g.(turn := t)))
  {
    var loop := Dispatching(w.m.loop.left, w.m.loop.msg, w.m.block[id]);
    NothingCalled(w.m, w.g, loop, t);
    QueueKept(w.m, w.g.queue, loop);
  }

  lemma NothingCalled(m: Machine, g: Ledger, loop: LoopPc, t: Turn)
    requires HistoryInv(m, g) && m.loop.Lookup? && loop.Dispatching? && loop.msg == m.loop.msg && t.called == []
    ensures HistoryInv(m.(loop := loop), g.(turn := t))
  {
    if m.loop.msg in m.mem {
      assert Calls(m.mem[m.loop.msg].val, t.called) == [];
    }
  }

  lemma QueueKept(m: Machine, q: seq<Addr>, loop: LoopPc)
    requires QueueInv(m, q) && m.loop.Lookup? && loop.Dispatching? && loop.msg == m.loop.msg && loop.left == m.loop.left
    requires m.post.NoPost?
    ensures QueueInv(m.(loop := loop), q)
  {
  }

  lemma CallsSnoc(v: Msg, hs: seq<Handler>, h: Handler)
    ensures Calls(v, hs + [h]) == Calls(v, hs) + [Call(h, v.id, v.context)]
  {
  }

  lemma LoopCalls(w: World)
    requires Inv(w) && w.m.post.NoPost? && w.m.loop.Dispatching?
    ensures Inv(World(StepLoop(w.m), LedgerLoop(w.m, w.g)))
  {
    if w.m.loop.cur == NULL {
      LoopEnds(w);
    } else {
      LoopCallsNext(w);
    }
  }

  lemma LoopEnds(w: World)
    requires Inv(w) && w.m.post.NoPost? && w.m.loop.Dispatching? && w.m.loop.cur == NULL
    ensures Inv(World(StepLoop(w.m), LedgerLoop(w.m, w.g)))
  {
    var m := w.m;
    assert StepLoop(m) == m.(loop := Release(m.loop.left, m.loop.msg)) && LedgerLoop(m, w.g) == w.g;
    assert TurnOk(m.subs, Release(m.loop.left, m.loop.msg), w.g.lists, w.g.turn);
  }

  lemma LoopCallsNext(w: World)
    requires Inv(w) && w.m.post.NoPost? && w.m.loop.Dispatching? && w.m.loop.cur != NULL
    ensures Inv(World(StepLoop(w.m), LedgerLoop(w.m, w.g)))
  {
    var m, t, cur := w.m, w.g.turn, w.m.loop.cur;
    CallNext(m.subs, cur, w.g.lists[t.sid], t.staying, t.called, t.rest);
    var v, h := m.mem[m.loop.msg].val, m.subs[cur].val;
    assert StepLoop(m)
        == m.(log := m.log + [Call(h, v.id, v.context)], loop := Handling(m.loop.left, m.loop.msg, cur));
    assert LedgerLoop(m, w.g) == w.g.(turn := t.(called := t.called + [h]));
    CallsSnoc(v, t.called, h);
    Assoc(Lives(w.g.done), Calls(v, t.called), [Call(h, v.id, v.context)]);
  }

  lemma LoopResumes(w: World)
    requires Inv(w) && w.m.post.NoPost? && w.m.loop.Handling?
    ensures Inv(World(StepLoop(w.m), LedgerLoop(w.m, w.g)))
  {
    var m, t := w.m, w.g.turn;
    assert Chain(m.subs, m.block[t.sid], w.g.lists[t.sid]);
    Resume(m.subs, m.block[t.sid], m.loop.cur, w.g.lists[t.sid], t.staying, t.called, t.rest);
    assert StepLoop(m) == m.(loop := Dispatching(m.loop.left, m.loop.msg, m.subs[m.loop.cur].next));
    assert LedgerLoop(m, w.g) == w.g.(turn := t.(rest := t.rest[1..]));
  }

  lemma LoopReleases(w: World)
    requires Inv(w) && w.m.post.NoPost? && w.m.loop.Release?
    ensures Inv(World(StepLoop(w.m), LedgerLoop(w.m, w.g)))
  {
    var v := w.m.mem[w.m.loop.msg].val;
    Assoc(Lives(w.g.done), Calls(v, w.g.turn.called), Frees(v));
  }

  lemma LivesSnoc(done: seq<Dispatch>, d: Dispatch)
    ensures Lives(done + [d]) == Lives(done) + (Calls(d.msg, Attended(d)) + Frees(d.msg)) + [FreeMessage(d.node)]
    ensures Msgs(done + [d]) == Msgs(done) + [d.msg]
  {
    assert (done + [d])[..|done|] == done;
  }

  lemma Finished(posted: seq<Msg>, done: seq<Dispatch>, mem: map<Addr, Node<Msg>>, q: seq<Addr>, d: Dispatch)
    requires Conserved(posted, done, mem, d.node, q) && NULL !in mem
    requires d.node in mem && mem[d.node].val == d.msg && d.node !in q
    ensures Conserved(posted, done + [d], mem - {d.node}, NULL, q)
    ensures Vals(mem - {d.node}, q) == Vals(mem, q)
  {
    LivesSnoc(done, d);
    var mem' := mem - {d.node};
    assert InMemory(mem', q) && Vals(mem', q) == Vals(mem, q);
  }

  lemma LogEnds(log: seq<Event>, done: seq<Dispatch>, d: Dispatch)
    requires log == Lives(done) + (Calls(d.msg, Attended(d)) + Frees(d.msg))
    ensures log + [FreeMessage(d.node)] == Lives(done + [d]) + []
  {
    LivesSnoc(done, d);
  }

  lemma DiscardHistory(w: World)
    requires Inv(w) && w.m.post.NoPost? && w.m.loop.Discard?
    ensures HistoryInv(StepLoop(w.m), LedgerLoop(w.m, w.g))
  {
    var m, g, a := w.m, w.g, w.m.loop.msg;
    var d := Dispatch(m.mem[a].val, a, g.turn.listed, g.turn.gone);
    Finished(m.posted, g.done, m.mem, g.queue, d);
    LogEnds(m.log, g.done, d);
  }

  lemma LoopDiscards(w: World)
    requires Inv(w) && w.m.post.NoPost? && w.m.loop.Discard?
    ensures Inv(World(StepLoop(w.m), LedgerLoop(w.m, w.g)))
  {
    var m := w.m;
    HeapDiscard(m.mem, m.first, m.last, w.g.queue, m.loop.msg);
    DiscardHistory(w);
  }

  lemma LoopCounts(w: World)
    requires Inv(w) && w.m.post.NoPost? && w.m.loop.Next?
    ensures Inv(World(StepLoop(w.m), LedgerLoop(w.m, w.g)))
  {
  }

  lemma PostKeeps(w: World, addr: Addr)
    requires Inv(w) && w.m.post.Posting?
    ensures Inv(World(StepPost(w.m, addr), LedgerPost(w.g, w.m.post)))
  {
    match w.m.post.pc
    case Enter => PostEnters(w, addr);
    case Alloc => PostAllocates(w, addr);
    case Test(_) => PostTests(w, addr);
    case SetLast(_) => PostSetsLast(w, addr);
    case SetFirst(_) => PostSetsFirst(w, addr);
    case Link(_) => PostLinks(w, addr);
    case MoveLast(_) => PostMovesLast(w, addr);
    case Exit(_) => PostExits(w, addr);
  }

  lemma LoopKeeps(w: World)
    requires Inv(w) && w.m.post.NoPost?
    ensures Inv(World(StepLoop(w.m), LedgerLoop(w.m, w.g)))
  {
    match w.m.loop
    case Idle =>
    case Round(_) => LoopRounds(w);
    case Read(_) => LoopReads(w);
    case Advance(_, _) => LoopAdvances(w);
    case Trim(_, _) => LoopTrims(w);
    case Unmask(_, _) => LoopUnmasks(w);
    case Lookup(_, _) => LoopLooksUp(w);
    case Dispatching(_, _, _) => LoopCalls(w);
    case Handling(_, _, _) => LoopResumes(w);
    case Release(_, _) => LoopReleases(w);
    case Discard(_, _) => LoopDiscards(w);
    case Next(_) => LoopCounts(w);
  }

  lemma StartLoopKeeps(w: World, max: nat)
    requires Inv(w) && w.m.post.NoPost? && w.m.loop.Idle?
    ensures Inv(World(w.m.(loop := Round(max)), w.g))
  {
  }

  lemma TaskPostKeeps(w: World, msg: Msg)
    requires Inv(w) && msg.id >= -1 && w.m.post.NoPost? && (w.m.loop.Idle? || w.m.loop.Handling?)
    ensures Inv(World(w.m.(post := Posting(msg, Enter)), w.g))
  {
  }

  lemma IsrPostKeeps(w: World, msg: Msg)
    requires Inv(w) && msg.id >= -1 && w.m.irq
    ensures Inv(World(w.m.(irq := false, post := Posting(msg, Alloc), inIsr := true, parked := w.m.post), w.g))
  {
  }

  lemma SubscribeKeeps(w: World, l: Label)
    requires Inv(w) && l.Subscribe? && CanSubscribe(w.m, l)
    ensures Inv(Step(w, l))
  {
    var m, g := w.m, w.g;
    var n := Node(l.handler, m.block[l.sid]);
    ListsPush(m.subs, m.block, g.lists, l.sid, l.handler, l.addr);
    if m.loop.Handling? {
      Subscribed(m.subs, m.loop.cur, g.lists, g.turn, l.sid, n, l.addr);
    }
    NewLists(w, m.subs[l.addr := n], m.block[l.sid := l.addr], g.lists[l.sid := [l.addr] + g.lists[l.sid]], g.turn);
  }

  /** What an unsubscription does to the lists and to the dispatch that goes on. */
  function BlockWithout(m: Machine, g: Ledger, id: nat, k: nat): seq<Addr>
    requires id < |m.block| && id < |g.lists| && k < |g.lists[id]| && g.lists[id][0] in m.subs
  {
    if k == 0 then m.block[id := m.subs[g.lists[id][0]].next] else m.block
  }

  function NewTurn(l: LoopPc, g: Ledger, id: nat, k: nat): Turn
    requires id < |g.lists| && k < |g.lists[id]|
  {
    if l.Handling? then TurnWithout(g.turn, g.lists, id, k) else g.turn
  }

  /** The world without the k-th node of list id. */
  function Unsubscribing(w: World, id: nat, k: nat): World
    requires id < |w.m.block| && id < |w.g.lists| && k < |w.g.lists[id]|
    requires w.g.lists[id][0] in w.m.subs && w.g.lists[id][k] in w.m.subs
  {
    var s := w.g.lists[id];
    World(w.m.(subs := Unlink(w.m.subs, At(s, k - 1), s[k]), block := BlockWithout(w.m, w.g, id, k)),
          w.g.(lists := w.g.lists[id := Drop(s, k)], turn := NewTurn(w.m.loop, w.g, id, k)))
  }

  lemma UnsubscribeDoes(w: World, l: Label)
    requires ListsOk(w.m.subs, w.m.block, w.g.lists) && !w.m.fault && l.Unsubscribe? && CanUnsubscribe(w.m, l)
    ensures l.k < |w.g.lists[l.sid]| && w.g.lists[l.sid][0] in w.m.subs && w.g.lists[l.sid][l.k] in w.m.subs
    ensures Walk(w.m.subs, w.m.block[l.sid], l.k) == w.g.lists[l.sid][l.k]
    ensures Step(w, l) == Unsubscribing(w, l.sid, l.k)
  {
    assert Chain(w.m.subs, w.m.block[l.sid], w.g.lists[l.sid]);
    WalkFinds(w.m.subs, w.m.block[l.sid], w.g.lists[l.sid], l.k);
  }

  lemma UnsubscribeKeepsLists(m: Machine, g: Ledger, id: nat, k: nat)
    requires ListsInv(m.subs, m.block, m.loop, g.lists, g.turn) && (m.loop.Idle? || m.loop.Handling?)
    requires id < |g.lists| && k < |g.lists[id]| && g.lists[id][0] in m.subs && g.lists[id][k] in m.subs
    requires m.loop.Handling? ==> g.lists[id][k] != m.loop.cur
    ensures ListsInv(Unlink(m.subs, At(g.lists[id], k - 1), g.lists[id][k]), BlockWithout(m, g, id, k), m.loop,
                     g.lists[id := Drop(g.lists[id], k)], NewTurn(m.loop, g, id, k))
  {
    ListsUnlink(m.subs, m.block, g.lists, id, k);
    if m.loop.Handling? {
      Unsubscribed(m.subs, m.block, g.lists, g.turn, m.loop.cur, id, k);
    }
  }

  lemma UnsubscribingKeeps(w: World, id: nat, k: nat)
    requires Inv(w) && (w.m.loop.Idle? || w.m.loop.Handling?)
    requires id < |w.g.lists| && k < |w.g.lists[id]| && w.g.lists[id][0] in w.m.subs && w.g.lists[id][k] in w.m.subs
    requires w.m.loop.Handling? ==> w.g.lists[id][k] != w.m.loop.cur
    ensures Inv(Unsubscribing(w, id, k))
  {
    var m, g, s := w.m, w.g, w.g.lists[id];
    UnsubscribeKeepsLists(m, g, id, k);
    NewLists(w, Unlink(m.subs, At(s, k - 1), s[k]), BlockWithout(m, g, id, k), g.lists[id := Drop(s, k)],
             NewTurn(m.loop, g, id, k));
  }

  lemma UnsubscribeKeeps(w: World, l: Label)
    requires Inv(w) && l.Unsubscribe? && CanUnsubscribe(w.m, l) && Allowed(w.m, l)
    ensures Inv(Step(w, l))
  {
    UnsubscribeDoes(w, l);
    UnsubscribingKeeps(w, l.sid, l.k);
  }

  /** Other lists, in order again, and the same handlers called. */
  lemma NewLists(w: World, subs: map<Addr, Node<Handler>>, block: seq<Addr>, lists: seq<seq<Addr>>, t: Turn)
    requires Inv(w) && ListsInv(subs, block, w.m.loop, lists, t) && t.called == w.g.turn.called
    ensures Inv(World(w.m.(subs := subs, block := block), w.g.(lists := lists, turn := t)))
  {
  }

  lemma StepKeeps(w: World, l: Label)
    requires Inv(w) && Allowed(w.m, l)
    ensures Inv(Step(w, l))
  {
    match l
    case TaskPost(msg) =>
      if w.m.post.NoPost? && (w.m.loop.Idle? || w.m.loop.Handling?) {
        TaskPostKeeps(w, msg);
      }
    case IsrPost(msg) => if w.m.irq { IsrPostKeeps(w, msg); }
    case PostStep(addr) => if w.m.post.Posting? { PostKeeps(w, addr); }
    case StartLoop(max) => if w.m.post.NoPost? && w.m.loop.Idle? { StartLoopKeeps(w, max); }
    case LoopStep => if w.m.post.NoPost? { LoopKeeps(w); }
    case Subscribe(_, _, _) => if CanSubscribe(w.m, l) { SubscribeKeeps(w, l); }
    case Unsubscribe(_, _) => if CanUnsubscribe(w.m, l) { UnsubscribeKeeps(w, l); }
  }

  lemma StartHolds()
    ensures Inv(Start())
  {
  }

  lemma {:induction false} LegalPrefix(ls: seq<Label>, n: nat)
    requires Legal(ls) && n <= |ls|
    ensures Legal(ls[..n])
  {
    if n == |ls| {
      assert ls[..n] == ls;
    } else {
      LegalPrefix(ls[..|ls| - 1], n);
      assert ls[..|ls| - 1][..n] == ls[..n];
    }
  }

  /** The invariant holds after every legal run. */
  lemma {:induction false} RunKeeps(ls: seq<Label>)
    requires Legal(ls)
    ensures Inv(Run(ls))
  {
    if ls == [] {
      StartHolds();
    } else {
      var n := |ls| - 1;
      RunKeeps(ls[..n]);
      StepKeeps(Run(ls[..n]), ls[n]);
    }
  }
}
