/** The message queue of kernel/mq.cpp as an object: 26 linked lists of subscribers and a
    linked queue of messages, rewired in place. Handlers are user code; while they run they
    may post and subscribe. Module Interleaving treats the interrupts. */
module MessageQueue {
  import opened Chains
  import opened Messages

  /** Subscribers other than h, in order. */
  function Without(s: seq<Handler>, h: Handler): seq<Handler> {
    if s == [] then []
    else (if s[0] == h then [] else [s[0]]) + Without(s[1..], h)
  }

  lemma {:induction false} WithoutAbsent(s: seq<Handler>, h: Handler)
    requires h !in s
    ensures Without(s, h) == s
  {
    if s != [] {
      WithoutAbsent(s[1..], h);
    }
  }

  /** In a duplicate-free list, unlinking the first match removes every match. */
  lemma {:induction false} WithoutFirst(s: seq<Handler>, h: Handler, k: nat)
    requires NoDup(s) && k < |s| && s[k] == h
    ensures Without(s, h) == Drop(s, k)
  {
    if k == 0 {
      WithoutAbsent(s[1..], h);
      assert Drop(s, 0) == s[1..];
    } else {
      WithoutFirst(s[1..], h, k - 1);
      assert Drop(s, k) == [s[0]] + Drop(s[1..], k - 1);
    }
  }

  /** What is left is exactly the others, in their old order. */
  lemma {:induction false} WithoutRemoves(s: seq<Handler>, h: Handler)
    ensures h !in Without(s, h)
    ensures forall x :: x != h ==> (x in s <==> x in Without(s, h))
  {
    if s != [] {
      WithoutRemoves(s[1..], h);
      assert s == [s[0]] + s[1..];
    }
  }

  class HandlerNode {
    const handler: Handler
    ghost const home: nat  // the message id whose list this node belongs to
    var next: HandlerNode?

    constructor (h: Handler, next: HandlerNode?, ghost home: nat)
      ensures this.handler == h && this.next == next && this.home == home
    {
      this.handler := h;
      this.next := next;
      this.home := home;
    }
  }

  class MessageNode {
    const msg: Msg
    var next: MessageNode?

    constructor (msg: Msg)
      ensures this.msg == msg && next == null
    {
      this.msg := msg;
      next := null;
    }
  }

  function HandlerAt(s: seq<HandlerNode>, k: int): HandlerNode? {
    if 0 <= k < |s| then s[k] else null
  }

  function MessageAt(s: seq<MessageNode>, k: int): MessageNode? {
    if 0 <= k < |s| then s[k] else null
  }

  function HandlersOf(s: seq<HandlerNode>): seq<Handler> {
    seq(|s|, k requires 0 <= k < |s| => s[k].handler)
  }

  function MsgsOf(s: seq<MessageNode>): seq<Msg> {
    seq(|s|, k requires 0 <= k < |s| => s[k].msg)
  }

  function TableOf(lists: seq<seq<HandlerNode>>): seq<seq<Handler>> {
    seq(|lists|, i requires 0 <= i < |lists| => HandlersOf(lists[i]))
  }

  /** The nodes of the list of message id, in order, from its head to null, without
      duplicate handlers. */
  ghost predicate ListShape(head: HandlerNode?, s: seq<HandlerNode>, id: nat)
    reads s
  {
    && head == HandlerAt(s, 0)
    && (forall k :: 0 <= k < |s| ==> s[k].home == id)
    && (forall k :: 0 <= k < |s| ==> s[k].next == HandlerAt(s, k + 1))
    && NoDup(HandlersOf(s))
  }

  lemma ShapePush(s: seq<HandlerNode>, id: nat, n: HandlerNode)
    requires ListShape(HandlerAt(s, 0), s, id)
    requires n.next == HandlerAt(s, 0) && n.home == id && n.handler !in HandlersOf(s)
    ensures ListShape(n, [n] + s, id) && HandlersOf([n] + s) == [n.handler] + HandlersOf(s)
  {
    var t := [n] + s;
    assert HandlersOf(t) == [n.handler] + HandlersOf(s);
    forall k | 0 <= k < |t| ensures t[k].home == id && t[k].next == HandlerAt(t, k + 1) {
      assert k > 0 ==> t[k] == s[k - 1];
    }
  }

  lemma HandlersDrop(s: seq<HandlerNode>, k: nat)
    requires k < |s|
    ensures HandlersOf(Drop(s, k)) == Drop(HandlersOf(s), k)
  {
    forall j | 0 <= j < |s| - 1 ensures HandlersOf(Drop(s, k))[j] == Drop(HandlersOf(s), k)[j] {
      assert Drop(s, k)[j] == s[if j < k then j else j + 1];
    }
  }

  lemma DropWithin(s: seq<HandlerNode>, k: nat)
    requires k < |s|
    ensures forall j :: 0 <= j < |Drop(s, k)| ==> Drop(s, k)[j] in s
  {
  }

  lemma NodesDistinct(s: seq<HandlerNode>, k: nat)
    requires NoDup(HandlersOf(s)) && k < |s|
    ensures forall j :: 0 <= j < |s| && j != k ==> s[j] != s[k]
  {
    forall j | 0 <= j < |s| && j != k ensures s[j] != s[k] {
      assert HandlersOf(s)[j] == s[j].handler && HandlersOf(s)[k] == s[k].handler;
    }
  }

  lemma UnlinkFirst(s: seq<HandlerNode>, id: nat)
    requires ListShape(HandlerAt(s, 0), s, id) && s != []
    ensures ListShape(s[0].next, Drop(s, 0), id)
  {
    var t := Drop(s, 0);
    HandlersDrop(s, 0);
    assert t == s[1..];
    forall j | 0 <= j < |t| ensures t[j].home == id && t[j].next == HandlerAt(t, j + 1) {
      assert t[j] == s[j + 1];
    }
  }

  /** A list whose k-th node is skipped by its predecessor. */
  lemma ShapeUnlink(s: seq<HandlerNode>, id: nat, k: nat)
    requires 0 < k < |s| && NoDup(HandlersOf(s)) && forall j :: 0 <= j < |s| ==> s[j].home == id
    requires forall j :: 0 <= j < |s| && j != k - 1 ==> s[j].next == HandlerAt(s, j + 1)
    requires s[k - 1].next == HandlerAt(s, k + 1)
    ensures ListShape(s[0], Drop(s, k), id)
  {
    var t := Drop(s, k);
    HandlersDrop(s, k);
    DropNoDup(HandlersOf(s), k);
    forall j | 0 <= j < |t| ensures t[j].home == id && t[j].next == HandlerAt(t, j + 1) {
      assert t[j] == s[if j < k then j else j + 1];
    }
  }

  /** A dispatched message, and its subscribers when its dispatch began. */
  datatype Delivery = Delivery(msg: Msg, handlers: seq<Handler>)

  function Delivered(done: seq<Delivery>): seq<Msg> {
    seq(|done|, k requires 0 <= k < |done| => done[k].msg)
  }

  /** What these deliveries did: every subscriber called once, in order, then the context
      freed if it is the queue's. */
  function Deliveries(done: seq<Delivery>): seq<Event> {
    if done == [] then []
    else
      var d := done[|done| - 1];
      Deliveries(done[..|done| - 1]) + (Calls(d.msg, d.handlers) + Frees(d.msg))
  }

  /** Lists that have only been prepended to. */
  ghost predicate Grown(a: seq<seq<HandlerNode>>, b: seq<seq<HandlerNode>>) {
    && |a| == |b|
    && forall i :: 0 <= i < |a| ==> Suffix(a[i], b[i])
  }

  lemma GrownTransitive(a: seq<seq<HandlerNode>>, b: seq<seq<HandlerNode>>, c: seq<seq<HandlerNode>>)
    requires Grown(a, b) && Grown(b, c)
    ensures Grown(a, c)
  {
    forall i | 0 <= i < |a| ensures Suffix(a[i], c[i]) {
      SuffixTransitive(a[i], b[i], c[i]);
    }
  }

  lemma CallsNext(v: Msg, hs: seq<Handler>, k: nat)
    requires k < |hs|
    ensures Calls(v, hs[..k + 1]) == Calls(v, hs[..k]) + [Call(hs[k], v.id, v.context)]
  {
  }

  lemma LogNext(log: seq<Event>, v: Msg, hs: seq<Handler>, k: nat)
    requires k < |hs|
    ensures log + Calls(v, hs[..k]) + [Call(hs[k], v.id, v.context)] == log + Calls(v, hs[..k + 1])
  {
    CallsNext(v, hs, k);
  }

  /** What handlers can do to a queue: prepend subscribers and append messages. */
  ghost predicate Progress(l: seq<seq<HandlerNode>>, q: seq<MessageNode>, p: seq<Msg>,
                           l': seq<seq<HandlerNode>>, q': seq<MessageNode>, p': seq<Msg>) {
    Grown(l, l') && q <= q' && p <= p' && MsgsOf(q') == MsgsOf(q) + p'[|p|..]
  }

  lemma ProgressTransitive(l: seq<seq<HandlerNode>>, q: seq<MessageNode>, p: seq<Msg>,
                           l1: seq<seq<HandlerNode>>, q1: seq<MessageNode>, p1: seq<Msg>,
                           l2: seq<seq<HandlerNode>>, q2: seq<MessageNode>, p2: seq<Msg>)
    requires Progress(l, q, p, l1, q1, p1) && Progress(l1, q1, p1, l2, q2, p2)
    ensures Progress(l, q, p, l2, q2, p2)
  {
    GrownTransitive(l, l1, l2);
    assert p2[|p|..] == p1[|p|..] + p2[|p1|..];
  }

  /** The popped message moves from the queue to the dispatched ones; new posts queue up. */
  lemma ServeAccounts(p: seq<Msg>, p': seq<Msg>, gone: seq<Msg>, v: Msg, q: seq<Msg>, q': seq<Msg>)
    requires p == gone + ([v] + q) && p <= p' && q' == q + p'[|p|..]
    ensures p' == gone + [v] + q'
  {
    assert p' == p + p'[|p|..];
  }

  lemma PostsQueueUp(p: seq<Msg>, p': seq<Msg>, gone: seq<Msg>, q: seq<Msg>, q': seq<Msg>)
    requires p == gone + q && p <= p' && q' == q + p'[|p|..]
    ensures p' == gone + q'
  {
    assert p' == p + p'[|p|..];
  }

  lemma DeliveriesSnoc(d: seq<Delivery>, d': seq<Delivery>)
    requires |d'| == |d| + 1 && d <= d'
    ensures Deliveries(d') == Deliveries(d) + (Calls(d'[|d|].msg, d'[|d|].handlers) + Frees(d'[|d|].msg))
  {
    assert d'[..|d'| - 1] == d;
  }

  lemma FreedSnoc(freed: seq<MessageNode>, n: MessageNode)
    ensures MsgsOf(freed + [n]) == MsgsOf(freed) + [n.msg]
  {
  }

  lemma DeliveredSnoc(done: seq<Delivery>, d: Delivery)
    ensures Delivered(done + [d]) == Delivered(done) + [d.msg]
  {
  }

  class MQ {
    const block: array<HandlerNode?>
    var first: MessageNode?
    var last: MessageNode?

    ghost var lists: seq<seq<HandlerNode>>
    ghost var queue: seq<MessageNode>
    ghost var handlerNodes: set<HandlerNode>  // every node allocated so far
    ghost var messageNodes: set<MessageNode>

    // History
    ghost var posted: seq<Msg>      // accepted posts
    ghost var done: seq<Delivery>   // messages dispatched
    ghost var log: seq<Event>       // handler calls and freed contexts
    ghost var freed: seq<MessageNode>  // message nodes deleted

    ghost predicate ListsOk()
      reads this`lists, this`handlerNodes, block, handlerNodes
    {
      && block.Length == MSG_MAX_MSG_IDS == |lists|
      && (forall i, k :: 0 <= i < |lists| && 0 <= k < |lists[i]| ==> lists[i][k] in handlerNodes)
      && (forall i :: 0 <= i < |lists| ==> ListShape(block[i], lists[i], i))
    }

    ghost predicate QueueOk()
      reads this`first, this`last, this`queue, this`messageNodes, messageNodes
    {
      && first == MessageAt(queue, 0)
      && last == MessageAt(queue, |queue| - 1)
      && (forall k :: 0 <= k < |queue| ==> queue[k] in messageNodes)
      && (forall k :: 0 <= k < |queue| ==> queue[k].next == MessageAt(queue, k + 1))
      && NoDup(queue)
      && (forall k :: 0 <= k < |queue| ==> 0 <= queue[k].msg.id < MSG_MAX_MSG_IDS)
    }

    ghost predicate Valid()
      reads this`lists, this`handlerNodes, block, handlerNodes
      reads this`first, this`last, this`queue, this`messageNodes, messageNodes
    {
      ListsOk() && QueueOk()
    }

    /** The subscribers of each id, most recent first. */
    ghost function Table(): seq<seq<Handler>>
      reads this`lists
    {
      TableOf(lists)
    }

    ghost function Pending(): seq<Msg>
      reads this`queue
    {
      MsgsOf(queue)
    }

    /** Accepted posts are those dispatched, then those queued; what the dispatched ones did is
        in the log; and their nodes are deleted, one for each. */
    ghost predicate Accounted()
      reads this`posted, this`done, this`queue, this`log, this`freed
    {
      posted == Delivered(done) + Pending() && log == Deliveries(done) && MsgsOf(freed) == Delivered(done)
    }

    constructor ()
      ensures Valid() && fresh(block) && handlerNodes == {} && messageNodes == {}
      ensures Pending() == [] && Table() == seq(26, _ => [])
      ensures Accounted()
    {
      block := new HandlerNode?[MSG_MAX_MSG_IDS](_ => null);
      first, last := null, null;
      lists := seq(MSG_MAX_MSG_IDS, _ => []);
      queue, handlerNodes, messageNodes := [], {}, {};
      posted, done, log, freed := [], [], [], [];
    }

    /** Prepends h to the list of id unless it is there already. `memory` says whether `new`
        succeeds. */
    method Subscribe(id: int, h: Handler, memory: bool) returns (rc: int)
      requires Valid() && id >= 0
      modifies this`lists, this`handlerNodes, block
      ensures Valid() && fresh(handlerNodes - old(handlerNodes)) && old(handlerNodes) <= handlerNodes
      ensures rc == 0 <==> id < 26 && h != NULL && h !in old(Table())[id] && memory
      ensures Grown(old(lists), lists)
      ensures rc == 0 ==> Table() == old(Table())[id := [h] + old(Table())[id]]
      ensures rc != 0 ==> rc == -1 && lists == old(lists)
    {
      rc := -1;
      if id < MSG_MAX_MSG_IDS && h != NULL {
        var head := block[id];
        ghost var k := 0;
        assert ListShape(block[id], lists[id], id);
        while head != null
          invariant 0 <= k <= |lists[id]|
          invariant head == HandlerAt(lists[id], k)
          invariant h !in HandlersOf(lists[id])[..k]
          decreases |lists[id]| - k
        {
          if head.handler == h {
            assert HandlersOf(lists[id])[k] == h;
            break;
          }
          head, k := head.next, k + 1;
        }
        if head == null && memory {
          var n := new HandlerNode(h, block[id], id);
          Prepend(id, n);
          rc := 0;
        }
      }
    }

    /** The two pointer writes of a subscription: the node already points at the old head. */
    method Prepend(id: nat, n: HandlerNode)
      requires Valid() && id < MSG_MAX_MSG_IDS && n !in handlerNodes
      requires n.next == block[id] && n.home == id && n.handler !in HandlersOf(lists[id])
      modifies this`lists, this`handlerNodes, block
      ensures Valid() && handlerNodes == old(handlerNodes) + {n}
      ensures lists == old(lists)[id := [n] + old(lists)[id]]
      ensures Table() == old(Table())[id := [n.handler] + old(Table())[id]] && Grown(old(lists), lists)
    {
      ghost var s := lists[id];
      assert ListShape(block[id], s, id);
      ShapePush(s, id, n);
      block[id] := n;
      lists := lists[id := [n] + s];
      handlerNodes := handlerNodes + {n};
    }

    /** Unlinks h from the list of id. */
    method Unsubscribe(id: int, h: Handler) returns (rc: int)
      requires Valid() && id >= 0
      modifies this`lists, block, handlerNodes
      ensures Valid()
      ensures rc == 0 <==> id < 26 && h in old(Table())[id]
      ensures rc != 0 ==> rc == -1
      ensures Table() == if id < 26 then old(Table())[id := Without(old(Table())[id], h)] else old(Table())
    {
      rc := -1;
      if id < MSG_MAX_MSG_IDS {
        var head := block[id];
        var prev: HandlerNode? := null;
        ghost var k := 0;
        assert ListShape(block[id], lists[id], id);
        while head != null
          invariant 0 <= k <= |lists[id]|
          invariant head == HandlerAt(lists[id], k) && prev == HandlerAt(lists[id], k - 1)
          invariant h !in HandlersOf(lists[id])[..k]
          decreases |lists[id]| - k
        {
          if head.handler == h {
            assert HandlersOf(lists[id])[k] == h;
            WithoutFirst(Table()[id], h, k);
            UnlinkNode(id, prev, head, k);
            rc := 0;
            return;
          }
          prev, head, k := head, head.next, k + 1;
        }
        WithoutAbsent(Table()[id], h);
        assert Table() == Table()[id := Table()[id]];
      }
    }

    /** The pointer write that takes the k-th node out of a list. */
    method UnlinkNode(id: nat, prev: HandlerNode?, head: HandlerNode, ghost k: nat)
      requires Valid() && id < MSG_MAX_MSG_IDS && k < |lists[id]|
      requires head == lists[id][k] && prev == HandlerAt(lists[id], k - 1)
      modifies this`lists, block, handlerNodes
      ensures Valid() && lists == old(lists)[id := Drop(old(lists)[id], k)]
      ensures Table() == old(Table())[id := Drop(old(Table())[id], k)]
    {
      HandlersDrop(lists[id], k);
      if prev == null {
        UnlinkHead(id, head);
      } else {
        UnlinkAfter(id, prev, head, k);
      }
    }

    method UnlinkHead(id: nat, head: HandlerNode)
      requires ListsOk() && id < MSG_MAX_MSG_IDS && 0 < |lists[id]| && head == lists[id][0]
      modifies this`lists, block
      ensures ListsOk() && lists == old(lists)[id := Drop(old(lists)[id], 0)]
    {
      ghost var s := lists[id];
      assert ListShape(block[id], s, id);
      UnlinkFirst(s, id);
      block[id] := head.next;
      lists := lists[id := Drop(s, 0)];
    }

    method UnlinkAfter(id: nat, prev: HandlerNode, head: HandlerNode, ghost k: nat)
      requires ListsOk() && id < MSG_MAX_MSG_IDS && 0 < k < |lists[id]|
      requires head == lists[id][k] && prev == lists[id][k - 1]
      modifies this`lists, handlerNodes
      ensures ListsOk() && lists == old(lists)[id := Drop(old(lists)[id], k)]
    {
      Redirect(id, prev, head, k);
      ghost var s := lists[id];
      DropWithin(s, k);
      ListsReplace(id, s, Drop(s, k));
      lists := lists[id := Drop(s, k)];
    }

    method Redirect(id: nat, prev: HandlerNode, head: HandlerNode, ghost k: nat)
      requires ListsOk() && id < MSG_MAX_MSG_IDS && 0 < k < |lists[id]|
      requires head == lists[id][k] && prev == lists[id][k - 1]
      modifies prev`next
      ensures forall i :: 0 <= i < |lists| && i != id ==> ListShape(block[i], lists[i], i)
      ensures ListShape(block[id], Drop(lists[id], k), id)
    {
      ghost var s := lists[id];
      assert ListShape(block[id], s, id);
      Elsewhere(id, prev);
      NodesDistinct(s, k - 1);
      prev.next := head.next;
      ShapeUnlink(s, id, k);
    }

    /** Replacing one list by part of it, once every list is in shape. */
    lemma ListsReplace(id: nat, s: seq<HandlerNode>, t: seq<HandlerNode>)
      requires block.Length == MSG_MAX_MSG_IDS == |lists| && id < |lists| && s == lists[id]
      requires forall i, k :: 0 <= i < |lists| && 0 <= k < |lists[i]| ==> lists[i][k] in handlerNodes
      requires forall i :: 0 <= i < |lists| && i != id ==> ListShape(block[i], lists[i], i)
      requires ListShape(block[id], t, id) && forall k :: 0 <= k < |t| ==> t[k] in s
      ensures
        var lists' := lists[id := t];
        && (forall i, k :: 0 <= i < |lists'| && 0 <= k < |lists'[i]| ==> lists'[i][k] in handlerNodes)
        && (forall i :: 0 <= i < |lists'| ==> ListShape(block[i], lists'[i], i))
    {
    }

    /** A node of one list is in no other. */
    lemma Elsewhere(id: nat, n: HandlerNode)
      requires ListsOk() && id < |lists| && n.home == id
      ensures forall i :: 0 <= i < |lists| && i != id ==> n !in lists[i]
    {
      forall i | 0 <= i < |lists| && i != id ensures n !in lists[i] {
        assert ListShape(block[i], lists[i], i);
      }
    }

    /** Unlinks h from every list. */
    method UnsubscribeAllIDs(h: Handler)
      requires Valid()
      modifies this`lists, block, handlerNodes
      ensures Valid()
      ensures |Table()| == |old(Table())|
      ensures forall i :: 0 <= i < |Table()| ==> Table()[i] == Without(old(Table())[i], h) && h !in Table()[i]
    {
      for idx := 0 to MSG_MAX_MSG_IDS
        invariant Valid() && |Table()| == |old(Table())|
        invariant forall i :: 0 <= i < idx ==> Table()[i] == Without(old(Table())[i], h)
        invariant forall i :: idx <= i < |Table()| ==> Table()[i] == old(Table())[i]
      {
        var _ := Unsubscribe(idx, h);
      }
      forall i | 0 <= i < |Table()| ensures h !in Table()[i] {
        WithoutRemoves(old(Table())[i], h);
      }
    }

    /** Appends a message. */
    method Post(msg: Msg, memory: bool) returns (rc: int)
      requires Valid() && msg.id >= -1
      modifies this`first, this`last, this`queue, this`messageNodes, this`posted, messageNodes
      ensures Valid() && fresh(messageNodes - old(messageNodes)) && old(messageNodes) <= messageNodes
      ensures rc == 0 <==> msg.id < 26 && msg.id != -1 && memory
      ensures rc == 0 ==> Pending() == old(Pending()) + [msg] && posted == old(posted) + [msg] && old(queue) < queue
      ensures rc != 0 ==> rc == -1 && queue == old(queue) && posted == old(posted)
      ensures Progress(lists, old(queue), old(posted), lists, queue, posted)
    {
      rc := -1;
      if msg.id < MSG_MAX_MSG_IDS && msg.id != MSG_ID_NOMESSAGE && memory {
        var n := new MessageNode(msg);
        Append(n);
        posted := posted + [msg];
        rc := 0;
      }
    }

    method Append(n: MessageNode)
      requires Valid() && n !in messageNodes && n.next == null && 0 <= n.msg.id < MSG_MAX_MSG_IDS
      modifies this`first, this`last, this`queue, this`messageNodes, messageNodes
      ensures Valid() && messageNodes == old(messageNodes) + {n} && queue == old(queue) + [n]
    {
      ghost var q := queue;
      assert QueueOk();
      if first == null {
        first, last := n, n;
      } else {
        last.next := n;
        last := n;
      }
      queue := q + [n];
      messageNodes := messageNodes + {n};
    }

    /** Takes the first message off the queue. */
    method Pop() returns (msg: MessageNode?)
      requires Valid()
      modifies this`first, this`last, this`queue
      ensures Valid() && msg == MessageAt(old(queue), 0)
      ensures queue == if old(queue) == [] then [] else old(queue)[1..]
      ensures msg != null ==> msg !in queue && 0 <= msg.msg.id < MSG_MAX_MSG_IDS
      ensures msg != null ==> old(Pending()) == [msg.msg] + Pending()
    {
      msg := first;
      if msg != null {
        first := msg.next;
        if first == null {
          last := null;
        }
        queue := queue[1..];
      }
    }

    /** A handler: user code that may post and subscribe as often as it likes. */
    method Handle(h: Handler, v: Msg)
      requires Valid()
      modifies this`first, this`last, this`queue, this`messageNodes, this`posted, messageNodes
      modifies this`lists, this`handlerNodes, this`log, block
      ensures Valid() && Progress(old(lists), old(queue), old(posted), lists, queue, posted)
      ensures fresh(messageNodes - old(messageNodes))
      ensures log == old(log) + [Call(h, v.id, v.context)]
    {
      log := log + [Call(h, v.id, v.context)];
      Acts();
    }

    /** What user code does to the queue while it runs, in a handler or in a task. */
    method Acts()
      requires Valid()
      modifies this`first, this`last, this`queue, this`messageNodes, this`posted, messageNodes
      modifies this`lists, this`handlerNodes, block
      ensures Valid() && Progress(old(lists), old(queue), old(posted), lists, queue, posted)
      ensures fresh(messageNodes - old(messageNodes))
    {
      var actions: int := *;
      while actions > 0
        invariant Valid() && Progress(old(lists), old(queue), old(posted), lists, queue, posted)
        invariant fresh(messageNodes - old(messageNodes))
      {
        ghost var l, q, p := lists, queue, posted;
        Act();
        ProgressTransitive(old(lists), old(queue), old(posted), l, q, p, lists, queue, posted);
        actions := actions - 1;
      }
    }

    /** The same, seen from the books. */
    method TaskActs()
      requires Valid() && Accounted()
      modifies this`first, this`last, this`queue, this`messageNodes, this`posted, messageNodes
      modifies this`lists, this`handlerNodes, block
      ensures Valid() && Accounted() && Progress(old(lists), old(queue), old(posted), lists, queue, posted)
      ensures fresh(messageNodes - old(messageNodes))
    {
      ghost var p, q := posted, Pending();
      Acts();
      PostsQueueUp(p, posted, Delivered(done), q, Pending());
    }

    /** One such action. */
    method Act()
      requires Valid()
      modifies this`first, this`last, this`queue, this`messageNodes, this`posted, messageNodes
      modifies this`lists, this`handlerNodes, block
      ensures Valid() && Progress(old(lists), old(queue), old(posted), lists, queue, posted)
      ensures fresh(messageNodes - old(messageNodes))
    {
      var memory: bool, posting: bool := *, *;
      if posting {
        var msg: Msg := *;
        if msg.id >= -1 {
          var _ := Post(msg, memory);
        }
      } else {
        var id: int, h: Handler := *, *;
        if id >= 0 {
          var _ := Subscribe(id, h, memory);
        }
      }
    }

    /** Calls one subscriber of the list as it was, and finds the next one. */
    method CallOne(v: Msg, cur: HandlerNode, ghost s: seq<HandlerNode>, ghost k: nat) returns (next: HandlerNode?)
      requires Valid() && 0 <= v.id < MSG_MAX_MSG_IDS && k < |s| && cur == s[k] && Suffix(s, lists[v.id])
      modifies this`first, this`last, this`queue, this`messageNodes, this`posted, messageNodes
      modifies this`lists, this`handlerNodes, this`log, block
      ensures Valid() && Progress(old(lists), old(queue), old(posted), lists, queue, posted)
      ensures fresh(messageNodes - old(messageNodes))
      ensures log == old(log) + [Call(cur.handler, v.id, v.context)]
      ensures Suffix(s, lists[v.id]) && next == HandlerAt(s, k + 1)
    {
      ghost var t := lists[v.id];
      Handle(cur.handler, v);
      SuffixTransitive(s, t, lists[v.id]);
      NextAfterGrowth(v.id, s, k);
      next := cur.next;
    }

    /** The same, told from the start of the walk, when lists, queue, posts and log were these. */
    method CallAnother(v: Msg, cur: HandlerNode, ghost s: seq<HandlerNode>, ghost k: nat,
                       ghost l: seq<seq<HandlerNode>>, ghost q: seq<MessageNode>, ghost p: seq<Msg>, ghost g: seq<Event>)
        returns (next: HandlerNode?)
      requires Valid() && 0 <= v.id < MSG_MAX_MSG_IDS && k < |s| && cur == s[k] && Suffix(s, lists[v.id])
      requires Progress(l, q, p, lists, queue, posted) && log == g + Calls(v, HandlersOf(s)[..k])
      modifies this`first, this`last, this`queue, this`messageNodes, this`posted, messageNodes
      modifies this`lists, this`handlerNodes, this`log, block
      ensures Valid() && Progress(l, q, p, lists, queue, posted)
      ensures fresh(messageNodes - old(messageNodes))
      ensures log == g + Calls(v, HandlersOf(s)[..k + 1])
      ensures Suffix(s, lists[v.id]) && next == HandlerAt(s, k + 1)
    {
      next := CallOne(v, cur, s, k);
      LogNext(g, v, HandlersOf(s), k);
      ProgressTransitive(l, q, p, old(lists), old(queue), old(posted), lists, queue, posted);
    }

    /** Walks the list s from its head cur, whatever handlers prepend to it meanwhile. */
    method CallFrom(v: Msg, head: HandlerNode?, ghost s: seq<HandlerNode>)
      requires Valid() && 0 <= v.id < MSG_MAX_MSG_IDS && Suffix(s, lists[v.id]) && head == HandlerAt(s, 0)
      modifies this`first, this`last, this`queue, this`messageNodes, this`posted, messageNodes
      modifies this`lists, this`handlerNodes, this`log, block
      ensures Valid() && Progress(old(lists), old(queue), old(posted), lists, queue, posted)
      ensures fresh(messageNodes - old(messageNodes))
      ensures log == old(log) + Calls(v, HandlersOf(s))
    {
      var cur := head;
      ghost var k := 0;
      while cur != null
        invariant Valid() && Progress(old(lists), old(queue), old(posted), lists, queue, posted)
        invariant fresh(messageNodes - old(messageNodes))
        invariant Suffix(s, lists[v.id])
        invariant 0 <= k <= |s| && cur == HandlerAt(s, k)
        invariant log == old(log) + Calls(v, HandlersOf(s)[..k])
        decreases |s| - k
      {
        ghost var ms := messageNodes;
        cur := CallAnother(v, cur, s, k, old(lists), old(queue), old(posted), old(log));
        assert fresh(messageNodes - ms);
        k := k + 1;
      }
      assert HandlersOf(s)[..k] == HandlersOf(s);
    }

    /** Calls the subscribers that the message has now, each once and in order, whatever
        handlers do meanwhile. */
    method CallAll(v: Msg)
      requires Valid() && 0 <= v.id < MSG_MAX_MSG_IDS
      modifies this`first, this`last, this`queue, this`messageNodes, this`posted, messageNodes
      modifies this`lists, this`handlerNodes, this`log, block
      ensures Valid() && Progress(old(lists), old(queue), old(posted), lists, queue, posted)
      ensures fresh(messageNodes - old(messageNodes))
      ensures log == old(log) + Calls(v, old(Table())[v.id])
    {
      assert ListShape(block[v.id], lists[v.id], v.id);
      CallFrom(v, block[v.id], lists[v.id]);
    }

    /** Delivers the popped message, then frees its context if it is the queue's, and deletes it. */
    method Dispatch(n: MessageNode)
      requires Valid() && 0 <= n.msg.id < MSG_MAX_MSG_IDS
      modifies this`first, this`last, this`queue, this`messageNodes, this`posted, messageNodes
      modifies this`lists, this`handlerNodes, this`log, this`done, this`freed, block
      ensures Valid() && Progress(old(lists), old(queue), old(posted), lists, queue, posted)
      ensures fresh(messageNodes - old(messageNodes))
      ensures done == old(done) + [Delivery(n.msg, old(Table())[n.msg.id])]
      ensures log == old(log) + (Calls(n.msg, old(Table())[n.msg.id]) + Frees(n.msg))
      ensures freed == old(freed) + [n]
    {
      var v := n.msg;
      ghost var hs := Table()[v.id];
      CallAll(v);
      Assoc(old(log), Calls(v, hs), Frees(v));
      log := log + Frees(v);
      done := done + [Delivery(v, hs)];
      freed := freed + [n];
    }

    /** Prepending to a list leaves the successor of each node it had as it was. */
    lemma NextAfterGrowth(id: nat, s: seq<HandlerNode>, k: nat)
      requires ListsOk() && id < |lists| && k < |s|
      requires Suffix(s, lists[id])
      ensures s[k].next == HandlerAt(s, k + 1)
    {
      var t, j := lists[id], |lists[id]| - |s| + k;
      assert ListShape(block[id], t, id);
      assert t[j] == s[k];
      assert k + 1 < |s| ==> t[j + 1] == s[k + 1];
    }

    /** Delivers the message just popped and enters it in the books. */
    method Deliver(n: MessageNode)
      requires Valid() && 0 <= n.msg.id < MSG_MAX_MSG_IDS
      requires posted == Delivered(done) + ([n.msg] + Pending()) && log == Deliveries(done) && MsgsOf(freed) == Delivered(done)
      modifies this`first, this`last, this`queue, this`messageNodes, this`posted, messageNodes
      modifies this`lists, this`handlerNodes, this`log, this`done, this`freed, block
      ensures Valid() && Grown(old(lists), lists) && Accounted()
      ensures fresh(messageNodes - old(messageNodes))
      ensures old(done) <= done && |done| == |old(done)| + 1
      ensures old(posted) <= posted && old(queue) <= queue
    {
      ghost var d, p, q := done, posted, Pending();
      FreedSnoc(freed, n);
      Dispatch(n);
      DeliveriesSnoc(d, done);
      DeliveredSnoc(d, done[|d|]);
      ServeAccounts(p, posted, Delivered(d), n.msg, q, Pending());
    }

    /** Takes one message, if there is one, and delivers it. */
    method Serve()
      requires Valid() && Accounted()
      modifies this`first, this`last, this`queue, this`messageNodes, this`posted, messageNodes
      modifies this`lists, this`handlerNodes, this`log, this`done, this`freed, block
      ensures Valid() && Grown(old(lists), lists) && Accounted()
      ensures fresh(messageNodes - old(messageNodes))
      ensures old(done) <= done && old(posted) <= posted
      ensures |done| == |old(done)| + if old(queue) == [] then 0 else 1
      ensures |queue| >= |old(queue)| - 1 && (old(queue) == [] ==> queue == [])
    {
      var n := Pop();
      if n != null {
        Deliver(n);
      }
    }

    /** Dispatches max messages; or fewer, if at the end none is waiting. */
    method Loop(max: int)
      requires Valid() && max >= 0 && Accounted()
      modifies this`first, this`last, this`queue, this`messageNodes, this`posted, messageNodes
      modifies this`lists, this`handlerNodes, this`log, this`done, this`freed, block
      ensures Valid() && Grown(old(lists), lists) && Accounted()
      ensures fresh(messageNodes - old(messageNodes))
      ensures old(done) <= done && old(posted) <= posted
      ensures |done| - |old(done)| <= max
      ensures |done| - |old(done)| == max || (queue == [] && |done| - |old(done)| >= |old(queue)|)
    {
      var left := max;
      while left != 0
        invariant 0 <= left <= max
        invariant Valid() && Grown(old(lists), lists) && Accounted()
        invariant fresh(messageNodes - old(messageNodes))
        invariant old(done) <= done && old(posted) <= posted
        invariant |done| - |old(done)| <= max - left
        invariant |done| - |old(done)| == max - left || (queue == [] && |done| - |old(done)| >= |old(queue)|)
        invariant |queue| + (|done| - |old(done)|) >= |old(queue)|
        decreases left
      {
        ghost var l := lists;
        Serve();
        GrownTransitive(old(lists), l, lists);
        left := left - 1;
      }
    }
  }
}
