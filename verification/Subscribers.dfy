/** The lists of subscribers of kernel/mq.cpp, one per message id, and the walk of the dispatch
    loop through one of them while handlers subscribe and unsubscribe others. */
module Subscribers {
  import opened Chains
  import opened Messages

  /** A subscription: its node, and the handler that the node holds. */
  datatype Subscriber = Subscriber(node: Addr, handler: Handler)

  ghost predicate InSubs(subs: map<Addr, Node<Handler>>, nodes: seq<Addr>) {
    forall i :: 0 <= i < |nodes| ==> nodes[i] in subs
  }

  function Roster(subs: map<Addr, Node<Handler>>, nodes: seq<Addr>): seq<Subscriber>
    requires forall i :: 0 <= i < |nodes| ==> nodes[i] in subs
  {
    seq(|nodes|, i requires 0 <= i < |nodes| => Subscriber(nodes[i], subs[nodes[i]].val))
  }

  /** These are the subscriptions that the nodes hold. */
  ghost predicate Reflects(rs: seq<Subscriber>, subs: map<Addr, Node<Handler>>, nodes: seq<Addr>) {
    && |rs| == |nodes|
    && forall i :: 0 <= i < |rs| ==> rs[i].node == nodes[i] && nodes[i] in subs && rs[i].handler == subs[nodes[i]].val
  }

  function NodesIn(rs: seq<Subscriber>): seq<Addr> {
    seq(|rs|, i requires 0 <= i < |rs| => rs[i].node)
  }

  function HandlersIn(rs: seq<Subscriber>): seq<Handler> {
    seq(|rs|, i requires 0 <= i < |rs| => rs[i].handler)
  }

  /** The subscribers whose nodes are not among these. */
  function Staying(rs: seq<Subscriber>, gone: set<Addr>): seq<Subscriber> {
    if rs == [] then [] else (if rs[0].node in gone then [] else [rs[0]]) + Staying(rs[1..], gone)
  }

  /** How far the dispatch of the popped message has come. */
  datatype Turn = Turn(
    sid: nat,                  // its id, which names the list
    listed: seq<Subscriber>,   // that list when the dispatch began
    gone: set<Addr>,           // nodes of it unsubscribed before their turn
    staying: seq<Subscriber>,  // the others
    called: seq<Handler>,      // those of them already called
    rest: seq<Addr>)           // nodes from curHandler onwards

  function Begin(sid: nat, roster: seq<Subscriber>, nodes: seq<Addr>): Turn {
    Turn(sid, roster, {}, roster, [], nodes)
  }

  /** The j-th node from the cursor on will not be called. */
  function Skip(t: Turn, j: nat): Turn
    requires 0 < j < |t.rest| <= |t.staying|
  {
    t.(gone := t.gone + {t.rest[j]}, staying := Drop(t.staying, |t.staying| - |t.rest| + j), rest := Drop(t.rest, j))
  }

  /** What becomes of a dispatch when the k-th node of list id is unsubscribed in it: if that
      node is still to come it is skipped. */
  function TurnWithout(t: Turn, lists: seq<seq<Addr>>, id: nat, k: nat): Turn
    requires id < |lists| && k < |lists[id]|
  {
    var j := k - (|lists[id]| - |t.rest|);
    if id == t.sid && 0 < j < |t.rest| <= |t.staying| then Skip(t, j) else t
  }

  ghost predicate Disjoint(lists: seq<seq<Addr>>) {
    forall i, j, a :: 0 <= i < j < |lists| && a in lists[i] ==> a !in lists[j]
  }

  ghost predicate ListsOk(subs: map<Addr, Node<Handler>>, block: seq<Addr>, lists: seq<seq<Addr>>) {
    && |block| == MSG_MAX_MSG_IDS == |lists|
    && NULL !in subs
    && (forall i :: 0 <= i < |lists| ==> Chain(subs, block[i], lists[i]))
    && Disjoint(lists)
  }

  /** While the loop chooses whom to call next: those called so far, and those still to come,
      are the subscribers that stay; those to come are the end of the list. */
  ghost predicate Choosing(subs: map<Addr, Node<Handler>>, cur: Addr, list: seq<Addr>, staying: seq<Subscriber>,
                           called: seq<Handler>, rest: seq<Addr>) {
    && cur == At(rest, 0) && InSubs(subs, rest) && Suffix(rest, list) && Suffix(rest, NodesIn(staying))
    && HandlersIn(staying) == called + Vals(subs, rest)
  }

  /** While the handler of node cur runs. */
  ghost predicate Called(subs: map<Addr, Node<Handler>>, cur: Addr, list: seq<Addr>, staying: seq<Subscriber>,
                         called: seq<Handler>, rest: seq<Addr>) {
    && rest != [] && cur == rest[0] && InSubs(subs, rest) && Suffix(rest, list) && Suffix(rest, NodesIn(staying))
    && HandlersIn(staying) == called + Vals(subs, rest)[1..]
  }

  ghost predicate RosterOk(listed: seq<Subscriber>, gone: set<Addr>, staying: seq<Subscriber>) {
    NoDup(NodesIn(listed)) && staying == Staying(listed, gone)
  }

  lemma {:induction false} AllStay(rs: seq<Subscriber>)
    ensures Staying(rs, {}) == rs
  {
    if rs != [] {
      AllStay(rs[1..]);
    }
  }

  lemma NewRoster(subs: map<Addr, Node<Handler>>, nodes: seq<Addr>)
    requires NoDup(nodes) && forall i :: 0 <= i < |nodes| ==> nodes[i] in subs
    ensures
      var rs := Roster(subs, nodes);
      && NodesIn(rs) == nodes && HandlersIn(rs) == Vals(subs, nodes) && RosterOk(rs, {}, rs)
      && Suffix(nodes, nodes)
  {
    AllStay(Roster(subs, nodes));
    assert NodesIn(Roster(subs, nodes)) == nodes;
  }

  // The walk

  lemma TurnBegins(subs: map<Addr, Node<Handler>>, head: Addr, list: seq<Addr>)
    requires Chain(subs, head, list)
    ensures var rs := Roster(subs, list); Choosing(subs, head, list, rs, [], list) && RosterOk(rs, {}, rs)
  {
    NewRoster(subs, list);
  }

  lemma CallNext(subs: map<Addr, Node<Handler>>, cur: Addr, list: seq<Addr>, staying: seq<Subscriber>,
                 called: seq<Handler>, rest: seq<Addr>)
    requires Choosing(subs, cur, list, staying, called, rest) && cur != NULL
    ensures cur in subs && Called(subs, cur, list, staying, called + [subs[cur].val], rest)
  {
    assert called + Vals(subs, rest) == (called + [subs[cur].val]) + Vals(subs, rest)[1..];
  }

  lemma Resume(subs: map<Addr, Node<Handler>>, head: Addr, cur: Addr, list: seq<Addr>, staying: seq<Subscriber>,
               called: seq<Handler>, rest: seq<Addr>)
    requires Chain(subs, head, list) && Called(subs, cur, list, staying, called, rest)
    ensures cur in subs && rest != [] && Choosing(subs, subs[cur].next, list, staying, called, rest[1..])
  {
    NextIs(subs, head, list, rest);
    SuffixRest(rest, list);
    SuffixRest(rest, NodesIn(staying));
    assert Vals(subs, rest)[1..] == Vals(subs, rest[1..]);
  }

  lemma NextIs(subs: map<Addr, Node<Handler>>, head: Addr, list: seq<Addr>, rest: seq<Addr>)
    requires Chain(subs, head, list) && Suffix(rest, list) && rest != []
    ensures rest[0] in subs && subs[rest[0]].next == At(rest[1..], 0)
  {
    var o := |list| - |rest|;
    assert rest[0] == list[o..][0] == list[o];
    assert At(rest[1..], 0) == At(list, o + 1);
  }

  // Subscribing meanwhile

  /** Prepending a subscriber disturbs neither the other lists nor a cursor within any list. */
  lemma ListsPush(subs: map<Addr, Node<Handler>>, block: seq<Addr>, lists: seq<seq<Addr>>, id: nat, h: Handler, a: Addr)
    requires ListsOk(subs, block, lists) && id < |block| && a != NULL && a !in subs
    ensures ListsOk(subs[a := Node(h, block[id])], block[id := a], lists[id := [a] + lists[id]])
  {
    var subs' := subs[a := Node(h, block[id])];
    forall i | 0 <= i < |lists| && i != id ensures Chain(subs', block[i], lists[i]) {
      ChainFrame(subs, subs', block[i], lists[i]);
    }
    ChainPush(subs, block[id], lists[id], a, h);
    assert forall i :: 0 <= i < |lists| ==> a !in lists[i];
  }

  lemma Subscribed(subs: map<Addr, Node<Handler>>, cur: Addr, lists: seq<seq<Addr>>, t: Turn, id: nat, n: Node<Handler>, a: Addr)
    requires t.sid < |lists| && Called(subs, cur, lists[t.sid], t.staying, t.called, t.rest) && id < |lists| && a !in subs
    ensures Called(subs[a := n], cur, lists[id := [a] + lists[id]][t.sid], t.staying, t.called, t.rest)
  {
    assert Vals(subs[a := n], t.rest) == Vals(subs, t.rest);
    if id == t.sid {
      SuffixCons(t.rest, lists[id], a);
    }
  }

  // Unsubscribing meanwhile

  lemma ListsUnlink(subs: map<Addr, Node<Handler>>, block: seq<Addr>, lists: seq<seq<Addr>>, id: nat, k: nat)
    requires ListsOk(subs, block, lists) && id < |block| && k < |lists[id]|
    ensures
      var s := lists[id];
      ListsOk(Unlink(subs, At(s, k - 1), s[k]),
              if k == 0 then block[id := subs[s[0]].next] else block,
              lists[id := Drop(s, k)])
  {
    var s := lists[id];
    var subs' := Unlink(subs, At(s, k - 1), s[k]);
    ChainUnlink(subs, block[id], s, k);
    DropNoDup(s, k);
    forall i | 0 <= i < |lists| && i != id ensures Chain(subs', block[i], lists[i]) {
      OtherList(subs, block, lists, id, k, i);
    }
    StillDisjoint(lists, id, Drop(s, k));
  }

  lemma StillDisjoint(lists: seq<seq<Addr>>, id: nat, t: seq<Addr>)
    requires Disjoint(lists) && id < |lists| && forall a :: a in t ==> a in lists[id]
    ensures Disjoint(lists[id := t])
  {
    var lists' := lists[id := t];
    forall i, j, a | 0 <= i < j < |lists'| && a in lists'[i] ensures a !in lists'[j] {
      assert a in lists[i];
    }
  }

  lemma OtherList(subs: map<Addr, Node<Handler>>, block: seq<Addr>, lists: seq<seq<Addr>>, id: nat, k: nat, i: nat)
    requires ListsOk(subs, block, lists) && id < |lists| && k < |lists[id]| && i < |lists| && i != id
    ensures Chain(Unlink(subs, At(lists[id], k - 1), lists[id][k]), block[i], lists[i])
  {
    var s := lists[id];
    forall j | 0 <= j < |lists[i]| ensures lists[i][j] !in s {
      assert lists[i][j] in lists[i];
    }
    assert At(s, k - 1) != NULL ==> At(s, k - 1) in s;
    ChainFrame(subs, Unlink(subs, At(s, k - 1), s[k]), block[i], lists[i]);
  }

  /** What an unsubscription finds by walking is the k-th node of the list. */
  lemma WalkFinds(subs: map<Addr, Node<Handler>>, head: Addr, s: seq<Addr>, k: nat)
    requires Chain(subs, head, s) && NULL !in subs && Walk(subs, head, k) in subs
    ensures k < |s| && Walk(subs, head, k) == s[k]
    ensures (if k == 0 then NULL else Walk(subs, head, k - 1)) == At(s, k - 1)
  {
    WalkChain(subs, head, s, k);
    if k > 0 {
      WalkChain(subs, head, s, k - 1);
    }
  }

  /** Unlinking a node keeps what the others hold. */
  lemma UnlinkVals(subs: map<Addr, Node<Handler>>, prev: Addr, a: Addr, t: seq<Addr>)
    requires a in subs && a !in t && InSubs(subs, t)
    ensures InSubs(Unlink(subs, prev, a), t) && Vals(Unlink(subs, prev, a), t) == Vals(subs, t)
  {
  }

  lemma DropVals(subs: map<Addr, Node<Handler>>, prev: Addr, rest: seq<Addr>, j: nat)
    requires NoDup(rest) && j < |rest| && InSubs(subs, rest)
    ensures
      var subs' := Unlink(subs, prev, rest[j]);
      InSubs(subs', Drop(rest, j)) && Vals(subs', Drop(rest, j)) == Drop(Vals(subs, rest), j)
  {
    var d := Drop(rest, j);
    DropNoDup(rest, j);
    forall i | 0 <= i < |d| ensures d[i] in subs && d[i] == rest[if i < j then i else i + 1] {
      DropAt(rest, j, i);
    }
    UnlinkVals(subs, prev, rest[j], d);
    assert Vals(subs, d) == Drop(Vals(subs, rest), j);
  }

  lemma DropCalled<T>(called: seq<T>, v: seq<T>, j: nat)
    requires 0 < j < |v|
    ensures Drop(called + v[1..], |called| + j - 1) == called + Drop(v, j)[1..]
  {
  }

  lemma DropRoster(rs: seq<Subscriber>, k: nat)
    requires k < |rs|
    ensures NodesIn(Drop(rs, k)) == Drop(NodesIn(rs), k) && HandlersIn(Drop(rs, k)) == Drop(HandlersIn(rs), k)
  {
    forall i | 0 <= i < |rs| - 1
      ensures NodesIn(Drop(rs, k))[i] == Drop(NodesIn(rs), k)[i] && HandlersIn(Drop(rs, k))[i] == Drop(HandlersIn(rs), k)[i]
    {
      DropAt(rs, k, i);
      DropAt(NodesIn(rs), k, i);
      DropAt(HandlersIn(rs), k, i);
    }
  }

  lemma RosterAhead(staying: seq<Subscriber>, rest: seq<Addr>, j: nat)
    requires Suffix(rest, NodesIn(staying)) && 0 < j < |rest|
    ensures Suffix(Drop(rest, j), NodesIn(Drop(staying, |staying| - |rest| + j)))
    ensures staying[|staying| - |rest| + j].node == rest[j]
  {
    SuffixDrop(rest, NodesIn(staying), j);
    DropRoster(staying, |staying| - |rest| + j);
  }

  lemma HandlersAhead(subs: map<Addr, Node<Handler>>, staying: seq<Subscriber>, called: seq<Handler>, rest: seq<Addr>,
                      prev: Addr, j: nat)
    requires NoDup(rest) && 0 < j < |rest| <= |staying| && InSubs(subs, rest)
    requires HandlersIn(staying) == called + Vals(subs, rest)[1..]
    ensures
      var subs' := Unlink(subs, prev, rest[j]);
      && InSubs(subs', Drop(rest, j))
      && HandlersIn(Drop(staying, |staying| - |rest| + j)) == called + Vals(subs', Drop(rest, j))[1..]
  {
    assert |HandlersIn(staying)| == |staying|;
    DropRoster(staying, |staying| - |rest| + j);
    DropVals(subs, prev, rest, j);
    DropCalled(called, Vals(subs, rest), j);
  }

  lemma {:induction false} StayingIn(rs: seq<Subscriber>, gone: set<Addr>, i: nat)
    requires i < |Staying(rs, gone)|
    ensures Staying(rs, gone)[i].node in NodesIn(rs)
  {
    assert NodesIn(rs) == [rs[0].node] + NodesIn(rs[1..]);
    if rs[0].node in gone {
      StayingIn(rs[1..], gone, i);
    } else if i > 0 {
      StayingIn(rs[1..], gone, i - 1);
    }
  }

  /** One more leaves. */
  lemma {:induction false} OneLess(rs: seq<Subscriber>, gone: set<Addr>, i: nat, a: Addr)
    requires NoDup(NodesIn(rs)) && i < |Staying(rs, gone)| && Staying(rs, gone)[i].node == a
    ensures Staying(rs, gone + {a}) == Drop(Staying(rs, gone), i)
  {
    FirstNode(rs);
    if rs[0].node in gone {
      OneLess(rs[1..], gone, i, a);
      GoneLess(rs, gone, a, i);
    } else if i == 0 {
      FirstLess(rs, gone);
    } else {
      StayingIn(rs[1..], gone, i - 1);
      OneLess(rs[1..], gone, i - 1, a);
      LaterLess(rs, gone, a, i);
    }
  }

  lemma GoneLess(rs: seq<Subscriber>, gone: set<Addr>, a: Addr, i: nat)
    requires rs != [] && rs[0].node in gone && i < |Staying(rs[1..], gone)|
    requires Staying(rs[1..], gone + {a}) == Drop(Staying(rs[1..], gone), i)
    ensures Staying(rs, gone + {a}) == Drop(Staying(rs, gone), i)
  {
  }

  lemma FirstLess(rs: seq<Subscriber>, gone: set<Addr>)
    requires rs != [] && rs[0].node !in gone && rs[0].node !in NodesIn(rs[1..])
    ensures Staying(rs, gone + {rs[0].node}) == Drop(Staying(rs, gone), 0)
  {
    NoneLess(rs[1..], gone, rs[0].node);
  }

  lemma LaterLess(rs: seq<Subscriber>, gone: set<Addr>, a: Addr, i: nat)
    requires rs != [] && rs[0].node !in gone && rs[0].node != a && 0 < i <= |Staying(rs[1..], gone)|
    requires Staying(rs[1..], gone + {a}) == Drop(Staying(rs[1..], gone), i - 1)
    ensures Staying(rs, gone + {a}) == Drop(Staying(rs, gone), i)
  {
    DropCons(rs[0], Staying(rs[1..], gone), i);
  }

  lemma DropCons<T>(x: T, s: seq<T>, i: nat)
    requires 0 < i <= |s|
    ensures Drop([x] + s, i) == [x] + Drop(s, i - 1)
  {
  }

  lemma FirstNode(rs: seq<Subscriber>)
    requires rs != [] && NoDup(NodesIn(rs))
    ensures NodesIn(rs) == [rs[0].node] + NodesIn(rs[1..])
    ensures NoDup(NodesIn(rs[1..])) && rs[0].node !in NodesIn(rs[1..])
  {
    var ns := NodesIn(rs);
    assert NodesIn(rs[1..]) == ns[1..];
    assert forall i :: 0 < i < |ns| ==> ns[i] != ns[0];
  }

  lemma {:induction false} NoneLess(rs: seq<Subscriber>, gone: set<Addr>, a: Addr)
    requires a !in NodesIn(rs)
    ensures Staying(rs, gone + {a}) == Staying(rs, gone)
  {
    if rs != [] {
      assert NodesIn(rs) == [rs[0].node] + NodesIn(rs[1..]);
      NoneLess(rs[1..], gone, a);
    }
  }

  lemma SuffixNoDup<T>(s: seq<T>, t: seq<T>)
    requires Suffix(s, t) && NoDup(t)
    ensures NoDup(s)
  {
    var o := |t| - |s|;
    assert forall i :: 0 <= i < |s| ==> s[i] == t[o..][i] == t[o + i];
  }

  lemma CursorSkips(subs: map<Addr, Node<Handler>>, s: seq<Addr>, cur: Addr, t: Turn, t': Turn, k: nat, j: nat)
    requires NoDup(t.rest) && Called(subs, cur, s, t.staying, t.called, t.rest)
    requires 0 < j < |t.rest| <= |t.staying| && k == |s| - |t.rest| + j
    requires t'.staying == Drop(t.staying, |t.staying| - |t.rest| + j) && t'.called == t.called && t'.rest == Drop(t.rest, j)
    ensures Called(Unlink(subs, At(s, k - 1), s[k]), cur, Drop(s, k), t'.staying, t'.called, t'.rest)
  {
    PlaceAhead(s, t.rest, t.staying, k, j);
    HandlersAhead(subs, t.staying, t.called, t.rest, At(s, k - 1), j);
  }

  lemma PlaceAhead(s: seq<Addr>, rest: seq<Addr>, staying: seq<Subscriber>, k: nat, j: nat)
    requires Suffix(rest, s) && Suffix(rest, NodesIn(staying)) && 0 < j < |rest| && k == |s| - |rest| + j
    ensures s[k] == rest[j] && Drop(rest, j) != [] && Drop(rest, j)[0] == rest[0]
    ensures Suffix(Drop(rest, j), Drop(s, k)) && Suffix(Drop(rest, j), NodesIn(Drop(staying, |staying| - |rest| + j)))
  {
    SuffixDrop(rest, s, j);
    DropAt(rest, j, 0);
    RosterAhead(staying, rest, j);
  }

  lemma RosterSkips(t: Turn, t': Turn, j: nat)
    requires RosterOk(t.listed, t.gone, t.staying) && Suffix(t.rest, NodesIn(t.staying)) && 0 < j < |t.rest| <= |t.staying|
    requires t'.listed == t.listed && t'.gone == t.gone + {t.rest[j]}
    requires t'.staying == Drop(t.staying, |t.staying| - |t.rest| + j)
    ensures RosterOk(t'.listed, t'.gone, t'.staying)
  {
    RosterAhead(t.staying, t.rest, j);
    OneLess(t.listed, t.gone, |t.staying| - |t.rest| + j, t.rest[j]);
  }

  lemma NotAhead(subs: map<Addr, Node<Handler>>, block: seq<Addr>, lists: seq<seq<Addr>>, t: Turn, id: nat, k: nat)
    requires ListsOk(subs, block, lists) && t.sid < |lists| && Suffix(t.rest, lists[t.sid])
    requires id < |lists| && k < |lists[id]| && (id == t.sid ==> k < |lists[id]| - |t.rest|)
    ensures lists[id][k] in subs && lists[id][k] !in t.rest
  {
    var s, u := lists[id], lists[t.sid];
    assert Chain(subs, block[id], s);
    forall i | 0 <= i < |t.rest| ensures t.rest[i] != s[k] {
      assert t.rest[i] == u[|u| - |t.rest|..][i] == u[|u| - |t.rest| + i];
      assert u[|u| - |t.rest| + i] in u && s[k] in s;
    }
  }

  lemma UnlinkElsewhere(subs: map<Addr, Node<Handler>>, list: seq<Addr>, list': seq<Addr>, cur: Addr, t: Turn, prev: Addr, a: Addr)
    requires Called(subs, cur, list, t.staying, t.called, t.rest) && a in subs && a !in t.rest && Suffix(t.rest, list')
    ensures Called(Unlink(subs, prev, a), cur, list', t.staying, t.called, t.rest)
  {
    UnlinkVals(subs, prev, a, t.rest);
  }

  /** Unsubscribing a node of another list, or one whose turn is over. */
  lemma UnsubscribedElsewhere(subs: map<Addr, Node<Handler>>, block: seq<Addr>, lists: seq<seq<Addr>>, t: Turn, cur: Addr,
                              id: nat, k: nat)
    requires ListsOk(subs, block, lists) && t.sid < |lists|
    requires Called(subs, cur, lists[t.sid], t.staying, t.called, t.rest)
    requires id < |lists| && k < |lists[id]| && (id == t.sid ==> k < |lists[id]| - |t.rest|)
    ensures
      var s := lists[id];
      Called(Unlink(subs, At(s, k - 1), s[k]), cur, lists[id := Drop(s, k)][t.sid], t.staying, t.called, t.rest)
  {
    var s := lists[id];
    NotAhead(subs, block, lists, t, id, k);
    if id == t.sid {
      SuffixDropBefore(t.rest, s, k);
    }
    UnlinkElsewhere(subs, lists[t.sid], lists[id := Drop(s, k)][t.sid], cur, t, At(s, k - 1), s[k]);
  }

  /** While the handler of node cur runs, any other node may be unsubscribed: the walk goes on
      without it. */
  lemma Unsubscribed(subs: map<Addr, Node<Handler>>, block: seq<Addr>, lists: seq<seq<Addr>>, t: Turn, cur: Addr,
                     id: nat, k: nat)
    requires ListsOk(subs, block, lists) && t.sid < |lists|
    requires Called(subs, cur, lists[t.sid], t.staying, t.called, t.rest) && RosterOk(t.listed, t.gone, t.staying)
    requires id < |lists| && k < |lists[id]| && lists[id][k] != cur
    ensures
      var s, t' := lists[id], TurnWithout(t, lists, id, k);
      && t'.sid == t.sid && t'.called == t.called && RosterOk(t'.listed, t'.gone, t'.staying)
      && Called(Unlink(subs, At(s, k - 1), s[k]), cur, lists[id := Drop(s, k)][t.sid], t'.staying, t'.called, t'.rest)
  {
    var s := lists[id];
    var j := k - (|s| - |t.rest|);
    var t' := TurnWithout(t, lists, id, k);
    if id == t.sid && j >= 0 {
      SuffixDrop(t.rest, s, j);
      assert |NodesIn(t.staying)| == |t.staying|;
      assert t' == Skip(t, j) && Chain(subs, block[id], s);
      SuffixNoDup(t.rest, s);
      CursorSkips(subs, s, cur, t, t', k, j);
      RosterSkips(t, t', j);
    } else {
      UnsubscribedElsewhere(subs, block, lists, t, cur, id, k);
    }
  }

  /** A node is skipped exactly if it is still to come. */
  lemma WhoIsSkipped(subs: map<Addr, Node<Handler>>, block: seq<Addr>, lists: seq<seq<Addr>>, t: Turn, cur: Addr,
                     id: nat, k: nat)
    requires ListsOk(subs, block, lists) && t.sid < |lists|
    requires Called(subs, cur, lists[t.sid], t.staying, t.called, t.rest)
    requires id < |lists| && k < |lists[id]| && lists[id][k] != cur
    ensures
      var a, t' := lists[id][k], TurnWithout(t, lists, id, k);
      t'.listed == t.listed && t'.gone == t.gone + if a in t.rest then {a} else {}
  {
    var s := lists[id];
    var j := k - (|s| - |t.rest|);
    if id == t.sid && j >= 0 {
      SuffixDrop(t.rest, s, j);
      assert |NodesIn(t.staying)| == |t.staying|;
    } else {
      NotAhead(subs, block, lists, t, id, k);
    }
  }
}
