/** Whom the dispatch loop of module Interleaving calls. */
module Dispatches {
  import opened Chains
  import opened Interleaving
  import opened Messages
  import opened Subscribers

  /** A node leaves the dispatch that is going on when a handler unsubscribes it before its
      turn, and only then. */
  lemma GoneByUnsubscribing(w: World, l: Label)
    requires ListsInv(w.m.subs, w.m.block, w.m.loop, w.g.lists, w.g.turn) && !w.m.fault
    requires l.Unsubscribe? && CanUnsubscribe(w.m, l) && Allowed(w.m, l)
    ensures
      var t, t' := w.g.turn, Step(w, l).g.turn;
      && t'.listed == t.listed
      && t'.gone == t.gone + if Ahead(w, l) then {Walk(w.m.subs, w.m.block[l.sid], l.k)} else {}
  {
    UnsubscribeDoes(w, l);
    if w.m.loop.Handling? {
      WhoIsSkipped(w.m.subs, w.m.block, w.g.lists, w.g.turn, w.m.loop.cur, l.sid, l.k);
    }
  }

  /** The node to be unsubscribed is still to be called by the dispatch that is going on. */
  ghost predicate Ahead(w: World, l: Label)
    requires l.Unsubscribe? && l.sid < |w.m.block|
  {
    w.m.loop.Handling? && Walk(w.m.subs, w.m.block[l.sid], l.k) in w.g.turn.rest
  }

  /** A dispatch begins with all the subscribers that the list of its message then has. */
  lemma AllListed(w: World)
    requires Inv(w) && w.m.post.NoPost? && w.m.loop.Lookup?
    ensures
      var t' := Step(w, LoopStep).g.turn;
      && w.m.loop.msg in w.m.mem && t'.sid == w.m.mem[w.m.loop.msg].val.id < |w.g.lists|
      && t'.gone == {} && Reflects(t'.listed, w.m.subs, w.g.lists[t'.sid])
  {
    LookupLists(w.m, w.g);
  }

  lemma LookupLists(m: Machine, g: Ledger)
    requires ListsOk(m.subs, m.block, g.lists) && m.loop.Lookup? && m.loop.msg in m.mem
    requires 0 <= m.mem[m.loop.msg].val.id < |g.lists|
    ensures
      var t' := LedgerLoop(m, g).turn;
      && t'.sid == m.mem[m.loop.msg].val.id
      && t'.gone == {} && Reflects(t'.listed, m.subs, g.lists[t'.sid])
  {
    var id := m.mem[m.loop.msg].val.id;
    assert Chain(m.subs, m.block[id], g.lists[id]);
  }

  predicate LooksUp(m: Machine, l: Label) {
    l.LoopStep? && m.post.NoPost? && m.loop.Lookup?
  }

  lemma NobodyGone(w: World, l: Label)
    requires !LooksUp(w.m, l) && !(l.Unsubscribe? && CanUnsubscribe(w.m, l))
    ensures Step(w, l).g.turn.listed == w.g.turn.listed && Step(w, l).g.turn.gone == w.g.turn.gone
  {
    if l.LoopStep? && w.m.post.NoPost? {
      LoopLosesNobody(w.m, w.g);
    }
  }

  lemma LoopLosesNobody(m: Machine, g: Ledger)
    requires !m.loop.Lookup?
    ensures LedgerLoop(m, g).turn.listed == g.turn.listed && LedgerLoop(m, g).turn.gone == g.turn.gone
  {
  }

  /** No handler unsubscribes anybody. */
  predicate Loyal(ls: seq<Label>) {
    ls == [] ||
    (Loyal(ls[..|ls| - 1]) && (ls[|ls| - 1].Unsubscribe? ==> !Run(ls[..|ls| - 1]).m.loop.Handling?))
  }

  ghost predicate AllAttend(g: Ledger) {
    g.turn.gone == {} && forall i :: 0 <= i < |g.done| ==> Attended(g.done[i]) == HandlersIn(g.done[i].listed)
  }

  /** Then every message is passed to all the subscribers that it had when its dispatch began. */
  lemma {:induction false} EverySubscriberCalled(ls: seq<Label>)
    requires Legal(ls) && Loyal(ls)
    ensures AllAttend(Run(ls).g)
  {
    if ls != [] {
      var n := |ls| - 1;
      EverySubscriberCalled(ls[..n]);
      RunKeeps(ls[..n]);
      GoneStep(Run(ls[..n]), ls[n]);
      AttendStep(Run(ls[..n]), ls[n]);
    }
  }

  lemma GoneStep(w: World, l: Label)
    requires Inv(w) && Allowed(w.m, l) && w.g.turn.gone == {} && (l.Unsubscribe? ==> !w.m.loop.Handling?)
    ensures Step(w, l).g.turn.gone == {}
  {
    if LooksUp(w.m, l) {
      AllListed(w);
    } else if l.Unsubscribe? && CanUnsubscribe(w.m, l) {
      GoneByUnsubscribing(w, l);
    } else {
      NobodyGone(w, l);
    }
  }

  lemma AttendStep(w: World, l: Label)
    requires AllAttend(w.g)
    ensures forall i :: 0 <= i < |Step(w, l).g.done| ==>
      Attended(Step(w, l).g.done[i]) == HandlersIn(Step(w, l).g.done[i].listed)
  {
    AllStay(w.g.turn.listed);
    if l.LoopStep? && !w.m.fault && w.m.post.NoPost? && w.m.loop.Discard? && w.m.loop.msg in w.m.mem {
      assert Step(w, l).g.done == w.g.done + [Dispatch(w.m.mem[w.m.loop.msg].val, w.m.loop.msg, w.g.turn.listed, {})];
    } else {
      DoneKept(w, l);
    }
  }

  lemma DoneKept(w: World, l: Label)
    requires !(l.LoopStep? && !w.m.fault && w.m.post.NoPost? && w.m.loop.Discard? && w.m.loop.msg in w.m.mem)
    ensures Step(w, l).g.done == w.g.done
  {
  }

  /** What the life of a message is: its id and context passed to each of those it attends to;
      then its context freed, if the queue owns it and there is one; then its node. */
  lemma LifeIs(d: Dispatch)
    ensures
      var n := |Attended(d)|;
      && |Life(d)| > n && (forall i :: 0 <= i < n ==> Life(d)[i] == Call(Attended(d)[i], d.msg.id, d.msg.context))
      && Life(d)[n..] == if d.msg.owner == OwnerMQ && d.msg.context != NULL then
                           [FreeContext(d.msg.context), FreeMessage(d.node)]
                         else [FreeMessage(d.node)]
  {
    var calls := Calls(d.msg, Attended(d));
    assert Life(d) == calls + (Frees(d.msg) + [FreeMessage(d.node)]);
  }
}
