/** The kernel loop of kernel/kernel.cpp: up to two messages, then one task, for ever. */
module Kernel {
  import opened Iterations
  import opened OsTimer
  import opened ToggleTask
  import Messaging = MessageQueue
  import Tasks = TaskRing

  /** One call of loop(): first two messages, or fewer if then none is waiting; after them one
      task. `before` is how many posts had been accepted when it was the task's turn; its
      moment records that, and how many messages had been dispatched. What the task does to the
      message queue while it runs is put after what it does to the ring: neither sees the other. */
  method KernelLoop(mq: Messaging.MQ, ring: Tasks.Scheduler)
      returns (ghost inside: seq<Tasks.TaskNode>, ghost before: nat)
    requires mq.Valid() && mq.Accounted() && ring.Valid()
    modifies mq, mq.messageNodes, mq.block, ring
    ensures mq.Valid() && mq.Accounted() && ring.Valid()
    ensures old(mq.done) <= mq.done && old(mq.posted) <= mq.posted && |old(mq.posted)| <= before <= |mq.posted|
    ensures |mq.done| - |old(mq.done)| <= 2
    ensures |mq.done| - |old(mq.done)| == 2 || (before == |mq.done| && |mq.done| - |old(mq.done)| >= |old(mq.queue)|)
    ensures ring.State() == Tasks.Step(old(ring.State()), Tasks.Act.Loop(inside))
    ensures ring.calls == old(ring.calls) + Tasks.Called(old(ring.State()), Tasks.Act.Loop([]))
    ensures
      ring.moments
      == old(ring.moments) + if Tasks.Called(old(ring.State()), Tasks.Act.Loop([])) == [] then [] else [(|mq.done|, before)]
  {
    before := ServeTwo(mq);
    inside := TaskTurn(mq, ring, before);
  }

  /** The first half: message dispatch, and what had been posted by the end of it. */
  method ServeTwo(mq: Messaging.MQ) returns (ghost posted: nat)
    requires mq.Valid() && mq.Accounted()
    modifies mq, mq.messageNodes, mq.block
    ensures mq.Valid() && mq.Accounted() && fresh(mq.messageNodes - old(mq.messageNodes))
    ensures old(mq.done) <= mq.done && old(mq.posted) <= mq.posted && posted == |mq.posted|
    ensures |mq.done| - |old(mq.done)| <= 2
    ensures |mq.done| - |old(mq.done)| == 2 || (posted == |mq.done| && |mq.done| - |old(mq.done)| >= |old(mq.queue)|)
  {
    mq.Loop(2);
    posted := |mq.posted|;
    assert |mq.posted| == |mq.done| + |mq.queue|;
  }

  /** The second half: one task. */
  method TaskTurn(mq: Messaging.MQ, ring: Tasks.Scheduler, ghost before: nat) returns (ghost inside: seq<Tasks.TaskNode>)
    requires mq.Valid() && mq.Accounted() && ring.Valid()
    modifies mq, mq.messageNodes, mq.block, ring
    ensures mq.Valid() && mq.Accounted() && ring.Valid()
    ensures mq.done == old(mq.done) && old(mq.posted) <= mq.posted
    ensures ring.State() == Tasks.Step(old(ring.State()), Tasks.Act.Loop(inside))
    ensures ring.calls == old(ring.calls) + Tasks.Called(old(ring.State()), Tasks.Act.Loop([]))
    ensures
      ring.moments
      == old(ring.moments)
         + if Tasks.Called(old(ring.State()), Tasks.Act.Loop([])) == [] then [] else [(|old(mq.done)|, before)]
  {
    inside := ring.Loop((|mq.done|, before));
    mq.TaskActs();
  }

  // With no registrations, the ring is periodic.

  lemma ModUnique(x: nat, m: nat, d: nat, r: nat)
    requires r < m && x == m * d + r
    ensures x % m == r
  {
    QuotientUnique(x, m, d, r);
    assert x == m * (x / m) + x % m;
  }

  lemma ModSucc(a: nat, m: nat)
    requires m > 0
    ensures (a % m + 1) % m == (a + 1) % m
  {
    var d, r := a / m, a % m;
    assert a == m * d + r;
    if r + 1 < m {
      ModUnique(a + 1, m, d, r + 1);
      ModUnique(r + 1, m, 0, r + 1);
    } else {
      MulStep(m, d);
      ModUnique(a + 1, m, d + 1, 0);
      ModUnique(m, m, 1, 0);
    }
  }

  /** The index i places on from p in a ring of n. */
  function Cyclic(p: nat, i: nat, n: nat): (k: nat)
    requires p < n
    ensures k < n
  {
    if i == 0 then p
    else
      var k := Cyclic(p, i - 1, n);
      if k + 1 == n then 0 else k + 1
  }

  lemma {:induction false} CyclicIsMod(p: nat, i: nat, n: nat)
    requires p < n
    ensures Cyclic(p, i, n) == (p + i) % n
  {
    if i == 0 {
      ModUnique(p, n, 0, p);
    } else {
      CyclicIsMod(p, i - 1, n);
      ModSucc(p + (i - 1), n);
      var k := Cyclic(p, i - 1, n);
      if k + 1 == n {
        ModUnique(n, n, 1, 0);
      } else {
        ModUnique(k + 1, n, 0, k + 1);
      }
    }
  }

  lemma {:induction false} CyclicLinear(p: nat, i: nat, n: nat)
    requires p < n && i <= n
    ensures Cyclic(p, i, n) == if p + i < n then p + i else p + i - n
  {
    if i > 0 {
      CyclicLinear(p, i - 1, n);
    }
  }

  lemma {:induction false} CyclicPeriod(p: nat, i: nat, n: nat)
    requires p < n
    ensures Cyclic(p, i + n, n) == Cyclic(p, i, n)
  {
    if i == 0 {
      CyclicLinear(p, n, n);
    } else {
      CyclicPeriod(p, i - 1, n);
      assert i + n - 1 == i - 1 + n;
    }
  }

  /** Where the cursor stands, as an index; 0 when the next pass has not begun. */
  function Position<N>(r: Tasks.Ring<N>): (p: nat)
    requires r.Ok() && r.nodes != []
    ensures p < |r.nodes|
  {
    |r.nodes| - Tasks.Due(r)
  }

  lemma PositionAdvances<N>(r: Tasks.Ring<N>)
    requires r.Ok() && r.nodes != []
    ensures
      var r' := Tasks.Step(r, Tasks.Act.Loop([]));
      && r'.Ok() && r'.nodes == r.nodes
      && Position(r') == if Position(r) + 1 == |r.nodes| then 0 else Position(r) + 1
  {
  }

  lemma {:induction false} PositionAfter<N>(r: Tasks.Ring<N>, i: nat)
    requires r.Ok() && r.nodes != []
    ensures
      var r' := Tasks.After(r, Tasks.Plain(i));
      r'.nodes == r.nodes && Position(r') == Cyclic(Position(r), i, |r.nodes|)
  {
    if i > 0 {
      assert Tasks.Plain<N>(i)[..i - 1] == Tasks.Plain<N>(i - 1);
      PositionAfter(r, i - 1);
      PositionAdvances(Tasks.After(r, Tasks.Plain(i - 1)));
    }
  }

  /** The nodes met in m places from p on. */
  function Turns<N>(nodes: seq<N>, p: nat, m: nat): (t: seq<N>)
    requires p < |nodes|
    ensures |t| == m
  {
    seq(m, i requires 0 <= i < m => nodes[Cyclic(p, i, |nodes|)])
  }

  lemma TurnsSnoc<N>(nodes: seq<N>, p: nat, m: nat)
    requires p < |nodes|
    ensures Turns(nodes, p, m + 1) == Turns(nodes, p, m) + [nodes[Cyclic(p, m, |nodes|)]]
  {
  }

  lemma TurnsRecur<N>(nodes: seq<N>, p: nat, m: nat, i: nat)
    requires p < |nodes| && i + |nodes| < m
    ensures Turns(nodes, p, m)[i + |nodes|] == Turns(nodes, p, m)[i]
  {
    CyclicPeriod(p, i, |nodes|);
  }

  /** Without registrations the i-th Loop call from now calls the node i places further on,
      cyclically. */
  lemma {:induction false} PlainCalls<N>(r: Tasks.Ring<N>, m: nat)
    requires r.Ok() && r.nodes != []
    ensures Tasks.Calls(r, Tasks.Plain(m)) == Turns(r.nodes, Position(r), m)
  {
    if m > 0 {
      PlainCalls(r, m - 1);
      OneMore(r, m - 1);
      TurnsSnoc(r.nodes, Position(r), m - 1);
    }
  }

  lemma OneMore<N>(r: Tasks.Ring<N>, i: nat)
    requires r.Ok() && r.nodes != []
    ensures Tasks.Calls(r, Tasks.Plain(i + 1))
            == Tasks.Calls(r, Tasks.Plain(i)) + [r.nodes[Cyclic(Position(r), i, |r.nodes|)]]
  {
    assert Tasks.Plain<N>(i + 1)[..i] == Tasks.Plain<N>(i);
    PositionAfter(r, i);
  }

  // When a task is called

  /** The places of x in a sequence of calls, in order. */
  ghost function Occurrences<N>(calls: seq<N>, x: N): seq<nat> {
    if calls == [] then []
    else
      var m := |calls| - 1;
      Occurrences(calls[..m], x) + if calls[m] == x then [m] else []
  }

  ghost predicate Enumerates<N>(at: seq<nat>, calls: seq<N>, x: N) {
    && (forall j, k :: 0 <= j < k < |at| ==> at[j] < at[k])
    && (forall j :: 0 <= j < |at| ==> at[j] < |calls| && calls[at[j]] == x)
    && (forall i: nat :: i < |calls| && calls[i] == x ==> i in at)
  }

  lemma {:induction false} OccurrencesEnumerate<N>(calls: seq<N>, x: N)
    ensures Enumerates(Occurrences(calls, x), calls, x)
  {
    if calls != [] {
      var m := |calls| - 1;
      OccurrencesEnumerate(calls[..m], x);
      OneMoreOccurrence(calls, x, Occurrences(calls[..m], x));
    }
  }

  lemma OneMoreOccurrence<N>(calls: seq<N>, x: N, at: seq<nat>)
    requires calls != [] && Enumerates(at, calls[..|calls| - 1], x)
    ensures Enumerates(at + (if calls[|calls| - 1] == x then [|calls| - 1] else []), calls, x)
  {
    var m := |calls| - 1;
    var at' := at + if calls[m] == x then [m] else [];
    forall i: nat | i < |calls| && calls[i] == x ensures i in at' {
      if i < m {
        assert calls[..m][i] == x;
        assert i in at;
      } else {
        assert at'[|at|] == m;
      }
    }
  }

  /** The first is among the first n, and each is at most n after the one before. */
  ghost predicate Spaced(at: seq<nat>, n: nat) {
    && (|at| > 0 ==> at[0] < n)
    && forall j, k :: 0 <= j && k == j + 1 < |at| ==> at[j] < at[k] <= at[j] + n
  }

  ghost predicate Periodic<N>(calls: seq<N>, n: nat) {
    forall i, k :: 0 <= i && k == i + n < |calls| ==> calls[k] == calls[i]
  }

  /** What occurs among the first n of something with period n comes back soon. */
  lemma PeriodicIsSpaced<N>(calls: seq<N>, x: N, at: seq<nat>, n: nat, f: nat)
    requires Enumerates(at, calls, x) && Periodic(calls, n) && f < n && (f < |calls| ==> calls[f] == x)
    ensures Spaced(at, n)
  {
    if |at| > 0 && f < |calls| {
      FirstIs(at, f);
    }
    forall j, k | 0 <= j && k == j + 1 < |at| ensures at[j] < at[k] <= at[j] + n {
      if at[k] > at[j] + n {
        assert calls[at[j] + n] == calls[at[j]];
        Between(at, j, at[j] + n);
      }
    }
  }

  lemma FirstIs(at: seq<nat>, i: nat)
    requires (forall j, k :: 0 <= j < k < |at| ==> at[j] < at[k]) && i in at
    ensures at[0] <= i
  {
  }

  lemma Between(at: seq<nat>, j: nat, i: nat)
    requires (forall j, k :: 0 <= j < k < |at| ==> at[j] < at[k]) && i in at && j < |at| && at[j] < i
    ensures j + 1 < |at| && at[j + 1] <= i
  {
    var q :| 0 <= q < |at| && at[q] == i;
    assert j < q;
  }

  lemma TurnsPeriodic<N>(nodes: seq<N>, p: nat, m: nat)
    requires p < |nodes|
    ensures Periodic(Turns(nodes, p, m), |nodes|)
  {
    forall i, k | 0 <= i && k == i + |nodes| < m ensures Turns(nodes, p, m)[k] == Turns(nodes, p, m)[i] {
      TurnsRecur(nodes, p, m, i);
    }
  }

  /** Where a node is met first. */
  lemma FirstTurn<N>(nodes: seq<N>, p: nat, m: nat, q: nat) returns (f: nat)
    requires p < |nodes| && q < |nodes|
    ensures f < |nodes| && (f < m ==> Turns(nodes, p, m)[f] == nodes[q])
  {
    f := if q >= p then q - p else q - p + |nodes|;
    CyclicLinear(p, f, |nodes|);
  }

  lemma TurnsSpaced<N>(nodes: seq<N>, p: nat, m: nat, x: N)
    requires p < |nodes| && x in nodes
    ensures Spaced(Occurrences(Turns(nodes, p, m), x), |nodes|)
  {
    var calls := Turns(nodes, p, m);
    var q :| 0 <= q < |nodes| && nodes[q] == x;
    var f := FirstTurn(nodes, p, m, q);
    TurnsPeriodic(nodes, p, m);
    OccurrencesEnumerate(calls, x);
    PeriodicIsSpaced(calls, x, Occurrences(calls, x), |nodes|, f);
  }

  /** In a ring that nobody adds to, a task is called at least every |nodes| iterations. */
  lemma CalledOften<N>(r: Tasks.Ring<N>, x: N, m: nat)
    requires r.Ok() && x in r.nodes
    ensures Spaced(Occurrences(Tasks.Calls(r, Tasks.Plain(m)), x), |r.nodes|)
  {
    PlainCalls(r, m);
    TurnsSpaced(r.nodes, Position(r), m, x);
  }

  lemma {:induction false} CyclicAdd(p: nat, a: nat, d: nat, n: nat)
    requires p < n
    ensures Cyclic(p, a + d, n) == Cyclic(Cyclic(p, a, n), d, n)
  {
    if d > 0 {
      CyclicAdd(p, a, d - 1, n);
      assert a + d - 1 == a + (d - 1);
    }
  }

  /** Two visits to the same place are a whole round apart. */
  lemma SamePlace(p: nat, a: nat, b: nat, n: nat)
    requires p < n && a < b <= a + n && Cyclic(p, a, n) == Cyclic(p, b, n)
    ensures b == a + n
  {
    CyclicAdd(p, a, b - a, n);
    CyclicLinear(Cyclic(p, a, n), b - a, n);
  }

  lemma TurnAt<N>(nodes: seq<N>, p: nat, m: nat, q: nat, i: nat)
    requires p < |nodes| && q < |nodes| && i < m && Turns(nodes, p, m)[i] == nodes[q]
    requires forall k :: 0 <= k < |nodes| && k != q ==> nodes[k] != nodes[q]
    ensures Cyclic(p, i, |nodes|) == q
  {
  }

  /** Exactly every |nodes| iterations, if it was registered once. */
  lemma CalledExactly<N>(r: Tasks.Ring<N>, q: nat, m: nat, j: nat)
    requires r.Ok() && q < |r.nodes| && forall i :: 0 <= i < |r.nodes| && i != q ==> r.nodes[i] != r.nodes[q]
    requires j + 1 < |Occurrences(Tasks.Calls(r, Tasks.Plain(m)), r.nodes[q])|
    ensures var at := Occurrences(Tasks.Calls(r, Tasks.Plain(m)), r.nodes[q]); at[j + 1] == at[j] + |r.nodes|
  {
    PlainCalls(r, m);
    TurnsExact(r.nodes, Position(r), m, q, j, Occurrences(Turns(r.nodes, Position(r), m), r.nodes[q]));
  }

  lemma TurnsExact<N>(nodes: seq<N>, p: nat, m: nat, q: nat, j: nat, at: seq<nat>)
    requires p < |nodes| && q < |nodes| && at == Occurrences(Turns(nodes, p, m), nodes[q]) && j + 1 < |at|
    requires forall i :: 0 <= i < |nodes| && i != q ==> nodes[i] != nodes[q]
    ensures at[j + 1] == at[j] + |nodes|
  {
    OccurrencesEnumerate(Turns(nodes, p, m), nodes[q]);
    TurnsSpaced(nodes, p, m, nodes[q]);
    TurnAt(nodes, p, m, q, at[j]);
    TurnAt(nodes, p, m, q, at[j + 1]);
    SamePlace(p, at[j], at[j + 1], |nodes|);
  }

  // Time

  /** When each kernel iteration starts; none takes more than d ms. */
  ghost predicate Ticking(times: seq<int>, d: int) {
    forall i :: 0 <= i < |times| - 1 ==> times[i] <= times[i + 1] <= times[i] + d
  }

  lemma {:induction false} Span(times: seq<int>, d: int, a: nat, k: nat)
    requires Ticking(times, d) && a + k < |times|
    ensures times[a] <= times[a + k] <= times[a] + d * k
  {
    if k > 0 {
      Span(times, d, a, k - 1);
      assert d * k == d * (k - 1) + d;
    }
  }

  /** Any m iterations in a row take at most gap ms. */
  ghost predicate Spanned(times: seq<int>, m: int, gap: int) {
    forall a, b :: 0 <= a <= b < |times| && b <= a + m ==> times[a] <= times[b] <= times[a] + gap
  }

  lemma TicksSpan(times: seq<int>, d: int, m: nat)
    requires Ticking(times, d) && d >= 0
    ensures Spanned(times, m, d * m)
  {
    forall a, b | 0 <= a <= b < |times| && b <= a + m ensures times[a] <= times[b] <= times[a] + d * m {
      Span(times, d, a, b - a);
      Scale(d, b - a, m);
    }
  }

  lemma Scale(d: int, a: int, b: int)
    requires 0 <= d && a <= b
    ensures d * a <= d * b
  {
  }

  /** The polls of a task that is called in these iterations. */
  ghost predicate PolledIn(ps: seq<Poll>, times: seq<int>, at: seq<nat>) {
    && |ps| <= |at|
    && forall j :: 0 <= j < |ps| ==>
         at[j] < |times| - 1 && times[at[j]] <= ps[j].check <= ps[j].restart <= times[at[j] + 1]
  }

  lemma PollsOrdered(ps: seq<Poll>, times: seq<int>, at: seq<nat>, n: nat, gap: int)
    requires n > 0 && Spanned(times, n + 1, gap) && Spaced(at, n) && PolledIn(ps, times, at) && times != []
    ensures Ordered(times[0], ps)
  {
    forall j | 0 <= j < |ps| ensures Latest(times[0], ps[..j]) <= ps[j].check <= ps[j].restart {
      if j == 0 {
        assert times[0] <= times[at[0]];
      } else {
        assert at[j - 1] < at[j] <= at[j - 1] + n;
        assert times[at[j - 1] + 1] <= times[at[j]];
      }
    }
  }

  /** Polls from the ring come no further apart than n + 1 iterations. */
  lemma PollsPrompt(timeout: int, ps: seq<Poll>, times: seq<int>, at: seq<nat>, n: nat, gap: int)
    requires n > 0 && Spanned(times, n + 1, gap) && Spaced(at, n) && PolledIn(ps, times, at) && times != []
    ensures Prompt(timeout, times[0], ps, gap)
  {
    forall j | 0 <= j < |ps| ensures ps[j].check <= Reference(timeout, times[0], ps[..j]) + gap {
      if j == 0 {
        assert times[at[0] + 1] <= times[0] + gap;
      } else {
        assert ps[..j][j - 1] == ps[j - 1];
        assert at[j - 1] < at[j] <= at[j - 1] + n;
        assert times[at[j] + 1] <= times[at[j - 1]] + gap;
      }
    }
  }

  /** A toggle task x in a ring of n tasks that nobody adds to, in a kernel whose iterations
      take at most d ms, polled in exactly those iterations in which the ring calls it. It
      toggles at the first poll more than timeout ms after its last restart, at no other, and
      that is never more than timeout + (n + 1) * d ms after it. */
  lemma TogglesUnderTheKernel<N>(timeout: int, r: Tasks.Ring<N>, x: N, ps: seq<Poll>, times: seq<int>, d: int, i: nat)
    requires r.Ok() && x in r.nodes && times != []
    requires PolledIn(ps, times, Occurrences(Tasks.Calls(r, Tasks.Plain(|times| - 1)), x)) && i < |ps|
    requires 0 <= timeout && d >= 0 && timeout + d * (|r.nodes| + 1) < 0x1_0000_0000 && Ticking(times, d)
    ensures
      var late := ps[i].check - Mark(timeout, times[0], ps[..i]);
      && 0 <= late <= timeout + d * (|r.nodes| + 1)
      && TogglesAt(timeout, times[0], ps, i, late > timeout)
  {
    var at := Occurrences(Tasks.Calls(r, Tasks.Plain(|times| - 1)), x);
    CalledOften(r, x, |times| - 1);
    TogglesWithin(timeout, ps, times, d, at, |r.nodes|, i);
  }

  lemma TogglesWithin(timeout: int, ps: seq<Poll>, times: seq<int>, d: int, at: seq<nat>, n: nat, i: nat)
    requires 0 <= timeout && d >= 0 && n > 0 && timeout + d * (n + 1) < WRAP
    requires Ticking(times, d) && times != [] && Spaced(at, n) && PolledIn(ps, times, at) && i < |ps|
    ensures
      var late := ps[i].check - Mark(timeout, times[0], ps[..i]);
      0 <= late <= timeout + d * (n + 1) && TogglesAt(timeout, times[0], ps, i, late > timeout)
  {
    TicksSpan(times, d, n + 1);
    Scale(d, 0, n + 1);
    TogglesInTime(timeout, ps, times, d * (n + 1), at, n, i);
  }

  lemma TogglesInTime(timeout: int, ps: seq<Poll>, times: seq<int>, gap: int, at: seq<nat>, n: nat, i: nat)
    requires 0 <= timeout && 0 <= gap && n > 0 && timeout + gap < WRAP
    requires Spanned(times, n + 1, gap) && times != [] && Spaced(at, n) && PolledIn(ps, times, at) && i < |ps|
    ensures
      var late := ps[i].check - Mark(timeout, times[0], ps[..i]);
      0 <= late <= timeout + gap && TogglesAt(timeout, times[0], ps, i, late > timeout)
  {
    PollsOrdered(ps, times, at, n, gap);
    PollsPrompt(timeout, ps, times, at, n, gap);
    TogglesArePrompt(timeout, times[0], ps, gap, i);
  }
}
