/** The kernel's message service seen as iterations of a FIFO: during one iteration of
    `loop()` the dispatcher tries to take MaxMessages messages, and posts arrive anywhere
    in between (from handlers, from tasks, from interrupts). This module says how long a
    message waits and how far the backlog can grow. Module QueueRuns shows that
    every run of the interrupt-driven queue is such a sequence of iterations. */
module Iterations {

  datatype Act<M> = Arrive(m: M) | Take

  function Apply<M>(q: seq<M>, a: Act<M>): seq<M> {
    match a
    case Arrive(m) => q + [m]
    case Take => if q == [] then q else q[1..]
  }

  /** The queue after a sequence of acts. */
  function After<M>(q: seq<M>, acts: seq<Act<M>>): seq<M> {
    if acts == [] then q
    else Apply(After(q, acts[..|acts| - 1]), acts[|acts| - 1])
  }

  /** The messages taken by a sequence of acts, in order. */
  function Out<M>(q: seq<M>, acts: seq<Act<M>>): seq<M> {
    if acts == [] then []
    else
      var before, sofar := After(q, acts[..|acts| - 1]), Out(q, acts[..|acts| - 1]);
      if acts[|acts| - 1].Take? && before != [] then sofar + [before[0]] else sofar
  }

  /** How often the dispatcher tried to take a message. */
  function Takes<M>(acts: seq<Act<M>>): nat {
    if acts == [] then 0
    else Takes(acts[..|acts| - 1]) + if acts[|acts| - 1].Take? then 1 else 0
  }

  /** The messages that arrived, in order. */
  function Arrivals<M>(acts: seq<Act<M>>): seq<M> {
    if acts == [] then []
    else
      Arrivals(acts[..|acts| - 1]) +
      if acts[|acts| - 1].Arrive? then [acts[|acts| - 1].m] else []
  }

  // Runs: a sequence of iterations, starting from an empty queue.

  function Backlog<M>(its: seq<seq<Act<M>>>): seq<M> {
    if its == [] then [] else After(Backlog(its[..|its| - 1]), its[|its| - 1])
  }

  function Served<M>(its: seq<seq<Act<M>>>): seq<M> {
    if its == [] then []
    else Served(its[..|its| - 1]) + Out(Backlog(its[..|its| - 1]), its[|its| - 1])
  }

  function Arrived<M>(its: seq<seq<Act<M>>>): seq<M> {
    if its == [] then [] else Arrived(its[..|its| - 1]) + Arrivals(its[|its| - 1])
  }

  ghost predicate Quota<M>(its: seq<seq<Act<M>>>, max: nat) {
    forall i :: 0 <= i < |its| ==> Takes(its[i]) == max
  }

  // One iteration

  /** Nothing is lost, duplicated or reordered by one iteration. */
  lemma {:induction false} IterationConserves<M>(q: seq<M>, acts: seq<Act<M>>)
    ensures q + Arrivals(acts) == Out(q, acts) + After(q, acts)
  {
    if acts == [] {
    } else {
      IterationConserves(q, acts[..|acts| - 1]);
      var a := acts[|acts| - 1];
      var mid := After(q, acts[..|acts| - 1]);
      if a.Take? && mid != [] {
        var sofar := Out(q, acts[..|acts| - 1]);
        assert sofar + mid == sofar + [mid[0]] + mid[1..];
      } else if a.Arrive? {
        assert q + Arrivals(acts) == q + Arrivals(acts[..|acts| - 1]) + [a.m];
      }
    }
  }

  /** An iteration serves as many messages as it tries, unless it finds the queue empty;
      what was queued at its start is enough to keep it busy. */
  lemma {:induction false} IterationServes<M>(q: seq<M>, acts: seq<Act<M>>)
    ensures |Out(q, acts)| <= Takes(acts)
    ensures |Out(q, acts)| >= |q| || |Out(q, acts)| == Takes(acts)
    ensures |Out(q, acts)| == Takes(acts) || |After(q, acts)| <= |Arrivals(acts)|
  {
    if acts == [] {
    } else {
      IterationServes(q, acts[..|acts| - 1]);
      IterationConserves(q, acts[..|acts| - 1]);
      var a := acts[|acts| - 1];
      assert |Arrivals(acts)| == |Arrivals(acts[..|acts| - 1])| + if a.Arrive? then 1 else 0;
    }
  }

  // Runs

  /** Messages are served in the order in which they arrived, each once; what is not yet
      served is the backlog. */
  lemma {:induction false} FifoService<M>(its: seq<seq<Act<M>>>)
    ensures Arrived(its) == Served(its) + Backlog(its)
  {
    if its != [] {
      var pre := its[..|its| - 1];
      FifoService(pre);
      IterationConserves(Backlog(pre), its[|its| - 1]);
      assert Arrived(its) == Served(pre) + (Backlog(pre) + Arrivals(its[|its| - 1]));
    }
  }

  lemma {:induction false} ServedGrows<M>(its: seq<seq<Act<M>>>, i: nat)
    requires i <= |its|
    ensures Served(its[..i]) <= Served(its)
  {
    if i == |its| {
      assert its[..i] == its;
    } else {
      ServedGrows(its[..|its| - 1], i);
      assert its[..|its| - 1][..i] == its[..i];
    }
  }

  /** How many messages were served, and how many wait, at each iteration boundary. */
  function ServedCounts<M>(its: seq<seq<Act<M>>>): seq<int> {
    seq(|its| + 1, j requires 0 <= j <= |its| => |Served(its[..j])|)
  }

  function BacklogCounts<M>(its: seq<seq<Act<M>>>): seq<int> {
    seq(|its| + 1, j requires 0 <= j <= |its| => |Backlog(its[..j])|)
  }

  /** The message with this ticket (its rank among all messages ever served) is taken in
      iteration n. */
  ghost predicate DispatchedIn<M>(its: seq<seq<Act<M>>>, ticket: nat, n: nat) {
    n < |its| && ServedCounts(its)[n] <= ticket < ServedCounts(its)[n + 1]
  }

  /** A message with k messages ahead of it at the start of iteration i is dispatched in
      iteration i + k / max, neither earlier nor later, whatever is posted meanwhile. */
  lemma Latency<M>(its: seq<seq<Act<M>>>, max: nat, i: nat, k: nat)
    requires max > 0 && Quota(its, max)
    requires i <= |its| && k < |Backlog(its[..i])| && i + k / max < |its|
    ensures
      var ticket := |Served(its[..i])| + k;
      && DispatchedIn(its, ticket, i + k / max)
      && ticket < |Served(its)| && Served(its)[ticket] == Backlog(its[..i])[k]
  {
    RoundsIsDivision(k, max);
    CountsDrain(its, max);
    DrainRounds(ServedCounts(its), BacklogCounts(its), max, i, k);
    DispatchedIsServed(its, |Served(its[..i])| + k, i + k / max);
    TicketHolder(its, i, k);
  }

  lemma DispatchedIsServed<M>(its: seq<seq<Act<M>>>, ticket: nat, n: nat)
    requires DispatchedIn(its, ticket, n)
    ensures ticket < |Served(its)|
  {
    ServedGrows(its, n + 1);
  }

  ghost predicate AllDrain(served: seq<int>, backlog: seq<int>, max: nat) {
    && |served| == |backlog|
    && forall j :: 0 <= j < |served| - 1 ==> Drains(served[j], backlog[j], served[j + 1], backlog[j + 1], max)
  }

  lemma CountsDrain<M>(its: seq<seq<Act<M>>>, max: nat)
    requires Quota(its, max)
    ensures AllDrain(ServedCounts(its), BacklogCounts(its), max)
  {
    forall j | 0 <= j < |its|
      ensures Drains(ServedCounts(its)[j], BacklogCounts(its)[j],
                     ServedCounts(its)[j + 1], BacklogCounts(its)[j + 1], max)
    {
      StepServes(its, max, j);
    }
  }

  /** The ticket-th message served is the one that held this place in the backlog. */
  lemma TicketHolder<M>(its: seq<seq<Act<M>>>, i: nat, k: nat)
    requires i <= |its| && k < |Backlog(its[..i])| && |Served(its[..i])| + k < |Served(its)|
    ensures Served(its)[|Served(its[..i])| + k] == Backlog(its[..i])[k]
  {
    FifoService(its);
    FifoService(its[..i]);
    ArrivedGrows(its, i);
    var t := |Served(its[..i])| + k;
    assert Arrived(its)[t] == Served(its)[t];
    assert Arrived(its[..i])[t] == Backlog(its[..i])[k];
  }

  lemma {:induction false} ArrivedGrows<M>(its: seq<seq<Act<M>>>, i: nat)
    requires i <= |its|
    ensures Arrived(its[..i]) <= Arrived(its)
  {
    if i == |its| {
      assert its[..i] == its;
    } else {
      ArrivedGrows(its[..|its| - 1], i);
      assert its[..|its| - 1][..i] == its[..i];
    }
  }

  /** What one iteration does to the counts: s messages served, b waiting. */
  predicate Drains(s: int, b: int, s': int, b': int, max: nat) {
    && (b < max ==> s + b <= s' <= s + max)
    && (b >= max ==> s' == s + max && b' >= b - max)
  }

  lemma {:induction false} DrainRounds(served: seq<int>, backlog: seq<int>, max: nat, i: nat, k: nat)
    requires max > 0 && AllDrain(served, backlog, max)
    requires i + Rounds(k, max) + 1 < |served| && k < backlog[i]
    ensures served[i + Rounds(k, max)] <= served[i] + k < served[i + Rounds(k, max) + 1]
    decreases k
  {
    assert Drains(served[i], backlog[i], served[i + 1], backlog[i + 1], max);
    if k >= max {
      DrainRounds(served, backlog, max, i + 1, k - max);
    }
  }

  function Rounds(k: nat, max: nat): nat
    requires max > 0
  {
    if k < max then 0 else 1 + Rounds(k - max, max)
  }

  lemma {:induction false} RoundsIsDivision(k: nat, max: nat)
    requires max > 0
    ensures Rounds(k, max) == k / max
  {
    if k >= max {
      RoundsIsDivision(k - max, max);
      var d := (k - max) / max;
      assert k - max == max * d + (k - max) % max;
      MulStep(max, d);
      QuotientUnique(k, max, d + 1, (k - max) % max);
    }
  }

  lemma QuotientUnique(x: nat, m: nat, d: nat, r: nat)
    requires r < m && x == m * d + r
    ensures x / m == d
  {
    var e := x / m;
    assert x == m * e + x % m;
    if e > d {
      MulGap(m, d, e);
    } else if e < d {
      MulGap(m, e, d);
    }
  }

  lemma {:induction false} MulGap(m: nat, d: nat, e: nat)
    requires d < e
    ensures m * e >= m * d + m
  {
    MulStep(m, e - 1);
    if d < e - 1 {
      MulGap(m, d, e - 1);
    }
  }

  lemma MulStep(a: nat, n: nat)
    ensures a * (n + 1) == a * n + a
  {
  }

  lemma StepServes<M>(its: seq<seq<Act<M>>>, max: nat, i: nat)
    requires Quota(its, max) && i < |its|
    ensures Drains(|Served(its[..i])|, |Backlog(its[..i])|, |Served(its[..i + 1])|, |Backlog(its[..i + 1])|, max)
  {
    var q := Backlog(its[..i]);
    assert its[..i + 1][..i] == its[..i];
    IterationServes(q, its[i]);
    IterationConserves(q, its[i]);
    assert |q| + |Arrivals(its[i])| == |Out(q, its[i])| + |After(q, its[i])|;
  }

  /** At most b + max * m messages arrive in any m consecutive iterations. */
  ghost predicate Paced<M>(its: seq<seq<Act<M>>>, max: nat, b: nat) {
    forall j, i :: 0 <= j < i <= |its| ==> |Arrived(its[j..i])| <= b + max * (i - j)
  }

  function Times(max: nat, n: nat): nat {
    if n == 0 then 0 else Times(max, n - 1) + max
  }

  lemma {:induction false} TimesIsProduct(max: nat, n: nat)
    ensures Times(max, n) == max * n
  {
    if n > 0 {
      TimesIsProduct(max, n - 1);
      MulStep(max, n - 1);
    }
  }

  lemma BusyOrEmptied<M>(q: seq<M>, acts: seq<Act<M>>)
    ensures || |After(q, acts)| <= |Arrivals(acts)|
            || |After(q, acts)| + Takes(acts) == |q| + |Arrivals(acts)|
  {
    IterationServes(q, acts);
    IterationConserves(q, acts);
    assert |q| + |Arrivals(acts)| == |Out(q, acts)| + |After(q, acts)|;
  }

  /** Iteration j left behind only what arrived in it. */
  ghost predicate Renewed<M>(its: seq<seq<Act<M>>>, j: nat) {
    j < |its| && |Backlog(its[..j + 1])| <= |Arrivals(its[j])|
  }

  lemma RenewedLast<M>(its: seq<seq<Act<M>>>)
    requires its != [] && |Backlog(its)| <= |Arrivals(its[|its| - 1])|
    ensures Renewed(its, |its| - 1)
  {
    assert its[..|its|] == its;
  }

  lemma RenewedPrefix<M>(its: seq<seq<Act<M>>>, j: nat)
    requires its != [] && Renewed(its[..|its| - 1], j)
    ensures Renewed(its, j)
  {
    assert its[..|its| - 1][..j + 1] == its[..j + 1];
  }

  /** The whole backlog is explained by what arrived from iteration j on; j is the first one, or
      one that left behind only what arrived in it. */
  lemma {:induction false} BusyPeriod<M>(its: seq<seq<Act<M>>>, max: nat) returns (j: nat)
    requires Quota(its, max)
    ensures j == 0 || Renewed(its, j)
    ensures |Backlog(its)| + Times(max, |its| - j) <= |Arrived(its[j..])| + max
  {
    if its == [] {
      j := 0;
    } else {
      var n := |its| - 1;
      var pre, last := its[..n], its[n];
      j := BusyPeriod(pre, max);
      BusyOrEmptied(Backlog(pre), last);
      if |Backlog(its)| <= |Arrivals(last)| {
        j := n;
        RenewedLast(its);
        assert its[n..] == [] + [last];
        ArrivedSnoc([], last);
        assert Times(max, 1) == max;
      } else {
        ArrivedSnoc(pre[j..], last);
        assert its[j..] == pre[j..] + [last];
        if j > 0 {
          RenewedPrefix(its, j);
        }
      }
    }
  }

  lemma ArrivedSnoc<M>(its: seq<seq<Act<M>>>, last: seq<Act<M>>)
    ensures Arrived(its + [last]) == Arrived(its) + Arrivals(last)
  {
    assert (its + [last])[..|its|] == its;
  }

  /** Backlog bound: paced arrivals never leave more than b + max messages waiting. */
  lemma BacklogBound<M>(its: seq<seq<Act<M>>>, max: nat, b: nat)
    requires Quota(its, max) && Paced(its, max, b)
    ensures |Backlog(its)| <= b + max
  {
    var j := BusyPeriod(its, max);
    TimesIsProduct(max, |its| - j);
    assert its[j..] == its[j..|its|];
    if j < |its| {
      assert |Arrived(its[j..|its|])| <= b + max * (|its| - j);
    }
  }

  /** The bound is tight: an iteration that finds an empty queue max times, followed by
      b + max posts before it ends, meets the pacing and leaves b + max messages. */
  lemma BacklogBoundIsTight<M>(m: M, max: nat, b: nat)
    ensures exists its: seq<seq<Act<M>>> ::
              Quota(its, max) && Paced(its, max, b) && |Backlog(its)| == b + max
  {
    var acts := seq(max, _ => Take) + seq(b + max, _ => Arrive(m));
    EmptyTakes(max, m, b + max);
    var its := [acts];
    assert its[..0] == [];
    assert Backlog(its) == After([], acts);
    forall j, i | 0 <= j < i <= |its| ensures |Arrived(its[j..i])| <= b + max * (i - j)
    {
      assert its[j..i] == its;
      assert Arrived(its) == Arrived<M>([]) + Arrivals(acts);
    }
  }

  lemma {:induction false} EmptyTakes<M>(n: nat, m: M, c: nat)
    ensures
      var acts := seq(n, _ => Take) + seq(c, _ => Arrive(m));
      Takes(acts) == n && |Arrivals(acts)| == c && |After([], acts)| == c
    decreases n + c
  {
    var acts := seq(n, _ => Take) + seq(c, _ => Arrive(m));
    if c > 0 {
      EmptyTakes(n, m, c - 1);
      assert acts[..|acts| - 1] == seq(n, _ => Take) + seq(c - 1, _ => Arrive(m));
    } else if n > 0 {
      EmptyTakes(n - 1, m, 0);
      assert acts[..|acts| - 1] == seq(n - 1, _ => Take) + seq(0, _ => Arrive(m));
    }
  }
}
