/** The round-robin scheduler of kernel/taskring.cpp. Tasks are prepended to a linked list
    while a cursor moves through it, one task per Loop call; a task may register others
    while it runs. */
module TaskRing {
  import opened Chains

  /** The list, and how many of its last nodes this pass still has to call. The cursor is
      NULL exactly when none are left. */
  datatype Ring<N> = Ring(nodes: seq<N>, left: nat) {
    ghost predicate Ok() {
      left <= |nodes|
    }
  }

  datatype Act<N> =
    | Register(node: N)
    | Loop(inside: seq<N>)  // nodes registered by what it calls

  /** Registering one by one puts the last one first. */
  function Prepend<N>(nodes: seq<N>, more: seq<N>): seq<N> {
    if more == [] then nodes else [more[|more| - 1]] + Prepend(nodes, more[..|more| - 1])
  }

  /** Nodes to call in the pass that the next Loop call belongs to. */
  function Due<N>(r: Ring<N>): nat {
    if r.left == 0 then |r.nodes| else r.left
  }

  function Step<N>(r: Ring<N>, a: Act<N>): Ring<N> {
    match a
    case Register(n) => r.(nodes := [n] + r.nodes)
    case Loop(inside) =>
      if Due(r) == 0 then r else Ring(Prepend(r.nodes, inside), Due(r) - 1)
  }

  /** The node called by an act, if any. */
  function Called<N>(r: Ring<N>, a: Act<N>): seq<N>
    requires r.Ok()
  {
    if a.Loop? && Due(r) > 0 then [r.nodes[|r.nodes| - Due(r)]] else []
  }

  lemma {:induction false} PrependSuffix<N>(nodes: seq<N>, more: seq<N>)
    ensures Suffix(nodes, Prepend(nodes, more))
  {
    if more != [] {
      PrependSuffix(nodes, more[..|more| - 1]);
      SuffixCons(nodes, Prepend(nodes, more[..|more| - 1]), more[|more| - 1]);
    }
  }

  lemma StepKeeps<N>(r: Ring<N>, a: Act<N>)
    requires r.Ok()
    ensures Step(r, a).Ok() && Suffix(r.nodes, Step(r, a).nodes)
  {
    if a.Register? {
      SuffixCons(r.nodes, r.nodes, a.node);
    } else {
      PrependSuffix(r.nodes, a.inside);
    }
  }

  // Runs

  function After<N>(r: Ring<N>, acts: seq<Act<N>>): (r': Ring<N>)
    requires r.Ok()
    ensures r'.Ok()
  {
    if acts == [] then r
    else
      var r0 := After(r, acts[..|acts| - 1]);
      StepKeeps(r0, acts[|acts| - 1]);
      Step(r0, acts[|acts| - 1])
  }

  /** The nodes called in a run, in order. */
  function Calls<N>(r: Ring<N>, acts: seq<Act<N>>): seq<N>
    requires r.Ok()
  {
    if acts == [] then []
    else Calls(r, acts[..|acts| - 1]) + Called(After(r, acts[..|acts| - 1]), acts[|acts| - 1])
  }

  /** Does this act begin a pass? */
  predicate Begins<N>(r: Ring<N>, a: Act<N>) {
    a.Loop? && r.left == 0 && r.nodes != []
  }

  /** The list as it stood at the beginning of each pass of a run. */
  function Passes<N>(r: Ring<N>, acts: seq<Act<N>>): seq<seq<N>>
    requires r.Ok()
  {
    if acts == [] then []
    else
      var r0 := After(r, acts[..|acts| - 1]);
      Passes(r, acts[..|acts| - 1]) + if Begins(r0, acts[|acts| - 1]) then [r0.nodes] else []
  }

  function Flatten<N>(ss: seq<seq<N>>): seq<N> {
    if ss == [] then [] else Flatten(ss[..|ss| - 1]) + ss[|ss| - 1]
  }

  lemma FlattenSnoc<N>(ss: seq<seq<N>>, s: seq<N>)
    ensures Flatten(ss + [s]) == Flatten(ss) + s
  {
    assert (ss + [s])[..|ss|] == ss;
  }

  /** What has been called, given the passes begun: all of them in full, except that the last
      one still has `left` nodes to go, which are the last `left` nodes of the list. */
  ghost predicate Tiled<N>(r: Ring<N>, passes: seq<seq<N>>, calls: seq<N>) {
    if r.left == 0 then calls == Flatten(passes)
    else
      && passes != []
      && var s := passes[|passes| - 1];
         && Suffix(s, r.nodes) && r.left <= |s|
         && calls == Flatten(passes[..|passes| - 1]) + s[..|s| - r.left]
  }

  lemma RegisterTiles<N>(r: Ring<N>, passes: seq<seq<N>>, calls: seq<N>, n: N)
    requires r.Ok() && Tiled(r, passes, calls)
    ensures Tiled(Step(r, Register(n)), passes, calls)
  {
    if r.left > 0 {
      SuffixCons(passes[|passes| - 1], r.nodes, n);
    }
  }

  /** A Loop call that begins a pass. */
  lemma BeginTiles<N>(r: Ring<N>, passes: seq<seq<N>>, calls: seq<N>, inside: seq<N>)
    requires r.left == 0 && r.nodes != [] && calls == Flatten(passes)
    ensures Tiled(Step(r, Loop(inside)), passes + [r.nodes], calls + [r.nodes[0]])
  {
    var s := r.nodes;
    PrependSuffix(s, inside);
    FlattenSnoc(passes, s);
    assert (passes + [s])[..|passes|] == passes;
    assert s[..1] == [s[0]];
    if |s| == 1 {
      assert s == [s[0]];
    }
  }

  /** A Loop call in the middle of a pass. */
  lemma ContinueTiles<N>(r: Ring<N>, passes: seq<seq<N>>, calls: seq<N>, inside: seq<N>)
    requires r.Ok() && r.left > 0 && Tiled(r, passes, calls)
    ensures Tiled(Step(r, Loop(inside)), passes, calls + [r.nodes[|r.nodes| - r.left]])
  {
    var s, k := passes[|passes| - 1], |passes[|passes| - 1]| - r.left;
    ContinueSuffix(r, s, inside);
    TileOne(Flatten(passes[..|passes| - 1]), s, k);
  }

  lemma ContinueSuffix<N>(r: Ring<N>, s: seq<N>, inside: seq<N>)
    requires r.Ok() && 0 < r.left <= |s| && Suffix(s, r.nodes)
    ensures Suffix(s, Prepend(r.nodes, inside))
    ensures r.nodes[|r.nodes| - r.left] == s[|s| - r.left]
  {
    PrependSuffix(r.nodes, inside);
    SuffixTransitive(s, r.nodes, Prepend(r.nodes, inside));
    FromEnd(s, r.nodes, r.left);
  }

  lemma TileOne<N>(pre: seq<N>, s: seq<N>, k: nat)
    requires k < |s|
    ensures pre + s[..k] + [s[k]] == pre + s[..k + 1]
    ensures k + 1 == |s| ==> s[..k + 1] == s
  {
  }

  /** Every pass calls exactly the nodes registered when it began, in list order, whatever is
      registered between and inside task calls: the calls of a run are its passes, laid end
      to end. */
  lemma {:induction false} PassesTile<N>(r: Ring<N>, acts: seq<Act<N>>)
    requires r.Ok() && r.left == 0
    ensures Tiled(After(r, acts), Passes(r, acts), Calls(r, acts))
  {
    if acts != [] {
      var pre, a := acts[..|acts| - 1], acts[|acts| - 1];
      PassesTile(r, pre);
      TileStep(After(r, pre), Passes(r, pre), Calls(r, pre), a);
    }
  }

  lemma TileStep<N>(r: Ring<N>, passes: seq<seq<N>>, calls: seq<N>, a: Act<N>)
    requires r.Ok() && Tiled(r, passes, calls)
    ensures Tiled(Step(r, a), passes + (if Begins(r, a) then [r.nodes] else []), calls + Called(r, a))
  {
    assert passes + [] == passes && calls + [] == calls;
    if a.Register? {
      RegisterTiles(r, passes, calls, a.node);
    } else if r.left > 0 {
      ContinueTiles(r, passes, calls, a.inside);
    } else if r.nodes != [] {
      BeginTiles(r, passes, calls, a.inside);
    }
  }

  // Waiting times

  function Loops<N>(acts: seq<Act<N>>): nat {
    if acts == [] then 0 else Loops(acts[..|acts| - 1]) + if acts[|acts| - 1].Loop? then 1 else 0
  }

  /** Within a pass: the next Loop calls take the remaining nodes in order. */
  lemma {:induction false} RestOfPass<N>(r: Ring<N>, acts: seq<Act<N>>)
    requires r.Ok() && Loops(acts) <= r.left
    ensures Calls(r, acts) == r.nodes[|r.nodes| - r.left..][..Loops(acts)]
    ensures After(r, acts).left == r.left - Loops(acts) && Suffix(r.nodes, After(r, acts).nodes)
  {
    if acts != [] {
      var pre, a := acts[..|acts| - 1], acts[|acts| - 1];
      RestOfPass(r, pre);
      RestStep(r, After(r, pre), a, Loops(pre));
    }
  }

  lemma TakeOne<N>(s: seq<N>, k: nat)
    requires k < |s|
    ensures s[..k] + [s[k]] == s[..k + 1]
  {
  }

  lemma RestStep<N>(r: Ring<N>, r0: Ring<N>, a: Act<N>, k: nat)
    requires r.Ok() && r0.Ok() && r0.left == r.left - k && Suffix(r.nodes, r0.nodes)
    requires k <= r.left && (a.Loop? ==> k < r.left)
    ensures
      var rest, j := r.nodes[|r.nodes| - r.left..], if a.Loop? then 1 else 0;
      && rest[..k] + Called(r0, a) == rest[..k + j]
      && Step(r0, a).left == r.left - (k + j) && Suffix(r.nodes, Step(r0, a).nodes)
  {
    RestNodes(r, r0, a, k);
    if a.Loop? {
      TakeOne(r.nodes[|r.nodes| - r.left..], k);
    }
  }

  lemma RestNodes<N>(r: Ring<N>, r0: Ring<N>, a: Act<N>, k: nat)
    requires r.Ok() && r0.Ok() && r0.left == r.left - k && Suffix(r.nodes, r0.nodes)
    requires k <= r.left && (a.Loop? ==> k < r.left)
    ensures Suffix(r.nodes, Step(r0, a).nodes)
    ensures Called(r0, a) == if a.Loop? then [r.nodes[|r.nodes| - r.left + k]] else []
  {
    StepKeeps(r0, a);
    SuffixTransitive(r.nodes, r0.nodes, Step(r0, a).nodes);
    if a.Loop? {
      FromEnd(r.nodes, r0.nodes, r0.left);
    }
  }

  lemma FromEnd<N>(s: seq<N>, t: seq<N>, j: nat)
    requires Suffix(s, t) && 0 < j <= |s|
    ensures t[|t| - j] == s[|s| - j]
  {
    assert t[|t| - |s|..][|s| - j] == t[|t| - j];
  }

  /** The first Loop call of a pass behaves as if the whole list were left. */
  lemma {:induction false} WholePass<N>(r: Ring<N>, acts: seq<Act<N>>)
    requires r.Ok() && r.left == 0 && acts != [] && acts[0].Loop?
    requires Loops(acts) <= |r.nodes| && r.nodes != []
    ensures Calls(r, acts) == r.nodes[..Loops(acts)]
    ensures After(r, acts) == After(Ring(r.nodes, |r.nodes|), acts)
  {
    var full := Ring(r.nodes, |r.nodes|);
    SameFromFull(r, acts);
    RestOfPass(full, acts);
    assert full.nodes[|full.nodes| - full.left..] == r.nodes;
  }

  /** What the nodes stand for. */
  function Image<N, T>(f: N -> T, s: seq<N>): seq<T> {
    seq(|s|, i requires 0 <= i < |s| => f(s[i]))
  }

  lemma PassIsList<N>(r: Ring<N>, acts: seq<Act<N>>)
    requires r.Ok() && r.left == 0 && acts != [] && acts[0].Loop? && Loops(acts) == |r.nodes| > 0
    ensures Calls(r, acts) == r.nodes && After(r, acts).left == 0
  {
    WholePass(r, acts);
    RestOfPass(Ring(r.nodes, |r.nodes|), acts);
    assert r.nodes[..|r.nodes|] == r.nodes;
  }

  /** A full pass calls each task as often as it is registered when the pass begins. */
  lemma FullPass<N, T>(r: Ring<N>, acts: seq<Act<N>>, task: N -> T, t: T)
    requires r.Ok() && r.left == 0 && acts != [] && acts[0].Loop? && Loops(acts) == |r.nodes| > 0
    ensures multiset(Image(task, Calls(r, acts)))[t] == multiset(Image(task, r.nodes))[t]
  {
    PassIsList(r, acts);
  }

  /** What is left of the pass. */
  function Remaining<N>(r: Ring<N>): seq<N>
    requires r.Ok()
  {
    r.nodes[|r.nodes| - r.left..]
  }

  /** A node registered in the middle of a pass, between task calls or inside one, is not left
      in that pass. */
  lemma NewcomerIsNotDue<N>(r: Ring<N>, a: Act<N>, n: N)
    requires r.Ok() && n !in r.nodes && (a == Register(n) || (a.Loop? && n in a.inside && Due(r) > 0))
    ensures Step(r, a).Ok() && n in Step(r, a).nodes && n !in Remaining(Step(r, a))
  {
    var r' := Step(r, a);
    StepKeeps(r, a);
    if a.Loop? {
      PrependHas(r.nodes, a.inside, n);
    }
    forall i | 0 <= i < r'.left ensures Remaining(r')[i] in r.nodes {
      FromEnd(r.nodes, r'.nodes, r'.left - i);
    }
  }

  lemma {:induction false} PrependHas<N>(nodes: seq<N>, more: seq<N>, n: N)
    requires n in more
    ensures n in Prepend(nodes, more)
  {
    var last := |more| - 1;
    if more[last] != n {
      assert more == more[..last] + [more[last]];
      PrependHas(nodes, more[..last], n);
    }
  }

  /** Such a node is not called in this pass, whatever else is registered, and is called in the
      next. */
  lemma NewcomerWaits<N>(r: Ring<N>, rest: seq<Act<N>>, next: seq<Act<N>>, n: N)
    requires r.Ok() && n in r.nodes && n !in Remaining(r) && Loops(rest) == r.left
    requires next != [] && next[0].Loop? && Loops(next) == |After(r, rest).nodes|
    ensures n !in Calls(r, rest) && After(r, rest).left == 0 && n in Calls(After(r, rest), next)
  {
    NotThisPass(r, rest, n);
    PassIsList(After(r, rest), next);
  }

  lemma NotThisPass<N>(r: Ring<N>, rest: seq<Act<N>>, n: N)
    requires r.Ok() && n in r.nodes && n !in Remaining(r) && Loops(rest) == r.left
    ensures n !in Calls(r, rest) && After(r, rest).left == 0 && n in After(r, rest).nodes
  {
    RestIsCalled(r, rest);
    SuffixHas(r.nodes, After(r, rest).nodes, n);
  }

  lemma RestIsCalled<N>(r: Ring<N>, rest: seq<Act<N>>)
    requires r.Ok() && Loops(rest) == r.left
    ensures Calls(r, rest) == Remaining(r) && After(r, rest).left == 0 && Suffix(r.nodes, After(r, rest).nodes)
  {
    RestOfPass(r, rest);
    TakeAll(Remaining(r), Loops(rest));
  }

  lemma TakeAll<N>(s: seq<N>, k: nat)
    requires k == |s|
    ensures s[..k] == s
  {
  }

  lemma SuffixHas<N>(s: seq<N>, t: seq<N>, n: N)
    requires Suffix(s, t) && n in s
    ensures n in t
  {
    assert t == t[..|t| - |s|] + s;
  }

  lemma {:induction false} SameFromFull<N>(r: Ring<N>, acts: seq<Act<N>>)
    requires r.Ok() && r.left == 0 && acts != [] && acts[0].Loop? && r.nodes != []
    ensures After(r, acts) == After(Ring(r.nodes, |r.nodes|), acts)
    ensures Calls(r, acts) == Calls(Ring(r.nodes, |r.nodes|), acts)
  {
    var full, n := Ring(r.nodes, |r.nodes|), |acts| - 1;
    if n == 0 {
      assert acts[..0] == [];
      assert After(r, []) == r && After(full, []) == full;
    } else {
      SameFromFull(r, acts[..n]);
    }
  }

  lemma {:induction false} RunConcat<N>(r: Ring<N>, a: seq<Act<N>>, b: seq<Act<N>>)
    requires r.Ok()
    ensures After(r, a + b) == After(After(r, a), b)
    ensures Calls(r, a + b) == Calls(r, a) + Calls(After(r, a), b)
  {
    if b == [] {
      assert a + b == a;
    } else {
      assert (a + b)[..|a + b| - 1] == a + b[..|b| - 1];
      RunConcat(r, a, b[..|b| - 1]);
    }
  }

  /** The end of one pass and the beginning of the next. */
  lemma AcrossPasses<N>(r: Ring<N>, rest: seq<Act<N>>, next: seq<Act<N>>)
    requires r.Ok() && Loops(rest) == r.left
    requires next != [] && next[0].Loop? && 0 < Loops(next) <= |After(r, rest).nodes|
    ensures After(r, rest).left == 0
    ensures Calls(r, rest + next) == r.nodes[|r.nodes| - r.left..] + After(r, rest).nodes[..Loops(next)]
  {
    RestOfPass(r, rest);
    WholePass(After(r, rest), next);
    RunConcat(r, rest, next);
    assert r.nodes[|r.nodes| - r.left..][..r.left] == r.nodes[|r.nodes| - r.left..];
  }

  /** Bounded waiting: a node that this pass will not call any more waits for the remaining
      nodes of this pass and for those in front of it when the next pass begins, and no
      longer, wherever tasks register others. */
  lemma BoundedWait<N>(r: Ring<N>, rest: seq<Act<N>>, next: seq<Act<N>>, p: nat)
    requires r.Ok() && Loops(rest) == r.left
    requires next != [] && next[0].Loop? && p < Loops(next) <= |After(r, rest).nodes|
    requires forall i :: 0 <= i < p ==> After(r, rest).nodes[i] != After(r, rest).nodes[p]
    requires After(r, rest).nodes[p] !in r.nodes[|r.nodes| - r.left..]
    ensures
      var x, calls := After(r, rest).nodes[p], Calls(r, rest + next);
      r.left + p < |calls| && calls[r.left + p] == x && x !in calls[..r.left + p]
  {
    AcrossPasses(r, rest, next);
    FirstAt(r.nodes[|r.nodes| - r.left..], After(r, rest).nodes, Loops(next), p);
  }

  lemma FirstAt<N>(now: seq<N>, later: seq<N>, m: nat, p: nat)
    requires p < m <= |later| && later[p] !in now && forall i :: 0 <= i < p ==> later[i] != later[p]
    ensures
      var calls := now + later[..m];
      calls[|now| + p] == later[p] && later[p] !in calls[..|now| + p]
  {
    assert (now + later[..m])[..|now| + p] == now + later[..p];
  }

  function Plain<N>(k: nat): seq<Act<N>> {
    seq(k, _ => Loop([]))
  }

  lemma {:induction false} PlainLoops<N>(k: nat)
    ensures Loops(Plain<N>(k)) == k
  {
    if k > 0 {
      assert Plain<N>(k)[..k - 1] == Plain<N>(k - 1);
      PlainLoops<N>(k - 1);
    }
  }

  lemma {:induction false} PlainKeepsNodes<N>(r: Ring<N>, k: nat)
    requires r.Ok()
    ensures After(r, Plain(k)).nodes == r.nodes
  {
    if k > 0 {
      assert Plain<N>(k)[..k - 1] == Plain<N>(k - 1);
      PlainKeepsNodes(r, k - 1);
    }
  }

  /** Without registrations, as many Loop calls as there are nodes call each of them once,
      from any position of the cursor: the list, rotated. */
  lemma Rotation<N>(r: Ring<N>)
    requires r.Ok() && r.nodes != []
    ensures
      var k, plain := |r.nodes| - r.left, Plain(|r.nodes|);
      Calls(r, plain) == r.nodes[k..] + r.nodes[..k] && multiset(Calls(r, plain)) == multiset(r.nodes)
  {
    var k := |r.nodes| - r.left;
    Rotated(r.nodes, k);
    if k == 0 {
      RotationFromStart(r);
    } else {
      PlainConcat<N>(r.left, k, |r.nodes|);
      RotationFromMiddle(r, k);
    }
  }

  lemma RotationFromStart<N>(r: Ring<N>)
    requires r.left == |r.nodes|
    ensures Calls(r, Plain(r.left)) == r.nodes[0..] + r.nodes[..0]
  {
    PlainLoops<N>(r.left);
    RestOfPass(r, Plain(r.left));
    assert r.nodes[0..][..r.left] == r.nodes;
  }

  lemma RotationFromMiddle<N>(r: Ring<N>, k: nat)
    requires r.Ok() && k > 0 && k == |r.nodes| - r.left
    ensures Calls(r, Plain(r.left) + Plain(k)) == r.nodes[k..] + r.nodes[..k]
  {
    PlainLoops<N>(r.left);
    PlainLoops<N>(k);
    PlainKeepsNodes(r, r.left);
    var next := Plain<N>(k);
    assert next != [] && next[0] == Loop([]);
    AcrossPasses(r, Plain(r.left), next);
  }

  lemma PlainConcat<N>(a: nat, b: nat, c: nat)
    requires a + b == c
    ensures Plain<N>(c) == Plain<N>(a) + Plain<N>(b)
  {
  }

  lemma Rotated<N>(s: seq<N>, k: nat)
    requires k <= |s|
    ensures multiset(s[k..] + s[..k]) == multiset(s)
  {
    assert s == s[..k] + s[k..];
  }

  // The scheduler

  type Task = int  // the address of a task or handler function; 0 is NULL

  class TaskNode {
    const task: Task
    var next: TaskNode?

    constructor (task: Task)
      ensures this.task == task && next == null
    {
      this.task := task;
      next := null;
    }
  }

  function NodeAt(s: seq<TaskNode>, k: int): TaskNode? {
    if 0 <= k < |s| then s[k] else null
  }

  /** The node that has `left` nodes from itself to the end. */
  function Cursor(s: seq<TaskNode>, left: nat): TaskNode? {
    if left == 0 then null else NodeAt(s, |s| - left)
  }

  ghost predicate Linked(s: seq<TaskNode>)
    reads s
  {
    forall k :: 0 <= k < |s| ==> s[k].next == NodeAt(s, k + 1)
  }

  lemma ChainCons(n: TaskNode, s: seq<TaskNode>, left: nat)
    requires Linked(s) && n.next == NodeAt(s, 0) && left <= |s|
    ensures Linked([n] + s) && Cursor([n] + s, left) == Cursor(s, left)
  {
    var t := [n] + s;
    forall k | 0 <= k < |t| ensures t[k].next == NodeAt(t, k + 1) {
      assert k > 0 ==> t[k] == s[k - 1];
    }
  }

  lemma CursorAdvances(s: seq<TaskNode>, left: nat)
    requires Linked(s) && 0 < left <= |s|
    ensures Cursor(s, left) != null && Cursor(s, left).next == Cursor(s, left - 1)
  {
  }

  class Scheduler {
    var head: TaskNode?
    var cur: TaskNode?

    ghost var nodes: seq<TaskNode>
    ghost var left: nat
    // History
    ghost var calls: seq<TaskNode>     // the nodes called so far
    ghost var moments: seq<(nat, nat)> // what its caller counted when it called them

    ghost predicate Valid()
      reads this`head, this`cur, this`nodes, this`left, nodes
    {
      && left <= |nodes|
      && head == NodeAt(nodes, 0)
      && cur == Cursor(nodes, left)
      && Linked(nodes)
    }

    ghost function State(): Ring<TaskNode>
      reads this`nodes, this`left
    {
      Ring(nodes, left)
    }

    constructor ()
      ensures Valid() && State() == Ring([], 0) && calls == [] && moments == []
    {
      head, cur := null, null;
      nodes, left, calls, moments := [], 0, [], [];
    }

    /** Both RegisterTaskHandler overloads: prepends a node, whatever the cursor points at. */
    method RegisterTaskHandler(task: Task, memory: bool) returns (rc: int, ghost node: TaskNode?)
      requires Valid()
      modifies this`head, this`nodes
      ensures Valid() && left == old(left)
      ensures rc == 0 <==> task != 0 && memory
      ensures rc == 0 ==> node != null && node.task == task && fresh(node)
                          && State() == Step(old(State()), Register(node))
      ensures rc != 0 ==> rc == -1 && node == null && nodes == old(nodes)
    {
      rc, node := -1, null;
      if task != 0 && memory {
        var n := new TaskNode(task);
        n.next := head;
        ChainCons(n, nodes, left);
        head := n;
        nodes := [n] + nodes;
        rc, node := 0, n;
      }
    }

    /** A task: user code that may register others as often as it likes. */
    method Run(n: TaskNode) returns (ghost inside: seq<TaskNode>)
      requires Valid()
      modifies this`head, this`nodes, this`calls
      ensures Valid() && nodes == Prepend(old(nodes), inside) && left == old(left)
      ensures calls == old(calls) + [n]
    {
      calls := calls + [n];
      inside := [];
      var actions: int := *;
      while actions > 0
        invariant Valid() && nodes == Prepend(old(nodes), inside) && left == old(left)
        invariant calls == old(calls) + [n]
      {
        var task: Task, memory: bool := *, *;
        ghost var node: TaskNode?;
        var rc: int;
        rc, node := RegisterTaskHandler(task, memory);
        if rc == 0 {
          PrependSnoc(old(nodes), inside, node);
          inside := inside + [node];
        }
        actions := actions - 1;
      }
    }

    /** Calls what is under the cursor, restarting from the head when the pass is over; which
        node that is does not depend on what gets registered meanwhile. */
    method Loop(ghost now: (nat, nat)) returns (ghost inside: seq<TaskNode>)
      requires Valid()
      modifies this
      ensures Valid() && State() == Step(old(State()), Act.Loop(inside))
      ensures calls == old(calls) + Called(old(State()), Act.Loop([]))
      ensures moments == old(moments) + if Called(old(State()), Act.Loop([])) == [] then [] else [now]
    {
      inside := [];
      CalledAtCursor(nodes, left);
      Rewind();
      if cur != null {
        inside := CallCurrent(now);
      }
    }

    method Rewind()
      requires Valid()
      modifies this`cur, this`left
      ensures Valid() && left == Due(old(State()))
    {
      if cur == null {
        cur := head;
        left := |nodes|;
      }
    }

    method CallCurrent(ghost now: (nat, nat)) returns (ghost inside: seq<TaskNode>)
      requires Valid() && cur != null
      modifies this
      ensures Valid() && State() == Ring(Prepend(old(nodes), inside), old(left) - 1)
      ensures calls == old(calls) + [old(cur)] && moments == old(moments) + [now]
    {
      inside := Run(cur);
      moments := moments + [now];
      CursorAdvances(nodes, left);
      cur := cur.next;
      left := left - 1;
    }
  }

  lemma CalledAtCursor(s: seq<TaskNode>, left: nat)
    requires left <= |s|
    ensures
      var r := Ring(s, left);
      Called(r, Act.Loop([])) == if Cursor(s, Due(r)) == null then [] else [Cursor(s, Due(r))]
  {
  }

  lemma PrependSnoc<N>(nodes: seq<N>, more: seq<N>, n: N)
    ensures Prepend(nodes, more + [n]) == [n] + Prepend(nodes, more)
  {
    assert (more + [n])[..|more|] == more;
  }
}
