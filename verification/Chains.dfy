/** Null-terminated chains of nodes in an addressed memory: the shape shared by the
    message queue and the subscriber lists of kernel/mq.cpp. */
module Chains {

  type Addr = int

  const NULL: Addr := 0

  datatype Node<T> = Node(val: T, next: Addr)

  function At(s: seq<Addr>, i: int): Addr {
    if 0 <= i < |s| then s[i] else NULL
  }

  /** The address of the last node, NULL for an empty chain. */
  function Tail(s: seq<Addr>): Addr {
    At(s, |s| - 1)
  }

  ghost predicate NoDup<T>(s: seq<T>) {
    forall i, j :: 0 <= i < j < |s| ==> s[i] != s[j]
  }

  /** The nodes reached from head are exactly s, in order, and the chain ends in NULL. */
  ghost predicate Chain<T>(mem: map<Addr, Node<T>>, head: Addr, s: seq<Addr>) {
    && head == At(s, 0)
    && NoDup(s)
    && (forall i :: 0 <= i < |s| ==> s[i] != NULL && s[i] in mem)
    && (forall i :: 0 <= i < |s| ==> mem[s[i]].next == At(s, i + 1))
  }

  /** What the nodes hold, in chain order. */
  function Vals<T>(mem: map<Addr, Node<T>>, s: seq<Addr>): seq<T>
    requires forall i :: 0 <= i < |s| ==> s[i] in mem
  {
    seq(|s|, i requires 0 <= i < |s| => mem[s[i]].val)
  }

  lemma Assoc<T>(a: seq<T>, b: seq<T>, c: seq<T>)
    ensures a + b + c == a + (b + c)
  {
  }

  // Sequences that end in another one

  ghost predicate Suffix<T>(s: seq<T>, t: seq<T>) {
    |s| <= |t| && t[|t| - |s|..] == s
  }

  lemma SuffixTransitive<T>(a: seq<T>, b: seq<T>, c: seq<T>)
    requires Suffix(a, b) && Suffix(b, c)
    ensures Suffix(a, c)
  {
    assert c[|c| - |b|..][|b| - |a|..] == c[|c| - |a|..];
  }

  lemma SuffixCons<T>(s: seq<T>, t: seq<T>, x: T)
    requires Suffix(s, t)
    ensures Suffix(s, [x] + t)
  {
    assert ([x] + t)[1 + |t| - |s|..] == t[|t| - |s|..];
  }

  lemma SuffixRest<T>(s: seq<T>, t: seq<T>)
    requires Suffix(s, t) && s != []
    ensures Suffix(s[1..], t)
  {
    assert t[|t| - |s|..][1..] == t[|t| - |s[1..]|..];
  }

  lemma InRest<T>(s: seq<T>)
    requires s != []
    ensures forall x :: x in s <==> x == s[0] || x in s[1..]
  {
    assert s == [s[0]] + s[1..];
  }

  lemma ChainRest<T>(mem: map<Addr, Node<T>>, head: Addr, s: seq<Addr>)
    requires Chain(mem, head, s) && s != []
    ensures Chain(mem, mem[head].next, s[1..]) && head !in s[1..]
    ensures Vals(mem, s) == [mem[head].val] + Vals(mem, s[1..])
  {
    forall i | 0 <= i < |s[1..]| ensures mem[s[1..][i]].next == At(s[1..], i + 1)
    {
      assert s[1..][i] == s[i + 1];
    }
  }

  lemma ChainSnoc<T>(mem: map<Addr, Node<T>>, head: Addr, s: seq<Addr>, n: Addr)
    requires Chain(mem, head, s + [n])
    ensures Tail(s + [n]) == n && n in mem && NULL !in s
    ensures forall i :: 0 <= i < |s| ==> s[i] in mem
    ensures Vals(mem, s + [n]) == Vals(mem, s) + [mem[n].val]
  {
    assert (s + [n])[|s|] == n;
    assert forall i :: 0 <= i < |s| ==> s[i] == (s + [n])[i];
  }

  lemma ChainFrame<T>(mem: map<Addr, Node<T>>, mem': map<Addr, Node<T>>, head: Addr, s: seq<Addr>)
    requires Chain(mem, head, s)
    requires forall i :: 0 <= i < |s| ==> s[i] in mem' && mem'[s[i]] == mem[s[i]]
    ensures Chain(mem', head, s) && Vals(mem', s) == Vals(mem, s)
  {
  }

  /** Linking a detached node behind the tail extends the chain by that node. */
  lemma ChainLink<T>(mem: map<Addr, Node<T>>, head: Addr, s: seq<Addr>, n: Addr)
    requires Chain(mem, head, s) && s != [] && n !in s && n != NULL
    requires n in mem && mem[n].next == NULL
    ensures
      var mem' := mem[Tail(s) := mem[Tail(s)].(next := n)];
      Chain(mem', head, s + [n]) && Vals(mem', s) == Vals(mem, s)
  {
    var mem' := mem[Tail(s) := mem[Tail(s)].(next := n)];
    forall i | 0 <= i < |s + [n]|
      ensures (s + [n])[i] in mem' && mem'[(s + [n])[i]].next == At(s + [n], i + 1)
    {
    }
  }

  lemma ChainPush<T>(mem: map<Addr, Node<T>>, head: Addr, s: seq<Addr>, n: Addr, v: T)
    requires Chain(mem, head, s) && n !in mem && n != NULL
    ensures
      var mem' := mem[n := Node(v, head)];
      Chain(mem', n, [n] + s) && Vals(mem', [n] + s) == [v] + Vals(mem, s)
  {
    var mem' := mem[n := Node(v, head)];
    forall i | 0 <= i < |[n] + s|
      ensures ([n] + s)[i] in mem' && mem'[([n] + s)[i]].next == At([n] + s, i + 1)
    {
    }
  }

  // Unlinking the k-th node of a chain.

  function Drop<T>(s: seq<T>, k: nat): seq<T>
    requires k < |s|
  {
    s[..k] + s[k + 1..]
  }

  lemma DropAt<T>(s: seq<T>, k: nat, i: nat)
    requires k < |s| && i < |s| - 1
    ensures Drop(s, k)[i] == s[if i < k then i else i + 1]
  {
  }

  /** Dropping from a suffix, and the same element from the whole. */
  lemma SuffixDrop<T>(s: seq<T>, t: seq<T>, j: nat)
    requires Suffix(s, t) && j < |s|
    ensures s[j] == t[|t| - |s| + j] && Suffix(Drop(s, j), Drop(t, |t| - |s| + j))
  {
    var o := |t| - |s|;
    assert s[j] == t[o..][j];
    assert Drop(t, o + j)[o..] == Drop(s, j);
  }

  /** Dropping something that comes before a suffix leaves it a suffix. */
  lemma SuffixDropBefore<T>(s: seq<T>, t: seq<T>, k: nat)
    requires Suffix(s, t) && k < |t| - |s|
    ensures Suffix(s, Drop(t, k))
  {
    var o := |t| - |s|;
    assert Drop(t, k)[o - 1..] == t[o..];
  }

  /** The address k links behind a; NULL when the chain is shorter. */
  function Walk<T>(mem: map<Addr, Node<T>>, a: Addr, k: nat): Addr
    decreases k
  {
    if k == 0 || a !in mem then a else Walk(mem, mem[a].next, k - 1)
  }

  lemma {:induction false} WalkChain<T>(mem: map<Addr, Node<T>>, head: Addr, s: seq<Addr>, k: nat)
    requires Chain(mem, head, s) && NULL !in mem
    ensures Walk(mem, head, k) == At(s, k)
    decreases k
  {
    if k > 0 && s != [] {
      ChainRest(mem, head, s);
      WalkChain(mem, mem[head].next, s[1..], k - 1);
    }
  }

  function Unlink<T>(mem: map<Addr, Node<T>>, prev: Addr, a: Addr): map<Addr, Node<T>>
    requires a in mem
  {
    (if prev in mem then mem[prev := mem[prev].(next := mem[a].next)] else mem) - {a}
  }

  lemma DropNoDup<T>(s: seq<T>, k: nat)
    requires NoDup(s) && k < |s|
    ensures NoDup(Drop(s, k)) && s[k] !in Drop(s, k)
    ensures forall a :: a in s ==> a == s[k] || a in Drop(s, k)
    ensures forall a :: a in Drop(s, k) ==> a in s
  {
    forall a | a in s && a != s[k] ensures a in Drop(s, k) {
      var i :| 0 <= i < |s| && s[i] == a;
      assert Drop(s, k)[if i < k then i else i - 1] == a;
    }
  }

  lemma UnlinkNode<T>(mem: map<Addr, Node<T>>, head: Addr, s: seq<Addr>, k: nat, i: nat)
    requires Chain(mem, head, s) && NULL !in mem && k < |s| && i < |s| - 1
    ensures
      var mem', d := Unlink(mem, At(s, k - 1), s[k]), Drop(s, k);
      d[i] in mem' && mem'[d[i]].next == At(d, i + 1) && mem'[d[i]].val == mem[d[i]].val
  {
    var j := if i < k then i else i + 1;
    assert Drop(s, k)[i] == s[j];
    assert At(Drop(s, k), i + 1) == At(s, if i + 1 < k then i + 1 else i + 2);
    assert mem[s[j]].next == At(s, j + 1);
    assert mem[s[k]].next == At(s, k + 1);
  }

  lemma ChainUnlink<T>(mem: map<Addr, Node<T>>, head: Addr, s: seq<Addr>, k: nat)
    requires Chain(mem, head, s) && NULL !in mem && k < |s|
    ensures
      var mem' := Unlink(mem, At(s, k - 1), s[k]);
      var head' := if k == 0 then mem[s[0]].next else head;
      Chain(mem', head', Drop(s, k))
  {
    DropNoDup(s, k);
    var mem' := Unlink(mem, At(s, k - 1), s[k]);
    var d := Drop(s, k);
    forall i | 0 <= i < |d|
      ensures d[i] != NULL && d[i] in mem' && mem'[d[i]].next == At(d, i + 1)
    {
      UnlinkNode(mem, head, s, k, i);
    }
  }
}
