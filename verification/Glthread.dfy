/** The intrusive doubly linked list (CommandParser/gluethread/glthread.c). A list is a head node, which
    carries no data of its own, and the nodes linked behind it; `all` names them in order, head first. */
module GlthreadList {
  import opened Sequences
  import opened StableSort

  class Glthread<T> {
    var left: Glthread?<T>
    var right: Glthread?<T>
    /** The structure the node is embedded in, which the C code finds at a fixed offset. */
    const data: T

    constructor (data: T)
      ensures this.data == data && left == null && right == null
    {
      this.data := data;
      left, right := null, null;
    }

    /** init_glthread */
    method Init()
      modifies this
      ensures left == null && right == null
    {
      left := null;
      right := null;
    }
  }

  ghost function Members<T>(nodes: seq<Glthread<T>>): set<Glthread<T>> {
    set x | x in nodes
  }

  /** Acyclic, closed at both ends, and `left` and `right` each other's inverse. */
  ghost predicate Chain<T>(all: seq<Glthread<T>>)
    reads all
  {
    && |all| > 0
    && Distinct(all)
    && all[0].left == null
    && all[|all| - 1].right == null
    && (forall i | 0 <= i < |all| - 1 :: all[i].right == all[i + 1])
    && (forall i | 0 < i < |all| :: all[i].left == all[i - 1])
  }

  ghost predicate Unlinked<T>(node: Glthread<T>)
    reads node
  {
    node.left == null && node.right == null
  }

  function InsertedAt<T>(all: seq<T>, i: nat, x: T): seq<T>
    requires i <= |all|
  {
    all[..i] + [x] + all[i..]
  }

  function RemovedAt<T>(all: seq<T>, i: nat): seq<T>
    requires i < |all|
  {
    all[..i] + all[i + 1..]
  }

  lemma Neighbours<T>(all: seq<Glthread<T>>, i: nat)
    requires Chain(all) && i < |all|
    ensures all[i].right == if i + 1 < |all| then all[i + 1] else null
    ensures all[i].left == if i > 0 then all[i - 1] else null
  {}

  /** glthread_add_next. Behind the last node it leaves the new node's own `right` as it is. */
  method AddNext<T>(curr: Glthread<T>, node: Glthread<T>, ghost all: seq<Glthread<T>>, ghost i: nat)
    requires Chain(all) && i < |all| && all[i] == curr && node !in all
    requires i == |all| - 1 ==> node.right == null
    modifies Members(all), node
    ensures Chain(InsertedAt(all, i + 1, node))
  {
    Neighbours(all, i);
    if curr.right == null {
      curr.right := node;
      node.left := curr;
      return;
    }
    var temp := curr.right;
    curr.right := node;
    node.left := curr;
    node.right := temp;
    temp.left := node;
  }

  /** glthread_add_before. In front of a head the new node becomes the head. */
  method AddBefore<T>(curr: Glthread<T>, node: Glthread<T>, ghost all: seq<Glthread<T>>, ghost i: nat)
    requires Chain(all) && i < |all| && all[i] == curr && node !in all
    modifies Members(all), node
    ensures Chain(InsertedAt(all, i, node))
  {
    Neighbours(all, i);
    if curr.left == null {
      node.left := null;
      node.right := curr;
      curr.left := node;
      return;
    }
    var temp := curr.left;
    temp.right := node;
    node.left := temp;
    node.right := curr;
    curr.left := node;
  }

  /** remove_glthread */
  method Remove<T>(curr: Glthread<T>, ghost all: seq<Glthread<T>>, ghost i: nat)
    requires Chain(all) && i < |all| && all[i] == curr
    modifies Members(all)
    ensures Unlinked(curr)
    ensures |all| > 1 ==> Chain(RemovedAt(all, i))
  {
    Neighbours(all, i);
    if curr.left == null {
      if curr.right != null {
        curr.right.left := null;
        curr.right := null;
        return;
      }
      return;
    }
    if curr.right == null {
      curr.left.right := null;
      curr.left := null;
      return;
    }
    curr.left.right := curr.right;
    curr.right.left := curr.left;
    curr.left := null;
    curr.right := null;
  }

  /** dequeue_glthread_first */
  method DequeueFirst<T>(head: Glthread<T>, ghost all: seq<Glthread<T>>) returns (first: Glthread?<T>)
    requires Chain(all) && all[0] == head
    modifies Members(all)
    ensures |all| == 1 ==> first == null && Chain(all)
    ensures |all| > 1 ==>
              && first == all[1] && Unlinked(first)
              && Chain([head] + all[2..])
  {
    if head.right == null {
      return null;
    }
    first := head.right;
    Remove(first, all, 1);
    assert RemovedAt(all, 1) == [head] + all[2..];
  }

  /** glthread_add_last. The new node must not already point to the right. */
  method AddLast<T>(head: Glthread<T>, node: Glthread<T>, ghost all: seq<Glthread<T>>)
    requires Chain(all) && all[0] == head && node !in all && node.right == null
    modifies Members(all), node
    ensures Chain(all + [node])
  {
    var last: Glthread?<T> := null;
    var ptr := head.right;
    ghost var k := 1;
    while ptr != null
      invariant 1 <= k <= |all|
      invariant ptr == if k < |all| then all[k] else null
      invariant last == if k == 1 then null else all[k - 1]
      decreases |all| - k
    {
      var next := ptr.right;
      last := ptr;
      ptr := next;
      k := k + 1;
    }
    assert InsertedAt(all, |all|, node) == all + [node];
    if last != null {
      AddNext(last, node, all, |all| - 1);
    } else {
      AddNext(head, node, all, 0);
    }
  }

  lemma DoneAreApart<T>(all: seq<Glthread<T>>, k: nat)
    requires Distinct(all)
    requires 0 < k <= |all|
    ensures forall i | 0 < i < k :: all[i] !in Members([all[0]] + all[k..])
    ensures Members([all[0]] + all[k..]) <= Members(all)
  {}

  /** One round of the deletion: the link to the next node is read before the removal wipes it. */
  method DeleteOne<T>(head: Glthread<T>, ptr: Glthread<T>, ghost all: seq<Glthread<T>>, ghost k: nat)
    returns (next: Glthread?<T>)
    requires k < |all| && ptr == all[k] && Chain([head] + all[k..])
    modifies Members([head] + all[k..])
    ensures Chain([head] + all[k + 1..]) && Unlinked(ptr)
    ensures next == if k + 1 < |all| then all[k + 1] else null
  {
    ghost var now := [head] + all[k..];
    Tails(head, all, k);
    Neighbours(now, 1);
    next := ptr.right;
    Remove(ptr, now, 1);
  }

  /** delete_glthread_list: unlinks every node although each removal wipes the link just followed. */
  method DeleteList<T>(head: Glthread<T>, ghost all: seq<Glthread<T>>)
    requires Chain(all) && all[0] == head
    modifies Members(all)
    ensures forall i | 0 <= i < |all| :: Unlinked(all[i])
  {
    var ptr := head.right;
    ghost var k := 1;
    while ptr != null
      invariant 1 <= k <= |all|
      invariant ptr == if k < |all| then all[k] else null
      invariant Chain([head] + all[k..])
      invariant forall i | 0 < i < k :: Unlinked(all[i])
      decreases |all| - k
    {
      DoneAreApart(all, k);
      var next := DeleteOne(head, ptr, all, k);
      ptr := next;
      k := k + 1;
    }
    assert ([head] + all[k..])[0] == head;
  }

  /** The comparator's verdict "strictly before" is the value -1 and nothing else. */
  function Before<T>(cmp: (T, T) -> int): (Glthread<T>, Glthread<T>) -> bool {
    (a: Glthread<T>, b: Glthread<T>) => cmp(a.data, b.data) == -1
  }

  // ---- the order, in the comparator's own verdicts ----

  /** A comparator that orders these nodes: no two are each before the other, and "not after" carries on. */
  ghost predicate Orders<T>(cmp: (T, T) -> int, nodes: seq<Glthread<T>>) {
    && (forall x, y | x in nodes && y in nodes && cmp(x.data, y.data) == -1 :: cmp(y.data, x.data) != -1)
    && (forall x, y, z | x in nodes && y in nodes && z in nodes
          && cmp(y.data, x.data) != -1 && cmp(z.data, y.data) != -1 :: cmp(z.data, x.data) != -1)
  }

  /** No node is before one that comes earlier. */
  ghost predicate InOrder<T>(cmp: (T, T) -> int, s: seq<Glthread<T>>) {
    forall i, j | 0 <= i < j < |s| :: cmp(s[j].data, s[i].data) != -1
  }

  ghost predicate Tied<T>(cmp: (T, T) -> int, x: Glthread<T>, y: Glthread<T>) {
    cmp(x.data, y.data) != -1 && cmp(y.data, x.data) != -1
  }

  /** Two nodes neither of which is before the other stand in `s` as they stand in `nodes`. */
  ghost predicate KeepsTies<T>(cmp: (T, T) -> int, nodes: seq<Glthread<T>>, s: seq<Glthread<T>>) {
    forall a, b, i, j | 0 <= a < b < |nodes| && 0 <= i < |s| && 0 <= j < |s|
      && Tied(cmp, nodes[a], nodes[b]) && s[i] == nodes[a] && s[j] == nodes[b] :: i < j
  }

  /** `t` is `s` with the node in front of the first one it is before, and behind all others. */
  ghost predicate PlacedAt<T>(cmp: (T, T) -> int, node: Glthread<T>, s: seq<Glthread<T>>, t: seq<Glthread<T>>,
                              n: nat) {
    && n <= |s| && t == s[..n] + [node] + s[n..]
    && (forall i | 0 <= i < n :: cmp(node.data, s[i].data) != -1)
    && (n < |s| ==> cmp(node.data, s[n].data) == -1)
  }

  lemma {:induction false} PositionByVerdict<T>(cmp: (T, T) -> int, node: Glthread<T>, s: seq<Glthread<T>>)
    ensures var n := InsertPosition(Before(cmp), node, s);
            && (forall i | 0 <= i < n :: cmp(node.data, s[i].data) != -1)
            && (n < |s| ==> cmp(node.data, s[n].data) == -1)
    decreases |s|
  {
    if s != [] && !Before(cmp)(node, s[0]) {
      PositionByVerdict(cmp, node, s[1..]);
    }
  }

  lemma InsertByVerdict<T>(cmp: (T, T) -> int, node: Glthread<T>, s: seq<Glthread<T>>)
    ensures PlacedAt(cmp, node, s, Insert(Before(cmp), node, s), InsertPosition(Before(cmp), node, s))
  {
    PositionByVerdict(cmp, node, s);
  }

  lemma OrdersMeans<T>(cmp: (T, T) -> int, nodes: seq<Glthread<T>>)
    ensures Orders(cmp, nodes) ==> Preorder(Before(cmp), nodes)
  {}

  /** The stable sort by `Before`, said in verdicts. */
  lemma SortedByVerdict<T>(cmp: (T, T) -> int, nodes: seq<Glthread<T>>, s: seq<Glthread<T>>)
    requires IsStableSort(Before(cmp), nodes, s) && Distinct(nodes) && Orders(cmp, nodes)
    ensures InOrder(cmp, s) && KeepsTies(cmp, nodes, s) && multiset(s) == multiset(nodes)
  {
    forall i, j | 0 <= i < j < |s|
      ensures cmp(s[j].data, s[i].data) != -1
    {
      assert !Before(cmp)(s[j], s[i]);
    }
    forall a, b, i, j | 0 <= a < b < |nodes| && 0 <= i < |s| && 0 <= j < |s|
      && Tied(cmp, nodes[a], nodes[b]) && s[i] == nodes[a] && s[j] == nodes[b]
      ensures i < j
    {
      TieByVerdict(cmp, nodes, s, a, b, i, j);
    }
  }

  lemma TieByVerdict<T>(cmp: (T, T) -> int, nodes: seq<Glthread<T>>, s: seq<Glthread<T>>,
                        a: nat, b: nat, i: nat, j: nat)
    requires IsStableSort(Before(cmp), nodes, s) && Distinct(nodes) && Orders(cmp, nodes)
    requires a < b < |nodes| && i < |s| && j < |s|
    requires Tied(cmp, nodes[a], nodes[b]) && s[i] == nodes[a] && s[j] == nodes[b]
    ensures i < j
  {
    var less, p := Before(cmp), nodes[b];
    assert p in nodes && !less(p, p);
    TiesKeepOrder(less, p, nodes, s, a, b, i, j);
  }

  lemma {:induction false} InsertPositionIs<T>(less: (T, T) -> bool, x: T, s: seq<T>, n: nat)
    requires n <= |s|
    requires forall i | 0 <= i < n :: !less(x, s[i])
    requires n < |s| ==> less(x, s[n])
    ensures InsertPosition(less, x, s) == n
    decreases n
  {
    if n > 0 {
      assert !less(x, s[0]);
      InsertPositionIs(less, x, s[1..], n - 1);
    }
  }

  /** Linking a node in behind position n of the whole chain inserts it at n of the data nodes. */
  lemma InsertBehindHead<T>(less: (T, T) -> bool, x: T, all: seq<T>, n: nat)
    requires |all| > 0 && n < |all|
    requires forall i | 0 < i <= n :: !less(x, all[i])
    requires n + 1 < |all| ==> less(x, all[n + 1])
    ensures InsertedAt(all, n + 1, x) == [all[0]] + Insert(less, x, all[1..])
  {
    PlaceIs(less, x, all, n);
  }

  /** glthread_priority_insert: the new node goes in front of the first node it is strictly before. */
  method PriorityInsert<T>(head: Glthread<T>, node: Glthread<T>, cmp: (T, T) -> int, ghost all: seq<Glthread<T>>)
    requires Chain(all) && all[0] == head && node !in all
    modifies Members(all), node
    ensures Chain([head] + Insert(Before(cmp), node, all[1..]))
    ensures PlacedAt(cmp, node, all[1..], Insert(Before(cmp), node, all[1..]),
                     InsertPosition(Before(cmp), node, all[1..]))
  {
    InsertByVerdict(cmp, node, all[1..]);
    ghost var less := Before(cmp);
    node.Init();
    Neighbours(all, 0);
    if head.right == null && head.left == null {
      InsertBehindHead(less, node, all, 0);
      AddNext(head, node, all, 0);
      return;
    }
    Neighbours(all, 1);
    if head.right != null && head.right.right == null {
      if cmp(node.data, head.right.data) == -1 {
        InsertBehindHead(less, node, all, 0);
        AddNext(head, node, all, 0);
      } else {
        InsertBehindHead(less, node, all, 1);
        AddNext(head.right, node, all, 1);
      }
      return;
    }
    InsertByScan(head, node, cmp, all);
  }

  /** Its general case: the new node goes behind the last one the scan has passed. */
  method InsertByScan<T>(head: Glthread<T>, node: Glthread<T>, cmp: (T, T) -> int, ghost all: seq<Glthread<T>>)
    requires Chain(all) && all[0] == head && node !in all && Unlinked(node)
    modifies Members(all), node
    ensures Chain([head] + Insert(Before(cmp), node, all[1..]))
  {
    ghost var less := Before(cmp);
    ghost var n := InsertPosition(less, node, all[1..]);
    var prev := FindPlace(head, node, cmp, all);
    PassedAreNotGreater(less, node, all[1..]);
    assert forall i | 0 < i <= n :: all[i] == all[1..][i - 1];
    InsertBehindHead(less, node, all, n);
    if prev == null {
      AddNext(head, node, all, n);
    } else {
      AddNext(prev, node, all, n);
    }
  }

  /** The scan passes the first n data nodes and no more. */
  ghost predicate LastPassed<T>(cmp: (T, T) -> int, node: Glthread<T>, all: seq<Glthread<T>>, n: nat) {
    && 0 < n < |all| && (forall i | 0 < i <= n :: cmp(node.data, all[i].data) != -1)
    && (n + 1 < |all| ==> cmp(node.data, all[n + 1].data) == -1)
  }

  /** The scan of glthread_priority_insert: the last node before the first one the new node is strictly before. */
  method FindPlace<T>(head: Glthread<T>, node: Glthread<T>, cmp: (T, T) -> int, ghost all: seq<Glthread<T>>)
    returns (prev: Glthread?<T>)
    requires Chain(all) && all[0] == head
    ensures var n := InsertPosition(Before(cmp), node, all[1..]);
            prev == if n == 0 then null else all[n]
    ensures prev == null ==> |all| == 1 || cmp(node.data, all[1].data) == -1
    ensures prev != null ==> exists n: nat :: LastPassed(cmp, node, all, n) && prev == all[n]
  {
    prev := null;
    ghost var n := 0;
    var curr := head.right;
    while curr != null
      invariant n < |all|
      invariant curr == if n + 1 < |all| then all[n + 1] else null
      invariant prev == if n == 0 then null else all[n]
      invariant forall i | 0 < i <= n :: !Before(cmp)(node, all[i])
      decreases |all| - n
    {
      var next := curr.right;
      if cmp(node.data, curr.data) == -1 {
        PlaceIs(Before(cmp), node, all, n);
        assert n > 0 ==> LastPassed(cmp, node, all, n);
        return;
      }
      prev := curr;
      curr := next;
      n := n + 1;
    }
    PlaceIs(Before(cmp), node, all, n);
    assert n > 0 ==> LastPassed(cmp, node, all, n);
  }

  lemma PlaceIs<T>(less: (T, T) -> bool, x: T, all: seq<T>, n: nat)
    requires n < |all|
    requires forall i | 0 < i <= n :: !less(x, all[i])
    requires n + 1 < |all| ==> less(x, all[n + 1])
    ensures InsertPosition(less, x, all[1..]) == n
  {
    assert forall i | 0 <= i < n :: all[1..][i] == all[i + 1];
    InsertPositionIs(less, x, all[1..], n);
  }

  lemma InsertMembers<T>(less: (T, T) -> bool, x: T, s: seq<T>)
    ensures forall y | y in Insert(less, x, s) :: y == x || y in s
  {}

  /** The list used as a priority queue: enqueue all nodes, then dequeue until nothing is left. */
  method EnqueueAllThenDrain<T>(head: Glthread<T>, nodes: seq<Glthread<T>>, cmp: (T, T) -> int)
    returns (drained: seq<Glthread<T>>)
    requires Chain([head]) && Distinct(nodes) && head !in nodes
    modifies head, Members(nodes)
    ensures drained == InsertAll(Before(cmp), nodes)
    ensures Preorder(Before(cmp), nodes) ==> IsStableSort(Before(cmp), nodes, drained)
    ensures Orders(cmp, nodes) ==>
              InOrder(cmp, drained) && KeepsTies(cmp, nodes, drained) && multiset(drained) == multiset(nodes)
    ensures Chain([head])
  {
    ghost var less := Before(cmp);
    if Preorder(less, nodes) {
      InsertAllIsTheStableSort(less, nodes, InsertAll(less, nodes));
    }
    OrdersMeans(cmp, nodes);
    if Orders(cmp, nodes) {
      SortedByVerdict(cmp, nodes, InsertAll(less, nodes));
    }
    ghost var queued: seq<Glthread<T>> := [];
    assert nodes[..0] == [];
    for i := 0 to |nodes|
      invariant queued == InsertAll(less, nodes[..i])
      invariant Chain([head] + queued)
      invariant forall x | x in queued :: x in nodes[..i]
    {
      assert nodes[..i + 1][..i] == nodes[..i] && nodes[..i + 1][i] == nodes[i];
      assert nodes[i] !in nodes[..i];
      assert ([head] + queued)[1..] == queued;
      assert forall x | x in [head] + queued :: x == head || x in nodes;
      PriorityInsert(head, nodes[i], cmp, [head] + queued);
      InsertMembers(less, nodes[i], queued);
      queued := Insert(less, nodes[i], queued);
    }
    assert nodes[..|nodes|] == nodes;
    assert forall x | x in queued :: x in nodes;
    drained := DrainAll(head, queued);
  }

  /** Dequeuing until the list is empty returns its nodes in order. */
  method DrainAll<T>(head: Glthread<T>, ghost queued: seq<Glthread<T>>) returns (drained: seq<Glthread<T>>)
    requires Chain([head] + queued)
    modifies head, Members(queued)
    ensures drained == queued && Chain([head])
    decreases |queued|
  {
    Tails(head, queued, 0);
    assert queued[0..] == queued;
    var first := DequeueFirst(head, [head] + queued);
    if first == null {
      return [];
    }
    var others := DrainAll(head, queued[1..]);
    drained := [first] + others;
  }

  /** The chain behind `head` once the first k of `nodes` are gone. */
  lemma Tails<T>(head: Glthread<T>, nodes: seq<Glthread<T>>, k: nat)
    requires k <= |nodes|
    ensures var all := [head] + nodes[k..];
            && Members(all) <= {head} + Members(nodes)
            && (k < |nodes| ==> all[1] == nodes[k])
            && (k < |nodes| ==> all[2..] == nodes[k + 1..])
            && (k < |nodes| ==> RemovedAt(all, 1) == [head] + nodes[k + 1..])
  {}
}
