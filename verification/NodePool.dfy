/** The pool of provisioned nodes and the set of allocated addresses. */
module NodePool {
  import opened Common
  import opened Infra

  /** The addresses of a list of nodes. */
  function Addrs(nodes: seq<Node>): set<string> {
    if nodes == [] then {} else Addrs(nodes[..|nodes| - 1]) + {nodes[|nodes| - 1].addr}
  }

  lemma {:induction false} AddrsMember(nodes: seq<Node>, a: string)
    ensures a in Addrs(nodes) <==> exists i :: 0 <= i < |nodes| && nodes[i].addr == a
  {
    if nodes == [] {
    } else {
      var before := nodes[..|nodes| - 1];
      AddrsMember(before, a);
      if a in Addrs(before) {
        var i :| 0 <= i < |before| && before[i].addr == a;
        assert nodes[i].addr == a;
      }
      if i :| 0 <= i < |nodes| - 1 && nodes[i].addr == a {
        assert before[i].addr == a;
      }
    }
  }

  lemma AddrsSnoc(nodes: seq<Node>, n: Node)
    ensures Addrs(nodes + [n]) == Addrs(nodes) + {n.addr}
  {
    assert (nodes + [n])[..|nodes|] == nodes;
  }

  function Index(nodes: seq<Node>): (m: map<string, Node>)
    ensures forall a <- m :: m[a].addr == a && m[a] in nodes
    ensures m.Keys == Addrs(nodes)
  {
    if nodes == [] then map[]
    else
      var last := nodes[|nodes| - 1];
      var before := nodes[..|nodes| - 1];
      assert nodes == before + [last];
      var m := Index(before)[last.addr := last];
      m
  }

  /** No later node has the address of node i. */
  predicate IsLast(nodes: seq<Node>, i: nat) {
    i < |nodes| && forall j :: i < j < |nodes| ==> nodes[j].addr != nodes[i].addr
  }

  lemma IndexSnoc(nodes: seq<Node>)
    requires nodes != []
    ensures Index(nodes) == Index(nodes[..|nodes| - 1])[nodes[|nodes| - 1].addr := nodes[|nodes| - 1]]
  {
  }

  lemma LastBefore(nodes: seq<Node>, i: nat)
    requires IsLast(nodes, i) && i < |nodes| - 1
    ensures IsLast(nodes[..|nodes| - 1], i) && nodes[..|nodes| - 1][i] == nodes[i]
    ensures nodes[|nodes| - 1].addr != nodes[i].addr
  {
  }

  lemma {:induction false} IndexHasLast(nodes: seq<Node>, i: nat)
    requires IsLast(nodes, i)
    ensures nodes[i].addr in Index(nodes) && Index(nodes)[nodes[i].addr] == nodes[i]
    decreases |nodes|
  {
    IndexSnoc(nodes);
    if i < |nodes| - 1 {
      LastBefore(nodes, i);
      IndexHasLast(nodes[..|nodes| - 1], i);
    }
  }

  /** The longest prefix that Free releases: every node allocated, none listed twice. */
  function Releasable(taken: set<string>, nodes: seq<Node>): (n: nat)
    ensures n <= |nodes|
  {
    if nodes == [] || nodes[0].addr !in taken then 0
    else 1 + Releasable(taken - {nodes[0].addr}, nodes[1..])
  }

  class Pool {
    var nodes: map<string, Node>
    var taken: set<string>

    /** Nodes are filed under their own address. */
    predicate Valid()
      reads this
    {
      forall a <- nodes :: nodes[a].addr == a
    }

    function Size(): nat
      reads this
    {
      |nodes|
    }

    function SizeAllocated(): nat
      reads this
    {
      |taken|
    }

    /** NewNodePool: of nodes with the same address the last one stays. */
    constructor (list: seq<Node>, alloced: seq<string>)
      ensures Valid() && nodes.Keys == Addrs(list)
      ensures forall i: nat :: IsLast(list, i) ==> list[i].addr in nodes && nodes[list[i].addr] == list[i]
      ensures taken == set a | a in alloced
      ensures (set a | a in alloced) <= Addrs(list) ==> taken <= nodes.Keys
    {
      forall i: nat | IsLast(list, i) ensures list[i].addr in Index(list) && Index(list)[list[i].addr] == list[i] {
        IndexHasLast(list, i);
      }
      nodes := Index(list);
      taken := set a | a in alloced;
    }

    /** Allocate succeeds exactly when the amount fits.  Whatever the order in which the nodes are visited, it
        returns that many distinct nodes of the pool that were free, and allocates just these. */
    method Allocate(amount: int) returns (result: Option<seq<Node>>)
      requires Valid()
      modifies this`taken
      ensures Valid()
      ensures result.Some? <==> amount <= Size() - old(SizeAllocated())
      ensures result.None? ==> taken == old(taken)
      ensures result.Some? ==>
        && |result.value| == (if amount > 0 then amount else 0)
        && Picked(nodes, old(taken), {}, result.value)
        && taken == old(taken) + Addrs(result.value)
      ensures old(taken) <= nodes.Keys ==> taken <= nodes.Keys
    {
      if amount + SizeAllocated() > Size() {
        return None;
      }
      FreeNodes(nodes.Keys, taken);
      var picked := Pick(amount);
      result := Some(picked);
    }

    /** The loop of Allocate. */
    method Pick(amount: int) returns (picked: seq<Node>)
      requires Valid() && (amount > 0 ==> amount <= |nodes.Keys - taken|)
      modifies this`taken
      ensures |picked| == (if amount > 0 then amount else 0) && Picked(nodes, old(taken), {}, picked)
      ensures taken == old(taken) + Addrs(picked) && Addrs(picked) <= nodes.Keys
    {
      var left := amount;
      picked := [];
      var todo := nodes.Keys;
      ghost var before := taken;
      while todo != {}
        invariant Allocating(nodes, before, taken, todo, picked, left, amount)
        decreases todo
      {
        var addr :| addr in todo;
        var node := nodes[addr];
        Visit(nodes, before, taken, todo, picked, left, amount, addr);
        if left > 0 && node.addr !in taken {
          taken := taken + {node.addr};
          left := left - 1;
          picked := picked + [node];
        }
        todo := todo - {addr};
      }
      PickedInPool(nodes, before, picked);
    }

    /** AllocatedNodes: every allocated address once; with the allocations inside the pool, exactly the allocated
        nodes. */
    method AllocatedNodes() returns (list: seq<Option<Node>>, ghost addrs: seq<string>)
      ensures Listed(nodes, taken, list, addrs)
      ensures taken <= nodes.Keys ==> forall entry <- list :: entry.Some?
    {
      list, addrs := [], [];
      var todo := taken;
      ghost var done: set<string> := {};
      while todo != {}
        invariant done !! todo && done + todo == taken
        invariant Listed(nodes, done, list, addrs)
        invariant taken <= nodes.Keys ==> forall entry <- list :: entry.Some?
        decreases todo
      {
        var addr :| addr in todo;
        ListOneMore(nodes, done, list, addrs, addr);
        list, addrs := list + [Lookup(nodes, addr)], addrs + [addr];
        todo, done := todo - {addr}, done + {addr};
      }
      assert done == taken;
    }

    /** Free releases the given nodes up to the first that is not allocated (any more), and fails there. */
    method Free(list: seq<Node>) returns (ok: bool)
      modifies this`taken
      ensures ok <==> Releasable(old(taken), list) == |list|
      ensures taken == old(taken) - Addrs(list[..Releasable(old(taken), list)])
    {
      var i := 0;
      assert list[..0] == [];
      while i < |list|
        invariant i <= |list|
        invariant Releasable(old(taken), list) == i + Releasable(taken, list[i..])
        invariant taken == old(taken) - Addrs(list[..i])
      {
        if list[i].addr !in taken {
          return false;
        }
        assert list[i..][1..] == list[i + 1..];
        assert list[..i + 1] == list[..i] + [list[i]];
        AddrsSnoc(list[..i], list[i]);
        taken := taken - {list[i].addr};
        i := i + 1;
      }
      assert list[..|list|] == list;
      ok := true;
    }
  }

  /** The entry of the pool for an address, None for an address that is not in the pool. */
  function Lookup(nodes: map<string, Node>, a: string): Option<Node> {
    if a in nodes then Some(nodes[a]) else None
  }

  /** One entry for each allocated address, in the order `addrs`. */
  ghost predicate Listed(nodes: map<string, Node>, taken: set<string>, list: seq<Option<Node>>, addrs: seq<string>) {
    && |list| == |addrs| == |taken| && Distinct(addrs) && (set a | a in addrs) == taken
    && forall i :: 0 <= i < |list| ==> list[i] == Lookup(nodes, addrs[i])
  }

  lemma ListOneMore(nodes: map<string, Node>, taken: set<string>, list: seq<Option<Node>>, addrs: seq<string>,
                    a: string)
    requires Listed(nodes, taken, list, addrs) && a !in taken
    ensures Listed(nodes, taken + {a}, list + [Lookup(nodes, a)], addrs + [a])
  {
    assert forall i :: 0 <= i < |addrs| ==> addrs[i] in taken;
    assert (set b | b in addrs + [a]) == (set b | b in addrs) + {a};
  }

  /** The nodes picked so far: distinct, from the pool, free before, and not visited again. */
  ghost predicate Picked(nodes: map<string, Node>, taken: set<string>, todo: set<string>, picked: seq<Node>) {
    && (forall n <- picked :: n.addr in nodes && nodes[n.addr] == n && n.addr !in taken && n.addr !in todo)
    && (forall i, j :: 0 <= i < j < |picked| ==> picked[i].addr != picked[j].addr)
  }

  /** The state of the allocation loop: `before` was allocated on entry, `todo` is still to be visited. */
  ghost predicate Allocating(nodes: map<string, Node>, before: set<string>, taken: set<string>, todo: set<string>,
                             picked: seq<Node>, left: int, amount: int)
  {
    && todo <= nodes.Keys && Picked(nodes, before, todo, picked)
    && taken == before + Addrs(picked) && left == amount - |picked|
    && (if amount > 0 then 0 <= left <= |todo - before| else picked == [])
  }

  lemma Visit(nodes: map<string, Node>, before: set<string>, taken: set<string>, todo: set<string>,
              picked: seq<Node>, left: int, amount: int, addr: string)
    requires Allocating(nodes, before, taken, todo, picked, left, amount)
    requires addr in todo && nodes[addr].addr == addr
    ensures if left > 0 && addr !in taken
      then Allocating(nodes, before, taken + {addr}, todo - {addr}, picked + [nodes[addr]], left - 1, amount)
      else Allocating(nodes, before, taken, todo - {addr}, picked, left, amount)
  {
    AddrsSnoc(picked, nodes[addr]);
    AddrsMember(picked, addr);
    assert (todo - {addr}) - before == (todo - before) - {addr};
  }

  lemma {:induction false} PickedInPool(nodes: map<string, Node>, taken: set<string>, picked: seq<Node>)
    requires Picked(nodes, taken, {}, picked)
    ensures Addrs(picked) <= nodes.Keys
  {
    if picked == [] {
    } else {
      PickedInPool(nodes, taken, picked[..|picked| - 1]);
      assert picked[|picked| - 1] in picked;
    }
  }

  lemma FreeNodes(all: set<string>, taken: set<string>)
    ensures |all - taken| >= |all| - |taken|
  {
    assert |all| == |all - taken| + |all * taken| by {
      assert all == (all - taken) + (all * taken);
    }
    assert |taken| == |taken - all| + |all * taken| by {
      assert taken == (taken - all) + (all * taken);
    }
  }

  /** Free succeeds exactly on allocated nodes listed once each. */
  lemma {:induction false} ReleasableMeans(taken: set<string>, nodes: seq<Node>)
    ensures Releasable(taken, nodes) == |nodes| <==>
      && (forall i :: 0 <= i < |nodes| ==> nodes[i].addr in taken)
      && (forall i, j :: 0 <= i < j < |nodes| ==> nodes[i].addr != nodes[j].addr)
  {
    if nodes == [] {
    } else {
      var rest := nodes[1..];
      ReleasableMeans(taken - {nodes[0].addr}, rest);
      assert forall i :: 1 <= i < |nodes| ==> nodes[i] == rest[i - 1];
      if Releasable(taken, nodes) == |nodes| {
        forall i | 0 <= i < |nodes| ensures nodes[i].addr in taken {
          if i > 0 { assert rest[i - 1].addr in taken - {nodes[0].addr}; }
        }
        forall i, j | 0 <= i < j < |nodes| ensures nodes[i].addr != nodes[j].addr {
          assert rest[j - 1].addr in taken - {nodes[0].addr};
          if i > 0 { assert rest[i - 1].addr != rest[j - 1].addr; }
        }
      }
    }
  }

  /** Freeing what was just allocated restores the pool. */
  method AllocateThenFree(pool: Pool, amount: int) returns (fits: bool)
    requires pool.Valid()
    modifies pool
    ensures pool.taken == old(pool.taken) && pool.nodes == old(pool.nodes)
    ensures fits <==> amount <= pool.Size() - pool.SizeAllocated()
  {
    var result := pool.Allocate(amount);
    if result.None? {
      return false;
    }
    assert result.value[..|result.value|] == result.value;
    forall a | a in old(pool.taken) ensures a !in Addrs(result.value) {
      AddrsMember(result.value, a);
    }
    forall i | 0 <= i < |result.value| ensures result.value[i].addr in pool.taken {
      AddrsMember(result.value, result.value[i].addr);
    }
    ReleasableMeans(pool.taken, result.value);
    var ok := pool.Free(result.value);
    fits := true;
  }

  /** A run over a pool: allocations, and releases of arbitrary lists. */
  datatype Operation = AllocateOp(amount: int) | FreeOp(nodes: seq<Node>)

  /** If the initial allocations lie in the pool, they do so after every run. */
  method RunOperations(list: seq<Node>, alloced: seq<string>, operations: seq<Operation>) returns (pool: Pool)
    requires (set a | a in alloced) <= Addrs(list)
    ensures pool.taken <= pool.nodes.Keys && pool.SizeAllocated() <= pool.Size()
    ensures pool.nodes.Keys == Addrs(list)
  {
    pool := new Pool(list, alloced);
    for i := 0 to |operations|
      invariant fresh(pool) && pool.Valid() && pool.nodes.Keys == Addrs(list)
      invariant pool.taken <= pool.nodes.Keys
    {
      match operations[i] {
        case AllocateOp(amount) =>
          var result := pool.Allocate(amount);
        case FreeOp(nodes) =>
          var ok := pool.Free(nodes);
      }
    }
    SubsetCardinality(pool.taken, pool.nodes.Keys);
  }
}
