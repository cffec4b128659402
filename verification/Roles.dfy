/** Which node of a cluster plays which role, and which processes collect logs from the nodes. */
module Roles {
  import opened Common
  import opened Infra
  import FanIn

  /** A gravity-site pod, on the node with this address. */
  datatype Pod = Pod(nodeIp: string, ready: bool)

  predicate HasAddr(addr: string, n: Node) {
    n.addr == addr
  }

  function Others(addr: string, nodes: seq<Node>): seq<Node> {
    Filter(nodes, n => !HasAddr(addr, n))
  }

  function Holders(addr: string, nodes: seq<Node>): seq<Node> {
    Filter(nodes, n => HasAddr(addr, n))
  }

  ghost predicate DistinctAddrs(nodes: seq<Node>) {
    forall i, j :: 0 <= i < j < |nodes| ==> nodes[i].addr != nodes[j].addr
  }

  /** n is the last of the nodes with this address. */
  predicate IsLastHolder(n: Node, addr: string, nodes: seq<Node>) {
    exists i :: 0 <= i < |nodes| && nodes[i] == n && n.addr == addr
                && forall j :: i < j < |nodes| ==> nodes[j].addr != addr
  }

  // ------------------------------------------------------------------ the API server

  datatype ApiServer = Found(api: Node, other: seq<Node>) | NoNodes | Unresolved | NotFound

  /** apiserverNode, with the address the leader name resolves to (None when it cannot be resolved).  The API
      server is the last node with that address, the others are those without it. */
  method ApiserverNode(nodes: seq<Node>, resolved: Option<string>) returns (r: ApiServer)
    ensures r.NoNodes? <==> nodes == []
    ensures r.Unresolved? <==> nodes != [] && resolved.None?
    ensures r.NotFound? <==> nodes != [] && resolved.Some? && forall n <- nodes :: n.addr != resolved.value
    ensures r.Found? ==>
      && resolved.Some?
      && IsLastHolder(r.api, resolved.value, nodes)
      && r.other == Others(resolved.value, nodes)
  {
    if nodes == [] {
      return NoNodes;
    }
    if resolved.None? {
      return Unresolved;
    }
    var api: Option<Node>, other: seq<Node> := None, [];
    ghost var last := 0;
    for i := 0 to |nodes|
      invariant other == Others(resolved.value, nodes[..i])
      invariant api.None? <==> forall k :: 0 <= k < i ==> nodes[k].addr != resolved.value
      invariant api.Some? ==>
        && last < i && nodes[last] == api.value && api.value.addr == resolved.value
        && forall k :: last < k < i ==> nodes[k].addr != resolved.value
    {
      assert nodes[..i + 1] == nodes[..i] + [nodes[i]];
      FilterSnoc(nodes[..i], nodes[i], n => !HasAddr(resolved.value, n));
      if nodes[i].addr == resolved.value {
        api, last := Some(nodes[i]), i;
      } else {
        other := other + [nodes[i]];
      }
    }
    assert nodes[..|nodes|] == nodes;
    r := if api.None? then NotFound else Found(api.value, other);
  }

  /** With distinct addresses the API server and the others partition the nodes. */
  lemma {:induction false} ApiPartition(nodes: seq<Node>, api: Node)
    requires DistinctAddrs(nodes) && api in nodes
    ensures multiset(Others(api.addr, nodes)) + multiset{api} == multiset(nodes)
  {
    var n := |nodes| - 1;
    assert nodes == nodes[..n] + [nodes[n]];
    if nodes[n] == api {
      NoneFiltered(nodes[..n], m => !HasAddr(api.addr, m));
    } else {
      ApiPartition(nodes[..n], api);
    }
  }

  lemma {:induction false} NoneFiltered(s: seq<Node>, p: Node -> bool)
    requires forall i :: 0 <= i < |s| ==> p(s[i])
    ensures Filter(s, p) == s
  {
    if s == [] {
    } else {
      NoneFiltered(s[..|s| - 1], p);
      assert s == s[..|s| - 1] + [s[|s| - 1]];
    }
  }

  /** How many nodes have this address. */
  lemma {:induction false} OthersCount(nodes: seq<Node>, addr: string)
    ensures |Others(addr, nodes)| + |Holders(addr, nodes)| == |nodes|
  {
    if nodes == [] {
    } else {
      OthersCount(nodes[..|nodes| - 1], addr);
    }
  }

  // ------------------------------------------------------------------ roles

  datatype RoleSet = RoleSet(apiMaster: Node, other: seq<Node>, clusterMaster: Option<Node>, clusterBackup: seq<Node>,
                             regular: seq<Node>)

  /** The first pod on the node, if any. */
  function FirstPod(pods: seq<Pod>, addr: string): Option<Pod> {
    if pods == [] then None
    else if pods[0].nodeIp == addr then Some(pods[0])
    else FirstPod(pods[1..], addr)
  }

  predicate IsReady(pods: seq<Pod>, n: Node) {
    FirstPod(pods, n.addr).Some? && FirstPod(pods, n.addr).value.ready
  }

  predicate IsBackup(pods: seq<Pod>, n: Node) {
    FirstPod(pods, n.addr).Some? && !FirstPod(pods, n.addr).value.ready
  }

  predicate IsRegular(pods: seq<Pod>, n: Node) {
    FirstPod(pods, n.addr).None?
  }

  function Ready(pods: seq<Pod>, nodes: seq<Node>): seq<Node> {
    Filter(nodes, n => IsReady(pods, n))
  }

  function Backups(pods: seq<Pod>, nodes: seq<Node>): seq<Node> {
    Filter(nodes, n => IsBackup(pods, n))
  }

  function Regulars(pods: seq<Pod>, nodes: seq<Node>): seq<Node> {
    Filter(nodes, n => IsRegular(pods, n))
  }

  /** The master is the last ready node, None without one. */
  predicate IsMaster(ready: seq<Node>, master: Option<Node>) {
    if ready == [] then master.None? else master == Some(ready[|ready| - 1])
  }

  /** NodesByRole; None when the API server or the pods cannot be found. */
  method NodesByRole(nodes: seq<Node>, resolved: Option<string>, podList: Option<seq<Pod>>) returns (r: Option<RoleSet>)
    ensures r.Some? ==>
      && resolved.Some? && podList.Some?
      && IsLastHolder(r.value.apiMaster, resolved.value, nodes)
      && r.value.other == Others(resolved.value, nodes)
      && r.value.clusterBackup == Backups(podList.value, nodes)
      && r.value.regular == Regulars(podList.value, nodes)
      && IsMaster(Ready(podList.value, nodes), r.value.clusterMaster)
    ensures r.None? <==> nodes == [] || resolved.None? || podList.None? || forall n <- nodes :: n.addr != resolved.value
  {
    var api := ApiserverNode(nodes, resolved);
    if !api.Found? || podList.None? {
      return None;
    }
    var pods := podList.value;
    var clusterMaster: Option<Node>, clusterBackup: seq<Node>, regular: seq<Node> := None, [], [];
    for i := 0 to |nodes|
      invariant clusterBackup == Backups(pods, nodes[..i])
      invariant regular == Regulars(pods, nodes[..i])
      invariant IsMaster(Ready(pods, nodes[..i]), clusterMaster)
    {
      assert nodes[..i + 1] == nodes[..i] + [nodes[i]];
      FilterSnoc(nodes[..i], nodes[i], n => IsReady(pods, n));
      FilterSnoc(nodes[..i], nodes[i], n => IsBackup(pods, n));
      FilterSnoc(nodes[..i], nodes[i], n => IsRegular(pods, n));
      var k := 0;
      while k < |pods| && pods[k].nodeIp != nodes[i].addr
        invariant k <= |pods| && FirstPod(pods, nodes[i].addr) == FirstPod(pods[k..], nodes[i].addr)
      {
        k := k + 1;
      }
      if k == |pods| {
        regular := regular + [nodes[i]];
      } else if pods[k].ready {
        clusterMaster := Some(nodes[i]);
      } else {
        clusterBackup := clusterBackup + [nodes[i]];
      }
    }
    assert nodes[..|nodes|] == nodes;
    r := Some(RoleSet(api.api, api.other, clusterMaster, clusterBackup, regular));
  }

  function MasterAsSet(master: Option<Node>): multiset<Node> {
    if master.None? then multiset{} else multiset{master.value}
  }

  /** Master, backups and regular nodes partition the nodes exactly when at most one node's first pod is ready;
      a further ready node would have no role. */
  lemma RolesPartitionIff(nodes: seq<Node>, pods: seq<Pod>, master: Option<Node>)
    requires IsMaster(Ready(pods, nodes), master)
    ensures MasterAsSet(master) + multiset(Backups(pods, nodes)) + multiset(Regulars(pods, nodes))
            == multiset(nodes)
      <==> |Ready(pods, nodes)| <= 1
  {
    FilterPartition(nodes, n => IsReady(pods, n), n => IsBackup(pods, n), n => IsRegular(pods, n));
    MasterCounts(Ready(pods, nodes), master, multiset(Backups(pods, nodes)), multiset(Regulars(pods, nodes)));
  }

  lemma MasterCounts(ready: seq<Node>, master: Option<Node>, b: multiset<Node>, r: multiset<Node>)
    requires IsMaster(ready, master)
    ensures MasterAsSet(master) + b + r == multiset(ready) + b + r <==> |ready| <= 1
  {
    var rest := b + r;
    assert MasterAsSet(master) + b + r == MasterAsSet(master) + rest;
    assert multiset(ready) + b + r == multiset(ready) + rest;
    if |ready| == 1 {
      assert ready == [ready[0]];
    }
    if |ready| >= 2 {
      assert |multiset(ready)| == |ready| > |MasterAsSet(master)|;
      assert |multiset(ready) + rest| == |ready| + |rest|;
      assert |MasterAsSet(master) + rest| == |MasterAsSet(master)| + |rest|;
    }
  }

  /** The first pod on a node with this address is at position k. */
  predicate FirstAt(pods: seq<Pod>, addr: string, k: nat) {
    k < |pods| && pods[k].nodeIp == addr && forall j :: 0 <= j < k ==> pods[j].nodeIp != addr
  }

  lemma {:induction false} FirstPodMeans(pods: seq<Pod>, addr: string) returns (k: nat)
    ensures FirstPod(pods, addr).None? <==> forall p <- pods :: p.nodeIp != addr
    ensures FirstPod(pods, addr).Some? ==> FirstAt(pods, addr, k) && FirstPod(pods, addr).value == pods[k]
  {
    if pods == [] || pods[0].nodeIp == addr {
      k := 0;
    } else {
      k := FirstPodMeans(pods[1..], addr);
      k := k + 1;
      assert pods == [pods[0]] + pods[1..];
    }
  }

  lemma FirstIsUnique(pods: seq<Pod>, addr: string, k: nat)
    requires FirstAt(pods, addr, k)
    ensures FirstPod(pods, addr) == Some(pods[k])
  {
    var first := FirstPodMeans(pods, addr);
    assert pods[k] in pods;
    assert FirstAt(pods, addr, first);
  }

  /** A node's first pod decides: ready, backup without being ready, regular without a pod. */
  lemma RolesMean(nodes: seq<Node>, pods: seq<Pod>, n: Node)
    requires n in nodes
    ensures n in Ready(pods, nodes) <==> exists k: nat :: FirstAt(pods, n.addr, k) && pods[k].ready
    ensures n in Backups(pods, nodes) <==> exists k: nat :: FirstAt(pods, n.addr, k) && !pods[k].ready
    ensures n in Regulars(pods, nodes) <==> forall p <- pods :: p.nodeIp != n.addr
  {
    FilterMember(nodes, n => IsReady(pods, n), n);
    FilterMember(nodes, n => IsBackup(pods, n), n);
    FilterMember(nodes, n => IsRegular(pods, n), n);
    var first := FirstPodMeans(pods, n.addr);
    forall k: nat | FirstAt(pods, n.addr, k) ensures FirstPod(pods, n.addr) == Some(pods[k]) {
      FirstIsUnique(pods, n.addr, k);
    }
  }

  /** The master is the last node whose first pod is ready. */
  lemma MasterIsLastReady(nodes: seq<Node>, pods: seq<Pod>, master: Option<Node>)
    requires IsMaster(Ready(pods, nodes), master)
    ensures master.None? <==> forall n <- nodes, k: nat | FirstAt(pods, n.addr, k) :: !pods[k].ready
    ensures master.Some? ==> exists i :: 0 <= i < |nodes| && nodes[i] == master.value && IsReady(pods, master.value)
                                      && forall j :: i < j < |nodes| ==> !IsReady(pods, nodes[j])
  {
    var ready := Ready(pods, nodes);
    forall n | n in nodes ensures n in ready <==> exists k: nat :: FirstAt(pods, n.addr, k) && pods[k].ready {
      RolesMean(nodes, pods, n);
    }
    if ready == [] {
      assert forall n <- nodes :: n !in ready;
    } else {
      FilterMember(nodes, n => IsReady(pods, n), ready[|ready| - 1]);
      var i := LastFiltered(nodes, n => IsReady(pods, n));
    }
  }

  lemma {:induction false} LastFiltered(s: seq<Node>, p: Node -> bool) returns (i: nat)
    requires Filter(s, p) != []
    ensures i < |s| && s[i] == Filter(s, p)[|Filter(s, p)| - 1] && p(s[i])
    ensures forall j :: i < j < |s| ==> !p(s[j])
  {
    var n := |s| - 1;
    if p(s[n]) {
      i := n;
    } else {
      var before := s[..n];
      assert Filter(s, p) == Filter(before, p);
      i := LastFiltered(before, p);
      assert forall j :: 0 <= j < n ==> before[j] == s[j];
    }
  }

  /** Roles name nodes of the cluster only. */
  lemma RolesAreNodes(nodes: seq<Node>, pods: seq<Pod>, master: Option<Node>)
    requires IsMaster(Ready(pods, nodes), master)
    ensures master.Some? ==> master.value in nodes && IsReady(pods, master.value)
    ensures forall n <- Backups(pods, nodes) :: n in nodes
    ensures forall n <- Regulars(pods, nodes) :: n in nodes
  {
    if master.Some? {
      FilterMember(nodes, n => IsReady(pods, n), master.value);
    }
    forall n | n in Backups(pods, nodes) ensures n in nodes {
      FilterMember(nodes, n => IsBackup(pods, n), n);
    }
    forall n | n in Regulars(pods, nodes) ensures n in nodes {
      FilterMember(nodes, n => IsRegular(pods, n), n);
    }
  }

  // ------------------------------------------------------------------ log collection

  /** One log-collecting process: the node, and whether it also collects the kubernetes logs. */
  datatype Sender = Sender(node: Node, kubernetes: bool)

  function SenderNodes(senders: seq<Sender>): (r: seq<Node>)
    ensures |r| == |senders| && forall i :: 0 <= i < |r| ==> r[i] == senders[i].node
  {
    seq(|senders|, i requires 0 <= i < |senders| => senders[i].node)
  }

  /** How many senders there are: one for each node without the API server's address, and one for the API server. */
  function SenderCount(nodes: seq<Node>, resolved: Option<string>): int {
    if resolved.None? || Holders(resolved.value, nodes) == [] then |nodes|
    else |nodes| - |Holders(resolved.value, nodes)| + 1
  }

  /** CollectLogs up to the call that waits for the senders: the error channel has room for `capacity` messages
      and one process is started for each sender. */
  method StartLogCollection(nodes: seq<Node>, resolved: Option<string>) returns (senders: seq<Sender>, capacity: nat)
    ensures capacity == |nodes|
    ensures DistinctAddrs(nodes) ==> |senders| == capacity && multiset(SenderNodes(senders)) == multiset(nodes)
    ensures |senders| == SenderCount(nodes, resolved)
    ensures |senders| == capacity <==>
      resolved.None? || |Holders(resolved.value, nodes)| <= 1
    // the last node with the API server's address collects the kubernetes logs too, and no other node does
    ensures resolved.Some? && (exists n <- nodes :: n.addr == resolved.value) ==>
      && senders != [] && senders[0].kubernetes && IsLastHolder(senders[0].node, resolved.value, nodes)
      && (forall i :: 1 <= i < |senders| ==> !senders[i].kubernetes)
      && SenderNodes(senders)[1..] == Others(resolved.value, nodes)
    ensures resolved.None? || (forall n <- nodes :: n.addr != resolved.value) ==>
      SenderNodes(senders) == nodes && forall s <- senders :: !s.kubernetes
  {
    if nodes == [] {
      return [], 0;
    }
    var found := ApiserverNode(nodes, resolved);
    capacity := |nodes|;
    if found.Found? {
      var plain := StartSenders(found.other);
      senders := [Sender(found.api, true)] + plain;
      assert SenderNodes(senders) == [found.api] + SenderNodes(plain);
      OneSenderEach(nodes, found.api, SenderNodes(senders));
    } else {
      senders := StartSenders(nodes);
      if resolved.Some? {
        NobodyHas(nodes, resolved.value);
      }
    }
  }

  method StartSenders(nodes: seq<Node>) returns (senders: seq<Sender>)
    ensures SenderNodes(senders) == nodes
    ensures forall s <- senders :: !s.kubernetes
  {
    senders := [];
    for i := 0 to |nodes|
      invariant SenderNodes(senders) == nodes[..i]
      invariant forall s <- senders :: !s.kubernetes
    {
      senders := senders + [Sender(nodes[i], false)];
    }
  }

  /** The API server and the others: one process for each node exactly when no other node has its address. */
  lemma OneSenderEach(nodes: seq<Node>, api: Node, senders: seq<Node>)
    requires api in nodes && senders == [api] + Others(api.addr, nodes)
    ensures |senders| == SenderCount(nodes, Some(api.addr))
    ensures |senders| == |nodes| <==> |Holders(api.addr, nodes)| <= 1
    ensures DistinctAddrs(nodes) ==> |senders| == |nodes| && multiset(senders) == multiset(nodes)
  {
    OthersCount(nodes, api.addr);
    FilterMember(nodes, n => HasAddr(api.addr, n), api);
    if DistinctAddrs(nodes) {
      ApiPartition(nodes, api);
      assert multiset(senders) == multiset(nodes);
      assert |multiset(senders)| == |senders| && |multiset(nodes)| == |nodes|;
    }
  }

  lemma {:induction false} NobodyHas(nodes: seq<Node>, addr: string)
    requires forall n <- nodes :: n.addr != addr
    ensures Holders(addr, nodes) == []
  {
    if nodes == [] {
    } else {
      assert nodes[|nodes| - 1] in nodes;
      NobodyHas(nodes[..|nodes| - 1], addr);
    }
  }

  /** CollectLogs, on the events that reach its collecting loop: each sender sends one error at most.  When several
      nodes have the API server's address there are too few senders, and the call ends only by its context. */
  method CollectLogs(nodes: seq<Node>, resolved: Option<string>, events: seq<FanIn.Event<()>>)
    returns (verdict: FanIn.Verdict<()>, turns: nat)
    requires FanIn.ErrorsIn(events) <= SenderCount(nodes, resolved)
    ensures nodes == [] ==> verdict == FanIn.Accepted([]) && turns == 0
    ensures turns <= |events|
    ensures nodes != [] ==>
      && FanIn.Reflects(verdict, events[..turns])
      && (verdict.StillWaiting? <==> FanIn.Open(|nodes|, 0, events[..turns]))
    ensures nodes != [] ==>
      verdict == FanIn.Judge(FanIn.Collector(|nodes|, 0, [], [], 0), events, false)
    ensures resolved.Some? && |Holders(resolved.value, nodes)| >= 2 ==> FanIn.WaitsForContext(verdict)
  {
    if nodes == [] {
      return FanIn.Accepted([]), 0;
    }
    var senders, capacity := StartLogCollection(nodes, resolved);
    var cancels;
    verdict, cancels, turns := FanIn.Collect(capacity, 0, false, events);
    if resolved.Some? && |Holders(resolved.value, nodes)| >= 2 {
      FanIn.MissingSendersWait(FanIn.Collector(|nodes|, 0, [], [], 0), events, false);
    }
  }

  /** For instance, two nodes with the API server's address: one sender for a channel with room for two. */
  lemma SharedAddressLosesSender(addr: string)
    ensures var nodes := [Node(0, addr), Node(1, addr)];
      |Holders(addr, nodes)| == 2 && SenderCount(nodes, Some(addr)) == 1 < |nodes|
  {
    FilterTwo(Node(0, addr), Node(1, addr), n => HasAddr(addr, n));
  }

  /** And two nodes with a ready first pod: the first one has no role. */
  lemma SecondReadyNodeHidesFirst(a: Node, b: Node)
    requires a.addr != b.addr
    ensures var nodes, pods := [a, b], [Pod(a.addr, true), Pod(b.addr, true)];
      && Ready(pods, nodes) == [a, b] && IsMaster(Ready(pods, nodes), Some(b))
      && Backups(pods, nodes) == [] && Regulars(pods, nodes) == []
      && a !in MasterAsSet(Some(b)) + multiset(Backups(pods, nodes)) + multiset(Regulars(pods, nodes))
  {
    var nodes, pods := [a, b], [Pod(a.addr, true), Pod(b.addr, true)];
    assert pods[1..] == [Pod(b.addr, true)];
    assert FirstPod(pods, a.addr) == Some(pods[0]) && FirstPod(pods, b.addr) == Some(pods[1]);
    assert IsReady(pods, a) && IsReady(pods, b);
    FilterTwo(a, b, n => IsReady(pods, n));
    FilterTwo(a, b, n => IsBackup(pods, n));
    FilterTwo(a, b, n => IsRegular(pods, n));
  }
}
