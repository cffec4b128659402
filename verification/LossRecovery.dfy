/** The loss-and-recovery test: a cluster of N nodes loses one and gets the spare node, which joins before or
    after the lost node is removed. */
module LossRecovery {
  import opened Common
  import opened Infra
  import opened Roles

  datatype Victim = ApiMaster | ClusterMaster | ClusterBackup | RegularNode

  /** The roles were resolved to nodes of the cluster, as NodesByRole does. */
  predicate Resolved(nodes: seq<Node>, r: RoleSet) {
    && r.apiMaster in nodes
    && (r.clusterMaster.Some? ==> r.clusterMaster.value in nodes)
    && (forall n <- r.clusterBackup :: n in nodes)
    && (forall n <- r.regular :: n in nodes)
  }

  /** Whatever NodesByRole returns is resolved in this sense. */
  lemma LookupsAreResolved(nodes: seq<Node>, pods: seq<Pod>, r: RoleSet)
    requires r.apiMaster in nodes && IsMaster(Ready(pods, nodes), r.clusterMaster)
    requires r.clusterBackup == Backups(pods, nodes) && r.regular == Regulars(pods, nodes)
    ensures Resolved(nodes, r)
  {
    RolesAreNodes(nodes, pods, r.clusterMaster);
  }

  function Exclude(nodes: seq<Node>, excl: Option<Node>): seq<Node> {
    Filter(nodes, n => Some(n) != excl)
  }

  /** excludeNode. */
  method ExcludeNode(nodes: seq<Node>, excl: Option<Node>) returns (out: seq<Node>)
    ensures out == Exclude(nodes, excl)
  {
    out := [];
    for i := 0 to |nodes|
      invariant out == Exclude(nodes[..i], excl)
    {
      assert nodes[..i + 1] == nodes[..i] + [nodes[i]];
      FilterSnoc(nodes[..i], nodes[i], n => Some(n) != excl);
      if Some(nodes[i]) != excl {
        out := out + [nodes[i]];
      }
    }
    assert nodes[..|nodes|] == nodes;
  }

  function NodeSet(nodes: seq<Node>): set<Node> {
    set n | n in nodes
  }

  /** Excluding a node takes just this node out and keeps the others in order. */
  lemma {:induction false} ExcludeMeans(nodes: seq<Node>, removed: Node)
    requires Distinct(nodes) && removed in nodes
    ensures NodeSet(Exclude(nodes, Some(removed))) == NodeSet(nodes) - {removed}
    ensures |Exclude(nodes, Some(removed))| == |nodes| - 1
    ensures Distinct(Exclude(nodes, Some(removed)))
  {
    var n := |nodes| - 1;
    var keep := m => Some(m) != Some(removed);
    forall m ensures m in Exclude(nodes, Some(removed)) <==> m in nodes && m != removed {
      FilterMember(nodes, m => Some(m) != Some(removed), m);
    }
    assert nodes == nodes[..n] + [nodes[n]];
    if nodes[n] == removed {
      NothingExcluded(nodes[..n], removed);
    } else {
      ExcludeMeans(nodes[..n], removed);
      var before := Exclude(nodes[..n], Some(removed));
      assert Exclude(nodes, Some(removed)) == before + [nodes[n]];
      forall i | 0 <= i < |before| ensures before[i] != nodes[n] {
        assert before[i] in NodeSet(before);
      }
    }
  }

  lemma {:induction false} NothingExcluded(nodes: seq<Node>, removed: Node)
    requires removed !in nodes
    ensures Exclude(nodes, Some(removed)) == nodes
  {
    if nodes == [] {
    } else {
      NothingExcluded(nodes[..|nodes| - 1], removed);
      assert nodes == nodes[..|nodes| - 1] + [nodes[|nodes| - 1]];
    }
  }

  /** What removeNode ends with: a choice, a failed check, a panic on a missing cluster master, or a further
      relocation of the cluster master. */
  datatype Choice = Chosen(remaining: seq<Node>, removed: Option<Node>) | Failed | Panicked | Pending

  /** The cluster master shares its node with the API server, so it is relocated and the roles looked up again. */
  predicate Relocates(victim: Victim, r: RoleSet) {
    victim == ClusterMaster && r.clusterMaster == Some(r.apiMaster)
  }

  /** The first lookup that fails or needs no relocation. */
  function Decisive(victim: Victim, lookups: seq<Option<RoleSet>>): (k: nat)
    ensures k <= |lookups|
    ensures forall j :: 0 <= j < k ==> lookups[j].Some? && Relocates(victim, lookups[j].value)
    ensures k < |lookups| && lookups[k].Some? ==> !Relocates(victim, lookups[k].value)
  {
    if lookups == [] || lookups[0].None? || !Relocates(victim, lookups[0].value) then 0
    else
      var k := 1 + Decisive(victim, lookups[1..]);
      assert forall j :: 1 <= j < k ==> lookups[j] == lookups[1..][j - 1];
      k
  }

  /** The roles that decide about the removal; None when the lookup failed or never decided. */
  function DecisiveRoles(victim: Victim, lookups: seq<Option<RoleSet>>): Option<RoleSet> {
    var k := Decisive(victim, lookups);
    if k < |lookups| then lookups[k] else None
  }

  /** The roles allow the removal the test asks for. */
  predicate Removable(victim: Victim, r: RoleSet) {
    && (victim == ClusterBackup ==> |r.clusterBackup| == 2)
    && (victim == RegularNode ==> r.regular != [])
  }

  /** Only the cluster master may be missing. */
  predicate MasterMissing(victim: Victim, r: RoleSet) {
    victim == ClusterMaster && r.clusterMaster.None?
  }

  /** What removeNode makes of the deciding roles: it panics when a missing cluster master is to be powered off,
      fails when the roles forbid the removal or powering off fails, and chooses otherwise. */
  predicate Decided(choice: Choice, nodes: seq<Node>, victim: Victim, roles: Option<RoleSet>, powerOff: bool,
                    powersOff: bool)
  {
    if roles.None? then choice.Failed? || choice.Pending?
    else
      && !choice.Pending?
      && (choice.Failed? <==> !Removable(victim, roles.value)
                              || (powerOff && !powersOff && !MasterMissing(victim, roles.value)))
      && (choice.Panicked? <==> powerOff && MasterMissing(victim, roles.value))
      && (choice.Chosen? ==>
            && choice.remaining == Exclude(nodes, choice.removed)
            && PlaysRole(victim, roles.value, choice.removed)
            && (choice.removed.None? <==> MasterMissing(victim, roles.value)))
  }

  /** removeNode.  `lookups` are the successive results of the role lookup (None fails the test).  `pick` is the
      random choice among regular nodes, `powersOff` whether powering the node off succeeds. */
  method RemoveNode(nodes: seq<Node>, victim: Victim, lookups: seq<Option<RoleSet>>, powerOff: bool, powersOff: bool,
                    pick: nat)
    returns (choice: Choice)
    ensures choice.Pending? <==> Decisive(victim, lookups) == |lookups|
    ensures Decided(choice, nodes, victim, DecisiveRoles(victim, lookups), powerOff, powersOff)
    decreases |lookups|
  {
    if lookups == [] {
      return Pending;
    }
    if lookups[0].None? {
      return Failed;
    }
    var roles := lookups[0].value;
    var removed: Option<Node>;
    match victim {
      case ApiMaster =>
        removed := Some(roles.apiMaster);
      case ClusterMaster =>
        if roles.clusterMaster == Some(roles.apiMaster) {
          choice := RemoveNode(nodes, victim, lookups[1..], powerOff, powersOff, pick);
          return;
        }
        removed := roles.clusterMaster;
      case ClusterBackup =>
        if |roles.clusterBackup| != 2 {
          return Failed;
        }
        var idx := 0;
        // avoid the API server's node
        if roles.clusterBackup[idx] == roles.apiMaster {
          idx := 1;
        }
        removed := Some(roles.clusterBackup[idx]);
      case RegularNode =>
        if |roles.regular| == 0 {
          return Failed;
        }
        removed := Some(roles.regular[pick % |roles.regular|]);
    }
    var remaining := ExcludeNode(nodes, removed);
    if powerOff && removed.None? {
      return Panicked;
    }
    if powerOff && !powersOff {
      return Failed;
    }
    choice := Chosen(remaining, removed);
  }

  /** The chosen node plays the role the test asks for; the master or backup chosen is not on the API server's
      node, unless both backups are. */
  predicate PlaysRole(victim: Victim, r: RoleSet, removed: Option<Node>) {
    match victim
    case ApiMaster => removed == Some(r.apiMaster)
    case ClusterMaster => removed == r.clusterMaster && removed != Some(r.apiMaster)
    case ClusterBackup =>
      && |r.clusterBackup| == 2
      && removed == Some(if r.clusterBackup[0] == r.apiMaster then r.clusterBackup[1] else r.clusterBackup[0])
    case RegularNode => removed.Some? && removed.value in r.regular
  }

  /** What is decided with the roles r, role by role. */
  lemma DecidedMeans(choice: Choice, nodes: seq<Node>, victim: Victim, r: RoleSet, powerOff: bool, powersOff: bool)
    requires Decided(choice, nodes, victim, Some(r), powerOff, powersOff)
    ensures victim == ApiMaster ==> choice == AfterPowerOff(nodes, r.apiMaster, powerOff, powersOff)
    ensures victim == ClusterMaster && r.clusterMaster.Some? ==>
      choice == AfterPowerOff(nodes, r.clusterMaster.value, powerOff, powersOff)
    ensures victim == ClusterMaster && r.clusterMaster.None? ==>
      choice == if powerOff then Panicked else Chosen(nodes, None)
    ensures victim == ClusterBackup && |r.clusterBackup| != 2 ==> choice == Failed
    ensures victim == ClusterBackup && |r.clusterBackup| == 2 ==>
      var other := if r.clusterBackup[0] == r.apiMaster then r.clusterBackup[1] else r.clusterBackup[0];
      choice == AfterPowerOff(nodes, other, powerOff, powersOff)
    ensures victim == RegularNode && r.regular == [] ==> choice == Failed
    ensures victim == RegularNode && r.regular != [] ==>
      exists n <- r.regular :: choice == AfterPowerOff(nodes, n, powerOff, powersOff)
  {
    if choice.Chosen? && choice.removed.None? {
      NobodyExcluded(nodes);
    }
    if victim == RegularNode && r.regular != [] {
      assert r.regular[0] in r.regular;
    }
  }

  /** The node is chosen, unless it is to be powered off and this fails. */
  function AfterPowerOff(nodes: seq<Node>, n: Node, powerOff: bool, powersOff: bool): Choice {
    if powerOff && !powersOff then Failed else Chosen(Exclude(nodes, Some(n)), Some(n))
  }

  lemma {:induction false} NobodyExcluded(nodes: seq<Node>)
    ensures Exclude(nodes, None) == nodes
  {
    if nodes == [] {
    } else {
      NobodyExcluded(nodes[..|nodes| - 1]);
      assert nodes == nodes[..|nodes| - 1] + [nodes[|nodes| - 1]];
    }
  }

  lemma RolesStayInCluster(nodes: seq<Node>, victim: Victim, r: RoleSet, removed: Option<Node>)
    requires Resolved(nodes, r) && PlaysRole(victim, r, removed) && removed.Some?
    ensures removed.value in nodes
  {
  }

  // ------------------------------------------------------------------ the cluster

  /** The cluster as it really is; a request that does not succeed changes nothing. */
  class Cluster {
    var members: set<Node>
    ghost var history: seq<set<Node>>
    /** Removal requests: the node asked, and the node to remove. */
    ghost var requests: seq<(Node, Node)>

    constructor (nodes: seq<Node>)
      ensures members == NodeSet(nodes) && history == [members] && requests == []
    {
      members, history, requests := NodeSet(nodes), [NodeSet(nodes)], [];
    }

    method Expand(node: Node, succeeds: bool)
      modifies this
      ensures requests == old(requests)
      ensures members == if succeeds then old(members) + {node} else old(members)
      ensures history == old(history) + [members]
    {
      if succeeds {
        members := members + {node};
      }
      history := history + [members];
    }

    method Remove(master: Node, node: Node, succeeds: bool)
      modifies this
      ensures requests == old(requests) + [(master, node)]
      ensures members == if succeeds then old(members) - {node} else old(members)
      ensures history == old(history) + [members]
    {
      requests := requests + [(master, node)];
      if succeeds {
        members := members - {node};
      }
      history := history + [members];
    }
  }

  /** How the fallible steps turn out: the status check before the replacement, the expansion, the checks between
      the two requests, the removal, and the checks at the end. */
  datatype Steps = Steps(activeBefore: bool, expands: bool, between: bool, removes: bool, settles: bool)

  predicate AllSucceed(steps: Steps) {
    steps.activeBefore && steps.expands && steps.between && steps.removes && steps.settles
  }

  datatype Outcome = Recovered | Aborted | Crashed

  /** Membership never strays from N by more than one, and removal is requested from a member that stays. */
  ghost predicate Careful(n: nat, all: set<Node>, history: seq<set<Node>>, requests: seq<(Node, Node)>) {
    && (forall h <- history :: n - 1 <= |h| <= n + 1)
    && (forall r <- requests :: r.0 in all && r.1 in all && r.0 != r.1)
  }

  /** A cluster of all nodes, about to lose `removed` and to get `spare`; `nodes` are the survivors. */
  ghost predicate AboutToReplace(all: set<Node>, nodes: seq<Node>, removed: Node, spare: Node) {
    && removed in all && spare !in all
    && nodes != [] && Distinct(nodes) && NodeSet(nodes) == all - {removed}
  }

  lemma ReplacementSizes(all: set<Node>, nodes: seq<Node>, removed: Node, spare: Node)
    requires AboutToReplace(all, nodes, removed, spare)
    ensures |all + {spare}| == |all| + 1 && |all - {removed}| == |all| - 1 && |all - {removed} + {spare}| == |all|
    ensures all + {spare} - {removed} == all - {removed} + {spare}
    ensures nodes[0] in all && nodes[0] != removed
    ensures NodeSet(nodes + [spare]) == all - {removed} + {spare} && |nodes + [spare]| == |all|
  {
    assert nodes[0] in NodeSet(nodes);
    DistinctCardinality(nodes);
  }

  /** The replacement with the spare node joining first. */
  method ExpandThenRemove(cluster: Cluster, nodes: seq<Node>, removed: Node, spare: Node, steps: Steps)
    returns (ok: bool, after: seq<Node>)
    requires AboutToReplace(cluster.members, nodes, removed, spare)
    requires cluster.history == [cluster.members] && cluster.requests == []
    modifies cluster
    ensures Careful(|old(cluster.members)|, old(cluster.members), cluster.history, cluster.requests)
    ensures ok <==> steps.expands && steps.between && steps.removes && steps.settles
    ensures ok ==> cluster.members == old(cluster.members) - {removed} + {spare} && after == nodes + [spare]
  {
    ReplacementSizes(cluster.members, nodes, removed, spare);
    cluster.Expand(spare, steps.expands);
    if !steps.expands {
      return false, nodes;
    }
    after := nodes + [spare];
    if !steps.between {
      return false, after;
    }
    cluster.Remove(after[0], removed, steps.removes);
    ok := steps.removes && steps.settles;
  }

  /** The replacement with the lost node removed first. */
  method RemoveThenExpand(cluster: Cluster, nodes: seq<Node>, removed: Node, spare: Node, steps: Steps)
    returns (ok: bool, after: seq<Node>)
    requires AboutToReplace(cluster.members, nodes, removed, spare)
    requires cluster.history == [cluster.members] && cluster.requests == []
    modifies cluster
    ensures Careful(|old(cluster.members)|, old(cluster.members), cluster.history, cluster.requests)
    ensures ok <==> steps.expands && steps.between && steps.removes && steps.settles
    ensures ok ==> cluster.members == old(cluster.members) - {removed} + {spare} && after == nodes + [spare]
  {
    ReplacementSizes(cluster.members, nodes, removed, spare);
    cluster.Remove(nodes[0], removed, steps.removes);
    if !steps.removes || !steps.between {
      return false, nodes;
    }
    cluster.Expand(spare, steps.expands);
    if !steps.expands {
      return false, nodes;
    }
    after := nodes + [spare];
    ok := steps.settles;
  }

  /** Both orders; without a survivor the expansion is rejected, and the removal has nobody to ask. */
  method ReplaceNode(cluster: Cluster, remaining: seq<Node>, removed: Node, spare: Node, expandBeforeShrink: bool,
                     steps: Steps)
    returns (outcome: Outcome, nodes: seq<Node>)
    requires removed in cluster.members && spare !in cluster.members
    requires Distinct(remaining) && NodeSet(remaining) == cluster.members - {removed}
    requires cluster.history == [cluster.members] && cluster.requests == []
    modifies cluster
    ensures Careful(|old(cluster.members)|, old(cluster.members), cluster.history, cluster.requests)
    ensures outcome == Recovered <==> remaining != [] && AllSucceed(steps)
    ensures outcome == Crashed <==> remaining == [] && steps.activeBefore && !expandBeforeShrink
    ensures outcome == Recovered ==>
      && cluster.members == old(cluster.members) - {removed} + {spare}
      && NodeSet(nodes) == cluster.members && |nodes| == |cluster.members| == |old(cluster.members)|
  {
    nodes := remaining;
    if !steps.activeBefore {
      outcome := Aborted;
    } else if nodes == [] {
      outcome := if expandBeforeShrink then Aborted else Crashed;
    } else {
      ReplacementSizes(cluster.members, nodes, removed, spare);
      var ok: bool;
      if expandBeforeShrink {
        ok, nodes := ExpandThenRemove(cluster, nodes, removed, spare, steps);
      } else {
        ok, nodes := RemoveThenExpand(cluster, nodes, removed, spare, steps);
      }
      outcome := if ok then Recovered else Aborted;
    }
  }

  /** Without a node to remove the removal request panics, after the expansion if that comes first. */
  method ReplaceNobody(cluster: Cluster, spare: Node, expandBeforeShrink: bool, steps: Steps) returns (outcome: Outcome)
    requires spare !in cluster.members && |cluster.members| >= 1
    requires cluster.history == [cluster.members] && cluster.requests == []
    modifies cluster
    ensures Careful(|old(cluster.members)|, old(cluster.members), cluster.history, cluster.requests)
    ensures outcome ==
      if steps.activeBefore && (expandBeforeShrink ==> steps.expands && steps.between) then Crashed else Aborted
  {
    if !steps.activeBefore {
      return Aborted;
    }
    if expandBeforeShrink {
      cluster.Expand(spare, steps.expands);
      if !steps.expands || !steps.between {
        return Aborted;
      }
    }
    outcome := Crashed;
  }

  /** The part of lossAndRecovery after the choice. */
  method ReplaceChosen(cluster: Cluster, original: seq<Node>, remaining: seq<Node>, removed: Option<Node>, spare: Node,
                       expandBeforeShrink: bool, steps: Steps)
    returns (outcome: Outcome, nodes: seq<Node>)
    requires original != [] && Distinct(original) && spare !in original && cluster.members == NodeSet(original)
    requires remaining == Exclude(original, removed) && (removed.Some? ==> removed.value in original)
    requires cluster.history == [cluster.members] && cluster.requests == []
    modifies cluster
    ensures Careful(|original|, NodeSet(original), cluster.history, cluster.requests)
    ensures outcome == Recovered <==> removed.Some? && |original| >= 2 && AllSucceed(steps)
    ensures outcome == Crashed <==> ReplacementPanics(|original|, removed, expandBeforeShrink, steps)
    ensures outcome == Recovered ==>
      && cluster.members == NodeSet(original) - {removed.value} + {spare}
      && NodeSet(nodes) == cluster.members && |nodes| == |cluster.members| == |original|
  {
    OriginalSizes(original, spare);
    if removed.Some? {
      ExcludeMeans(original, removed.value);
      outcome, nodes := ReplaceNode(cluster, remaining, removed.value, spare, expandBeforeShrink, steps);
    } else {
      nodes := remaining;
      outcome := ReplaceNobody(cluster, spare, expandBeforeShrink, steps);
    }
  }

  /** The test has everything it needs: roles that allow the removal, a node to remove that can be powered off if
      it is to be, another node, and no failing step. */
  predicate Recovers(size: nat, victim: Victim, powerOff: bool, powersOff: bool, roles: Option<RoleSet>, steps: Steps) {
    && roles.Some? && Removable(victim, roles.value) && !MasterMissing(victim, roles.value)
    && (powerOff ==> powersOff)
    && size >= 2 && AllSucceed(steps)
  }

  /** The test panics: on a cluster master that is missing, when it is powered off or removed, or on the first of no
      survivors. */
  predicate Panics(size: nat, victim: Victim, expandBeforeShrink: bool, powerOff: bool, powersOff: bool,
                   roles: Option<RoleSet>, steps: Steps)
  {
    roles.Some? &&
    if MasterMissing(victim, roles.value) then
      powerOff || (steps.activeBefore && (expandBeforeShrink ==> steps.expands && steps.between))
    else
      && Removable(victim, roles.value) && (powerOff ==> powersOff)
      && size == 1 && steps.activeBefore && !expandBeforeShrink
  }

  lemma OutcomeOfChoice(choice: Choice, nodes: seq<Node>, victim: Victim, roles: Option<RoleSet>,
                        expandBeforeShrink: bool, powerOff: bool, powersOff: bool, steps: Steps)
    requires Decided(choice, nodes, victim, roles, powerOff, powersOff)
    ensures Recovers(|nodes|, victim, powerOff, powersOff, roles, steps) <==>
      choice.Chosen? && choice.removed.Some? && |nodes| >= 2 && AllSucceed(steps)
    ensures Panics(|nodes|, victim, expandBeforeShrink, powerOff, powersOff, roles, steps) <==>
      || choice.Panicked?
      || (choice.Chosen? && ReplacementPanics(|nodes|, choice.removed, expandBeforeShrink, steps))
  {
  }

  predicate ReplacementPanics(size: nat, removed: Option<Node>, expandBeforeShrink: bool, steps: Steps) {
    && steps.activeBefore
    && (if removed.None? then expandBeforeShrink ==> steps.expands && steps.between
        else size == 1 && !expandBeforeShrink)
  }

  /** Without a ready pod there is no cluster master: its loss never recovers, and panics in every order unless a step
      fails before. */
  lemma NoReadyPodPanics(nodes: seq<Node>, pods: seq<Pod>, lookups: seq<Option<RoleSet>>, expandBeforeShrink: bool,
                         powerOff: bool, powersOff: bool, steps: Steps)
    requires Ready(pods, nodes) == []
    requires lookups != [] && lookups[0].Some? && IsMaster(Ready(pods, nodes), lookups[0].value.clusterMaster)
    ensures var roles := DecisiveRoles(ClusterMaster, lookups);
      && (Panics(|nodes|, ClusterMaster, expandBeforeShrink, powerOff, powersOff, roles, steps) <==>
            powerOff || (steps.activeBefore && (expandBeforeShrink ==> steps.expands && steps.between)))
      && !Recovers(|nodes|, ClusterMaster, powerOff, powersOff, roles, steps)
  {
    assert !Relocates(ClusterMaster, lookups[0].value);
  }

  /** lossAndRecovery, after the first N provisioned nodes have formed a cluster and with one node to spare.  It
      recovers and panics exactly under the conditions above; when it recovers both orders end with the same N
      members: the first N without the removed node, and the spare. */
  method LossAndRecovery(original: seq<Node>, spare: Node, victim: Victim, expandBeforeShrink: bool, powerOff: bool,
                         lookups: seq<Option<RoleSet>>, powersOff: bool, pick: nat, steps: Steps)
    returns (outcome: Outcome, cluster: Cluster, choice: Choice, nodes: seq<Node>)
    requires original != [] && Distinct(original) && spare !in original
    requires forall l <- lookups :: l.Some? ==> Resolved(original, l.value)
    ensures fresh(cluster)
    ensures Careful(|original|, NodeSet(original), cluster.history, cluster.requests)
    ensures outcome == Recovered <==>
      Recovers(|original|, victim, powerOff, powersOff, DecisiveRoles(victim, lookups), steps)
    ensures outcome == Crashed <==>
      Panics(|original|, victim, expandBeforeShrink, powerOff, powersOff, DecisiveRoles(victim, lookups), steps)
    ensures outcome == Recovered ==>
      && choice.Chosen? && choice.removed.Some? && choice.removed.value in original
      && PlaysRole(victim, DecisiveRoles(victim, lookups).value, choice.removed)
      && cluster.members == NodeSet(original) - {choice.removed.value} + {spare}
      && NodeSet(nodes) == cluster.members && |nodes| == |cluster.members| == |original|
  {
    nodes, outcome := original, Aborted;
    OriginalSizes(original, spare);
    cluster := new Cluster(original);
    choice := RemoveNode(original, victim, lookups, powerOff, powersOff, pick);
    ghost var roles := DecisiveRoles(victim, lookups);
    OutcomeOfChoice(choice, original, victim, roles, expandBeforeShrink, powerOff, powersOff, steps);
    if choice.Panicked? {
      outcome := Crashed;
    } else if choice.Chosen? {
      assert roles in lookups;
      if choice.removed.Some? {
        RolesStayInCluster(original, victim, roles.value, choice.removed);
      }
      outcome, nodes :=
        ReplaceChosen(cluster, original, choice.remaining, choice.removed, spare, expandBeforeShrink, steps);
    }
  }

  lemma OriginalSizes(original: seq<Node>, spare: Node)
    requires Distinct(original) && spare !in original
    ensures |NodeSet(original)| == |original| && |NodeSet(original) + {spare}| == |original| + 1
    ensures spare !in NodeSet(original)
  {
    DistinctCardinality(original);
  }
}
