/** Highlighting of the active node's downstream path: the adjacency index
    built once from the edge list, and the breadth-first traversal that
    collects every node and edge reachable from the active node. */
module Reachability {
  import opened Seqs
  import opened Flowchart

  /** The edges leaving `id`, in declaration order. */
  function Outgoing(edges: seq<Edge>, id: NodeId): seq<Edge> {
    Filter((e: Edge) => e.from == id, edges)
  }

  /** `outMap`: for each id with at least one outgoing edge, those edges in the
      order the `forEach` pushed them. */
  function OutMap(edges: seq<Edge>): (m: map<NodeId, seq<Edge>>)
    ensures forall id :: id in m <==> exists e :: e in edges && e.from == id
    ensures forall id :: id in m ==> m[id] == Outgoing(edges, id)
    decreases |edges|
  {
    if edges == [] then map[]
    else
      var init := edges[..|edges| - 1];
      var e := edges[|edges| - 1];
      assert edges == init + [e];
      var m := OutMap(init);
      assert e.from !in m ==> Outgoing(init, e.from) == [] by {
        var o := Outgoing(init, e.from);
        if |o| > 0 { assert o[0] in o; }
      }
      m[e.from := (if e.from in m then m[e.from] else []) + [e]]
  }

  /** `outMap[id] || []`: the traversal's view of the index. */
  function Outs(m: map<NodeId, seq<Edge>>, id: NodeId): seq<Edge> {
    if id in m then m[id] else []
  }

  /** Looking an id up in the index yields exactly its outgoing edges, in
      declaration order, and nothing for an id without any. */
  lemma OutsIsOutgoing(edges: seq<Edge>, id: NodeId)
    ensures Outs(OutMap(edges), id) == Outgoing(edges, id)
    ensures forall e :: e in Outs(OutMap(edges), id) <==> e in edges && e.from == id
    ensures IsSubsequence(Outs(OutMap(edges), id), edges)
  {
    var m := OutMap(edges);
    if id !in m {
      var o := Outgoing(edges, id);
      if |o| > 0 {
        assert o[0] in o;
      }
    }
    FilterIsSubsequence((e: Edge) => e.from == id, edges);
  }

  /** The key the highlight set stores for an edge: `${from}->${to}`. */
  function EdgeKey(e: Edge): string {
    e.from.Name() + "->" + e.to.Name()
  }

  /** The highlight keys of the edges leaving the node set `s`. */
  function KeysFrom(edges: seq<Edge>, s: set<NodeId>): set<string> {
    set e | e in edges && e.from in s :: EdgeKey(e)
  }

  /** Adding `id` to the visited set adds the keys of its outgoing edges. */
  lemma KeysFromAdd(edges: seq<Edge>, s: set<NodeId>, id: NodeId, outs: seq<Edge>)
    requires forall e :: e in outs <==> e in edges && e.from == id
    ensures KeysFrom(edges, s + {id}) == KeysFrom(edges, s) + set e | e in outs :: EdgeKey(e)
  {
  }

  predicate HasEdge(edges: seq<Edge>, a: NodeId, b: NodeId) {
    exists e :: e in edges && e.from == a && e.to == b
  }

  /** `p` is a non-empty walk along edges. */
  ghost predicate IsPath(edges: seq<Edge>, p: seq<NodeId>) {
    |p| >= 1 && forall i :: 0 <= i < |p| - 1 ==> HasEdge(edges, p[i], p[i + 1])
  }

  /** `b` lies downstream of `a` (or is `a`). */
  ghost predicate Reachable(edges: seq<Edge>, a: NodeId, b: NodeId) {
    exists p :: IsPath(edges, p) && p[0] == a && p[|p| - 1] == b
  }

  /** Every edge leaving `s` lands in `s`. */
  ghost predicate Closed(edges: seq<Edge>, s: set<NodeId>) {
    forall e :: e in edges && e.from in s ==> e.to in s
  }

  lemma ReachableRefl(edges: seq<Edge>, a: NodeId)
    ensures Reachable(edges, a, a)
  {
    assert IsPath(edges, [a]);
  }

  /** Following one more edge from a reachable node reaches its target. */
  lemma ReachableStep(edges: seq<Edge>, a: NodeId, e: Edge)
    requires Reachable(edges, a, e.from)
    requires e in edges
    ensures Reachable(edges, a, e.to)
  {
    var p :| IsPath(edges, p) && p[0] == a && p[|p| - 1] == e.from;
    var p' := p + [e.to];
    assert HasEdge(edges, p'[|p| - 1], p'[|p|]);
    assert IsPath(edges, p');
  }

  /** A walk that starts in an edge-closed set stays in it. */
  lemma {:induction false} PathStaysInClosed(edges: seq<Edge>, s: set<NodeId>, p: seq<NodeId>, n: nat)
    requires Closed(edges, s) && IsPath(edges, p) && p[0] in s
    requires n < |p|
    ensures p[n] in s
  {
    if n > 0 {
      PathStaysInClosed(edges, s, p, n - 1);
      assert HasEdge(edges, p[n - 1], p[n]);
    }
  }

  /** An edge-closed set holding `a` holds everything downstream of `a`. */
  lemma ClosedContainsReachable(edges: seq<Edge>, s: set<NodeId>, a: NodeId, b: NodeId)
    requires Closed(edges, s) && a in s && Reachable(edges, a, b)
    ensures b in s
  {
    var p :| IsPath(edges, p) && p[0] == a && p[|p| - 1] == b;
    PathStaysInClosed(edges, s, p, |p| - 1);
  }

  /** The targets of `outs`, in order: what the `forEach` appends to the queue. */
  function Targets(outs: seq<Edge>): (r: seq<NodeId>)
    ensures |r| == |outs|
    ensures forall i :: 0 <= i < |outs| ==> r[i] == outs[i].to
  {
    seq(|outs|, i requires 0 <= i < |outs| => outs[i].to)
  }

  function EdgeTargets(edges: seq<Edge>): set<NodeId> {
    set e | e in edges :: e.to
  }

  /** What expanding `id` pushes: targets of its outgoing edges, all downstream
      of `active` when `id` is, and covering every edge leaving `id`. */
  lemma PushedTargets(edges: seq<Edge>, active: NodeId, id: NodeId, outs: seq<Edge>)
    requires forall e :: e in outs <==> e in edges && e.from == id
    requires Reachable(edges, active, id)
    ensures forall x :: x in Targets(outs) ==> x in EdgeTargets(edges) && Reachable(edges, active, x)
    ensures forall e :: e in edges && e.from == id ==> e.to in Targets(outs)
  {
    var pushed := Targets(outs);
    forall x | x in pushed ensures x in EdgeTargets(edges) && Reachable(edges, active, x) {
      var i :| 0 <= i < |outs| && pushed[i] == x;
      assert outs[i] in outs;
      ReachableStep(edges, active, outs[i]);
    }
    forall e | e in edges && e.from == id ensures e.to in pushed {
      var i :| 0 <= i < |outs| && outs[i] == e;
      assert pushed[i] == e.to;
    }
  }

  /** The traversal's loop invariant: everything visited or queued is
      downstream of `active` (and is `active` or an edge target); `active` has
      been visited or is still queued; every edge leaving the visited set
      ends in a visited or queued node; and the edge set holds the keys of the
      edges leaving the visited set. */
  ghost predicate BfsInv(edges: seq<Edge>, active: NodeId, nodeSet: set<NodeId>, edgeSet: set<string>, q: seq<NodeId>) {
    var universe := {active} + EdgeTargets(edges);
    && nodeSet <= universe
    && (forall x :: x in q ==> x in universe && Reachable(edges, active, x))
    && (forall v :: v in nodeSet ==> Reachable(edges, active, v))
    && (active in nodeSet || active in q)
    && (forall e :: e in edges && e.from in nodeSet ==> e.to in nodeSet || e.to in q)
    && edgeSet == KeysFrom(edges, nodeSet)
  }

  /** Dropping an already-visited id from the queue keeps the invariant. */
  lemma BfsSkip(edges: seq<Edge>, active: NodeId, nodeSet: set<NodeId>, edgeSet: set<string>, q: seq<NodeId>)
    requires BfsInv(edges, active, nodeSet, edgeSet, q)
    requires |q| > 0 && q[0] in nodeSet
    ensures BfsInv(edges, active, nodeSet, edgeSet, q[1..])
  {
    assert forall x :: x in q[1..] ==> x in q;
    assert forall x :: x in q ==> x == q[0] || x in q[1..];
  }

  /** Visiting an unvisited id and queueing its targets keeps the invariant. */
  lemma BfsVisit(edges: seq<Edge>, active: NodeId, nodeSet: set<NodeId>, edgeSet: set<string>, q: seq<NodeId>,
                 outs: seq<Edge>)
    requires BfsInv(edges, active, nodeSet, edgeSet, q)
    requires |q| > 0 && q[0] !in nodeSet
    requires forall e :: e in outs <==> e in edges && e.from == q[0]
    ensures BfsInv(edges, active, nodeSet + {q[0]}, edgeSet + set e | e in outs :: EdgeKey(e), q[1..] + Targets(outs))
    ensures var universe := {active} + EdgeTargets(edges);
            |universe - (nodeSet + {q[0]})| < |universe - nodeSet|
  {
    var id := q[0];
    var universe := {active} + EdgeTargets(edges);
    assert universe - (nodeSet + {id}) == (universe - nodeSet) - {id};
    assert forall x :: x in q[1..] ==> x in q;
    assert forall x :: x in q ==> x == id || x in q[1..];
    KeysFromAdd(edges, nodeSet, id, outs);
    PushedTargets(edges, active, id, outs);
  }

  /** `pathSets`: breadth-first traversal from `active` over a queue and a
      visited set. Already-visited ids are skipped, so duplicate queue entries
      and cycles cannot make it loop. The node set is exactly the set of nodes
      downstream of `active`; the edge set holds the keys of exactly the edges
      leaving it, and both ends of every such edge are in the node set. */
  method PathSets(edges: seq<Edge>, active: NodeId) returns (nodeSet: set<NodeId>, edgeSet: set<string>)
    ensures active in nodeSet
    ensures forall v :: v in nodeSet <==> Reachable(edges, active, v)
    ensures Closed(edges, nodeSet)
    ensures edgeSet == KeysFrom(edges, nodeSet)
    ensures forall k :: k in edgeSet ==>
              exists e :: e in edges && EdgeKey(e) == k && e.from in nodeSet && e.to in nodeSet
  {
    var outMap := OutMap(edges);
    nodeSet := {};
    edgeSet := {};
    var q := [active];
    ghost var universe := {active} + EdgeTargets(edges);
    ReachableRefl(edges, active);
    assert BfsInv(edges, active, nodeSet, edgeSet, q);
    while |q| > 0
      invariant BfsInv(edges, active, nodeSet, edgeSet, q)
      decreases |universe - nodeSet|, |q|
    {
      var id := q[0];
      if id in nodeSet {
        BfsSkip(edges, active, nodeSet, edgeSet, q);
        q := q[1..];
      } else {
        var outs := Outs(outMap, id);
        OutsIsOutgoing(edges, id);
        BfsVisit(edges, active, nodeSet, edgeSet, q, outs);
        nodeSet := nodeSet + {id};
        edgeSet := edgeSet + set e | e in outs :: EdgeKey(e);
        q := q[1..] + Targets(outs);
      }
    }
    BfsDone(edges, active, nodeSet, edgeSet);
  }

  /** With the queue empty, the invariant gives the traversal's postcondition. */
  lemma BfsDone(edges: seq<Edge>, active: NodeId, nodeSet: set<NodeId>, edgeSet: set<string>)
    requires BfsInv(edges, active, nodeSet, edgeSet, [])
    ensures active in nodeSet
    ensures forall v :: v in nodeSet <==> Reachable(edges, active, v)
    ensures Closed(edges, nodeSet)
    ensures edgeSet == KeysFrom(edges, nodeSet)
    ensures forall k :: k in edgeSet ==>
              exists e :: e in edges && EdgeKey(e) == k && e.from in nodeSet && e.to in nodeSet
  {
    forall v | Reachable(edges, active, v) ensures v in nodeSet {
      ClosedContainsReachable(edges, nodeSet, active, v);
    }
    forall k | k in edgeSet
      ensures exists e :: e in edges && EdgeKey(e) == k && e.from in nodeSet && e.to in nodeSet
    {
      var e :| e in edges && e.from in nodeSet && EdgeKey(e) == k;
      assert e.to in nodeSet;
    }
  }

  /** The nodes downstream of `computeVariance` in the declared graph. */
  const VarianceDownstream: set<NodeId> :=
    {computeVariance, ok, flagDaily, flagImmediate, missingAny,
     investigateCaves, investigateIMBA, addComments, supervisor, resolve}

  lemma VarianceDownstreamClosed()
    ensures Closed(Edges, VarianceDownstream)
  {
    forall e | e in Edges && e.from in VarianceDownstream ensures e.to in VarianceDownstream {
      EdgeInGroup(e);
    }
  }

  /** A walk given node by node reaches its last node from its first. */
  lemma WalkReaches(edges: seq<Edge>, p: seq<NodeId>)
    requires |p| >= 1
    requires forall i :: 0 <= i < |p| - 1 ==> HasEdge(edges, p[i], p[i + 1])
    ensures Reachable(edges, p[0], p[|p| - 1])
  {
    assert IsPath(edges, p);
  }

  lemma HasEdgeVia(edges: seq<Edge>, e: Edge)
    requires e in edges
    ensures HasEdge(edges, e.from, e.to)
  {
  }

  /** The hops from `computeVariance` to its four outcomes. */
  predicate OutcomeHops(edges: seq<Edge>) {
    && HasEdge(edges, computeVariance, ok)
    && HasEdge(edges, computeVariance, flagDaily)
    && HasEdge(edges, computeVariance, flagImmediate)
    && HasEdge(edges, computeVariance, missingAny)
  }

  /** The hops from the daily flag through investigation to resolution. */
  predicate FollowUpHops(edges: seq<Edge>) {
    && HasEdge(edges, flagDaily, investigateCaves)
    && HasEdge(edges, flagDaily, investigateIMBA)
    && HasEdge(edges, investigateCaves, addComments)
    && HasEdge(edges, addComments, supervisor)
    && HasEdge(edges, supervisor, resolve)
  }

  lemma DeclaredOutcomeHops()
    ensures OutcomeHops(Edges)
  {
    var vs := VarianceEdges;
    assert vs[0] in Edges && vs[1] in Edges && vs[2] in Edges && vs[3] in Edges;
    HasEdgeVia(Edges, vs[0]);
    HasEdgeVia(Edges, vs[1]);
    HasEdgeVia(Edges, vs[2]);
    HasEdgeVia(Edges, vs[3]);
  }

  lemma DeclaredInvestigationHops()
    ensures HasEdge(Edges, flagDaily, investigateCaves)
    ensures HasEdge(Edges, flagDaily, investigateIMBA)
  {
    var ws := InvestigationEdges;
    assert ws[0] in Edges && ws[1] in Edges;
    HasEdgeVia(Edges, ws[0]);
    HasEdgeVia(Edges, ws[1]);
  }

  lemma DeclaredEscalationHops()
    ensures HasEdge(Edges, investigateCaves, addComments)
    ensures HasEdge(Edges, addComments, supervisor)
    ensures HasEdge(Edges, supervisor, resolve)
  {
    var xs := EscalationEdges;
    assert xs[0] in Edges && xs[2] in Edges && xs[3] in Edges;
    HasEdgeVia(Edges, xs[0]);
    HasEdgeVia(Edges, xs[2]);
    HasEdgeVia(Edges, xs[3]);
  }

  lemma DeclaredFollowUpHops()
    ensures FollowUpHops(Edges)
  {
    DeclaredInvestigationHops();
    DeclaredEscalationHops();
  }

  /** In any graph with those hops, every node of `VarianceDownstream` is
      downstream of `computeVariance`. */
  lemma ReachesVarianceDownstream(edges: seq<Edge>, v: NodeId)
    requires OutcomeHops(edges) && FollowUpHops(edges)
    requires v in VarianceDownstream
    ensures Reachable(edges, computeVariance, v)
  {
    var a := computeVariance;
    if v == a {
      WalkReaches(edges, [a]);
    } else if v in {ok, flagDaily, flagImmediate, missingAny} {
      WalkReaches(edges, [a, v]);
    } else if v == investigateCaves || v == investigateIMBA {
      WalkReaches(edges, [a, flagDaily, v]);
    } else if v == addComments {
      WalkReaches(edges, [a, flagDaily, investigateCaves, v]);
    } else if v == supervisor {
      WalkReaches(edges, [a, flagDaily, investigateCaves, addComments, v]);
    } else {
      WalkReaches(edges, [a, flagDaily, investigateCaves, addComments, supervisor, v]);
    }
  }

  /** Selecting `computeVariance` highlights its four outcomes and everything
      after them, and none of the steps before it or the month-change steps. */
  lemma VarianceReach()
    ensures forall v :: Reachable(Edges, computeVariance, v) <==> v in VarianceDownstream
  {
    VarianceDownstreamClosed();
    forall v | Reachable(Edges, computeVariance, v) ensures v in VarianceDownstream {
      ClosedContainsReachable(Edges, VarianceDownstream, computeVariance, v);
    }
    forall v | v in VarianceDownstream ensures Reachable(Edges, computeVariance, v) {
      DeclaredOutcomeHops();
      DeclaredFollowUpHops();
      ReachesVarianceDownstream(Edges, v);
    }
  }

  /** Any node set that is exactly what `computeVariance` reaches in the
      declared graph, as the traversal's result is, is `VarianceDownstream`. */
  lemma VarianceHighlight(nodeSet: set<NodeId>)
    requires forall v :: v in nodeSet <==> Reachable(Edges, computeVariance, v)
    ensures nodeSet == VarianceDownstream
  {
    VarianceReach();
  }
}
