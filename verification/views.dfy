/** What the flowchart draws: every node, dimmed when the role filter
    excludes it, and the edges the focus selector keeps. */
module ViewFilters {
  import opened Wrappers
  import opened Seqs
  import opened Flowchart

  /** The role selector: "All", or one of the legend's roles. */
  datatype RoleFilter = AllRoles | OnlyRole(role: Role)

  /** `roleDim`: a role is selected and the node belongs to another one.
      A node stays lit exactly under "All" or under its own role. */
  predicate RoleDim(filter: RoleFilter, n: Node): (r: bool)
    ensures !r <==> filter == AllRoles || filter == OnlyRole(n.role)
  {
    filter != AllRoles && n.role != filter.role
  }

  /** A node as rendered, with its dimming flag. */
  datatype ShownNode = ShownNode(node: Node, dim: bool)

  /** `filtered`: every node, in order, tagged with whether it is dimmed. */
  function Filtered(filter: RoleFilter, nodes: seq<Node>): (r: seq<ShownNode>)
    ensures |r| == |nodes|
    ensures forall i :: 0 <= i < |nodes| ==> r[i].node == nodes[i]
    ensures forall i :: 0 <= i < |nodes| ==> r[i].dim == RoleDim(filter, nodes[i])
  {
    seq(|nodes|, i requires 0 <= i < |nodes| => ShownNode(nodes[i], RoleDim(filter, nodes[i])))
  }

  /** Under "All" nothing is dimmed, and dimming never drops a node. */
  lemma AllDimsNothing(nodes: seq<Node>)
    ensures forall s :: s in Filtered(AllRoles, nodes) ==> !s.dim
    ensures forall n :: n in nodes <==> exists s :: s in Filtered(AllRoles, nodes) && s.node == n
  {
    var r := Filtered(AllRoles, nodes);
    forall n | n in nodes ensures exists s :: s in r && s.node == n {
      var i :| 0 <= i < |nodes| && nodes[i] == n;
      assert r[i] in r;
    }
  }

  /** With one role selected, the undimmed nodes are exactly the nodes of that role. */
  lemma OnlyRoleLeavesItsNodes(role: Role, nodes: seq<Node>)
    ensures forall n :: (exists s :: s in Filtered(OnlyRole(role), nodes) && s.node == n && !s.dim)
                        <==> n in nodes && n.role == role
  {
    var r := Filtered(OnlyRole(role), nodes);
    forall n | n in nodes && n.role == role
      ensures exists s :: s in r && s.node == n && !s.dim
    {
      var i :| 0 <= i < |nodes| && nodes[i] == n;
      assert r[i] in r;
    }
    forall s | s in r && !s.dim
      ensures s.node in nodes && s.node.role == role
    {
      var i :| 0 <= i < |r| && r[i] == s;
      assert nodes[i] in nodes;
    }
  }

  /** The step a narrowed focus keeps the edges into, if any. */
  function FocusTarget(focus: string): Option<NodeId> {
    if focus == "minor" then Some(flagDaily)
    else if focus == "major" then Some(flagImmediate)
    else if focus == "mismatch" then Some(missingAny)
    else None
  }

  /** `edgeMatchesFocus`: "all" keeps everything, and each narrowed focus keeps
      the edges by their target step, not by their outcome label. */
  predicate EdgeMatchesFocus(focus: string, e: Edge): (r: bool)
    ensures r <==> focus == "all" || FocusTarget(focus) == Some(e.to)
  {
    if focus == "all" then true
    else if focus == "minor" && e.to == flagDaily then true
    else if focus == "major" && e.to == flagImmediate then true
    else if focus == "mismatch" && e.to == missingAny then true
    else false
  }

  /** `edgesToRender`: the edges the focus keeps, in declaration order. */
  function EdgesToRender(focus: string, edges: seq<Edge>): (r: seq<Edge>)
    ensures IsSubsequence(r, edges)
    ensures forall e :: e in r <==> e in edges && (focus == "all" || FocusTarget(focus) == Some(e.to))
  {
    FilterIsSubsequence((e: Edge) => EdgeMatchesFocus(focus, e), edges);
    Filter((e: Edge) => EdgeMatchesFocus(focus, e), edges)
  }

  /** "all" keeps every edge, in order. */
  lemma FocusAllKeepsEverything(edges: seq<Edge>)
    ensures EdgesToRender("all", edges) == edges
  {
    FilterAll((e: Edge) => EdgeMatchesFocus("all", e), edges);
  }

  /** A focus value the selector does not offer hides every edge. */
  lemma UnknownFocusHidesAll(focus: string, edges: seq<Edge>)
    requires focus != "all" && FocusTarget(focus) == None
    ensures EdgesToRender(focus, edges) == []
  {
    FilterNone((e: Edge) => EdgeMatchesFocus(focus, e), edges);
  }

  /** On the declared graph, matching by target coincides with matching by
      outcome label: the only edge into each flag step carries that flag's
      label, and no other edge does. */
  lemma DeclaredMinorMatchesLabel()
    ensures forall e :: e in Edges ==> (e.to == flagDaily <==> e.outcome == Some(Over5))
  {
    forall e | e in Edges ensures e.to == flagDaily <==> e.outcome == Some(Over5) {
      EdgeInGroup(e);
    }
  }

  lemma DeclaredMajorMatchesLabel()
    ensures forall e :: e in Edges ==> (e.to == flagImmediate <==> e.outcome == Some(Over25))
  {
    forall e | e in Edges ensures e.to == flagImmediate <==> e.outcome == Some(Over25) {
      EdgeInGroup(e);
    }
  }

  lemma DeclaredMismatchMatchesLabel()
    ensures forall e :: e in Edges ==> (e.to == missingAny <==> e.outcome == Some(MissingOrMismatch))
  {
    forall e | e in Edges ensures e.to == missingAny <==> e.outcome == Some(MissingOrMismatch) {
      EdgeInGroup(e);
    }
  }
}
