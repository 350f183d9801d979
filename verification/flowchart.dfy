/** The budget-pacing workflow graph: its fifteen steps, nineteen transitions,
    the id-to-node lookup table and the self-tests the page runs over them. */
module Flowchart {
  import opened Wrappers

  /** The step identifiers. The source keys steps by these strings; `Name`
      gives back the string, and distinct ids have distinct names. */
  datatype NodeId =
    | start | pullReports | updateSheet | computeVariance | ok | flagDaily | flagImmediate
    | missingAny | investigateCaves | investigateIMBA | addComments | supervisor | resolve
    | midMonth | newMonth
  {
    function Name(): string {
      match this
      case start => "start"
      case pullReports => "pullReports"
      case updateSheet => "updateSheet"
      case computeVariance => "computeVariance"
      case ok => "ok"
      case flagDaily => "flagDaily"
      case flagImmediate => "flagImmediate"
      case missingAny => "missingAny"
      case investigateCaves => "investigateCaves"
      case investigateIMBA => "investigateIMBA"
      case addComments => "addComments"
      case supervisor => "supervisor"
      case resolve => "resolve"
      case midMonth => "midMonth"
      case newMonth => "newMonth"
    }

    /** The id a string names, if any: the inverse of `Name`. */
    static function FromName(s: string): (r: Option<NodeId>)
    {
      if s == "start" then Some(start) else
      if s == "pullReports" then Some(pullReports) else
      if s == "updateSheet" then Some(updateSheet) else
      if s == "computeVariance" then Some(computeVariance) else
      if s == "ok" then Some(ok) else
      if s == "flagDaily" then Some(flagDaily) else
      if s == "flagImmediate" then Some(flagImmediate) else
      if s == "missingAny" then Some(missingAny) else
      if s == "investigateCaves" then Some(investigateCaves) else
      if s == "investigateIMBA" then Some(investigateIMBA) else
      if s == "addComments" then Some(addComments) else
      if s == "supervisor" then Some(supervisor) else
      if s == "resolve" then Some(resolve) else
      if s == "midMonth" then Some(midMonth) else
      if s == "newMonth" then Some(newMonth) else
      None
    }
  }

  /** Every id is recovered from its name, so no two ids share a name. */
  lemma NameRoundTrip(id: NodeId)
    ensures NodeId.FromName(id.Name()) == Some(id)
  {
  }

  /** The responsible party of a workflow step; the four keys of the legend. */
  datatype Role = Ops | Supervisor | Data | Campaign

  /** A workflow step. `col` and `row` are its abstract grid position (the row
      may be fractional for visual offsetting); `notes` are its annotations. */
  datatype Node = Node(id: NodeId, title: string, subtitle: string, role: Role,
                       col: real, row: real, notes: seq<string>)

  /** The four outcomes of the variance check that label edges. */
  datatype Outcome = WithinBand | Over5 | Over25 | MissingOrMismatch
  {
    /** The label text drawn on the edge. */
    function Label(): string {
      match this
      case WithinBand => "±5%"
      case Over5 => ">5%"
      case Over25 => ">25%"
      case MissingOrMismatch => "Missing/Mismatch"
    }
  }

  /** Distinct outcomes carry distinct labels. */
  lemma LabelInjective(a: Outcome, b: Outcome)
    ensures a.Label() == b.Label() <==> a == b
  {
    if a != b {
      var la, lb := a.Label(), b.Label();
      assert la[0] != lb[0] || la[1] != lb[1];
    }
  }

  /** An edge carries the label of `o` exactly when its outcome is `o`. */
  lemma LabelIs(o: Outcome)
    ensures forall e: Edge :: HasLabel(e, o.Label()) <==> e.outcome == Some(o)
  {
    forall e: Edge | e.outcome.Some? {
      LabelInjective(e.outcome.value, o);
    }
  }

  /** A directed transition between two steps, with an optional outcome label
      (`label` is a reserved word in Dafny). */
  datatype Edge = Edge(from: NodeId, to: NodeId, outcome: Option<Outcome>)

  /** `e.label === text`. */
  predicate HasLabel(e: Edge, text: string) {
    e.outcome.Some? && e.outcome.value.Label() == text
  }

  /** The declared ids, in declaration order. */
  const DeclaredIds: seq<NodeId> := [start, pullReports, updateSheet, computeVariance, ok, flagDaily,
                                     flagImmediate, missingAny, investigateCaves, investigateIMBA,
                                     addComments, supervisor, resolve, midMonth, newMonth]

  /** The title shown on each step's card. */
  function Title(id: NodeId): string {
    match id
    case start => "Start of Day"
    case pullReports => "Pull Spend Reports"
    case updateSheet => "Update Pacing Sheet"
    case computeVariance => "Compute Variance vs Budget"
    case ok => "Within ±5%"
    case flagDaily => "Over/Under > 5%"
    case flagImmediate => "> 25% Variance"
    case missingAny => "Missing or Mismatched"
    case investigateCaves => "Verify Caves Budget"
    case investigateIMBA => "Verify IMBA Budget"
    case addComments => "Add Comments"
    case supervisor => "Supervisor Review"
    case resolve => "Resolve + Communicate"
    case midMonth => "Mid‑Month Budget Changes"
    case newMonth => "New Month Roll‑over"
  }

  /** The subtitle under each step's title. */
  function Subtitle(id: NodeId): string {
    match id
    case start => "Open platforms and reports"
    case pullReports => "DV360, Meta, Google Ads, Broadsign, Looker Studio"
    case updateSheet => "Paste or sync into Budget Pacing Sheet"
    case computeVariance => "Per campaign variance"
    case ok => "Continue monitoring"
    case flagDaily => "Add to daily email"
    case flagImmediate => "Immediate escalation"
    case missingAny => "In sheet but not in spend reports, or vice versa"
    case investigateCaves => "Mitch checks sheet vs Caves budget"
    case investigateIMBA => "Zaine checks sheet vs IMBA"
    case addComments => "Callan updates sheet annotations"
    case supervisor => "Reuben supervision"
    case resolve => "Adjust budgets / fix tracking / pause where needed"
    case midMonth => "Mitch/Zaine → Callan or self-update"
    case newMonth => "Add City Cave tab, roll multi‑month campaigns"
  }

  /** The party responsible for each step. */
  function RoleOf(id: NodeId): Role {
    match id
    case start => Ops
    case pullReports => Data
    case updateSheet => Ops
    case computeVariance => Data
    case ok => Campaign
    case flagDaily => Ops
    case flagImmediate => Supervisor
    case missingAny => Data
    case investigateCaves => Data
    case investigateIMBA => Data
    case addComments => Ops
    case supervisor => Supervisor
    case resolve => Campaign
    case midMonth => Data
    case newMonth => Ops
  }

  /** The grid column of each step. */
  function Col(id: NodeId): real {
    match id
    case start => 0.0
    case pullReports => 1.0
    case updateSheet => 2.0
    case computeVariance => 3.0
    case ok => 4.0
    case flagDaily => 4.0
    case flagImmediate => 4.0
    case missingAny => 3.0
    case investigateCaves => 5.0
    case investigateIMBA => 5.0
    case addComments => 5.0
    case supervisor => 6.0
    case resolve => 7.0
    case midMonth => 2.0
    case newMonth => 3.0
  }

  /** The grid row of each step; fractional rows offset a card vertically. */
  function Row(id: NodeId): real {
    match id
    case start => 0.0
    case pullReports => 0.0
    case updateSheet => 0.0
    case computeVariance => 0.0
    case ok => -0.6
    case flagDaily => 0.6
    case flagImmediate => 1.8
    case missingAny => 1.4
    case investigateCaves => 0.2
    case investigateIMBA => 1.0
    case addComments => 1.8
    case supervisor => 1.0
    case resolve => 1.0
    case midMonth => 2.2
    case newMonth => 2.2
  }

  /** The annotations listed in each step's detail panel. */
  function Notes(id: NodeId): seq<string> {
    match id
    case start => ["Daily cadence for pacing checks.", "Scope: TFM Clients and City Cave."]
    case pullReports => ["Filter to prior day spend.", "Ensure data freshness and matching campaign IDs."]
    case updateSheet => ["Highlight finished campaigns in green.", "Highlight multi-month campaigns in yellow."]
    case computeVariance => ["Within ±5% = OK.", "> 5% off = Flag in daily email.", "> 25% off = Immediate flag."]
    case ok => ["No action needed beyond routine checks."]
    case flagDaily => ["Subject: Date – TFM Clients – Over and Under.", "Attach screengrabs or % over/under by platform."]
    case flagImmediate => ["Escalate ASAP for intervention."]
    case missingAny => ["If not in sheet but in reports → flag immediately.", "If in sheet but not in reports → flag immediately."]
    case investigateCaves => ["If variance persists after update, verify budget source.", "Respond per cave with issue/solution/no issue."]
    case investigateIMBA => ["If variance persists after update, verify budget source.", "Respond per campaign with issue/solution/no issue."]
    case addComments => ["Document outcomes and next steps in the sheet."]
    case supervisor => ["Ensure pacing issues responded to by EOD."]
    case resolve => ["Implement fix and confirm in sheet/email.", "Resume monitoring."]
    case midMonth => ["Communicate changes promptly to avoid drift.", "Mitch handles City Cave, Zaine handles TFM clients."]
    case newMonth => ["First working day of new month.", "Update previous month spend totals.", "Send IMBAs to Callan or update directly."]
  }

  /** The declaration of each step. */
  function Declared(id: NodeId): (n: Node)
    ensures n.id == id
  {
    Node(id, Title(id), Subtitle(id), RoleOf(id), Col(id), Row(id), Notes(id))
  }

  /** `NODES`: the declarations in declaration order. */
  const Nodes: seq<Node> := seq(|DeclaredIds|, i requires 0 <= i < |DeclaredIds| => Declared(DeclaredIds[i]))

  /** `EDGES`, in declaration order, grouped by stage of the workflow. */
  const Edges: seq<Edge> := SetupEdges + VarianceEdges + InvestigationEdges + EscalationEdges + RolloverEdges

  /** From the start of day to the variance computation. */
  const SetupEdges: seq<Edge> := [
    Edge(start, pullReports, None),
    Edge(pullReports, updateSheet, None),
    Edge(updateSheet, computeVariance, None)
  ]

  /** The variance check's four labelled outcomes. */
  const VarianceEdges: seq<Edge> := [
    Edge(computeVariance, ok, Some(WithinBand)),
    Edge(computeVariance, flagDaily, Some(Over5)),
    Edge(computeVariance, flagImmediate, Some(Over25)),
    Edge(computeVariance, missingAny, Some(MissingOrMismatch))
  ]

  /** Every flag leads to both budget verifications. */
  const InvestigationEdges: seq<Edge> := [
    Edge(flagDaily, investigateCaves, None),
    Edge(flagDaily, investigateIMBA, None),
    Edge(flagImmediate, investigateCaves, None),
    Edge(flagImmediate, investigateIMBA, None),
    Edge(missingAny, investigateCaves, None),
    Edge(missingAny, investigateIMBA, None)
  ]

  /** From the verifications through comments and review to resolution. */
  const EscalationEdges: seq<Edge> := [
    Edge(investigateCaves, addComments, None),
    Edge(investigateIMBA, addComments, None),
    Edge(addComments, supervisor, None),
    Edge(supervisor, resolve, None)
  ]

  /** Budget changes and the month roll-over feed back into the sheet update. */
  const RolloverEdges: seq<Edge> := [
    Edge(midMonth, updateSheet, None),
    Edge(newMonth, updateSheet, None)
  ]

  /** Every declared edge belongs to one of the stage groups. */
  lemma EdgeInGroup(e: Edge)
    requires e in Edges
    ensures e in SetupEdges || e in VarianceEdges || e in InvestigationEdges
            || e in EscalationEdges || e in RolloverEdges
  {
  }

  /** The ids the self-test requires to be declared. */
  const CriticalIds: seq<NodeId> := [computeVariance, flagDaily, flagImmediate, missingAny,
                                     investigateCaves, investigateIMBA, addComments, supervisor, resolve]

  /** The values of the focus-path selector. */
  const FocusValues: seq<string> := ["all", "minor", "major", "mismatch"]

  /** Every value the page requires is among the selector's values. */
  predicate FocusComplete() {
    forall v :: v in ["all", "minor", "major", "mismatch"] ==> v in FocusValues
  }

  lemma FocusCompleteHolds()
    ensures FocusComplete()
  {
  }

  /** The id of the active node before any click: the first declared node. */
  const InitialActive: NodeId := Nodes[0].id

  /** `nodes[i]` is the last node declaring its id. */
  predicate LastWithId(nodes: seq<Node>, i: int) {
    0 <= i < |nodes| && forall j :: i < j < |nodes| ==> nodes[j].id != nodes[i].id
  }

  /** `m` maps exactly the declared ids, each to the last node declaring it. */
  ghost predicate IsLookup(nodes: seq<Node>, m: map<NodeId, Node>) {
    && (forall id :: id in m <==> exists n :: n in nodes && n.id == id)
    && (forall i :: LastWithId(nodes, i) ==> nodes[i].id in m && m[nodes[i].id] == nodes[i])
  }

  /** Inserting one more node into a lookup table of the nodes before it. */
  lemma IsLookupSnoc(init: seq<Node>, last: Node, m: map<NodeId, Node>)
    requires IsLookup(init, m)
    ensures IsLookup(init + [last], m[last.id := last])
  {
    var nodes := init + [last];
    var m' := m[last.id := last];
    assert nodes[|init|] == last;
    assert forall j :: 0 <= j < |init| ==> nodes[j] == init[j];
    forall id | id in m' ensures exists n :: n in nodes && n.id == id {
      if id != last.id {
        var n :| n in init && n.id == id;
        assert n in nodes;
      }
    }
    forall n | n in nodes ensures n.id in m' {
      if n != last {
        assert n in init;
      }
    }
    forall i | LastWithId(nodes, i) ensures nodes[i].id in m' && m'[nodes[i].id] == nodes[i] {
      if i < |init| {
        assert LastWithId(init, i);
      }
    }
  }

  /** `Object.fromEntries(nodes.map(n => [n.id, n]))`: entries are inserted in
      declaration order, so of two nodes sharing an id the later one wins. */
  function NodeMap(nodes: seq<Node>): (m: map<NodeId, Node>)
    ensures forall id :: id in m <==> exists n :: n in nodes && n.id == id
    ensures forall i :: LastWithId(nodes, i) ==> nodes[i].id in m && m[nodes[i].id] == nodes[i]
    decreases |nodes|
  {
    if nodes == [] then map[]
    else
      var init := nodes[..|nodes| - 1];
      var last := nodes[|nodes| - 1];
      assert nodes == init + [last];
      var m := NodeMap(init);
      IsLookupSnoc(init, last, m);
      m[last.id := last]
  }

  predicate UniqueIds(nodes: seq<Node>) {
    forall i, j :: 0 <= i < j < |nodes| ==> nodes[i].id != nodes[j].id
  }

  /** With unique ids, the lookup table finds every declared node under its own id. */
  lemma NodeMapUnique(nodes: seq<Node>)
    requires UniqueIds(nodes)
    ensures forall i :: 0 <= i < |nodes| ==> nodes[i].id in NodeMap(nodes) && NodeMap(nodes)[nodes[i].id] == nodes[i]
  {
    assert forall i :: 0 <= i < |nodes| ==> LastWithId(nodes, i);
  }

  /** `NODE_MAP[e.from] && NODE_MAP[e.to]` for every edge. */
  predicate EdgesResolve(nodes: seq<Node>, edges: seq<Edge>) {
    var m := NodeMap(nodes);
    forall e :: e in edges ==> e.from in m && e.to in m
  }

  datatype SelfTest = SelfTest(name: string, pass: bool)

  /** The names of the page's self-tests, in the order it runs them. */
  const SelfTestNames: seq<string> := [
    "Edge label >5% present", "Edge label >25% present", "All critical nodes exist",
    "Focus options contain all values", "Node positions computed", "Edges reference valid nodes"
  ]

  /** Some edge carries the label `text` (`EDGES.some((e) => e.label === text)`). */
  predicate LabelPresent(edges: seq<Edge>, text: string) {
    exists e :: e in edges && HasLabel(e, text)
  }

  /** Every critical id can be looked up in the node map
      (`mustHaveNodes.every((id) => NODE_MAP[id])`). */
  predicate CriticalPresent(m: map<NodeId, Node>) {
    forall id :: id in CriticalIds ==> id in m
  }

  /** `runSelfTests` over a node and edge list, test by test. Grid positions
      are exact numbers here, so the finiteness test always passes. */
  function SelfTests(nodes: seq<Node>, edges: seq<Edge>): (r: seq<SelfTest>)
    ensures |r| == 6
    ensures forall k :: 0 <= k < 6 ==> r[k].name == SelfTestNames[k]
    ensures r[0].pass <==> exists e :: e in edges && e.outcome == Some(Over5)
    ensures r[1].pass <==> exists e :: e in edges && e.outcome == Some(Over25)
    ensures r[2].pass <==> forall id :: id in CriticalIds ==> exists n :: n in nodes && n.id == id
    ensures r[3].pass && r[4].pass
    ensures r[5].pass <==> forall e :: e in edges ==>
              (exists n :: n in nodes && n.id == e.from) && (exists n :: n in nodes && n.id == e.to)
  {
    LabelPresentMeans(edges, Over5);
    LabelPresentMeans(edges, Over25);
    CriticalPresentMeans(nodes);
    EdgesResolveMeans(nodes, edges);
    FocusCompleteHolds();
    [ SelfTest(SelfTestNames[0], LabelPresent(edges, ">5%")),
      SelfTest(SelfTestNames[1], LabelPresent(edges, ">25%")),
      SelfTest(SelfTestNames[2], CriticalPresent(NodeMap(nodes))),
      SelfTest(SelfTestNames[3], FocusComplete()),
      SelfTest(SelfTestNames[4], true),
      SelfTest(SelfTestNames[5], EdgesResolve(nodes, edges)) ]
  }

  /** What the label tests check: some edge has that outcome. */
  lemma LabelPresentMeans(edges: seq<Edge>, o: Outcome)
    ensures LabelPresent(edges, o.Label()) <==> exists e :: e in edges && e.outcome == Some(o)
  {
    LabelIs(o);
  }

  /** What the critical-node test checks: every critical id is some node's id. */
  lemma CriticalPresentMeans(nodes: seq<Node>)
    ensures CriticalPresent(NodeMap(nodes)) <==> forall id :: id in CriticalIds ==> exists n :: n in nodes && n.id == id
  {
  }

  /** What the endpoint test checks: both ends of every edge are some node's id. */
  lemma EdgesResolveMeans(nodes: seq<Node>, edges: seq<Edge>)
    ensures EdgesResolve(nodes, edges) <==> forall e :: e in edges ==>
              (exists n :: n in nodes && n.id == e.from) && (exists n :: n in nodes && n.id == e.to)
  {
  }

  lemma DeclaredIdsMatch()
    ensures |Nodes| == |DeclaredIds|
    ensures forall i :: 0 <= i < |Nodes| ==> Nodes[i].id == DeclaredIds[i]
  {
  }

  /** The position of each id in the declaration order. */
  function Ord(id: NodeId): nat {
    match id
    case start => 0
    case pullReports => 1
    case updateSheet => 2
    case computeVariance => 3
    case ok => 4
    case flagDaily => 5
    case flagImmediate => 6
    case missingAny => 7
    case investigateCaves => 8
    case investigateIMBA => 9
    case addComments => 10
    case supervisor => 11
    case resolve => 12
    case midMonth => 13
    case newMonth => 14
  }

  lemma DeclaredIdsOrd()
    ensures forall i :: 0 <= i < |DeclaredIds| ==> Ord(DeclaredIds[i]) == i
  {
  }

  /** No two declared nodes share an id. */
  lemma DeclaredIdsUnique()
    ensures UniqueIds(Nodes)
  {
    DeclaredIdsMatch();
    DeclaredIdsOrd();
  }

  /** Every declared id is the id of a declared node. */
  lemma DeclaredIdsDeclared(id: NodeId)
    requires id in DeclaredIds
    ensures id in NodeMap(Nodes)
  {
    DeclaredIdsMatch();
    var i :| 0 <= i < |DeclaredIds| && DeclaredIds[i] == id;
    assert Nodes[i] in Nodes;
  }

  /** Both endpoints of every declared edge are declared node ids. */
  lemma DeclaredEdgesResolve()
    ensures EdgesResolve(Nodes, Edges)
  {
    forall e | e in Edges
      ensures e.from in NodeMap(Nodes) && e.to in NodeMap(Nodes)
    {
      assert e.from in DeclaredIds && e.to in DeclaredIds;
      DeclaredIdsDeclared(e.from);
      DeclaredIdsDeclared(e.to);
    }
  }

  /** Every critical id names a declared node. */
  lemma DeclaredCriticalIds()
    ensures forall id :: id in CriticalIds ==> id in NodeMap(Nodes)
  {
    forall id | id in CriticalIds ensures id in NodeMap(Nodes) {
      DeclaredIdsDeclared(id);
    }
  }

  /** The self-tests pass on any graph carrying both variance labels whose
      critical ids and edge endpoints are all declared. */
  lemma SelfTestsPassWhen(nodes: seq<Node>, edges: seq<Edge>, e5: Edge, e25: Edge)
    requires e5 in edges && e5.outcome == Some(Over5)
    requires e25 in edges && e25.outcome == Some(Over25)
    requires forall id :: id in CriticalIds ==> id in NodeMap(nodes)
    requires EdgesResolve(nodes, edges)
    ensures forall t :: t in SelfTests(nodes, edges) ==> t.pass
  {
    var r := SelfTests(nodes, edges);
    assert r[0].pass && r[1].pass;
    assert r[2].pass by { CriticalPresentMeans(nodes); }
    assert r[5].pass by { EdgesResolveMeans(nodes, edges); }
    forall t | t in r ensures t.pass {
      var k :| 0 <= k < |r| && r[k] == t;
    }
  }

  /** Every self-test passes on the declared graph. */
  lemma DeclaredGraphPasses()
    ensures forall t :: t in SelfTests(Nodes, Edges) ==> t.pass
  {
    var e5, e25 := VarianceEdges[1], VarianceEdges[2];
    assert e5 in Edges && e5.outcome == Some(Over5);
    assert e25 in Edges && e25.outcome == Some(Over25);
    DeclaredEdgesResolve();
    DeclaredCriticalIds();
    SelfTestsPassWhen(Nodes, Edges, e5, e25);
  }
}
