/** The fraud graph: indicator nodes with running aggregates, and edges stored in canonical order. */
module FraudGraph {
  import opened Normalization
  import opened Wrappers

  /** Identifiers are compared, never computed with. */
  type Id = int

  datatype NodeType = INDICATOR | CAMPAIGN
  datatype EdgeType = CO_OCCURRENCE_CLUSTER | SIMILAR_TEXT | CAMPAIGN_MEMBERSHIP

  datatype Indicator = Indicator(kind: IndicatorType, normalized: string)

  datatype Node = Node(
    id: Id,
    nodeType: NodeType,
    indicator: Option<Indicator>,
    category: Option<string>,
    signalCount: nat,
    riskScore: int,
    lastSeen: int)

  /** The unique key of an edge row. */
  datatype EdgeKey = EdgeKey(source: Id, target: Id, edgeType: EdgeType)

  datatype EdgeRow = EdgeRow(weight: real, evidenceCount: nat, lastSeen: int)

  datatype Graph = Graph(nodes: seq<Node>, edges: map<EdgeKey, EdgeRow>)

  const EMPTY: Graph := Graph([], map[])

  // ---------- nodes ----------

  function FindNode(nodes: seq<Node>, id: Id): (i: Option<nat>)
    ensures i.Some? ==> i.value < |nodes| && nodes[i.value].id == id
    ensures i.None? ==> forall j :: 0 <= j < |nodes| ==> nodes[j].id != id
  {
    FirstIndex(nodes, (n: Node) => n.id, id)
  }

  function FindIndicator(nodes: seq<Node>, ind: Indicator): (i: Option<nat>)
    ensures i.Some? ==> i.value < |nodes| && nodes[i.value].indicator == Some(ind)
    ensures i.None? ==> forall j :: 0 <= j < |nodes| ==> nodes[j].indicator != Some(ind)
  {
    FirstIndex(nodes, (n: Node) => n.indicator, Some(ind))
  }

  /** Find-or-create the node of an indicator and bump its aggregates. */
  function Projected(nodes: seq<Node>, ind: Indicator, category: Option<string>, risk: int, newId: Id,
          now: int): seq<Node> {
    var i := FindIndicator(nodes, ind);
    if i.Some? then
      var n := nodes[i.value];
      nodes[i.value := n.(signalCount := n.signalCount + 1,
                          riskScore := Max(n.riskScore, risk),
                          category := if n.category.Some? then n.category else category,
                          lastSeen := now)]
    else nodes + [Node(newId, INDICATOR, Some(ind), category, 1, risk, now)]
  }

  // ---------- edges ----------

  /** The canonical key of an unordered pair. */
  function KeyOf(a: Id, b: Id, t: EdgeType): EdgeKey {
    if a < b then EdgeKey(a, b, t) else EdgeKey(b, a, t)
  }

  /** `upsertEdge`: nothing for a self-loop, and nothing when a foreign key fails. */
  predicate Writable(nodes: seq<Node>, a: Id, b: Id) {
    a != b && FindNode(nodes, a).Some? && FindNode(nodes, b).Some?
  }

  function Upserted(edges: map<EdgeKey, EdgeRow>, k: EdgeKey, weight: real, now: int): map<EdgeKey, EdgeRow> {
    edges[k := EdgeRow(weight, if k in edges then edges[k].evidenceCount + 1 else 1, now)]
  }

  datatype Error = BadRequest | NotFound

  /** Whether `addCampaignMember` goes through. */
  function MemberCheck(nodes: seq<Node>, campaignId: Id, nodeId: Id): Option<Error> {
    if campaignId == nodeId then Some(BadRequest)
    else
      var c, n := FindNode(nodes, campaignId), FindNode(nodes, nodeId);
      if c.None? || nodes[c.value].nodeType != CAMPAIGN then Some(NotFound)
      else if n.None? then Some(NotFound)
      else if nodes[n.value].nodeType != INDICATOR then Some(BadRequest)
      else None
  }

  /** One peer to link to: its node, if the lookup found one, and the weight of the link. */
  datatype Peer = Peer(node: Option<Id>, weight: real)

  predicate Links(nodes: seq<Node>, node: Id, p: Peer) {
    p.node.Some? && Writable(nodes, node, p.node.value)
  }

  function LinkedEdges(nodes: seq<Node>, edges: map<EdgeKey, EdgeRow>, node: Id, peers: seq<Peer>, t: EdgeType,
          now: int): map<EdgeKey, EdgeRow> {
    if peers == [] then edges
    else
      var before := LinkedEdges(nodes, edges, node, peers[..|peers| - 1], t, now);
      var p := peers[|peers| - 1];
      if Links(nodes, node, p) then Upserted(before, KeyOf(node, p.node.value, t), p.weight, now) else before
  }

  function LinkCount(nodes: seq<Node>, node: Id, peers: seq<Peer>): nat {
    if peers == [] then 0
    else LinkCount(nodes, node, peers[..|peers| - 1]) + (if Links(nodes, node, peers[|peers| - 1]) then 1 else 0)
  }

  class FraudGraphService {
    var nodes: seq<Node>
    var edges: map<EdgeKey, EdgeRow>

    ghost function View(): Graph
      reads this
    {
      Graph(nodes, edges)
    }

    constructor ()
      ensures View() == EMPTY
    {
      nodes, edges := [], map[];
    }

    method EnsureNode(ind: Indicator, category: Option<string>, risk: int, newId: Id, now: int)
      modifies this`nodes
      ensures nodes == Projected(old(nodes), ind, category, risk, newId, now)
    {
      var existing := FindIndicator(nodes, ind);
      if existing.Some? {
        var n := nodes[existing.value];
        n := n.(signalCount := n.signalCount + 1,
                riskScore := Max(n.riskScore, risk),
                category := if n.category.Some? then n.category else category,
                lastSeen := now);
        nodes := nodes[existing.value := n];
      } else {
        nodes := nodes + [Node(newId, INDICATOR, Some(ind), category, 1, risk, now)];
      }
    }

    method UpsertEdge(a: Id, b: Id, t: EdgeType, weight: real, now: int) returns (written: bool)
      modifies this`edges
      ensures written == Writable(nodes, a, b)
      ensures edges == if written then Upserted(old(edges), KeyOf(a, b, t), weight, now) else old(edges)
    {
      if a == b { return false; }
      var source, target := a, b;
      if b < a { source, target := b, a; }
      if FindNode(nodes, source).None? || FindNode(nodes, target).None? { return false; }
      var k := EdgeKey(source, target, t);
      if k in edges {
        edges := edges[k := EdgeRow(weight, edges[k].evidenceCount + 1, now)];
      } else {
        edges := edges[k := EdgeRow(weight, 1, now)];
      }
      return true;
    }

    /** Strengthen the edges to all peers and count the writes. */
    method LinkPeers(node: Id, peers: seq<Peer>, t: EdgeType, now: int) returns (written: nat)
      modifies this`edges
      ensures edges == LinkedEdges(nodes, old(edges), node, peers, t, now)
      ensures written == LinkCount(nodes, node, peers)
      ensures View() == DoAll(old(View()), LinkActions(node, peers, t, now))
    {
      ghost var before := View();
      written := 0;
      for i := 0 to |peers|
        invariant edges == LinkedEdges(nodes, old(edges), node, peers[..i], t, now)
        invariant written == LinkCount(nodes, node, peers[..i])
      {
        assert peers[..i + 1][..i] == peers[..i];
        if peers[i].node.Some? {
          var ok := UpsertEdge(node, peers[i].node.value, t, peers[i].weight, now);
          if ok { written := written + 1; }
        }
      }
      assert peers[..|peers|] == peers;
      LinksAreActions(before, node, peers, t, now);
    }

    method CreateCampaign(category: Option<string>, newId: Id, now: int)
      modifies this`nodes
      ensures nodes == old(nodes) + [Node(newId, CAMPAIGN, None, category, 0, 0, now)]
    {
      nodes := nodes + [Node(newId, CAMPAIGN, None, category, 0, 0, now)];
    }

    method AddCampaignMember(campaignId: Id, nodeId: Id, now: int) returns (error: Option<Error>)
      modifies this`edges
      ensures error == MemberCheck(nodes, campaignId, nodeId)
      ensures edges ==
              if error.None?
              then Upserted(old(edges), KeyOf(campaignId, nodeId, CAMPAIGN_MEMBERSHIP), 1.0, now)
              else old(edges)
    {
      if campaignId == nodeId { return Some(BadRequest); }
      var campaign := FindNode(nodes, campaignId);
      if campaign.None? || nodes[campaign.value].nodeType != CAMPAIGN { return Some(NotFound); }
      var indicator := FindNode(nodes, nodeId);
      if indicator.None? { return Some(NotFound); }
      if nodes[indicator.value].nodeType != INDICATOR { return Some(BadRequest); }
      error := None;
      var _ := UpsertEdge(campaignId, nodeId, CAMPAIGN_MEMBERSHIP, 1.0, now);
    }

    method RemoveCampaignMember(campaignId: Id, nodeId: Id)
      modifies this`edges
      ensures edges == old(edges) - {KeyOf(campaignId, nodeId, CAMPAIGN_MEMBERSHIP)}
    {
      var source, target := campaignId, nodeId;
      if !(campaignId < nodeId) { source, target := nodeId, campaignId; }
      edges := edges - {EdgeKey(source, target, CAMPAIGN_MEMBERSHIP)};
    }
  }

  // ---------- runs ----------

  datatype Action =
    | Project(ind: Indicator, category: Option<string>, risk: int, newId: Id, now: int)
    | Link(a: Id, b: Id, t: EdgeType, weight: real, now: int)
    | NewCampaign(category: Option<string>, newId: Id, now: int)
    | AddMember(campaign: Id, member: Id, now: int)
    | RemoveMember(campaign: Id, member: Id)

  /** The edge that the action upserts, and its weight. */
  function Writes(nodes: seq<Node>, a: Action): Option<(EdgeKey, real)> {
    match a
    case Link(x, y, t, w, _) => if Writable(nodes, x, y) then Some((KeyOf(x, y, t), w)) else None
    case AddMember(c, m, _) =>
      if MemberCheck(nodes, c, m).None? then Some((KeyOf(c, m, CAMPAIGN_MEMBERSHIP), 1.0)) else None
    case _ => None
  }

  function Removes(a: Action): Option<EdgeKey> {
    match a
    case RemoveMember(c, m) => Some(KeyOf(c, m, CAMPAIGN_MEMBERSHIP))
    case _ => None
  }

  function Now(a: Action): int {
    if a.RemoveMember? then 0 else a.now
  }

  function Do(g: Graph, a: Action): Graph {
    var nodes := match a
      case Project(ind, category, risk, newId, now) => Projected(g.nodes, ind, category, risk, newId, now)
      case NewCampaign(category, newId, now) => g.nodes + [Node(newId, CAMPAIGN, None, category, 0, 0, now)]
      case _ => g.nodes;
    var w := Writes(g.nodes, a);
    var edges :=
      if w.Some? then Upserted(g.edges, w.value.0, w.value.1, Now(a))
      else if Removes(a).Some? then g.edges - {Removes(a).value}
      else g.edges;
    Graph(nodes, edges)
  }

  function Run(actions: seq<Action>): Graph {
    if actions == [] then EMPTY
    else
      Do(Run(actions[..|actions| - 1]), actions[|actions| - 1])
  }

  function DoAll(g: Graph, actions: seq<Action>): Graph {
    if actions == [] then g else Do(DoAll(g, actions[..|actions| - 1]), actions[|actions| - 1])
  }

  /** Linking to a list of peers, as single actions. */
  function LinkActions(node: Id, peers: seq<Peer>, t: EdgeType, now: int): seq<Action> {
    if peers == [] then []
    else
      var p := peers[|peers| - 1];
      LinkActions(node, peers[..|peers| - 1], t, now)
      + (if p.node.Some? then [Link(node, p.node.value, t, p.weight, now)] else [])
  }

  lemma {:induction false} LinksAreActions(g: Graph, node: Id, peers: seq<Peer>, t: EdgeType, now: int)
    ensures DoAll(g, LinkActions(node, peers, t, now)) == Graph(g.nodes, LinkedEdges(g.nodes, g.edges, node, peers, t, now))
  {
    if peers != [] {
      var n := |peers| - 1;
      var before := LinkActions(node, peers[..n], t, now);
      LinksAreActions(g, node, peers[..n], t, now);
      if peers[n].node.Some? {
        var a := Link(node, peers[n].node.value, t, peers[n].weight, now);
        assert (before + [a])[..|before|] == before;
      } else {
        assert before + [] == before;
      }
    }
  }

  /** What is linked from a reachable graph is reachable. */
  lemma {:induction false} RunThenAll(actions: seq<Action>, more: seq<Action>)
    ensures Run(actions + more) == DoAll(Run(actions), more)
  {
    if more == [] {
      assert actions + more == actions;
    } else {
      var n := |more| - 1;
      var before := actions + more[..n];
      assert Run(actions + more) == Do(Run(before), more[n]) by {
        assert actions + more == before + [more[n]];
        RunNext(before, more[n]);
      }
      assert Run(before) == DoAll(Run(actions), more[..n]) by { RunThenAll(actions, more[..n]); }
    }
  }

  lemma {:induction false} RunNext(actions: seq<Action>, a: Action)
    ensures Run(actions + [a]) == Do(Run(actions), a)
  {
    assert (actions + [a])[..|actions|] == actions;
  }

  // ---------- what every run keeps ----------

  /** How many upserts the edge has seen since it was last removed. */
  function Upserts(actions: seq<Action>, k: EdgeKey): nat {
    if actions == [] then 0
    else
      var n := |actions| - 1;
      var w := Writes(Run(actions[..n]).nodes, actions[n]);
      if w.Some? && w.value.0 == k then Upserts(actions[..n], k) + 1
      else if Removes(actions[n]) == Some(k) then 0
      else Upserts(actions[..n], k)
  }

  /** The last upsert of the edge: its weight and its time. */
  function LastUpsert(actions: seq<Action>, k: EdgeKey): Option<(real, int)> {
    if actions == [] then None
    else
      var n := |actions| - 1;
      var w := Writes(Run(actions[..n]).nodes, actions[n]);
      if w.Some? && w.value.0 == k then Some((w.value.1, Now(actions[n]))) else LastUpsert(actions[..n], k)
  }

  predicate Joins(k: EdgeKey, x: Id, y: Id) {
    (k.source == x && k.target == y) || (k.source == y && k.target == x)
  }

  /** Which edge an action upserts: a link the one of its type between two different nodes, an addition the membership of an
      indicator in a campaign, with weight 1. */
  lemma WritesMeans(nodes: seq<Node>, a: Action, k: EdgeKey, weight: real)
    ensures Writes(nodes, a) == Some((k, weight)) <==>
            && k.source < k.target
            && match a
               case Link(x, y, t, w, _) =>
                 && Joins(k, x, y) && k.edgeType == t && weight == w
                 && (exists n :: n in nodes && n.id == x) && (exists n :: n in nodes && n.id == y)
               case AddMember(c, m, _) =>
                 Joins(k, c, m) && k.edgeType == CAMPAIGN_MEMBERSHIP && weight == 1.0 && MemberCheck(nodes, c, m).None?
               case _ => false
  {
    if a.Link? {
      NodeExists(nodes, a.a);
      NodeExists(nodes, a.b);
    }
  }

  lemma NodeExists(nodes: seq<Node>, id: Id)
    ensures FindNode(nodes, id).Some? <==> exists n :: n in nodes && n.id == id
  {
    var i := FindNode(nodes, id);
    if i.Some? { assert nodes[i.value] in nodes; }
  }

  ghost predicate EdgesRight(actions: seq<Action>) {
    var g := Run(actions);
    && (forall k :: k in g.edges ==> k.source < k.target)
    && (forall k :: k in g.edges <==> Upserts(actions, k) > 0)
    && (forall k :: k in g.edges ==> EdgeTells(actions, k, g.edges[k]))
    && (forall k :: k in g.edges ==> FindNode(g.nodes, k.source).Some? && FindNode(g.nodes, k.target).Some?)
  }

  /** The row counts the upserts of the edge and has the weight and the time of the last one. */
  ghost predicate EdgeTells(actions: seq<Action>, k: EdgeKey, row: EdgeRow) {
    row.evidenceCount == Upserts(actions, k) && LastUpsert(actions, k) == Some((row.weight, row.lastSeen))
  }

  /** How often the indicator was projected, and the highest risk it was projected with. */
  function Projections(actions: seq<Action>, ind: Indicator): nat {
    if actions == [] then 0
    else
      var a := actions[|actions| - 1];
      Projections(actions[..|actions| - 1], ind) + (if a.Project? && a.ind == ind then 1 else 0)
  }

  function TopRisk(actions: seq<Action>, ind: Indicator): Option<int> {
    if actions == [] then None
    else
      var a := actions[|actions| - 1];
      var top := TopRisk(actions[..|actions| - 1], ind);
      if !(a.Project? && a.ind == ind) then top
      else if top.None? then Some(a.risk) else Some(Max(top.value, a.risk))
  }

  /** The first category that a projection of the indicator gave. */
  function FirstCategory(actions: seq<Action>, ind: Indicator): Option<string> {
    if actions == [] then None
    else
      var a := actions[|actions| - 1];
      var before := FirstCategory(actions[..|actions| - 1], ind);
      if before.None? && a.Project? && a.ind == ind then a.category else before
  }

  function LastProjected(actions: seq<Action>, ind: Indicator): Option<int> {
    if actions == [] then None
    else
      var a := actions[|actions| - 1];
      if a.Project? && a.ind == ind then Some(a.now) else LastProjected(actions[..|actions| - 1], ind)
  }

  ghost predicate OneNodePerIndicator(nodes: seq<Node>) {
    forall i, j :: 0 <= i < j < |nodes| ==> nodes[i].indicator.None? || nodes[i].indicator != nodes[j].indicator
  }

  /** A campaign is as it was created. An indicator's columns are the count of its projections, their highest risk, their
      first category and their last time. */
  ghost predicate NodeRight(actions: seq<Action>, n: Node) {
    if n.indicator.None? then
      n.nodeType == CAMPAIGN && n.signalCount == 0 && n.riskScore == 0
      && NewCampaign(n.category, n.id, n.lastSeen) in actions
    else
      var ind := n.indicator.value;
      && n.nodeType == INDICATOR && n.signalCount == Projections(actions, ind)
      && TopRisk(actions, ind) == Some(n.riskScore) && FirstCategory(actions, ind) == n.category
      && LastProjected(actions, ind) == Some(n.lastSeen)
  }

  ghost predicate NeverProjected(actions: seq<Action>, ind: Indicator) {
    && Projections(actions, ind) == 0 && TopRisk(actions, ind).None? && FirstCategory(actions, ind).None?
    && LastProjected(actions, ind).None?
  }

  ghost predicate NodesRight(actions: seq<Action>) {
    var nodes := Run(actions).nodes;
    && OneNodePerIndicator(nodes)
    && (forall i :: 0 <= i < |nodes| ==> NodeRight(actions, nodes[i]))
    && (forall ind :: FindIndicator(nodes, ind).None? ==> NeverProjected(actions, ind))
  }

  /** A node that was found stays found. */
  lemma {:induction false} NodesStay(g: Graph, a: Action, id: Id)
    requires FindNode(g.nodes, id).Some?
    ensures FindNode(Do(g, a).nodes, id).Some?
  {
    var i := FindNode(g.nodes, id).value;
    assert i < |Do(g, a).nodes| && Do(g, a).nodes[i].id == id;
  }

  lemma StepEdges(actions: seq<Action>)
    requires actions != [] && EdgesRight(actions[..|actions| - 1])
    ensures EdgesRight(actions)
  {
    var n := |actions| - 1;
    var g, a := Run(actions[..n]), actions[n];
    var g' := Do(g, a);
    forall k | k in g'.edges
      ensures k.source < k.target && FindNode(g'.nodes, k.source).Some? && FindNode(g'.nodes, k.target).Some?
    {
      if k !in g.edges { NewEdgeOrdered(g.nodes, a); }
      NodesStay(g, a, k.source);
      NodesStay(g, a, k.target);
    }
    forall k
      ensures k in g'.edges <==> Upserts(actions, k) > 0
      ensures k in g'.edges ==> EdgeTells(actions, k, g'.edges[k])
    {
      UpsertCounted(g, a, actions, k);
    }
  }

  lemma {:induction false} UpsertCounted(g: Graph, a: Action, actions: seq<Action>, k: EdgeKey)
    requires actions != [] && a == actions[|actions| - 1] && g == Run(actions[..|actions| - 1])
    requires k in g.edges <==> Upserts(actions[..|actions| - 1], k) > 0
    requires k in g.edges ==> EdgeTells(actions[..|actions| - 1], k, g.edges[k])
    ensures k in Do(g, a).edges <==> Upserts(actions, k) > 0
    ensures k in Do(g, a).edges ==> EdgeTells(actions, k, Do(g, a).edges[k])
  {
  }

  lemma {:induction false} NewEdgeOrdered(nodes: seq<Node>, a: Action)
    requires Writes(nodes, a).Some?
    ensures var k := Writes(nodes, a).value.0;
      k.source < k.target && FindNode(nodes, k.source).Some? && FindNode(nodes, k.target).Some?
  {
  }

  /** An indicator that has a node keeps it. */
  lemma {:induction false} IndicatorStays(g: Graph, a: Action, ind: Indicator)
    requires FindIndicator(g.nodes, ind).Some? || (a.Project? && a.ind == ind)
    ensures FindIndicator(Do(g, a).nodes, ind).Some?
  {
    var nodes := Do(g, a).nodes;
    var i := FindIndicator(g.nodes, ind);
    assert nodes[if i.Some? then i.value else |g.nodes|].indicator == Some(ind);
  }

  lemma StepNodes(actions: seq<Action>)
    requires actions != [] && NodesRight(actions[..|actions| - 1])
    ensures NodesRight(actions)
  {
    var n := |actions| - 1;
    var g, a := Run(actions[..n]), actions[n];
    var nodes := Do(g, a).nodes;
    forall ind | FindIndicator(nodes, ind).None?
      ensures NeverProjected(actions, ind)
    {
      if FindIndicator(g.nodes, ind).Some? || (a.Project? && a.ind == ind) { IndicatorStays(g, a, ind); }
    }
    forall i | 0 <= i < |nodes|
      ensures NodeRight(actions, nodes[i])
    {
      StepNode(actions, i);
    }
  }

  lemma {:induction false} StepNode(actions: seq<Action>, i: nat)
    requires actions != [] && NodesRight(actions[..|actions| - 1]) && i < |Run(actions).nodes|
    ensures NodeRight(actions, Run(actions).nodes[i])
  {
    var n := |actions| - 1;
    var g, a := Run(actions[..n]), actions[n];
    if i < |g.nodes| { assert NodeRight(actions[..n], g.nodes[i]); }
  }

  /** In every reachable graph: edges are ordered and without self-loops, one per unordered pair and type, each counting
      its upserts since it was created; one node per indicator, whose columns match its projections. */
  lemma {:induction false} EveryRun(actions: seq<Action>)
    ensures EdgesRight(actions) && NodesRight(actions)
  {
    if actions != [] {
      EveryRun(actions[..|actions| - 1]);
      StepEdges(actions);
      StepNodes(actions);
    }
  }

  /** Where ids are not repeated: indicators, and nothing else, can become members of campaigns, and of nothing else. */
  lemma MemberCheckMeans(nodes: seq<Node>, c: Id, m: Id)
    requires forall i, j :: 0 <= i < j < |nodes| ==> nodes[i].id != nodes[j].id
    ensures MemberCheck(nodes, c, m).None? <==>
            (exists n :: n in nodes && n.id == c && n.nodeType == CAMPAIGN)
            && (exists n :: n in nodes && n.id == m && n.nodeType == INDICATOR)
    ensures MemberCheck(nodes, c, m) == Some(NotFound) <==>
            && c != m
            && ((forall n :: n in nodes && n.id == c ==> n.nodeType != CAMPAIGN) || forall n :: n in nodes ==> n.id != m)
  {
    FoundAlone(nodes, c);
    FoundAlone(nodes, m);
  }

  lemma FoundAlone(nodes: seq<Node>, id: Id)
    requires forall i, j :: 0 <= i < j < |nodes| ==> nodes[i].id != nodes[j].id
    ensures FindNode(nodes, id).None? ==> forall n :: n in nodes ==> n.id != id
    ensures FindNode(nodes, id).Some? ==>
      var n := nodes[FindNode(nodes, id).value]; n in nodes && n.id == id && forall o :: o in nodes && o.id == id ==> o == n
  {
    var i := FindNode(nodes, id);
    forall o | o in nodes && o.id == id && i.Some?
      ensures o == nodes[i.value]
    {
      var j :| 0 <= j < |nodes| && nodes[j] == o;
    }
  }

  /** One edge per unordered pair and type. */
  lemma {:induction false} OneEdgePerPair(actions: seq<Action>, k: EdgeKey, l: EdgeKey)
    requires k in Run(actions).edges && l in Run(actions).edges && k.edgeType == l.edgeType
    requires {k.source, k.target} == {l.source, l.target}
    ensures k == l && k.source != k.target
  {
    EveryRun(actions);
    assert k.source in {l.source, l.target} && k.target in {l.source, l.target};
  }

  /** Removing a just-added member restores the edges, whichever id is smaller, exactly when it was not a member before. */
  lemma RemoveUndoesAdd(g: Graph, campaign: Id, member: Id, now: int)
    requires MemberCheck(g.nodes, campaign, member).None?
    ensures Do(Do(g, AddMember(campaign, member, now)), RemoveMember(campaign, member)) == g <==>
            KeyOf(campaign, member, CAMPAIGN_MEMBERSHIP) !in g.edges
  {
    var k := KeyOf(campaign, member, CAMPAIGN_MEMBERSHIP);
    var added := Do(g, AddMember(campaign, member, now));
    assert added.edges == Upserted(g.edges, k, 1.0, now);
    var removed := Do(added, RemoveMember(campaign, member));
    assert removed.edges == added.edges - {k};
    assert k !in removed.edges;
    if k !in g.edges {
      assert removed.edges == g.edges;
    }
  }

  /** A graph with one indicator and one campaign. */
  lemma FirstProjection(ind: Indicator, id: Id)
    ensures Do(EMPTY, Project(ind, None, 0, id, 0)).nodes == [Node(id, INDICATOR, Some(ind), None, 1, 0, 0)]
  {
  }

  lemma CampaignAppended(g: Graph, id: Id)
    ensures Do(g, NewCampaign(None, id, 0)).nodes == g.nodes + [Node(id, CAMPAIGN, None, None, 0, 0, 0)]
  {
  }

  lemma NextAction(actions: seq<Action>, a: Action) returns (r: seq<Action>)
    ensures Run(r) == Do(Run(actions), a)
  {
    RunNext(actions, a);
    r := actions + [a];
  }

  lemma TwoNodeRun(ind: Indicator, member: Id, campaign: Id) returns (actions: seq<Action>)
    requires member != campaign
    ensures MemberCheck(Run(actions).nodes, campaign, member).None?
  {
    FirstProjection(ind, member);
    var one := NextAction([], Project(ind, None, 0, member, 0));
    CampaignAppended(Run(one), campaign);
    actions := NextAction(one, NewCampaign(None, campaign, 0));
    TwoNodes(Run(actions).nodes, member, campaign);
  }

  /** A member that is added again and removed is gone: a run that loses an edge it had before. */
  lemma RemoveLosesOlderEdge(ind: Indicator, member: Id, campaign: Id)
    requires member != campaign
    ensures exists actions ::
      var k := KeyOf(campaign, member, CAMPAIGN_MEMBERSHIP);
      k in Run(actions).edges
        && k !in Do(Do(Run(actions), AddMember(campaign, member, 0)), RemoveMember(campaign, member)).edges
  {
    var before := TwoNodeRun(ind, member, campaign);
    AddThenRemove(Run(before), campaign, member);
    var actions := NextAction(before, AddMember(campaign, member, 0));
  }

  /** Adding a member makes the edge, removing it makes it go, whatever was there before. */
  lemma AddThenRemove(g: Graph, campaign: Id, member: Id)
    requires MemberCheck(g.nodes, campaign, member).None?
    ensures var k, added := KeyOf(campaign, member, CAMPAIGN_MEMBERSHIP), Do(g, AddMember(campaign, member, 0));
      k in added.edges && k !in Do(Do(added, AddMember(campaign, member, 0)), RemoveMember(campaign, member)).edges
  {
  }

  lemma TwoNodes(nodes: seq<Node>, member: Id, campaign: Id)
    requires |nodes| == 2 && nodes[0].id == member && nodes[1].id == campaign && member != campaign
    requires nodes[0].nodeType == INDICATOR && nodes[1].nodeType == CAMPAIGN
    ensures MemberCheck(nodes, campaign, member).None?
  {
    var i, j := FindNode(nodes, member), FindNode(nodes, campaign);
    assert i.Some? && j.Some?;
  }
}
