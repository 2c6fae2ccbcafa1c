/** The knowledge graph: upserted nodes, reinforced edges, and the subgraph around seeds. */
module KnowledgeGraph {
  import opened Strings

  type Id = nat
  type TenantId = nat

  datatype NodeKind = Concept | Person

  datatype Node = Node(tenant: TenantId, user: string, name: string, kind: NodeKind, attributes: map<string, string>)

  datatype Edge = Edge(tenant: TenantId, source: Id, target: Id, relation: string, weight: real)

  /** What makes a node unique, and an edge. */
  datatype NodeKey = NodeKey(tenant: TenantId, user: string, name: string)
  datatype EdgeKey = EdgeKey(tenant: TenantId, source: Id, target: Id, relation: string)

  function KeyOf(n: Node): NodeKey { NodeKey(n.tenant, n.user, n.name) }
  function EdgeKeyOf(e: Edge): EdgeKey { EdgeKey(e.tenant, e.source, e.target, e.relation) }

  /** `scalar_one_or_none()` over the rows that match. */
  datatype Lookup = Missing | One(id: Id) | Several

  datatype Triple = Triple(subj: string, pred: string, obj: string)

  function KindOfSubject(subject: string): NodeKind {
    if Lower(subject) == "user" then Person else Concept
  }

  // --- The graph by name ---------------------------------------------------------------

  datatype Relation = Relation(tenant: TenantId, source: NodeKey, target: NodeKey, pred: string)

  /** A graph with the row ids taken out: what kind each named node has, and the weight of
      each relation. */
  datatype Graph = Graph(kinds: map<NodeKey, NodeKind>, weights: map<Relation, real>)

  function Mention(kinds: map<NodeKey, NodeKind>, key: NodeKey, kind: NodeKind): map<NodeKey, NodeKind> {
    if key in kinds then kinds else kinds[key := kind]
  }

  /** One triple asserted about one end user. */
  datatype Assertion = Assertion(tenant: TenantId, user: string, triple: Triple) {
    function Subject(): NodeKey { NodeKey(tenant, user, triple.subj) }
    function Object(): NodeKey { NodeKey(tenant, user, triple.obj) }
    function Rel(): Relation { Relation(tenant, Subject(), Object(), triple.pred) }
  }

  function Reinforced(weights: map<Relation, real>, r: Relation, initial: real): map<Relation, real> {
    weights[r := if r in weights then weights[r] + 0.5 else initial]
  }

  /** One triple ingested: both names mentioned, the relation added or reinforced. */
  function WithAssertion(g: Graph, a: Assertion): Graph {
    Graph(
      Mention(Mention(g.kinds, a.Subject(), KindOfSubject(a.triple.subj)), a.Object(), Concept),
      Reinforced(g.weights, a.Rel(), 1.0))
  }

  function WithAssertions(g: Graph, asserted: seq<Assertion>): Graph {
    if asserted == [] then g
    else WithAssertion(WithAssertions(g, asserted[..|asserted| - 1]), asserted[|asserted| - 1])
  }

  /** Storing a triple puts both names in the graph, a new subject as a person if it reads "user" in
      whatever case, every other new name as a concept; relates them with weight 1, or 0.5 more than
      before; and changes nothing else. */
  lemma TripleIsStored(g: Graph, tenant: TenantId, user: string, t: Triple)
    ensures var g' := WithAssertion(g, Assertion(tenant, user, t));
      var subj, obj := NodeKey(tenant, user, t.subj), NodeKey(tenant, user, t.obj);
      var r := Relation(tenant, subj, obj, t.pred);
      && g'.kinds.Keys == g.kinds.Keys + {subj, obj}
      && (forall key :: key in g.kinds ==> g'.kinds[key] == g.kinds[key])
      && (subj !in g.kinds ==> g'.kinds[subj] == if Lower(t.subj) == "user" then Person else Concept)
      && (obj !in g.kinds && obj != subj ==> g'.kinds[obj] == Concept)
      && g'.weights == g.weights[r := if r in g.weights then g.weights[r] + 0.5 else 1.0]
  {
  }

  // --- The rows ------------------------------------------------------------------------

  function RelationAt(nodes: map<Id, Node>, e: Edge): Relation
    requires e.source in nodes && e.target in nodes
  {
    Relation(e.tenant, KeyOf(nodes[e.source]), KeyOf(nodes[e.target]), e.relation)
  }

  /** One row per key: `nodeOf` finds the row of each key, and every row is found. */
  ghost predicate NodesUnique(nodes: map<Id, Node>, nodeOf: map<NodeKey, Id>) {
    && (forall key :: key in nodeOf ==> nodeOf[key] in nodes && KeyOf(nodes[nodeOf[key]]) == key)
    && (forall id :: id in nodes ==> KeyOf(nodes[id]) in nodeOf && nodeOf[KeyOf(nodes[id])] == id)
  }

  /** One row per relation, between nodes that exist. */
  ghost predicate EdgesUnique(nodes: map<Id, Node>, edges: map<Id, Edge>, edgeOf: map<Relation, Id>) {
    && (forall id :: id in edges ==> edges[id].source in nodes && edges[id].target in nodes)
    && (forall r :: r in edgeOf ==> edgeOf[r] in edges && RelationAt(nodes, edges[edgeOf[r]]) == r)
    && (forall id :: id in edges ==>
          RelationAt(nodes, edges[id]) in edgeOf && edgeOf[RelationAt(nodes, edges[id])] == id)
  }

  function KindsOf(nodes: map<Id, Node>, nodeOf: map<NodeKey, Id>): map<NodeKey, NodeKind>
    requires forall key :: key in nodeOf ==> nodeOf[key] in nodes
  {
    map key | key in nodeOf :: nodes[nodeOf[key]].kind
  }

  function WeightsOf(edges: map<Id, Edge>, edgeOf: map<Relation, Id>): map<Relation, real>
    requires forall r :: r in edgeOf ==> edgeOf[r] in edges
  {
    map r | r in edgeOf :: edges[edgeOf[r]].weight
  }

  lemma SameEdgeKey(nodes: map<Id, Node>, nodeOf: map<NodeKey, Id>, e: Edge, tenant: TenantId, source: Id, target: Id,
                    relation: string)
    requires NodesUnique(nodes, nodeOf) && source in nodes && target in nodes && e.source in nodes && e.target in nodes
    requires RelationAt(nodes, e) == Relation(tenant, KeyOf(nodes[source]), KeyOf(nodes[target]), relation)
    ensures EdgeKeyOf(e) == EdgeKey(tenant, source, target, relation)
  {
    assert nodeOf[KeyOf(nodes[source])] == source && nodeOf[KeyOf(nodes[target])] == target;
    assert nodeOf[KeyOf(nodes[e.source])] == e.source && nodeOf[KeyOf(nodes[e.target])] == e.target;
  }

  /** The rows are in order, and `nodeOf` and `edgeOf` find each of them. */
  ghost predicate Consistent(nodes: map<Id, Node>, edges: map<Id, Edge>, nextId: Id,
                             nodeOf: map<NodeKey, Id>, edgeOf: map<Relation, Id>)
  {
    && (forall id :: id in nodes || id in edges ==> id < nextId)
    && NodesUnique(nodes, nodeOf) && EdgesUnique(nodes, edges, edgeOf)
  }

  /** The rows as a graph by name. */
  ghost function GraphOf(nodes: map<Id, Node>, edges: map<Id, Edge>, nodeOf: map<NodeKey, Id>,
                         edgeOf: map<Relation, Id>): Graph
    requires NodesUnique(nodes, nodeOf) && EdgesUnique(nodes, edges, edgeOf)
  {
    Graph(KindsOf(nodes, nodeOf), WeightsOf(edges, edgeOf))
  }

  /** Nodes that keep their keys keep the edges in order. */
  lemma EdgesSurvive(nodes: map<Id, Node>, nodes': map<Id, Node>, edges: map<Id, Edge>, edgeOf: map<Relation, Id>)
    requires EdgesUnique(nodes, edges, edgeOf)
    requires forall id :: id in nodes ==> id in nodes' && KeyOf(nodes'[id]) == KeyOf(nodes[id])
    ensures EdgesUnique(nodes', edges, edgeOf)
  {
    forall id | id in edges ensures RelationAt(nodes', edges[id]) == RelationAt(nodes, edges[id]) {}
  }

  lemma NewNode(nodes: map<Id, Node>, nodeOf: map<NodeKey, Id>, id: Id, n: Node)
    requires NodesUnique(nodes, nodeOf) && id !in nodes && KeyOf(n) !in nodeOf
    ensures NodesUnique(nodes[id := n], nodeOf[KeyOf(n) := id])
    ensures KindsOf(nodes[id := n], nodeOf[KeyOf(n) := id]) == KindsOf(nodes, nodeOf)[KeyOf(n) := n.kind]
  {
  }

  lemma NodeCreated(nodes: map<Id, Node>, edges: map<Id, Edge>, id: Id, nodeOf: map<NodeKey, Id>,
                    edgeOf: map<Relation, Id>, n: Node)
    requires Consistent(nodes, edges, id, nodeOf, edgeOf) && KeyOf(n) !in nodeOf
    ensures var nodes', nodeOf' := nodes[id := n], nodeOf[KeyOf(n) := id];
      var g := GraphOf(nodes, edges, nodeOf, edgeOf);
      && Consistent(nodes', edges, id + 1, nodeOf', edgeOf)
      && GraphOf(nodes', edges, nodeOf', edgeOf) == g.(kinds := Mention(g.kinds, KeyOf(n), n.kind))
  {
    NewNode(nodes, nodeOf, id, n);
    EdgesSurvive(nodes, nodes[id := n], edges, edgeOf);
  }

  lemma NodeChanged(nodes: map<Id, Node>, edges: map<Id, Edge>, nextId: Id, nodeOf: map<NodeKey, Id>,
                    edgeOf: map<Relation, Id>, id: Id, attributes: map<string, string>)
    requires Consistent(nodes, edges, nextId, nodeOf, edgeOf) && id in nodes
    ensures var nodes' := nodes[id := nodes[id].(attributes := attributes)];
      && Consistent(nodes', edges, nextId, nodeOf, edgeOf)
      && GraphOf(nodes', edges, nodeOf, edgeOf) == GraphOf(nodes, edges, nodeOf, edgeOf)
  {
    var nodes' := nodes[id := nodes[id].(attributes := attributes)];
    EdgesSurvive(nodes, nodes', edges, edgeOf);
    assert KindsOf(nodes', nodeOf) == KindsOf(nodes, nodeOf);
  }

  lemma NewEdge(nodes: map<Id, Node>, edges: map<Id, Edge>, edgeOf: map<Relation, Id>, id: Id, e: Edge)
    requires EdgesUnique(nodes, edges, edgeOf) && id !in edges
    requires e.source in nodes && e.target in nodes && RelationAt(nodes, e) !in edgeOf
    ensures var r := RelationAt(nodes, e);
      && EdgesUnique(nodes, edges[id := e], edgeOf[r := id])
      && WeightsOf(edges[id := e], edgeOf[r := id]) == WeightsOf(edges, edgeOf)[r := e.weight]
  {
  }

  lemma EdgeCreated(nodes: map<Id, Node>, edges: map<Id, Edge>, id: Id, nodeOf: map<NodeKey, Id>,
                    edgeOf: map<Relation, Id>, e: Edge)
    requires Consistent(nodes, edges, id, nodeOf, edgeOf)
    requires e.source in nodes && e.target in nodes && RelationAt(nodes, e) !in edgeOf
    ensures var edges', edgeOf' := edges[id := e], edgeOf[RelationAt(nodes, e) := id];
      var g := GraphOf(nodes, edges, nodeOf, edgeOf);
      && Consistent(nodes, edges', id + 1, nodeOf, edgeOf')
      && GraphOf(nodes, edges', nodeOf, edgeOf') == g.(weights := g.weights[RelationAt(nodes, e) := e.weight])
  {
    NewEdge(nodes, edges, edgeOf, id, e);
  }

  lemma ReweighedEdge(nodes: map<Id, Node>, edges: map<Id, Edge>, edgeOf: map<Relation, Id>, id: Id, weight: real)
    requires EdgesUnique(nodes, edges, edgeOf) && id in edges
    ensures var r, e := RelationAt(nodes, edges[id]), edges[id].(weight := weight);
      && EdgesUnique(nodes, edges[id := e], edgeOf)
      && WeightsOf(edges[id := e], edgeOf) == WeightsOf(edges, edgeOf)[r := weight]
  {
    var e := edges[id].(weight := weight);
    assert RelationAt(nodes, e) == RelationAt(nodes, edges[id]);
  }

  lemma EdgeReweighed(nodes: map<Id, Node>, edges: map<Id, Edge>, nextId: Id, nodeOf: map<NodeKey, Id>,
                      edgeOf: map<Relation, Id>, id: Id, weight: real)
    requires Consistent(nodes, edges, nextId, nodeOf, edgeOf) && id in edges
    ensures var edges' := edges[id := edges[id].(weight := weight)];
      var g := GraphOf(nodes, edges, nodeOf, edgeOf);
      && Consistent(nodes, edges', nextId, nodeOf, edgeOf)
      && GraphOf(nodes, edges', nodeOf, edgeOf) == g.(weights := g.weights[RelationAt(nodes, edges[id]) := weight])
  {
    ReweighedEdge(nodes, edges, edgeOf, id, weight);
  }

  class GraphStore {
    var nodes: map<Id, Node>
    var edges: map<Id, Edge>
    var nextId: Id
    ghost var nodeOf: map<NodeKey, Id>
    ghost var edgeOf: map<Relation, Id>

    constructor ()
      ensures Valid() && View() == Graph(map[], map[])
    {
      nodes, edges, nextId := map[], map[], 0;
      nodeOf, edgeOf := map[], map[];
    }

    ghost predicate Valid()
      reads this
    {
      Consistent(nodes, edges, nextId, nodeOf, edgeOf)
    }

    ghost function View(): Graph
      reads this
      requires Valid()
    {
      GraphOf(nodes, edges, nodeOf, edgeOf)
    }

    method GetNodeByName(tenant: TenantId, user: string, name: string) returns (r: Lookup)
      requires Valid()
      ensures var key := NodeKey(tenant, user, name);
        r == if key in nodeOf then One(nodeOf[key]) else Missing
    {
      var key := NodeKey(tenant, user, name);
      var found := set id | id in nodes && KeyOf(nodes[id]) == key;
      assert key in nodeOf ==> nodeOf[key] in found;
      if found == {} { return Missing; }
      var id :| id in found;
      assert found == {id};
      return if found == {id} then One(id) else Several;
    }

    /** The query of `add_relation`: with the store valid it never meets two rows. */
    method FindRelation(tenant: TenantId, source: Id, target: Id, relation: string) returns (r: Lookup)
      requires Valid() && source in nodes && target in nodes
      ensures var key := Relation(tenant, KeyOf(nodes[source]), KeyOf(nodes[target]), relation);
        r == if key in edgeOf then One(edgeOf[key]) else Missing
    {
      ghost var key := Relation(tenant, KeyOf(nodes[source]), KeyOf(nodes[target]), relation);
      var found := set id | id in edges && EdgeKeyOf(edges[id]) == EdgeKey(tenant, source, target, relation);
      assert key in edgeOf ==> edgeOf[key] in found by {
        if key in edgeOf { SameEdgeKey(nodes, nodeOf, edges[edgeOf[key]], tenant, source, target, relation); }
      }
      if found == {} { return Missing; }
      var id :| id in found;
      assert found == {id} by {
        forall other | other in found ensures other == id {
          assert RelationAt(nodes, edges[other]) == key == RelationAt(nodes, edges[id]);
        }
      }
      return if found == {id} then One(id) else Several;
    }

    method CreateNode(n: Node) returns (id: Id)
      requires Valid() && KeyOf(n) !in nodeOf
      modifies this
      ensures Valid() && id !in old(nodes) && nodes == old(nodes)[id := n] && edges == old(edges)
      ensures View() == old(View()).(kinds := Mention(old(View()).kinds, KeyOf(n), n.kind))
    {
      id := nextId;
      NodeCreated(nodes, edges, id, nodeOf, edgeOf, n);
      nextId, nodes, nodeOf := nextId + 1, nodes[id := n], nodeOf[KeyOf(n) := id];
    }

    method SetAttributes(id: Id, attributes: map<string, string>)
      requires Valid() && id in nodes
      modifies this
      ensures Valid() && nodes == old(nodes)[id := old(nodes)[id].(attributes := attributes)] && edges == old(edges)
      ensures View() == old(View())
    {
      NodeChanged(nodes, edges, nextId, nodeOf, edgeOf, id, attributes);
      nodes := nodes[id := nodes[id].(attributes := attributes)];
    }

    /** Fetch the node or create it. The kind of an existing node is left alone; attributes
        are merged in, the new ones winning. */
    method UpsertNode(tenant: TenantId, user: string, name: string, kind: NodeKind, attributes: map<string, string>)
      returns (id: Id)
      requires Valid()
      modifies this
      ensures Valid() && id in nodes && KeyOf(nodes[id]) == NodeKey(tenant, user, name)
      ensures View() == old(View()).(kinds := Mention(old(View()).kinds, NodeKey(tenant, user, name), kind))
      ensures edges == old(edges)
      ensures forall i :: i in old(nodes) ==> i in nodes && KeyOf(nodes[i]) == KeyOf(old(nodes)[i])
      ensures nodes == old(nodes)[id :=
        if id in old(nodes) then old(nodes)[id].(attributes := old(nodes)[id].attributes + attributes)
        else Node(tenant, user, name, kind, attributes)]
    {
      var existing := GetNodeByName(tenant, user, name);
      if existing.One? {
        id := existing.id;
        if attributes != map[] {
          SetAttributes(id, nodes[id].attributes + attributes);
        } else {
          assert nodes[id].attributes + attributes == nodes[id].attributes;
        }
      } else {
        id := CreateNode(Node(tenant, user, name, kind, attributes));
      }
    }

    method CreateEdge(e: Edge) returns (id: Id)
      requires Valid() && e.source in nodes && e.target in nodes && RelationAt(nodes, e) !in edgeOf
      modifies this
      ensures Valid() && nodes == old(nodes) && id !in old(edges) && edges == old(edges)[id := e]
      ensures View() == old(View()).(weights := old(View()).weights[RelationAt(nodes, e) := e.weight])
    {
      id := nextId;
      EdgeCreated(nodes, edges, id, nodeOf, edgeOf, e);
      nextId, edges, edgeOf := nextId + 1, edges[id := e], edgeOf[RelationAt(nodes, e) := id];
    }

    method SetWeight(id: Id, weight: real)
      requires Valid() && id in edges
      modifies this
      ensures Valid() && nodes == old(nodes) && edges == old(edges)[id := old(edges)[id].(weight := weight)]
      ensures View() == old(View()).(weights := old(View()).weights[RelationAt(nodes, old(edges)[id]) := weight])
    {
      EdgeReweighed(nodes, edges, nextId, nodeOf, edgeOf, id, weight);
      edges := edges[id := edges[id].(weight := weight)];
    }

    /** Add the edge, or reinforce it by 0.5. */
    method AddRelation(tenant: TenantId, source: Id, target: Id, relation: string, weight: real) returns (id: Id)
      requires Valid() && source in nodes && target in nodes
      modifies this
      ensures Valid() && nodes == old(nodes) && id in edges
      ensures EdgeKeyOf(edges[id]) == EdgeKey(tenant, source, target, relation)
      ensures var r, g := Relation(tenant, KeyOf(nodes[source]), KeyOf(nodes[target]), relation), old(View());
        View() == g.(weights := Reinforced(g.weights, r, weight))
    {
      var existing := FindRelation(tenant, source, target, relation);
      if existing.One? {
        id := existing.id;
        SameEdgeKey(nodes, nodeOf, edges[id], tenant, source, target, relation);
        SetWeight(id, edges[id].weight + 0.5);
      } else {
        id := CreateEdge(Edge(tenant, source, target, relation, weight));
      }
    }
  }
}
