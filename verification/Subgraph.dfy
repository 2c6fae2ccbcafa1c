/** The part of the knowledge graph around a set of named entities. */
module Subgraph {
  import opened KnowledgeGraph

  predicate IsSeed(nodes: map<Id, Node>, tenant: TenantId, user: string, names: set<string>, id: Id) {
    id in nodes && nodes[id].tenant == tenant && nodes[id].user == user && nodes[id].name in names
  }

  function Outgoing(edges: map<Id, Edge>, id: Id): set<Id> {
    set e | e in edges && edges[e].source == id
  }

  function Incoming(edges: map<Id, Edge>, id: Id): set<Id> {
    set e | e in edges && edges[e].target == id
  }

  /** The nodes at the far ends of the edges `es`. */
  function Ends(edges: map<Id, Edge>, es: set<Id>, outgoing: bool): set<Id> {
    set e | e in es && e in edges :: if outgoing then edges[e].target else edges[e].source
  }

  /** A seed and everything one edge away from it. */
  function Neighbourhood(edges: map<Id, Edge>, id: Id): set<Id> {
    {id} + Ends(edges, Outgoing(edges, id), true) + Ends(edges, Incoming(edges, id), false)
  }

  function Around(edges: map<Id, Edge>, seeds: set<Id>): set<Id> {
    set s, n | s in seeds && n in Neighbourhood(edges, s) :: n
  }

  ghost predicate EndpointsExist(nodes: map<Id, Node>, edges: map<Id, Edge>) {
    forall e :: e in edges ==> edges[e].source in nodes && edges[e].target in nodes
  }

  /** How often an edge is listed: once for its source and once for its target, when they
      are among `seeds`. */
  function Listings(edges: map<Id, Edge>, seeds: set<Id>, e: Id): nat {
    if e in edges then (if edges[e].source in seeds then 1 else 0) + (if edges[e].target in seeds then 1 else 0) else 0
  }

  lemma EndsOneMore(edges: map<Id, Edge>, es: set<Id>, rest: set<Id>, e: Id, outgoing: bool)
    requires rest <= es <= edges.Keys && e in rest
    ensures Ends(edges, es - (rest - {e}), outgoing)
         == Ends(edges, es - rest, outgoing) + {if outgoing then edges[e].target else edges[e].source}
  {
    assert es - (rest - {e}) == (es - rest) + {e};
  }

  /** Append the edges `es`, in any order, and add the nodes at their far ends. */
  method ListEdges(nodes: map<Id, Node>, edges: map<Id, Edge>, es: set<Id>, outgoing: bool,
                   found: map<Id, Node>, listed: seq<Id>)
    returns (found': map<Id, Node>, listed': seq<Id>)
    requires EndpointsExist(nodes, edges) && es <= edges.Keys
    requires forall id :: id in found ==> id in nodes && found[id] == nodes[id]
    ensures found'.Keys == found.Keys + Ends(edges, es, outgoing)
    ensures forall id :: id in found' ==> id in nodes && found'[id] == nodes[id]
    ensures multiset(listed') == multiset(listed) + multiset(es)
  {
    found', listed' := found, listed;
    var rest := es;
    while rest != {}
      invariant rest <= es
      invariant found'.Keys == found.Keys + Ends(edges, es - rest, outgoing)
      invariant forall id :: id in found' ==> id in nodes && found'[id] == nodes[id]
      invariant multiset(listed') + multiset(rest) == multiset(listed) + multiset(es)
      decreases rest
    {
      var e :| e in rest;
      listed' := listed' + [e];
      var end := if outgoing then edges[e].target else edges[e].source;
      EndsOneMore(edges, es, rest, e, outgoing);
      if end !in found' {
        found' := found'[end := nodes[end]];
      }
      rest := rest - {e};
    }
    assert es - rest == es;
  }

  /** One seed: its node, its outgoing edges, its incoming edges. */
  method ListAround(nodes: map<Id, Node>, edges: map<Id, Edge>, id: Id, found: map<Id, Node>, listed: seq<Id>)
    returns (found': map<Id, Node>, listed': seq<Id>)
    requires EndpointsExist(nodes, edges) && id in nodes
    requires forall i :: i in found ==> i in nodes && found[i] == nodes[i]
    ensures found'.Keys == found.Keys + Neighbourhood(edges, id)
    ensures forall i :: i in found' ==> i in nodes && found'[i] == nodes[i]
    ensures multiset(listed') == multiset(listed) + multiset(Outgoing(edges, id)) + multiset(Incoming(edges, id))
  {
    found', listed' := ListEdges(nodes, edges, Outgoing(edges, id), true, found[id := nodes[id]], listed);
    found', listed' := ListEdges(nodes, edges, Incoming(edges, id), false, found', listed');
  }

  /** Each edge is listed as often as its ends are among the seeds. */
  ghost predicate ListsEnds(edges: map<Id, Edge>, seeds: set<Id>, listed: multiset<Id>) {
    forall e :: listed[e] == Listings(edges, seeds, e)
  }

  lemma ListedOneMore(edges: map<Id, Edge>, seeds: set<Id>, rest: set<Id>, id: Id, listed: multiset<Id>)
    requires rest <= seeds && id in rest && ListsEnds(edges, seeds - rest, listed)
    ensures ListsEnds(edges, seeds - (rest - {id}),
                      listed + multiset(Outgoing(edges, id)) + multiset(Incoming(edges, id)))
  {
    forall e
      ensures (listed + multiset(Outgoing(edges, id)) + multiset(Incoming(edges, id)))[e]
           == Listings(edges, seeds - (rest - {id}), e)
    {
      assert listed[e] == Listings(edges, seeds - rest, e);
      ListingsOneMore(edges, seeds, rest, id, e);
    }
  }

  lemma ListingsOneMore(edges: map<Id, Edge>, seeds: set<Id>, rest: set<Id>, id: Id, e: Id)
    requires rest <= seeds && id in rest
    ensures Listings(edges, seeds - (rest - {id}), e)
         == Listings(edges, seeds - rest, e) + multiset(Outgoing(edges, id))[e] + multiset(Incoming(edges, id))[e]
  {
  }

  /** The nodes, each once, are the seeds and their neighbours; each edge is listed once for
      every one of its ends that is a seed. */
  method GetSubgraphForEntities(store: GraphStore, tenant: TenantId, user: string, names: set<string>)
    returns (found: map<Id, Node>, listed: seq<Id>)
    requires store.Valid()
    ensures var seeds := set id | id in store.nodes && store.nodes[id].tenant == tenant
                               && store.nodes[id].user == user && store.nodes[id].name in names;
      && found.Keys == Around(store.edges, seeds)
      && (forall id :: id in found ==> id in store.nodes && found[id] == store.nodes[id])
      && ListsEnds(store.edges, seeds, multiset(listed))
  {
    var nodes, edges := store.nodes, store.edges;
    var seeds := set id | id in nodes && IsSeed(nodes, tenant, user, names, id);
    found, listed := map[], [];
    var rest := seeds;
    while rest != {}
      invariant rest <= seeds
      invariant found.Keys == Around(edges, seeds - rest)
      invariant forall id :: id in found ==> id in nodes && found[id] == nodes[id]
      invariant ListsEnds(edges, seeds - rest, multiset(listed))
      decreases rest
    {
      var id :| id in rest;
      AroundOneMore(edges, seeds, rest, id);
      ListedOneMore(edges, seeds, rest, id, multiset(listed));
      found, listed := ListAround(nodes, edges, id, found, listed);
      rest := rest - {id};
    }
    assert seeds - rest == seeds;
  }

  lemma AroundOneMore(edges: map<Id, Edge>, seeds: set<Id>, rest: set<Id>, id: Id)
    requires rest <= seeds && id in rest
    ensures Around(edges, seeds - (rest - {id})) == Around(edges, seeds - rest) + Neighbourhood(edges, id)
  {
    assert seeds - (rest - {id}) == (seeds - rest) + {id};
  }

  /** Around the seeds are the seeds themselves and whatever an edge joins to one of them, either way;
      an edge is listed once for each of its ends that is a seed. */
  lemma AroundIsOneEdgeAway(edges: map<Id, Edge>, seeds: set<Id>, n: Id)
    ensures n in Around(edges, seeds) <==>
      || n in seeds
      || exists e :: e in edges && ((edges[e].source in seeds && edges[e].target == n)
                                    || (edges[e].target in seeds && edges[e].source == n))
    ensures n in edges ==>
      Listings(edges, seeds, n)
      == if edges[n].source in seeds && edges[n].target in seeds then 2
         else if edges[n].source in seeds || edges[n].target in seeds then 1 else 0
  {
    if n in seeds { assert n in Neighbourhood(edges, n); }
    forall e | e in edges && edges[e].source in seeds && edges[e].target == n ensures n in Around(edges, seeds) {
      assert e in Outgoing(edges, edges[e].source);
      assert n in Neighbourhood(edges, edges[e].source);
    }
    forall e | e in edges && edges[e].target in seeds && edges[e].source == n ensures n in Around(edges, seeds) {
      assert e in Incoming(edges, edges[e].target);
      assert n in Neighbourhood(edges, edges[e].target);
    }
  }

  /** Both ends of every listed edge are among the nodes. */
  lemma ListedEndsAreFound(edges: map<Id, Edge>, seeds: set<Id>, e: Id)
    requires Listings(edges, seeds, e) > 0
    ensures edges[e].source in Around(edges, seeds) && edges[e].target in Around(edges, seeds)
  {
    if edges[e].source in seeds {
      assert e in Outgoing(edges, edges[e].source);
      assert edges[e].target in Neighbourhood(edges, edges[e].source);
      assert edges[e].source in Neighbourhood(edges, edges[e].source);
    } else {
      assert e in Incoming(edges, edges[e].target);
      assert edges[e].source in Neighbourhood(edges, edges[e].target);
      assert edges[e].target in Neighbourhood(edges, edges[e].target);
    }
  }
}
