/** Qdrant's side of a search. How similar points are is not modelled: `similar` is any
    sequence of ids, best first, and the search keeps those that pass the payload filters. */
module VectorSearch {
  import opened Wrappers
  import opened MemoryModel

  predicate Passes(point: Point, tenant: TenantId, user: string, kind: Option<MemoryType>) {
    point.tenant == tenant && point.user == user && (kind.Some? ==> point.kind == kind.value)
  }

  /** The points that pass, each once, in order of similarity. */
  function Hits(index: map<Id, Point>, similar: seq<Id>, tenant: TenantId, user: string,
                kind: Option<MemoryType>): (r: seq<Id>)
    ensures forall i :: 0 <= i < |r| ==> r[i] in index && Passes(index[r[i]], tenant, user, kind)
    ensures forall i, j :: 0 <= i < j < |r| ==> r[i] != r[j]
  {
    if similar == [] then []
    else
      var best := Hits(index, similar[..|similar| - 1], tenant, user, kind);
      var id := similar[|similar| - 1];
      if id in index && Passes(index[id], tenant, user, kind) && id !in best then best + [id] else best
  }

  function Search(index: map<Id, Point>, similar: seq<Id>, tenant: TenantId, user: string,
                  kind: Option<MemoryType>, limit: nat): (r: seq<Id>)
    ensures |r| <= limit
    ensures forall i :: 0 <= i < |r| ==> r[i] in index && Passes(index[r[i]], tenant, user, kind)
    ensures forall i, j :: 0 <= i < j < |r| ==> r[i] != r[j]
  {
    var hits := Hits(index, similar, tenant, user, kind);
    if |hits| <= limit then hits else hits[..limit]
  }

  // --- The most similar first --------------------------------------------------------------

  /** How far down the order of similarity the id comes first. */
  function Position(similar: seq<Id>, id: Id): (p: nat)
    requires id in similar
    ensures p < |similar| && similar[p] == id && forall q :: 0 <= q < p ==> similar[q] != id
  {
    if similar[0] == id then 0 else 1 + Position(similar[1..], id)
  }

  lemma PositionIs(similar: seq<Id>, id: Id, p: nat)
    requires p < |similar| && similar[p] == id && forall q :: 0 <= q < p ==> similar[q] != id
    ensures Position(similar, id) == p
  {
  }

  lemma PositionLonger(similar: seq<Id>, id: Id)
    requires similar != [] && id in similar[..|similar| - 1]
    ensures Position(similar, id) == Position(similar[..|similar| - 1], id)
  {
    var shorter := similar[..|similar| - 1];
    var p := Position(shorter, id);
    forall q | 0 <= q < p ensures similar[q] != id { assert shorter[q] != id; }
    PositionIs(similar, id, p);
  }

  /** The ids in `r` stand in the order in which `similar` names them first. */
  predicate BySimilarity(similar: seq<Id>, r: seq<Id>) {
    && (forall id :: id in r ==> id in similar)
    && forall i, j :: 0 <= i < j < |r| ==> Position(similar, r[i]) < Position(similar, r[j])
  }

  lemma {:induction false} HitsBySimilarity(index: map<Id, Point>, similar: seq<Id>, tenant: TenantId, user: string,
                                            kind: Option<MemoryType>)
    ensures BySimilarity(similar, Hits(index, similar, tenant, user, kind))
    ensures forall id ::
      id in Hits(index, similar, tenant, user, kind) <==>
      id in similar && id in index && Passes(index[id], tenant, user, kind)
  {
    if similar != [] {
      var shorter, last := similar[..|similar| - 1], similar[|similar| - 1];
      var best := Hits(index, shorter, tenant, user, kind);
      HitsBySimilarity(index, shorter, tenant, user, kind);
      assert similar == shorter + [last];
      assert forall id :: id in similar <==> id in shorter || id == last;
      forall id | id in best ensures Position(similar, id) == Position(shorter, id) { PositionLonger(similar, id); }
      var r := Hits(index, similar, tenant, user, kind);
      forall i, j | 0 <= i < j < |r| ensures Position(similar, r[i]) < Position(similar, r[j]) {
        assert r[i] in best;
        if j < |best| { assert r[j] in best; } else { NewIsLast(similar); }
      }
    }
  }

  lemma NewIsLast(similar: seq<Id>)
    requires similar != [] && similar[|similar| - 1] !in similar[..|similar| - 1]
    ensures Position(similar, similar[|similar| - 1]) == |similar| - 1
  {
    var last := |similar| - 1;
    forall q | 0 <= q < last ensures similar[q] != similar[last] { assert similar[q] in similar[..last]; }
    PositionIs(similar, similar[last], last);
  }

  /** The search keeps the most similar of the points that pass, in order of similarity: one that
      passes is left out only when `limit` more similar ones are there. */
  lemma SearchKeepsMostSimilar(index: map<Id, Point>, similar: seq<Id>, tenant: TenantId, user: string,
                               kind: Option<MemoryType>, limit: nat)
    ensures var r := Search(index, similar, tenant, user, kind, limit);
      && BySimilarity(similar, r)
      && forall id :: id in similar && id in index && Passes(index[id], tenant, user, kind) && id !in r ==>
           |r| == limit && forall k :: k in r ==> Position(similar, k) < Position(similar, id)
  {
    var hits := Hits(index, similar, tenant, user, kind);
    var r := Search(index, similar, tenant, user, kind, limit);
    HitsBySimilarity(index, similar, tenant, user, kind);
    forall id | id in hits && id !in r
      ensures |r| == limit && forall k :: k in r ==> Position(similar, k) < Position(similar, id)
    {
      var j :| 0 <= j < |hits| && hits[j] == id;
      assert forall k :: 0 <= k < |r| ==> r[k] == hits[k] && r[k] in r;
      assert j >= |r|;
    }
  }
}
