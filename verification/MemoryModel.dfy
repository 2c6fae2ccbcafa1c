/** The rows of PostgreSQL, the points of Qdrant, and a database session over the rows. */
module MemoryModel {
  import opened Wrappers

  /** Ids stand for random UUIDs: a counter issues them, so a new id was never used before,
      and of two ids the larger one was drawn later. */
  type Id = nat
  type TenantId = nat
  /** Microseconds. */
  type Time = int
  /** Importance in thousandths. */
  type Milli = nat

  datatype MemoryType = Episodic | Semantic

  datatype Policy = MostRecentWins | ConfidenceWeighted | ManualReview

  datatype Tenant = Tenant(policy: Policy, retentionDays: nat)

  datatype EpisodicMemory = EpisodicMemory(
    tenant: TenantId, user: string, content: string, importance: Milli,
    accessCount: nat, superseded: bool, createdAt: Time)

  datatype SemanticMemory = SemanticMemory(
    tenant: TenantId, user: string, content: string, importance: Milli, confidence: real,
    source: Option<Id>, accessCount: nat, superseded: bool, supersededBy: Option<Id>, createdAt: Time)

  datatype Resolution = Pending | NewFactKept | ExistingFactKept

  datatype ContradictionLog = ContradictionLog(
    tenant: TenantId, newFact: Id, existingFact: Id, newContent: string, existingContent: string,
    score: real, resolution: Resolution, autoResolved: bool, policyApplied: Option<Policy>)

  datatype CompressionStatus = Running | Completed

  datatype CompressionLog = CompressionLog(
    tenant: TenantId, sources: seq<Id>, hash: string, compressed: string, ratio: int,
    resulting: Option<Id>, status: CompressionStatus)

  /** `deferredKeys` says whether the foreign keys onto semantic_memories are checked at
      commit (the service's intention) or at each statement (the migration as written). */
  datatype Tables = Tables(
    deferredKeys: bool,
    tenants: map<TenantId, Tenant>,
    episodic: map<Id, EpisodicMemory>,
    semantic: map<Id, SemanticMemory>,
    contradictions: seq<ContradictionLog>,
    compressions: seq<CompressionLog>)

  /** The foreign keys onto semantic_memories: successors, the facts of contradiction logs and
      the results of compression logs have rows. */
  predicate KeysHold(db: Tables) {
    && (forall id :: id in db.semantic && db.semantic[id].supersededBy.Some?
                     ==> db.semantic[id].supersededBy.value in db.semantic)
    && (forall i :: 0 <= i < |db.contradictions|
                    ==> db.contradictions[i].newFact in db.semantic && db.contradictions[i].existingFact in db.semantic)
    && (forall i :: 0 <= i < |db.compressions| && db.compressions[i].resulting.Some?
                    ==> db.compressions[i].resulting.value in db.semantic)
  }

  /** A statement that stores the key `id` of a fact goes through: keys checked at each
      statement need the row there already. */
  predicate MayName(db: Tables, id: Id) {
    db.deferredKeys || id in db.semantic
  }

  /** The same facts with the same links, and the same logs. */
  ghost predicate SameLinks(db: Tables, db': Tables) {
    && db'.semantic.Keys == db.semantic.Keys
    && (forall id :: id in db.semantic ==> db'.semantic[id].supersededBy == db.semantic[id].supersededBy)
    && db'.contradictions == db.contradictions && db'.compressions == db.compressions
  }

  lemma SameLinksKeepKeys(db: Tables, db': Tables)
    requires KeysHold(db) && SameLinks(db, db')
    ensures KeysHold(db')
  {
  }

  datatype Point = Point(tenant: TenantId, user: string, kind: MemoryType, importance: Milli)

  /** What outlives a request: committed rows, the vector index, and the ids used up. */
  datatype State = State(db: Tables, index: map<Id, Point>, nextId: Id)

  /** One external call: it works; it raises and did nothing; or its effect took place
      but the reply was lost, so the caller sees an exception all the same. */
  datatype Call = Done | Refused | Lost {
    predicate Lands() { !Refused? }
    predicate Raises() { !Done? }
  }

  function Put(index: map<Id, Point>, id: Id, point: Point, call: Call): map<Id, Point> {
    if call.Lands() then index[id := point] else index
  }

  function Drop(index: map<Id, Point>, ids: set<Id>, call: Call): map<Id, Point> {
    if call.Lands() then index - ids else index
  }

  /** The two stores as one request sees them: `session` is the open transaction's view of
      the rows, `committed` what a rollback returns to. The index knows no transactions. */
  class Stores {
    var committed: Tables
    var session: Tables
    var index: map<Id, Point>
    var nextId: Id

    constructor (db: Tables)
      requires KeysHold(db)
      ensures Idle() && Now() == State(db, map[], 0)
    {
      committed, session, index, nextId := db, db, map[], 0;
    }

    /** No request is under way, and what is committed satisfies the keys. */
    ghost predicate Idle()
      reads this
    {
      session == committed && KeysHold(committed)
    }

    ghost function Now(): State
      reads this
    {
      State(committed, index, nextId)
    }

    method FreshId() returns (id: Id)
      modifies `nextId
      ensures id == old(nextId) && nextId == id + 1
    {
      id := nextId;
      nextId := nextId + 1;
    }

    /** The database refuses to commit rows that name missing ones. */
    method Commit(call: Call) returns (ok: bool)
      modifies `committed, `session
      ensures ok == (KeysHold(old(session)) && !call.Raises())
      ensures session == committed == if KeysHold(old(session)) && call.Lands() then old(session) else old(committed)
    {
      ok := KeysHold(session);
      if ok && call.Lands() { committed := session; }
      session := committed;
      ok := ok && !call.Raises();
    }

    method Rollback()
      modifies `session
      ensures session == committed
    {
      session := committed;
    }

    method UpsertPoint(id: Id, point: Point, call: Call) returns (ok: bool)
      modifies `index
      ensures ok == !call.Raises() && index == Put(old(index), id, point, call)
    {
      if call.Lands() { index := index[id := point]; }
      ok := !call.Raises();
    }

    method DeletePoints(ids: set<Id>, call: Call)
      modifies `index
      ensures index == Drop(old(index), ids, call)
    {
      if call.Lands() { index := index - ids; }
    }
  }
}
