/** The write pipeline: the vector point first, then the row, with a compensating delete
    of the point when the row is refused. The request's transaction commits last. */
module MemoryWrite {
  import opened Wrappers
  import opened MemoryModel
  import opened VectorSearch
  import opened Contradiction
  import opened TextScoring

  datatype WriteRequest = WriteRequest(tenant: TenantId, user: string, content: string, source: Option<Id>, now: Time)

  /** What each external call of one request does; `flush` is false when the database
      refuses the row for a reason of its own. */
  datatype WriteFaults = WriteFaults(
    embed: bool, search: bool, upsert: Call, flush: bool, compensate: Call, commit: Call)

  const NO_FAULTS: WriteFaults := WriteFaults(true, true, Done, true, Done, Done)

  datatype WriteError =
    TenantNotFound | EmbeddingFailed | CheckFailed(why: CheckError) | IndexFailed | RowRefused | CommitFailed

  /** Column default of confidence_score. */
  const DEFAULT_CONFIDENCE: real := 0.5

  function EpisodicRow(r: WriteRequest): EpisodicMemory {
    EpisodicMemory(r.tenant, r.user, r.content, Importance(r.content), 0, false, r.now)
  }

  function SemanticRow(r: WriteRequest): SemanticMemory {
    SemanticMemory(r.tenant, r.user, r.content, Importance(r.content), DEFAULT_CONFIDENCE, r.source, 0, false,
                   None, r.now)
  }

  function PointFor(r: WriteRequest, kind: MemoryType): Point {
    Point(r.tenant, r.user, kind, Importance(r.content))
  }

  function AddEpisodic(db: Tables, id: Id, row: EpisodicMemory): Tables {
    db.(episodic := db.episodic[id := row])
  }

  function AddSemantic(db: Tables, id: Id, row: SemanticMemory): Tables {
    db.(semantic := db.semantic[id := row])
  }

  /** The dual write: `session` already holds the row, which the database takes or not. */
  function DualWrite(s: State, session: Tables, id: Id, point: Point, rowTaken: bool, f: WriteFaults): State {
    var index := Put(s.index, id, point, f.upsert);
    if f.upsert.Raises() then State(s.db, index, id + 1)
    else if !rowTaken then State(s.db, Drop(index, {id}, f.compensate), id + 1)
    else State(if f.commit.Lands() then session else s.db, index, id + 1)
  }

  function EpisodicWritten(s: State, r: WriteRequest, f: WriteFaults): State {
    if !f.embed then s.(nextId := s.nextId + 1)
    else DualWrite(s, AddEpisodic(s.db, s.nextId, EpisodicRow(r)), s.nextId, PointFor(r, Episodic),
                   f.flush && r.tenant in s.db.tenants, f)
  }

  function SemanticHits(s: State, r: WriteRequest, similar: seq<Id>): seq<Id> {
    Search(s.index, similar, r.tenant, r.user, Some(Semantic), CANDIDATES)
  }

  function CheckOf(s: State, r: WriteRequest, similar: seq<Id>, nli: Nli): Result<Tables, CheckError>
    requires r.tenant in s.db.tenants
  {
    Checked(s.db, s.db.tenants[r.tenant].policy, r.tenant, s.nextId, r.content, SemanticHits(s, r, similar), nli)
  }

  function SemanticWritten(s: State, r: WriteRequest, similar: seq<Id>, nli: Nli, f: WriteFaults): State {
    if r.tenant !in s.db.tenants then s
    else if !f.embed || !f.search then s.(nextId := s.nextId + 1)
    else
      match CheckOf(s, r, similar, nli)
      case Err(_) => s.(nextId := s.nextId + 1)
      case Ok(session) =>
        DualWrite(s, AddSemantic(session, s.nextId, SemanticRow(r)), s.nextId, PointFor(r, Semantic),
                  f.flush && (r.source.Some? ==> r.source.value in s.db.episodic), f)
  }

  // --- The keys at commit --------------------------------------------------------------

  lemma EpisodeKeepsKeys(db: Tables, id: Id, row: EpisodicMemory)
    requires KeysHold(db)
    ensures KeysHold(AddEpisodic(db, id, row))
  {
  }

  lemma FactKeepsKeys(db: Tables, id: Id, row: SemanticMemory)
    requires KeysHold(db) && row.supersededBy.None?
    ensures KeysHold(AddSemantic(db, id, row))
  {
  }

  lemma ResolvedThenFactKeepsKeys(db: Tables, policy: Policy, tenant: TenantId, id: Id, content: string, existing: Id,
                                  confidence: real, row: SemanticMemory)
    requires KeysHold(db) && existing in db.semantic && row.supersededBy.None?
    ensures KeysHold(AddSemantic(Resolved(db, policy, tenant, id, content, existing, confidence), id, row))
  {
  }

  /** By the time of the commit the row that the link and the log name is there. */
  lemma CheckedFactKeepsKeys(db: Tables, policy: Policy, tenant: TenantId, id: Id, content: string,
                             hits: seq<Id>, nli: Nli, row: SemanticMemory)
    requires KeysHold(db) && row.supersededBy.None?
    requires Checked(db, policy, tenant, id, content, hits, nli).Ok?
    ensures KeysHold(AddSemantic(Checked(db, policy, tenant, id, content, hits, nli).value, id, row))
  {
    CheckedTables(db, policy, tenant, id, content, hits, nli);
    match FirstClash(db, tenant, hits, content, nli)
    case Clash(existing, confidence) =>
      ResolvedThenFactKeepsKeys(db, policy, tenant, id, content, existing, confidence, row);
    case _ => FactKeepsKeys(db, id, row);
  }

  // --- The two services ----------------------------------------------------------------

  method WriteEpisodic(st: Stores, r: WriteRequest, f: WriteFaults) returns (result: Result<Id, WriteError>)
    requires st.Idle()
    modifies st
    ensures st.Idle() && st.Now() == EpisodicWritten(old(st.Now()), r, f)
    ensures result.Ok? ==> result.value == old(st.nextId) && result.value in st.committed.episodic
                           && result.value in st.index
    ensures result == Err(EmbeddingFailed) <==> !f.embed
    ensures result == Err(IndexFailed) <==> f.embed && f.upsert.Raises()
    ensures result == Err(RowRefused) <==>
      f.embed && !f.upsert.Raises() && !(f.flush && r.tenant in old(st.committed).tenants)
    ensures result.Ok? <==>
      f.embed && !f.upsert.Raises() && f.flush && r.tenant in old(st.committed).tenants && !f.commit.Raises()
  {
    var id := st.FreshId();
    if !f.embed { return Err(EmbeddingFailed); }
    var importance := Importance(r.content);
    var ok := st.UpsertPoint(id, Point(r.tenant, r.user, Episodic, importance), f.upsert);
    if !ok { return Err(IndexFailed); }
    if !f.flush || r.tenant !in st.session.tenants {
      st.DeletePoints({id}, f.compensate);
      st.Rollback();
      return Err(RowRefused);
    }
    var row := EpisodicMemory(r.tenant, r.user, r.content, importance, 0, false, r.now);
    EpisodeKeepsKeys(st.session, id, row);
    st.session := AddEpisodic(st.session, id, row);
    ok := st.Commit(f.commit);
    if !ok { return Err(CommitFailed); }
    return Ok(id);
  }

  /** Nothing stands in the way of the write; the keys checked at commit never do. */
  predicate Succeeds(s: State, r: WriteRequest, similar: seq<Id>, nli: Nli, f: WriteFaults) {
    && r.tenant in s.db.tenants && f.embed && f.search
    && CheckOf(s, r, similar, nli).Ok?
    && !f.upsert.Raises() && f.flush && (r.source.Some? ==> r.source.value in s.db.episodic) && !f.commit.Raises()
  }

  /** The first thing that stands in the way of a write that fails. */
  function WhyNot(s: State, r: WriteRequest, similar: seq<Id>, nli: Nli, f: WriteFaults): WriteError {
    if r.tenant !in s.db.tenants then TenantNotFound
    else if !f.embed then EmbeddingFailed
    else if !f.search then CheckFailed(SearchFailed)
    else if CheckOf(s, r, similar, nli).Err? then CheckFailed(CheckOf(s, r, similar, nli).error)
    else if f.upsert.Raises() then IndexFailed
    else if !f.flush || (r.source.Some? && r.source.value !in s.db.episodic) then RowRefused
    else CommitFailed
  }

  /** On success, the id and whether a contradiction was found. */
  method WriteSemantic(st: Stores, r: WriteRequest, similar: seq<Id>, nli: Nli, f: WriteFaults)
    returns (result: Result<(Id, bool), WriteError>)
    requires st.Idle()
    modifies st
    ensures st.Idle() && st.Now() == SemanticWritten(old(st.Now()), r, similar, nli, f)
    ensures result.Ok? ==> result.value.0 == old(st.nextId) && result.value.0 in st.committed.semantic
                           && result.value.0 in st.index
    ensures result.Ok? <==> Succeeds(old(st.Now()), r, similar, nli, f)
    ensures result.Err? ==> result.error == WhyNot(old(st.Now()), r, similar, nli, f)
    ensures result.Ok? ==>
      (result.value.1 <==>
        FirstClash(old(st.committed), r.tenant, SemanticHits(old(st.Now()), r, similar), r.content, nli).Clash?)
  {
    if r.tenant !in st.session.tenants { return Err(TenantNotFound); }
    var policy := st.session.tenants[r.tenant].policy;
    var id := st.FreshId();
    if !f.embed { return Err(EmbeddingFailed); }
    var importance := Importance(r.content);
    ghost var hits := SemanticHits(st.Now(), r, similar);
    var check := CheckForContradiction(st, r.tenant, policy, r.user, r.content, id, similar, f.search, nli);
    if check.Err? {
      st.Rollback();
      return Err(CheckFailed(check.error));
    }
    var ok := st.UpsertPoint(id, Point(r.tenant, r.user, Semantic, importance), f.upsert);
    if !ok {
      st.Rollback();
      return Err(IndexFailed);
    }
    if !f.flush || (r.source.Some? && r.source.value !in st.session.episodic) {
      st.DeletePoints({id}, f.compensate);
      st.Rollback();
      return Err(RowRefused);
    }
    var row := SemanticMemory(r.tenant, r.user, r.content, importance, DEFAULT_CONFIDENCE, r.source, 0, false,
                              None, r.now);
    CheckedFactKeepsKeys(st.committed, policy, r.tenant, id, r.content, hits, nli, row);
    st.session := AddSemantic(st.session, id, row);
    ok := st.Commit(f.commit);
    if !ok { return Err(CommitFailed); }
    return Ok((id, check.value));
  }

  // --- What is stored ------------------------------------------------------------------------

  /** An episode is stored as given, scored, never accessed; the point with it says whose it is.
      Row and point each appear exactly when the calls allow it, and nothing else changes. */
  lemma EpisodeIsStored(s: State, r: WriteRequest, f: WriteFaults)
    requires s.nextId !in s.db.episodic && s.nextId !in s.index
    ensures var s', id := EpisodicWritten(s, r, f), s.nextId;
      var row := EpisodicMemory(r.tenant, r.user, r.content, Importance(r.content), 0, false, r.now);
      var point := Point(r.tenant, r.user, Episodic, Importance(r.content));
      var taken := f.flush && r.tenant in s.db.tenants;
      && s'.nextId == id + 1
      && s'.db == (if f.embed && f.upsert == Done && taken && f.commit != Refused
                   then s.db.(episodic := s.db.episodic[id := row]) else s.db)
      && s'.index == (if f.embed && f.upsert != Refused && (f.upsert == Lost || taken || f.compensate == Refused)
                      then s.index[id := point] else s.index)
  {
    assert s.index[s.nextId := PointFor(r, Episodic)] - {s.nextId} == s.index;
    assert s.index - {s.nextId} == s.index;
  }

  /** A fact likewise, with a confidence of 0.5 and its source; what a contradiction adds to it
      is not said here. */
  lemma FactIsStored(s: State, r: WriteRequest, similar: seq<Id>, nli: Nli, f: WriteFaults)
    requires s.nextId !in s.db.semantic && s.nextId !in s.index
    ensures var s', id := SemanticWritten(s, r, similar, nli, f), s.nextId;
      var row := SemanticMemory(r.tenant, r.user, r.content, Importance(r.content), 0.5, r.source, 0, false, None,
                                r.now);
      var point := Point(r.tenant, r.user, Semantic, Importance(r.content));
      var taken := f.flush && (r.source == None || r.source.value in s.db.episodic);
      var checked := r.tenant in s.db.tenants && f.embed && f.search && CheckOf(s, r, similar, nli).Ok?;
      && (id in s'.db.semantic <==> checked && f.upsert == Done && taken && f.commit != Refused)
      && (id in s'.db.semantic ==> s'.db.semantic[id] == row)
      && (id !in s'.db.semantic ==> s'.db == s.db)
      && s'.db.episodic == s.db.episodic && s'.db.tenants == s.db.tenants && s'.db.compressions == s.db.compressions
      && s'.index == (if checked && f.upsert != Refused && (f.upsert == Lost || taken || f.compensate == Refused)
                      then s.index[id := point] else s.index)
  {
    assert s.index[s.nextId := PointFor(r, Semantic)] - {s.nextId} == s.index;
    assert s.index - {s.nextId} == s.index;
    if r.tenant in s.db.tenants && CheckOf(s, r, similar, nli).Ok? {
      CheckedTables(s.db, s.db.tenants[r.tenant].policy, r.tenant, s.nextId, r.content,
                    SemanticHits(s, r, similar), nli);
    }
  }

  /** A fact that meets no contradiction changes no other row and no log. */
  lemma UncontestedFactAddsOneRow(s: State, r: WriteRequest, similar: seq<Id>, nli: Nli, f: WriteFaults)
    requires s.nextId !in s.db.semantic
    requires FirstClash(s.db, r.tenant, SemanticHits(s, r, similar), r.content, nli).Clear?
    requires s.nextId in SemanticWritten(s, r, similar, nli, f).db.semantic
    ensures var db' := SemanticWritten(s, r, similar, nli, f).db;
      db' == s.db.(semantic := s.db.semantic[s.nextId := db'.semantic[s.nextId]])
  {
  }

  /** A new fact is held against the five most similar facts of its user, points of other types
      left out. */
  lemma FactsHeldAgainst(s: State, r: WriteRequest, similar: seq<Id>)
    ensures var hits := SemanticHits(s, r, similar);
      && |hits| <= 5 && BySimilarity(similar, hits)
      && (forall id :: id in hits ==>
            && id in s.index && s.index[id].tenant == r.tenant && s.index[id].user == r.user
            && s.index[id].kind == Semantic)
      && (forall id :: id in similar && id in s.index && s.index[id].tenant == r.tenant && s.index[id].user == r.user
                       && s.index[id].kind == Semantic && id !in hits ==>
            |hits| == 5 && forall k :: k in hits ==> Position(similar, k) < Position(similar, id))
  {
    SearchKeepsMostSimilar(s.index, similar, r.tenant, r.user, Some(Semantic), CANDIDATES);
    forall id | id in s.index && s.index[id].tenant == r.tenant && s.index[id].user == r.user
                && s.index[id].kind == Semantic
      ensures Passes(s.index[id], r.tenant, r.user, Some(Semantic)) {}
  }
}
