/** The memory engine as a state machine: every request and every background task is one
    event, with the faults it met, and a run is any sequence of events. */
module Engine {
  import opened Wrappers
  import opened MemoryModel
  import opened Contradiction
  import opened MemoryWrite
  import opened Retention
  import opened Compression
  import opened MemoryRead
  import Decay
  import opened Supersession

  datatype Event =
    | SetTenant(t: TenantId, settings: Tenant)
    | WriteEpisode(request: WriteRequest, faults: WriteFaults)
    | WriteFact(request: WriteRequest, similar: seq<Id>, nli: Nli, faults: WriteFaults)
    | Sweep(now: Time, lostTenants: set<TenantId>, commit: Call)
    | DecayDay(lostIds: set<Id>, commit: Call)
    | Compress(t: TenantId, sha: Hash, now: Time, groupFaults: Faults)
    | Find(q: Query, exp: Curve, commit: Call)

  function Step(s: State, e: Event): State {
    match e
    case SetTenant(t, settings) => s.(db := s.db.(tenants := s.db.tenants[t := settings]))
    case WriteEpisode(r, f) => EpisodicWritten(s, r, f)
    case WriteFact(r, similar, nli, f) => SemanticWritten(s, r, similar, nli, f)
    case Sweep(now, lost, commit) => Swept(s, now, lost, commit)
    case DecayDay(lost, commit) => DecayedScores(s, lost, commit)
    case Compress(t, sha, now, faults) => Compressed(s, sha, t, now, faults)
    case Find(q, exp, commit) => Searched(s, q, exp, commit)
  }

  function Run(s: State, events: seq<Event>): State {
    if |events| == 0 then s else Step(Run(s, events[..|events| - 1]), events[|events| - 1])
  }

  /** The services are the machine: serving an event takes one step. */
  method Serve(st: Stores, e: Event)
    requires st.Idle()
    modifies st
    ensures st.Idle() && st.Now() == Step(old(st.Now()), e)
  {
    match e
    case SetTenant(t, settings) =>
      st.session := st.session.(tenants := st.session.tenants[t := settings]);
      var _ := st.Commit(Done);
    case WriteEpisode(r, f) => var _ := WriteEpisodic(st, r, f);
    case WriteFact(r, similar, nli, f) => var _ := WriteSemantic(st, r, similar, nli, f);
    case Sweep(now, lost, commit) => var _ := SweepExpiredMemories(st, now, lost, commit);
    case DecayDay(lost, commit) => var _ := DecayImportanceScores(st, lost, commit);
    case Compress(t, sha, now, faults) => var _ := CompressTenantMemories(st, sha, t, now, faults);
    case Find(q, exp, commit) => var _, _ := SearchMemories(st, q, exp, commit);
  }

  function Empty(deferredKeys: bool): State {
    State(Tables(deferredKeys, map[], map[], map[], [], []), map[], 0)
  }

  // --- The invariant -------------------------------------------------------------------

  /** Every id in use was issued. */
  ghost predicate Issued(db: Tables, index: map<Id, Point>, limit: Id) {
    && (forall id :: id in db.episodic || id in db.semantic || id in index ==> id < limit)
    && (forall i :: 0 <= i < |db.compressions| ==>
          db.compressions[i].resulting.Some? && db.compressions[i].resulting.value in db.semantic)
  }

  /** A point describes the row of its id, whenever there is one. */
  ghost predicate PointsMatch(db: Tables, index: map<Id, Point>) {
    forall id :: id in index ==>
      && (id in db.episodic ==> index[id].kind == Episodic && index[id].tenant == db.episodic[id].tenant
                                && index[id].user == db.episodic[id].user)
      && (id in db.semantic ==> index[id].kind == Semantic && index[id].tenant == db.semantic[id].tenant
                                && index[id].user == db.semantic[id].user)
  }

  /** What holds of each row and log by itself. */
  ghost predicate RowsValid(db: Tables) {
    && db.episodic.Keys !! db.semantic.Keys
    && (forall id :: id in db.episodic ==> db.episodic[id].importance <= 1000 && !db.episodic[id].superseded)
    && (forall id :: id in db.semantic ==> db.semantic[id].importance <= 1000 && !db.semantic[id].superseded)
    && (forall i :: 0 <= i < |db.compressions| ==> db.compressions[i].status == Completed)
  }

  ghost predicate Tidy(s: State) {
    Issued(s.db, s.index, s.nextId) && PointsMatch(s.db, s.index) && RowsValid(s.db)
  }

  ghost predicate LinksSound(db: Tables) {
    Sound(FactsOf(db), db.contradictions)
  }

  ghost predicate Inv(s: State) {
    Tidy(s) && LinksSound(s.db)
  }

  // --- Rows and points: each event keeps them tidy -------------------------------------

  /** `db` adds the row `id` on top of the rows of `s`, matching `point`. */
  ghost predicate AddsRow(s: State, db: Tables, id: Id, point: Point) {
    && id == s.nextId && Tidy(State(db, s.index, id + 1)) && PointsMatch(db, map[id := point])
  }

  lemma DualWriteStaysTidy(s: State, session: Tables, id: Id, point: Point, rowTaken: bool, f: WriteFaults)
    requires Tidy(s) && AddsRow(s, session, id, point)
    ensures Tidy(DualWrite(s, session, id, point, rowTaken, f))
  {
    assert map[id := point][id] == point;
    assert PointsMatch(session, s.index[id := point]);
    assert PointsMatch(s.db, s.index[id := point]);
  }

  lemma WriteEpisodeStaysTidy(s: State, r: WriteRequest, f: WriteFaults)
    requires Tidy(s)
    ensures Tidy(EpisodicWritten(s, r, f))
  {
    if f.embed {
      var db := AddEpisodic(s.db, s.nextId, EpisodicRow(r));
      assert AddsRow(s, db, s.nextId, PointFor(r, Episodic));
      DualWriteStaysTidy(s, db, s.nextId, PointFor(r, Episodic), f.flush && r.tenant in s.db.tenants, f);
    }
  }

  lemma CheckStaysTidy(s: State, r: WriteRequest, similar: seq<Id>, nli: Nli)
    requires Tidy(s) && r.tenant in s.db.tenants && CheckOf(s, r, similar, nli).Ok?
    ensures Tidy(State(CheckOf(s, r, similar, nli).value, s.index, s.nextId))
  {
    CheckedTables(s.db, s.db.tenants[r.tenant].policy, r.tenant, s.nextId, r.content, SemanticHits(s, r, similar), nli);
  }

  lemma NewFactStaysTidy(s: State, r: WriteRequest)
    requires Tidy(s)
    ensures AddsRow(s, AddSemantic(s.db, s.nextId, SemanticRow(r)), s.nextId, PointFor(r, Semantic))
  {
  }

  lemma WriteFactStaysTidy(s: State, r: WriteRequest, similar: seq<Id>, nli: Nli, f: WriteFaults)
    requires Tidy(s)
    ensures Tidy(SemanticWritten(s, r, similar, nli, f))
  {
    if r.tenant in s.db.tenants && f.embed && f.search && CheckOf(s, r, similar, nli).Ok? {
      CheckStaysTidy(s, r, similar, nli);
      var session := CheckOf(s, r, similar, nli).value;
      NewFactStaysTidy(State(session, s.index, s.nextId), r);
      DualWriteStaysTidy(s, AddSemantic(session, s.nextId, SemanticRow(r)), s.nextId, PointFor(r, Semantic),
                         f.flush && (r.source.Some? ==> r.source.value in s.db.episodic), f);
    }
  }

  lemma SweepStaysTidy(s: State, now: Time, lost: set<TenantId>, commit: Call)
    requires Tidy(s)
    ensures Tidy(Swept(s, now, lost, commit))
  {
    var ids := Expired(s.db, now, s.db.tenants.Keys);
    var db, index := WithoutEpisodic(s.db, ids), s.index - Expired(s.db, now, s.db.tenants.Keys - lost);
    assert Tidy(State(db, index, s.nextId));
  }

  lemma DecayStaysTidy(s: State, lost: set<Id>, commit: Call)
    requires Tidy(s)
    ensures Tidy(DecayedScores(s, lost, commit))
  {
    forall x: nat | x <= 1000 ensures Decay.Decayed(x) <= 1000 {
      Decay.DecayMovesTowardsFloor(x);
    }
    var scores := EpisodicScores(s.db) + SemanticScores(s.db);
    var index := Rescored(s.index, scores, lost);
    assert Tidy(State(s.db, index, s.nextId));
    assert RowsValid(Aged(s.db));
  }

  lemma FindStaysTidy(s: State, q: Query, exp: Curve, commit: Call)
    requires Tidy(s)
    ensures Tidy(Searched(s, q, exp, commit))
  {
  }

  lemma GroupStaysTidy(s: State, sha: Hash, tenant: TenantId, user: string, group: seq<Id>, now: Time,
                       fault: GroupFault)
    requires Tidy(s) && group != []
    ensures Tidy(GroupDone(s, sha, tenant, user, group, now, fault))
  {
    var db := WithGroup(s.db, sha, tenant, user, group, s.nextId, now);
    var index := s.index[s.nextId := CompressedPoint(tenant, user)];
    assert Tidy(State(db, s.index, s.nextId + 1));
    assert PointsMatch(db, index) && PointsMatch(s.db, index);
  }

  // --- Links: each event keeps them sound, and takes nothing back ----------------------

  lemma {:induction false} CheckedKeepsSound(s: State, r: WriteRequest, similar: seq<Id>, nli: Nli)
    requires Inv(s) && r.tenant in s.db.tenants && CheckOf(s, r, similar, nli).Ok?
    ensures var db := AddSemantic(CheckOf(s, r, similar, nli).value, s.nextId, SemanticRow(r));
      LinksSound(db) && Grows(FactsOf(s.db), FactsOf(db))
  {
    var hits := SemanticHits(s, r, similar);
    CheckedTables(s.db, s.db.tenants[r.tenant].policy, r.tenant, s.nextId, r.content, hits, nli);
    match FirstClash(s.db, r.tenant, hits, r.content, nli)
    case Clear => AddedFactKeepsSound(s, s.nextId, SemanticRow(r));
    case Clash(existing, confidence) =>
      assert existing in s.index && s.index[existing].user == r.user;
      ResolvedKeepsSound(s, s.db.tenants[r.tenant].policy, r, existing, confidence);
  }

  /** What a new fact clashes with is a fact of its own tenant and user that nothing supersedes. */
  lemma ClashIsWithOwnFact(s: State, r: WriteRequest, similar: seq<Id>, nli: Nli, existing: Id, confidence: real)
    requires Tidy(s)
    requires FirstClash(s.db, r.tenant, SemanticHits(s, r, similar), r.content, nli) == Clash(existing, confidence)
    ensures existing in s.db.semantic && existing in similar
    ensures s.db.semantic[existing].tenant == r.tenant && s.db.semantic[existing].user == r.user
    ensures s.db.semantic[existing].supersededBy == None
  {
    FactsHeldAgainst(s, r, similar);
  }

  lemma AddedFacts(db: Tables, id: Id, row: SemanticMemory)
    requires row.supersededBy.None?
    ensures FactsOf(AddSemantic(db, id, row)) == FactsOf(db)[id := Fact(row.tenant, row.user, None)]
  {
  }

  lemma AddedFactKeepsSound(s: State, id: Id, row: SemanticMemory)
    requires LinksSound(s.db) && row.supersededBy.None? && forall k :: k in s.db.semantic ==> k < id
    ensures LinksSound(AddSemantic(s.db, id, row)) && Grows(FactsOf(s.db), FactsOf(AddSemantic(s.db, id, row)))
  {
    NewFactKeepsSound(FactsOf(s.db), s.db.contradictions, id, row.tenant, row.user);
    AddedFacts(s.db, id, row);
  }

  lemma ResolvedFacts(db: Tables, policy: Policy, r: WriteRequest, existing: Id, confidence: real, id: Id)
    requires IsLive(db, r.tenant, existing) && db.semantic[existing].user == r.user && id !in db.semantic
    ensures var resolved := Resolved(db, policy, r.tenant, id, r.content, existing, confidence);
      var db' := AddSemantic(resolved, id, SemanticRow(r));
      var log := LogFor(policy, r.tenant, id, r.content, existing, db.semantic[existing], confidence);
      && db'.contradictions == db.contradictions + [log]
      && FactsOf(db') == if log.resolution.NewFactKept? then Linked(FactsOf(db), existing, id)
                         else FactsOf(db)[id := Fact(r.tenant, r.user, None)]
  {
  }

  lemma ResolvedKeepsSound(s: State, policy: Policy, r: WriteRequest, existing: Id, confidence: real)
    requires LinksSound(s.db) && IsLive(s.db, r.tenant, existing) && s.db.semantic[existing].user == r.user
    requires forall k :: k in s.db.semantic ==> k < s.nextId
    ensures var db := AddSemantic(Resolved(s.db, policy, r.tenant, s.nextId, r.content, existing, confidence),
                                  s.nextId, SemanticRow(r));
      LinksSound(db) && Grows(FactsOf(s.db), FactsOf(db))
  {
    var id, facts := s.nextId, FactsOf(s.db);
    var log := LogFor(policy, r.tenant, id, r.content, existing, s.db.semantic[existing], confidence);
    ResolvedFacts(s.db, policy, r, existing, confidence, id);
    if log.resolution.NewFactKept? {
      LinkKeepsSound(facts, s.db.contradictions, existing, id, log);
    } else {
      LoggedFactKeepsSound(facts, s.db.contradictions, id, r.tenant, r.user, log);
    }
  }

  lemma WriteFactKeepsSound(s: State, r: WriteRequest, similar: seq<Id>, nli: Nli, f: WriteFaults)
    requires Inv(s)
    ensures var s' := SemanticWritten(s, r, similar, nli, f);
      LinksSound(s'.db) && Grows(FactsOf(s.db), FactsOf(s'.db))
  {
    WrittenOrNot(s, r, similar, nli, f);
    if SemanticWritten(s, r, similar, nli, f).db != s.db {
      CheckedKeepsSound(s, r, similar, nli);
    }
  }

  /** A write commits what was checked with its own row, or nothing. */
  lemma WrittenOrNot(s: State, r: WriteRequest, similar: seq<Id>, nli: Nli, f: WriteFaults)
    ensures var db := SemanticWritten(s, r, similar, nli, f).db;
      db != s.db ==>
        && r.tenant in s.db.tenants && CheckOf(s, r, similar, nli).Ok?
        && db == AddSemantic(CheckOf(s, r, similar, nli).value, s.nextId, SemanticRow(r))
  {
  }

  lemma GroupKeepsSound(s: State, sha: Hash, tenant: TenantId, user: string, group: seq<Id>, now: Time,
                        fault: GroupFault)
    requires Inv(s) && group != []
    ensures var s' := GroupDone(s, sha, tenant, user, group, now, fault);
      LinksSound(s'.db) && Grows(FactsOf(s.db), FactsOf(s'.db))
  {
    AddedFactKeepsSound(s, s.nextId, NewFact(s.db, tenant, user, group, now));
    var db := WithGroup(s.db, sha, tenant, user, group, s.nextId, now);
    assert FactsOf(db) == FactsOf(AddSemantic(s.db, s.nextId, NewFact(s.db, tenant, user, group, now)));
  }

  lemma {:induction false} GroupsStayTidy(s: State, sha: Hash, tenant: TenantId, batch: seq<Id>, users: seq<string>,
                                          now: Time, faults: Faults)
    requires Tidy(s)
    ensures Tidy(GroupsDone(s, sha, tenant, batch, users, now, faults))
    decreases |users|
  {
    if users != [] {
      var group := GroupOf(s.db.episodic, batch, users[0]);
      if NeedsWork(s.db, sha, group) {
        var fault := FaultFor(faults, users[0]);
        GroupStaysTidy(s, sha, tenant, users[0], group, now, fault);
        if fault.Smooth? {
          var next := GroupDone(s, sha, tenant, users[0], group, now, fault);
          GroupsStayTidy(next, sha, tenant, batch, users[1..], now, faults);
        }
      } else {
        GroupsStayTidy(s, sha, tenant, batch, users[1..], now, faults);
      }
    }
  }

  /** Links stay sound from `s` to `s'` and nothing is taken back. */
  ghost predicate SoundStep(s: State, s': State) {
    LinksSound(s'.db) && Grows(FactsOf(s.db), FactsOf(s'.db))
  }

  lemma SoundOnAndOn(s: State, next: State, s': State)
    requires SoundStep(s, next) && SoundStep(next, s')
    ensures SoundStep(s, s')
  {
    GrowsOnAndOn(FactsOf(s.db), FactsOf(next.db), FactsOf(s'.db));
  }

  lemma {:induction false} GroupsKeepSound(s: State, sha: Hash, tenant: TenantId, batch: seq<Id>, users: seq<string>,
                                           now: Time, faults: Faults)
    requires Tidy(s) && LinksSound(s.db)
    ensures SoundStep(s, GroupsDone(s, sha, tenant, batch, users, now, faults))
    decreases |users|
  {
    if users != [] {
      var group := GroupOf(s.db.episodic, batch, users[0]);
      if NeedsWork(s.db, sha, group) {
        var fault := FaultFor(faults, users[0]);
        var next := GroupDone(s, sha, tenant, users[0], group, now, fault);
        GroupStaysTidy(s, sha, tenant, users[0], group, now, fault);
        GroupKeepsSound(s, sha, tenant, users[0], group, now, fault);
        if fault.Smooth? {
          GroupsKeepSound(next, sha, tenant, batch, users[1..], now, faults);
          SoundOnAndOn(s, next, GroupsDone(next, sha, tenant, batch, users[1..], now, faults));
        }
      } else {
        GroupsKeepSound(s, sha, tenant, batch, users[1..], now, faults);
      }
    }
  }

  ghost predicate SameFactsAndLogs(db: Tables, db': Tables) {
    FactsOf(db') == FactsOf(db) && db'.contradictions == db.contradictions
  }

  lemma SweptFacts(db: Tables, ids: set<Id>)
    ensures SameFactsAndLogs(db, WithoutEpisodic(db, ids))
  {
  }

  lemma AgedFacts(db: Tables)
    ensures SameFactsAndLogs(db, Aged(db))
  {
  }

  lemma AccessedFacts(db: Tables, cs: seq<Candidate>)
    ensures SameFactsAndLogs(db, Accessed(db, cs))
  {
  }

  lemma WrittenEpisodeFacts(s: State, r: WriteRequest, f: WriteFaults)
    ensures SameFactsAndLogs(s.db, EpisodicWritten(s, r, f).db)
  {
  }

  lemma SameFacts(s: State, e: Event)
    requires !e.WriteFact? && !e.Compress?
    ensures SameFactsAndLogs(s.db, Step(s, e).db)
  {
    match e
    case SetTenant(_, _) =>
    case WriteEpisode(r, f) => WrittenEpisodeFacts(s, r, f);
    case Sweep(now, _, _) => SweptFacts(s.db, Expired(s.db, now, s.db.tenants.Keys));
    case DecayDay(_, _) => AgedFacts(s.db);
    case Find(q, exp, _) => AccessedFacts(s.db, Returned(s.db, s.index, q, exp));
  }

  lemma StepKeepsInv(s: State, e: Event)
    requires Inv(s)
    ensures Inv(Step(s, e)) && Grows(FactsOf(s.db), FactsOf(Step(s, e).db))
  {
    if !e.WriteFact? && !e.Compress? { SameFacts(s, e); }
    match e
    case SetTenant(t, settings) =>
    case WriteEpisode(r, f) => WriteEpisodeStaysTidy(s, r, f);
    case WriteFact(r, similar, nli, f) =>
      WriteFactStaysTidy(s, r, similar, nli, f);
      WriteFactKeepsSound(s, r, similar, nli, f);
    case Sweep(now, lost, commit) => SweepStaysTidy(s, now, lost, commit);
    case DecayDay(lost, commit) => DecayStaysTidy(s, lost, commit);
    case Find(q, exp, commit) => FindStaysTidy(s, q, exp, commit);
    case Compress(t, sha, now, faults) =>
      var batch := Batch(s.db.episodic, t);
      if |batch| >= 3 {
        GroupsStayTidy(s, sha, t, batch, UsersOf(s.db.episodic, batch), now, faults);
        GroupsKeepSound(s, sha, t, batch, UsersOf(s.db.episodic, batch), now, faults);
      }
  }

  lemma EmptyIsSound(deferredKeys: bool)
    ensures Inv(Empty(deferredKeys))
  {
  }

  /** The invariant holds in every reachable state, whatever fails. */
  lemma {:induction false} RunKeepsInv(s: State, events: seq<Event>)
    requires Inv(s)
    ensures Inv(Run(s, events))
  {
    if |events| > 0 {
      RunKeepsInv(s, events[..|events| - 1]);
      StepKeepsInv(Run(s, events[..|events| - 1]), events[|events| - 1]);
    }
  }
}
