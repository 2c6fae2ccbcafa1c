/** Importance is kept twice, in the row and in the point's payload: which events set the two
    apart, which bring them together again, and what that comes to over runs. */
module ImportanceDrift {
  import opened MemoryModel
  import opened MemoryWrite
  import opened Decay
  import opened Retention
  import opened Compression
  import opened CompressionRestart
  import opened MemoryRead
  import opened Engine
  import opened StoreAgreement
  import opened Contradiction

  function ImportanceOf(db: Tables, id: Id): Milli
    requires id in RowIds(db)
  {
    if id in db.episodic then db.episodic[id].importance else db.semantic[id].importance
  }

  /** The memory has both its row and its point. */
  predicate HasBoth(s: State, id: Id) {
    id in RowIds(s.db) && id in s.index
  }

  predicate IsDrifted(s: State, id: Id) {
    HasBoth(s, id) && s.index[id].importance != ImportanceOf(s.db, id)
  }

  /** The event sets row and point apart: a committed decay whose call for this point was lost,
      unless the point happens to hold the new value; or a decay rolled back after the call took
      effect, unless the value is at the floor already. */
  predicate SetsApart(s: State, e: Event, id: Id) {
    e.DecayDay? && HasBoth(s, id) &&
    var aged := Decayed(ImportanceOf(s.db, id));
    if e.commit.Lands() then id in e.lostIds && s.index[id].importance != aged
    else id !in e.lostIds && aged != ImportanceOf(s.db, id)
  }

  /** The event brings them together, or takes one of them away. */
  predicate Settles(s: State, e: Event, id: Id) {
    match e
    case DecayDay(lost, commit) => HasBoth(s, id) && !SetsApart(s, e, id) && (commit.Lands() || id !in lost)
    case Sweep(now, lost, commit) =>
      id in Expired(s.db, now, if commit.Lands() then s.db.tenants.Keys else s.db.tenants.Keys - lost)
    case _ => false
  }

  /** Exactly how drift comes and goes at one event. */
  predicate Drifts(s: State, e: Event, s': State, id: Id) {
    IsDrifted(s', id) <==> (IsDrifted(s, id) || SetsApart(s, e, id)) && !Settles(s, e, id)
  }

  // --- Event by event ----------------------------------------------------------------------

  /** The same rows with the same importance, but for a new one. */
  ghost predicate SameImportance(db: Tables, db': Tables, newest: Id) {
    forall id :: id != newest ==>
      (id in RowIds(db') <==> id in RowIds(db)) && (id in RowIds(db) ==> ImportanceOf(db', id) == ImportanceOf(db, id))
  }

  lemma NewMemoryDriftsNot(s: State, session: Tables, point: Point, s': State, id: Id)
    requires Tidy(s) && SameImportance(s.db, session, s.nextId)
    requires s.nextId in RowIds(session) && ImportanceOf(session, s.nextId) == point.importance
    requires s'.db == s.db || s'.db == session
    requires s'.index == s.index || s'.index == s.index[s.nextId := point] || s'.index == s.index - {s.nextId}
    ensures IsDrifted(s', id) <==> IsDrifted(s, id)
  {
  }

  lemma WriteEpisodeDrift(s: State, r: WriteRequest, f: WriteFaults, id: Id)
    requires Tidy(s)
    ensures Drifts(s, WriteEpisode(r, f), EpisodicWritten(s, r, f), id)
  {
    var session := AddEpisodic(s.db, s.nextId, EpisodicRow(r));
    PutThenDrop(s.index, s.nextId, PointFor(r, Episodic), f);
    NewMemoryDriftsNot(s, session, PointFor(r, Episodic), EpisodicWritten(s, r, f), id);
  }

  lemma PutThenDrop(index: map<Id, Point>, id: Id, point: Point, f: WriteFaults)
    ensures Put(index, id, point, f.upsert) - {id} == index - {id}
  {
  }

  lemma NewFactImportance(s: State, db: Tables, r: WriteRequest)
    requires s.nextId !in s.db.semantic && s.nextId !in s.db.episodic
    requires db.semantic.Keys == s.db.semantic.Keys && db.episodic == s.db.episodic
    requires forall id :: id in s.db.semantic ==> db.semantic[id].importance == s.db.semantic[id].importance
    ensures var session := AddSemantic(db, s.nextId, SemanticRow(r));
      SameImportance(s.db, session, s.nextId) && s.nextId in RowIds(session)
      && ImportanceOf(session, s.nextId) == PointFor(r, Semantic).importance
  {
  }

  lemma WriteFactDrift(s: State, r: WriteRequest, similar: seq<Id>, nli: Nli, f: WriteFaults, id: Id)
    requires Tidy(s)
    ensures Drifts(s, WriteFact(r, similar, nli, f), SemanticWritten(s, r, similar, nli, f), id)
  {
    if r.tenant in s.db.tenants && f.embed && f.search && CheckOf(s, r, similar, nli).Ok? {
      var db := CheckOf(s, r, similar, nli).value;
      CheckKeepsIds(s, r, similar, nli);
      NewFactImportance(s, db, r);
      PutThenDrop(s.index, s.nextId, PointFor(r, Semantic), f);
      NewMemoryDriftsNot(s, AddSemantic(db, s.nextId, SemanticRow(r)), PointFor(r, Semantic),
                         SemanticWritten(s, r, similar, nli, f), id);
    }
  }

  lemma SweepDrift(s: State, now: Time, lost: set<TenantId>, commit: Call, id: Id)
    requires Tidy(s)
    ensures Drifts(s, Sweep(now, lost, commit), Swept(s, now, lost, commit), id)
  {
  }

  lemma DecayDrift(s: State, lost: set<Id>, commit: Call, id: Id)
    requires Tidy(s)
    ensures Drifts(s, DecayDay(lost, commit), DecayedScores(s, lost, commit), id)
  {
    ScoresSent(s.db);
  }

  lemma FindDrift(s: State, q: Query, exp: Curve, commit: Call, id: Id)
    ensures Drifts(s, Find(q, exp, commit), Searched(s, q, exp, commit), id)
  {
  }

  lemma GroupDrift(s: State, sha: Hash, t: TenantId, user: string, group: seq<Id>, now: Time, fault: GroupFault, id: Id)
    requires Tidy(s) && group != []
    ensures IsDrifted(GroupDone(s, sha, t, user, group, now, fault), id) <==> IsDrifted(s, id)
  {
    var session := WithGroup(s.db, sha, t, user, group, s.nextId, now);
    NewMemoryDriftsNot(s, session, CompressedPoint(t, user), GroupDone(s, sha, t, user, group, now, fault), id);
  }

  lemma {:induction false} WorkDrift(s: State, job: Job, work: seq<string>, now: Time, faults: Faults, id: Id)
    requires Tidy(s) && forall u :: u in work ==> |job.Group(u)| >= 2
    ensures IsDrifted(WorkDone(s, job, work, now, faults), id) <==> IsDrifted(s, id)
    decreases |work|
  {
    if work != [] {
      var fault := FaultFor(faults, work[0]);
      var next := GroupDone(s, job.sha, job.tenant, work[0], job.Group(work[0]), now, fault);
      GroupDrift(s, job.sha, job.tenant, work[0], job.Group(work[0]), now, fault, id);
      GroupStaysTidy(s, job.sha, job.tenant, work[0], job.Group(work[0]), now, fault);
      if fault.Smooth? { WorkDrift(next, job, work[1..], now, faults, id); }
    }
  }

  lemma CompressDrift(s: State, sha: Hash, t: TenantId, now: Time, faults: Faults, id: Id)
    requires Tidy(s)
    ensures Drifts(s, Compress(t, sha, now, faults), Compressed(s, sha, t, now, faults), id)
  {
    assert IdsIssued(s);
    CompressionIsWork(s, sha, t, now, faults);
    WorkDrift(s, JobFor(s, sha, t), WorkFor(s, sha, t), now, faults, id);
  }

  lemma SettingsDrift(s: State, t: TenantId, settings: Tenant, id: Id)
    ensures Drifts(s, SetTenant(t, settings), Step(s, SetTenant(t, settings)), id)
  {
  }

  /** Only a decay day sets row and point apart, under exactly those faults; a decay whose calls
      land brings them together. */
  lemma StepDrifts(s: State, e: Event, id: Id)
    requires Tidy(s)
    ensures Drifts(s, e, Step(s, e), id)
  {
    match e
    case SetTenant(t, settings) => SettingsDrift(s, t, settings, id);
    case WriteEpisode(r, f) => WriteEpisodeDrift(s, r, f, id);
    case WriteFact(r, similar, nli, f) => WriteFactDrift(s, r, similar, nli, f, id);
    case Sweep(now, lost, commit) => SweepDrift(s, now, lost, commit, id);
    case DecayDay(lost, commit) => DecayDrift(s, lost, commit, id);
    case Compress(t, sha, now, faults) => CompressDrift(s, sha, t, now, faults, id);
    case Find(q, exp, commit) => FindDrift(s, q, exp, commit, id);
  }

  // --- Over whole runs -----------------------------------------------------------------------

  /** One decay day whose calls all land ends all drift, whatever came before. */
  lemma DecayDayRealigns(deferredKeys: bool, events: seq<Event>, commit: Call, id: Id)
    requires commit.Lands()
    ensures !IsDrifted(Step(Run(Empty(deferredKeys), events), DecayDay({}, commit)), id)
  {
    EmptyIsSound(deferredKeys);
    RunKeepsInv(Empty(deferredKeys), events);
    StepDrifts(Run(Empty(deferredKeys), events), DecayDay({}, commit), id);
  }

  ghost predicate DriftsAt(s: State, events: seq<Event>, i: nat, id: Id)
    requires i < |events|
  {
    Drifts(At(s, events, i), events[i], At(s, events, i + 1), id)
  }

  ghost predicate NotSettled(s: State, events: seq<Event>, m: nat, n: nat, id: Id)
    requires n <= |events|
  {
    forall i: nat :: m <= i < n ==> !Settles(At(s, events, i), events[i], id)
  }

  ghost predicate SetApartAt(s: State, events: seq<Event>, i: nat, id: Id) {
    i < |events| && SetsApart(At(s, events, i), events[i], id)
  }

  lemma EventsDrift(s: State, events: seq<Event>, id: Id)
    requires Inv(s)
    ensures forall i: nat :: i < |events| ==> DriftsAt(s, events, i, id)
  {
    forall i: nat | i < |events| ensures DriftsAt(s, events, i, id) {
      RunKeepsInv(s, events[..i]);
      NextState(s, events, i);
      StepDrifts(At(s, events, i), events[i], id);
    }
  }

  lemma {:induction false} DriftStays(s: State, events: seq<Event>, m: nat, n: nat, id: Id)
    requires m <= n <= |events| && forall i: nat :: i < |events| ==> DriftsAt(s, events, i, id)
    requires IsDrifted(At(s, events, m), id) && NotSettled(s, events, m, n, id)
    ensures IsDrifted(At(s, events, n), id)
    decreases n - m
  {
    if m < n {
      assert DriftsAt(s, events, m, id);
      DriftStays(s, events, m + 1, n, id);
    }
  }

  lemma DriftBefore(s: State, events: seq<Event>, n: nat, id: Id)
    requires n < |events| && DriftsAt(s, events, n, id)
    requires IsDrifted(At(s, events, n + 1), id) && !SetApartAt(s, events, n, id)
    ensures IsDrifted(At(s, events, n), id) && !Settles(At(s, events, n), events[n], id)
  {
  }

  lemma NotSettledOneMore(s: State, events: seq<Event>, m: nat, n: nat, id: Id)
    requires n < |events| && NotSettled(s, events, m, n, id) && !Settles(At(s, events, n), events[n], id)
    ensures NotSettled(s, events, m, n + 1, id)
  {
  }

  lemma {:induction false} DriftTracedBack(s: State, events: seq<Event>, n: nat, id: Id) returns (m: nat)
    requires n <= |events| && forall i: nat :: i < |events| ==> DriftsAt(s, events, i, id)
    requires IsDrifted(At(s, events, n), id)
    ensures m <= n && NotSettled(s, events, m, n, id)
    ensures if m == 0 then IsDrifted(At(s, events, 0), id) else SetApartAt(s, events, m - 1, id)
    decreases n
  {
    m := n;
    if n > 0 && !SetApartAt(s, events, n - 1, id) {
      assert DriftsAt(s, events, n - 1, id);
      DriftBefore(s, events, n - 1, id);
      m := DriftTracedBack(s, events, n - 1, id);
      NotSettledOneMore(s, events, m, n - 1, id);
    }
  }

  lemma ApartIsDrifted(s: State, events: seq<Event>, i: nat, id: Id)
    requires SetApartAt(s, events, i, id) && DriftsAt(s, events, i, id)
    ensures IsDrifted(At(s, events, i + 1), id)
  {
  }

  /** Event `i` is to blame: it set row and point apart, and nothing has settled it since. */
  ghost predicate IsCause(s: State, events: seq<Event>, i: nat, id: Id) {
    SetApartAt(s, events, i, id) && NotSettled(s, events, i + 1, |events|, id)
  }

  lemma CauseLeavesDrift(s: State, events: seq<Event>, i: nat, id: Id)
    requires IsCause(s, events, i, id) && forall j: nat :: j < |events| ==> DriftsAt(s, events, j, id)
    ensures IsDrifted(At(s, events, |events|), id)
  {
    assert DriftsAt(s, events, i, id);
    ApartIsDrifted(s, events, i, id);
    DriftStays(s, events, i + 1, |events|, id);
  }

  lemma DriftLeadsBack(s: State, events: seq<Event>, id: Id)
    requires IsDrifted(At(s, events, |events|), id) && forall j: nat :: j < |events| ==> DriftsAt(s, events, j, id)
    ensures (IsDrifted(At(s, events, 0), id) && NotSettled(s, events, 0, |events|, id))
         || exists i: nat :: IsCause(s, events, i, id)
  {
    var m := DriftTracedBack(s, events, |events|, id);
    if m > 0 { assert IsCause(s, events, m - 1, id); }
  }

  /** Row and point differ at the end of a run exactly when they did at the start, or a decay day
      with such a fault set them apart, and nothing has settled it since. */
  lemma DriftHasACause(s: State, events: seq<Event>, id: Id)
    requires Inv(s)
    ensures IsDrifted(Run(s, events), id) <==>
      || (IsDrifted(s, id) && NotSettled(s, events, 0, |events|, id))
      || exists i: nat :: IsCause(s, events, i, id)
  {
    assert events[..|events|] == events;
    EventsDrift(s, events, id);
    if IsDrifted(Run(s, events), id) { DriftLeadsBack(s, events, id); }
    if IsDrifted(s, id) && NotSettled(s, events, 0, |events|, id) { DriftStays(s, events, 0, |events|, id); }
    forall i: nat | IsCause(s, events, i, id) ensures IsDrifted(Run(s, events), id) {
      CauseLeavesDrift(s, events, i, id);
    }
  }
}
