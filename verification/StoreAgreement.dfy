/** The rows and the vector index: where they can come apart, and that they agree otherwise. */
module StoreAgreement {
  import opened MemoryModel
  import opened Contradiction
  import opened MemoryWrite
  import opened Retention
  import opened Compression
  import opened CompressionRestart
  import opened MemoryRead
  import opened Engine

  function RowIds(db: Tables): set<Id> {
    db.episodic.Keys + db.semantic.Keys
  }

  /** Points without a row. */
  function Orphans(s: State): set<Id> {
    s.index.Keys - RowIds(s.db)
  }

  /** Rows without a point. */
  function Bare(s: State): set<Id> {
    RowIds(s.db) - s.index.Keys
  }

  // --- Exactly which faults part them --------------------------------------------------

  /** The dual write leaves a point behind: its upsert landed, and then either the reply to
      the upsert was lost, or the row was refused and the compensating delete did not
      land, or the commit did not land. */
  predicate LeavesPoint(f: WriteFaults, rowTaken: bool) {
    f.upsert.Lands()
    && (f.upsert.Raises() || (if rowTaken then !f.commit.Lands() else !f.compensate.Lands()))
  }

  /** The request gets as far as the index. */
  predicate ReachesIndex(s: State, e: Event)
    requires e.WriteEpisode? || e.WriteFact?
  {
    e.faults.embed &&
    (e.WriteFact? ==> e.request.tenant in s.db.tenants && e.faults.search
                      && CheckOf(s, e.request, e.similar, e.nli).Ok?)
  }

  predicate RowTaken(s: State, e: Event)
    requires e.WriteEpisode? || e.WriteFact?
  {
    e.faults.flush &&
    if e.WriteEpisode? then e.request.tenant in s.db.tenants
    else e.request.source.Some? ==> e.request.source.value in s.db.episodic
  }

  /** Compression comes to the work's group `i`: no earlier one crashed. */
  predicate ReachesGroup(work: seq<string>, faults: Faults, i: int) {
    0 <= i < |work| && forall j :: 0 <= j < i ==> FaultFor(faults, work[j]).Smooth?
  }

  /** A crash before the commit took effect, with the point already there. */
  predicate OrphansPoint(fault: GroupFault) { fault == Crash(true, false) }

  /** A commit that took effect, with the point not there. */
  predicate StripsFact(fault: GroupFault) { fault == Smooth(false) || fault == Crash(false, true) }

  /** The ids drawn for the groups that compression comes to and that have a fault of the kind:
      one id is drawn for each group. */
  function GroupIds(work: seq<string>, faults: Faults, first: Id, kind: GroupFault -> bool): set<Id> {
    set i | 0 <= i < |work| && ReachesGroup(work, faults, i) && kind(FaultFor(faults, work[i])) :: first + i
  }

  /** The points the event orphans. */
  function NewOrphans(s: State, e: Event): set<Id> {
    match e
    case WriteEpisode(_, f) => if ReachesIndex(s, e) && LeavesPoint(f, RowTaken(s, e)) then {s.nextId} else {}
    case WriteFact(_, _, _, f) => if ReachesIndex(s, e) && LeavesPoint(f, RowTaken(s, e)) then {s.nextId} else {}
    case Sweep(now, lost, commit) =>
      if commit.Lands() then Expired(s.db, now, s.db.tenants.Keys * lost) * s.index.Keys else {}
    case Compress(t, sha, _, faults) => GroupIds(WorkFor(s, sha, t), faults, s.nextId, OrphansPoint)
    case _ => {}
  }

  /** The rows the event strips of their point. */
  function NewBare(s: State, e: Event): set<Id> {
    match e
    case Sweep(now, lost, commit) => if commit.Lands() then {} else Expired(s.db, now, s.db.tenants.Keys - lost)
    case Compress(t, sha, _, faults) => GroupIds(WorkFor(s, sha, t), faults, s.nextId, StripsFact)
    case _ => {}
  }

  /** The rows the event deletes. */
  function Deleted(s: State, e: Event): set<Id> {
    if e.Sweep? && e.commit.Lands() then Expired(s.db, e.now, s.db.tenants.Keys) else {}
  }

  /** Exactly: an orphan appears when a write leaves its point behind, a committed sweep lost
      its index call, or compression comes to a group that crashes uncommitted with its point
      in place; a row is without its point when a sweep deletes points and does not commit,
      or a compressed group commits without its point. */
  lemma StepParts(s: State, e: Event)
    requires Tidy(s)
    ensures Orphans(Step(s, e)) == Orphans(s) + NewOrphans(s, e)
    ensures Bare(Step(s, e)) == Bare(s) + NewBare(s, e) - Deleted(s, e)
  {
    match e
    case SetTenant(_, _) =>
    case WriteEpisode(r, f) => WriteEpisodeParts(s, r, f);
    case WriteFact(r, similar, nli, f) => WriteFactParts(s, r, similar, nli, f);
    case Sweep(now, lost, commit) => SweepParts(s, now, lost, commit);
    case DecayDay(lost, commit) => DecayParts(s, lost, commit);
    case Find(q, exp, commit) => FindParts(s, q, exp, commit);
    case Compress(t, sha, now, faults) => CompressionParts(s, sha, t, now, faults);
  }

  lemma WriteEpisodeParts(s: State, r: WriteRequest, f: WriteFaults)
    requires Tidy(s)
    ensures var s', e := EpisodicWritten(s, r, f), WriteEpisode(r, f);
      Orphans(s') == Orphans(s) + NewOrphans(s, e) && Bare(s') == Bare(s)
  {
    if f.embed {
      var e := WriteEpisode(r, f);
      DualWriteParts(s, AddEpisodic(s.db, s.nextId, EpisodicRow(r)), PointFor(r, Episodic), RowTaken(s, e), f);
    }
  }

  lemma WriteFactParts(s: State, r: WriteRequest, similar: seq<Id>, nli: Nli, f: WriteFaults)
    requires Tidy(s)
    ensures var s', e := SemanticWritten(s, r, similar, nli, f), WriteFact(r, similar, nli, f);
      Orphans(s') == Orphans(s) + NewOrphans(s, e) && Bare(s') == Bare(s)
  {
    var e := WriteFact(r, similar, nli, f);
    if ReachesIndex(s, e) {
      var session := CheckOf(s, r, similar, nli).value;
      CheckKeepsIds(s, r, similar, nli);
      DualWriteParts(s, AddSemantic(session, s.nextId, SemanticRow(r)), PointFor(r, Semantic), RowTaken(s, e), f);
    }
  }

  lemma CheckKeepsIds(s: State, r: WriteRequest, similar: seq<Id>, nli: Nli)
    requires r.tenant in s.db.tenants && CheckOf(s, r, similar, nli).Ok?
    ensures var db := CheckOf(s, r, similar, nli).value;
      && db.semantic.Keys == s.db.semantic.Keys && db.episodic == s.db.episodic && RowIds(db) == RowIds(s.db)
      && forall id :: id in s.db.semantic ==>
           db.semantic[id] == s.db.semantic[id].(supersededBy := db.semantic[id].supersededBy)
  {
    CheckedTables(s.db, s.db.tenants[r.tenant].policy, r.tenant, s.nextId, r.content, SemanticHits(s, r, similar), nli);
  }

  lemma DecayParts(s: State, lost: set<Id>, commit: Call)
    ensures var s' := DecayedScores(s, lost, commit); s'.index.Keys == s.index.Keys && RowIds(s'.db) == RowIds(s.db)
  {
    assert RowIds(Aged(s.db)) == RowIds(s.db);
  }

  lemma FindParts(s: State, q: Query, exp: Curve, commit: Call)
    ensures var s' := Searched(s, q, exp, commit); s'.index == s.index && RowIds(s'.db) == RowIds(s.db)
  {
    assert RowIds(Accessed(s.db, Returned(s.db, s.index, q, exp))) == RowIds(s.db);
  }

  lemma DualWriteParts(s: State, session: Tables, point: Point, rowTaken: bool, f: WriteFaults)
    requires Tidy(s) && RowIds(session) == RowIds(s.db) + {s.nextId}
    ensures var s' := DualWrite(s, session, s.nextId, point, rowTaken, f);
      && Orphans(s') == Orphans(s) + (if LeavesPoint(f, rowTaken) then {s.nextId} else {})
      && Bare(s') == Bare(s)
  {
    assert s.nextId !in s.index && s.nextId !in RowIds(s.db);
  }

  lemma SweptIds(db: Tables, ids: set<Id>)
    requires RowsValid(db) && ids <= db.episodic.Keys
    ensures RowIds(WithoutEpisodic(db, ids)) == RowIds(db) - ids
    ensures PointsOf(WithoutEpisodic(db, ids)) == PointsOf(db) - ids
  {
    assert WithoutEpisodic(db, ids).semantic.Keys == db.semantic.Keys;
    assert RowIds(WithoutEpisodic(db, ids)) == RowIds(db) - ids;
  }

  lemma ExpiredParts(db: Tables, now: Time, lost: set<TenantId>)
    ensures var tenants := db.tenants.Keys;
      Expired(db, now, tenants) == Expired(db, now, tenants - lost) + Expired(db, now, tenants * lost)
      && Expired(db, now, tenants - lost) !! Expired(db, now, tenants * lost)
  {
  }

  lemma SweepParts(s: State, now: Time, lost: set<TenantId>, commit: Call)
    requires Tidy(s)
    ensures var s', e := Swept(s, now, lost, commit), Sweep(now, lost, commit);
      && Orphans(s') == Orphans(s) + NewOrphans(s, e)
      && Bare(s') == Bare(s) + NewBare(s, e) - Deleted(s, e)
  {
    var tenants := s.db.tenants.Keys;
    var gone, kept := Expired(s.db, now, tenants - lost), Expired(s.db, now, tenants * lost);
    ExpiredParts(s.db, now, lost);
    SweptIds(s.db, gone + kept);
    assert Swept(s, now, lost, commit).index.Keys == s.index.Keys - gone;
    SweptSets(RowIds(s.db), s.index.Keys, gone, kept);
  }

  lemma SweptSets(rows: set<Id>, points: set<Id>, gone: set<Id>, kept: set<Id>)
    requires gone !! kept && gone + kept <= rows
    ensures (points - gone) - (rows - (gone + kept)) == points - rows + kept * points
    ensures (rows - (gone + kept)) - (points - gone) == rows - points + {} - (gone + kept)
    ensures (points - gone) - rows == points - rows + {}
    ensures rows - (points - gone) == rows - points + gone - {}
  {
  }

  /** One compression group: its point is orphaned exactly when it landed and the group's
      commit did not; its fact has no point exactly when the other way round. */
  lemma GroupParts(s: State, sha: Hash, tenant: TenantId, user: string, group: seq<Id>, now: Time, fault: GroupFault)
    requires Tidy(s) && group != []
    ensures var s' := GroupDone(s, sha, tenant, user, group, now, fault);
      && Orphans(s') == Orphans(s) + (if OrphansPoint(fault) then {s.nextId} else {})
      && Bare(s') == Bare(s) + (if StripsFact(fault) then {s.nextId} else {})
  {
    assert s.nextId !in s.index && s.nextId !in RowIds(s.db);
    assert RowIds(WithGroup(s.db, sha, tenant, user, group, s.nextId, now)) == RowIds(s.db) + {s.nextId};
  }

  lemma GroupIdsFrom(work: seq<string>, faults: Faults, first: Id, kind: GroupFault -> bool)
    requires work != []
    ensures GroupIds(work, faults, first, kind)
         == (if kind(FaultFor(faults, work[0])) then {first} else {})
            + (if FaultFor(faults, work[0]).Smooth? then GroupIds(work[1..], faults, first + 1, kind) else {})
  {
    var rest := work[1..];
    if FaultFor(faults, work[0]).Smooth? {
      forall i | 0 <= i < |rest| ensures ReachesGroup(rest, faults, i) <==> ReachesGroup(work, faults, i + 1) {
        assert forall j :: 0 <= j < i ==> rest[j] == work[j + 1];
        assert forall j :: 1 <= j < i + 1 ==> work[j] == rest[j - 1];
      }
      GroupIdsShifted(work, faults, first, kind);
    }
  }

  lemma GroupIdsShifted(work: seq<string>, faults: Faults, first: Id, kind: GroupFault -> bool)
    requires work != []
    requires forall i :: 0 <= i < |work| - 1 ==>
      (ReachesGroup(work[1..], faults, i) <==> ReachesGroup(work, faults, i + 1))
    ensures GroupIds(work, faults, first, kind)
         == (if kind(FaultFor(faults, work[0])) then {first} else {}) + GroupIds(work[1..], faults, first + 1, kind)
  {
    var rest := work[1..];
    forall id | id in GroupIds(work, faults, first, kind) && id != first
      ensures id in GroupIds(rest, faults, first + 1, kind)
    {
      var i := id - first - 1;
      assert work[i + 1] == rest[i];
      assert ReachesGroup(rest, faults, i);
    }
    forall id | id in GroupIds(rest, faults, first + 1, kind) ensures id in GroupIds(work, faults, first, kind) {
      var i := id - first - 1;
      assert work[i + 1] == rest[i];
      assert ReachesGroup(work, faults, i + 1);
    }
  }

  /** From `s` to `s'` exactly these points are orphaned and these facts stripped. */
  ghost predicate PartedBy(s: State, s': State, orphans: set<Id>, bare: set<Id>) {
    Orphans(s') == Orphans(s) + orphans && Bare(s') == Bare(s) + bare
  }

  ghost predicate PartedByWork(s: State, s': State, work: seq<string>, faults: Faults) {
    PartedBy(s, s', GroupIds(work, faults, s.nextId, OrphansPoint), GroupIds(work, faults, s.nextId, StripsFact))
  }

  /** The first group of the work. */
  lemma FirstGroupParts(s: State, job: Job, work: seq<string>, now: Time, faults: Faults)
    requires Tidy(s) && work != [] && job.Group(work[0]) != []
    ensures var fault := FaultFor(faults, work[0]);
      var next := GroupDone(s, job.sha, job.tenant, work[0], job.Group(work[0]), now, fault);
      && Tidy(next) && next.nextId == s.nextId + 1
      && PartedBy(s, next, if OrphansPoint(fault) then {s.nextId} else {}, if StripsFact(fault) then {s.nextId} else {})
  {
    var fault := FaultFor(faults, work[0]);
    GroupStaysTidy(s, job.sha, job.tenant, work[0], job.Group(work[0]), now, fault);
    GroupParts(s, job.sha, job.tenant, work[0], job.Group(work[0]), now, fault);
  }

  lemma CrashEndsWork(s: State, next: State, work: seq<string>, faults: Faults)
    requires work != [] && FaultFor(faults, work[0]).Crash?
    requires var fault := FaultFor(faults, work[0]);
      PartedBy(s, next, if OrphansPoint(fault) then {s.nextId} else {}, if StripsFact(fault) then {s.nextId} else {})
    ensures PartedByWork(s, next, work, faults)
  {
    GroupIdsFrom(work, faults, s.nextId, OrphansPoint);
    GroupIdsFrom(work, faults, s.nextId, StripsFact);
  }

  lemma WorkGoesOn(s: State, next: State, s': State, work: seq<string>, faults: Faults)
    requires work != [] && FaultFor(faults, work[0]).Smooth? && next.nextId == s.nextId + 1
    requires var fault := FaultFor(faults, work[0]);
      PartedBy(s, next, if OrphansPoint(fault) then {s.nextId} else {}, if StripsFact(fault) then {s.nextId} else {})
    requires PartedByWork(next, s', work[1..], faults)
    ensures PartedByWork(s, s', work, faults)
  {
    GroupIdsFrom(work, faults, s.nextId, OrphansPoint);
    GroupIdsFrom(work, faults, s.nextId, StripsFact);
  }

  /** A whole compression: the groups it comes to part the stores exactly as each would alone. */
  lemma {:induction false} WorkParts(s: State, job: Job, work: seq<string>, now: Time, faults: Faults)
    requires Tidy(s) && forall u :: u in work ==> |job.Group(u)| >= 2
    ensures PartedByWork(s, WorkDone(s, job, work, now, faults), work, faults)
    decreases |work|
  {
    if work != [] {
      var fault := FaultFor(faults, work[0]);
      var next := GroupDone(s, job.sha, job.tenant, work[0], job.Group(work[0]), now, fault);
      FirstGroupParts(s, job, work, now, faults);
      if fault.Crash? {
        CrashEndsWork(s, next, work, faults);
      } else {
        WorkParts(next, job, work[1..], now, faults);
        WorkGoesOn(s, next, WorkDone(next, job, work[1..], now, faults), work, faults);
      }
    }
  }

  lemma CompressionParts(s: State, sha: Hash, t: TenantId, now: Time, faults: Faults)
    requires Tidy(s)
    ensures var s', e := Compressed(s, sha, t, now, faults), Compress(t, sha, now, faults);
      Orphans(s') == Orphans(s) + NewOrphans(s, e) && Bare(s') == Bare(s) + NewBare(s, e)
  {
    assert IdsIssued(s);
    CompressionIsWork(s, sha, t, now, faults);
    WorkParts(s, JobFor(s, sha, t), WorkFor(s, sha, t), now, faults);
  }

  // --- Over whole runs -----------------------------------------------------------------

  /** The state after `i` events. */
  function At(s: State, events: seq<Event>, i: nat): State
    requires i <= |events|
  {
    Run(s, events[..i])
  }

  lemma NextState(s: State, events: seq<Event>, i: nat)
    requires i < |events|
    ensures At(s, events, i + 1) == Step(At(s, events, i), events[i])
  {
    var longer := events[..i + 1];
    assert longer[..|longer| - 1] == events[..i] && longer[|longer| - 1] == events[i];
  }

  /** Event `i` of the run orphans the point `id`. */
  ghost predicate OrphanedAt(s: State, events: seq<Event>, i: nat, id: Id) {
    i < |events| && id in NewOrphans(At(s, events, i), events[i])
  }

  /** Event `i` of the run leaves the row `id` without a point. */
  ghost predicate StrippedAt(s: State, events: seq<Event>, i: nat, id: Id) {
    i < |events| && id in NewBare(At(s, events, i), events[i]) - Deleted(At(s, events, i), events[i])
  }

  /** What event `i` orphans and strips. */
  ghost predicate Parts(s: State, events: seq<Event>, i: nat)
    requires i < |events|
  {
    var now, next, e := At(s, events, i), At(s, events, i + 1), events[i];
    Orphans(next) == Orphans(now) + NewOrphans(now, e) && Bare(next) == Bare(now) + NewBare(now, e) - Deleted(now, e)
  }

  ghost predicate AllPart(s: State, events: seq<Event>) {
    forall i: nat :: i < |events| ==> Parts(s, events, i)
  }

  lemma EventsPart(s: State, events: seq<Event>)
    requires Inv(s)
    ensures AllPart(s, events)
  {
    forall i: nat | i < |events| ensures Parts(s, events, i) {
      RunKeepsInv(s, events[..i]);
      NextState(s, events, i);
      StepParts(At(s, events, i), events[i]);
    }
  }

  lemma {:induction false} OrphansStay(s: State, events: seq<Event>, i: nat, n: nat, id: Id)
    requires AllPart(s, events) && i <= n <= |events| && id in Orphans(At(s, events, i))
    ensures id in Orphans(At(s, events, n))
    decreases n - i
  {
    if i < n {
      assert Parts(s, events, i);
      OrphansStay(s, events, i + 1, n, id);
    }
  }

  lemma {:induction false} OrphansTracedBack(s: State, events: seq<Event>, n: nat, id: Id) returns (i: nat)
    requires AllPart(s, events) && n <= |events|
    requires id in Orphans(At(s, events, n)) && id !in Orphans(At(s, events, 0))
    ensures OrphanedAt(s, events, i, id)
    decreases n
  {
    assert Parts(s, events, n - 1);
    if id in Orphans(At(s, events, n - 1)) {
      i := OrphansTracedBack(s, events, n - 1, id);
    } else {
      i := n - 1;
    }
  }

  /** A point is an orphan at the end of a run exactly when it was one at the start or some
      event orphaned it, by one of the faults named above: nothing removes orphans. */
  lemma OrphansHaveACause(s: State, events: seq<Event>, id: Id)
    requires Inv(s)
    ensures id in Orphans(Run(s, events)) <==>
      id in Orphans(s) || exists i: nat :: OrphanedAt(s, events, i, id)
  {
    assert events[..|events|] == events;
    EventsPart(s, events);
    forall i: nat | OrphanedAt(s, events, i, id) ensures id in Orphans(Run(s, events)) {
      assert Parts(s, events, i);
      OrphansStay(s, events, i + 1, |events|, id);
    }
    if id in Orphans(s) {
      OrphansStay(s, events, 0, |events|, id);
    } else if id in Orphans(Run(s, events)) {
      var i := OrphansTracedBack(s, events, |events|, id);
    }
  }

  /** No committed sweep from event `m` up to event `n` deleted the row. */
  ghost predicate NotSwept(s: State, events: seq<Event>, m: nat, n: nat, id: Id)
    requires n <= |events|
  {
    forall i: nat :: m <= i < n ==> id !in Deleted(At(s, events, i), events[i])
  }

  lemma {:induction false} BareStays(s: State, events: seq<Event>, m: nat, n: nat, id: Id)
    requires AllPart(s, events) && m <= n <= |events|
    requires id in Bare(At(s, events, m)) && NotSwept(s, events, m, n, id)
    ensures id in Bare(At(s, events, n))
    decreases n - m
  {
    if m < n {
      assert Parts(s, events, m);
      BareStays(s, events, m + 1, n, id);
    }
  }

  lemma BareBefore(s: State, events: seq<Event>, n: nat, id: Id)
    requires n < |events| && Parts(s, events, n)
    requires id in Bare(At(s, events, n + 1)) && !StrippedAt(s, events, n, id)
    ensures id in Bare(At(s, events, n)) && id !in Deleted(At(s, events, n), events[n])
  {
  }

  lemma NotSweptOneMore(s: State, events: seq<Event>, m: nat, n: nat, id: Id)
    requires n < |events| && NotSwept(s, events, m, n, id) && id !in Deleted(At(s, events, n), events[n])
    ensures NotSwept(s, events, m, n + 1, id)
  {
  }

  lemma {:induction false} BareTracedBack(s: State, events: seq<Event>, n: nat, id: Id) returns (m: nat)
    requires AllPart(s, events) && n <= |events| && id in Bare(At(s, events, n))
    ensures m <= n && NotSwept(s, events, m, n, id)
    ensures if m == 0 then id in Bare(At(s, events, 0)) else StrippedAt(s, events, m - 1, id)
    decreases n
  {
    m := n;
    if n > 0 && !StrippedAt(s, events, n - 1, id) {
      assert Parts(s, events, n - 1);
      BareBefore(s, events, n - 1, id);
      m := BareTracedBack(s, events, n - 1, id);
      NotSweptOneMore(s, events, m, n - 1, id);
    }
  }

  /** A row is without its point at the end of a run exactly when it was so at the start, or
      one of the faults named above stripped it, and no committed sweep has deleted it since. */
  lemma BareRowsHaveACause(s: State, events: seq<Event>, id: Id)
    requires Inv(s)
    ensures id in Bare(Run(s, events)) <==>
      || (id in Bare(s) && NotSwept(s, events, 0, |events|, id))
      || exists i: nat :: StrippedAt(s, events, i, id) && NotSwept(s, events, i + 1, |events|, id)
  {
    var n := |events|;
    assert events[..n] == events;
    EventsPart(s, events);
    if id in Bare(Run(s, events)) {
      var m := BareTracedBack(s, events, n, id);
      assert m > 0 ==> StrippedAt(s, events, m - 1, id) && NotSwept(s, events, m - 1 + 1, n, id);
    }
    if id in Bare(s) && NotSwept(s, events, 0, n, id) { BareStays(s, events, 0, n, id); }
    forall i: nat | StrippedAt(s, events, i, id) && NotSwept(s, events, i + 1, n, id)
      ensures id in Bare(Run(s, events))
    {
      assert Parts(s, events, i);
      BareStays(s, events, i + 1, n, id);
    }
  }

  predicate IsRequest(e: Event) {
    e.SetTenant? || e.WriteEpisode? || e.WriteFact? || e.Find?
  }

  lemma RequestKeepsBare(s: State, e: Event)
    requires Tidy(s) && IsRequest(e)
    ensures Bare(Step(s, e)) == Bare(s)
  {
    StepParts(s, e);
  }

  /** API requests alone, with any faults, never commit a row without its point. */
  lemma {:induction false} RequestsNeverStripRows(s: State, events: seq<Event>)
    requires Inv(s) && forall i :: 0 <= i < |events| ==> IsRequest(events[i])
    ensures Bare(Run(s, events)) == Bare(s)
  {
    if |events| > 0 {
      var before := events[..|events| - 1];
      RequestsNeverStripRows(s, before);
      RunKeepsInv(s, before);
      RequestKeepsBare(Run(s, before), events[|events| - 1]);
    }
  }

  // --- Runs without faults -------------------------------------------------------------

  predicate FaultFree(e: Event) {
    match e
    case SetTenant(_, _) => true
    case WriteEpisode(_, f) => f == NO_FAULTS
    case WriteFact(_, _, _, f) => f == NO_FAULTS
    case Sweep(_, lost, commit) => lost == {} && commit == Done
    case DecayDay(lost, commit) => lost == {} && commit == Done
    case Compress(_, _, _, faults) => faults == map[]
    case Find(_, _, commit) => commit == Done
  }

  /** The index the rows call for. */
  function PointsOf(db: Tables): map<Id, Point> {
    map id | id in RowIds(db) ::
      if id in db.episodic
      then Point(db.episodic[id].tenant, db.episodic[id].user, Episodic, db.episodic[id].importance)
      else Point(db.semantic[id].tenant, db.semantic[id].user, Semantic, db.semantic[id].importance)
  }

  lemma NewRowAgrees(s: State, db: Tables, id: Id, point: Point)
    requires s.index == PointsOf(s.db) && id !in RowIds(s.db)
    requires db.episodic.Keys + db.semantic.Keys == RowIds(s.db) + {id}
    requires PointsOf(db) == PointsOf(s.db)[id := point]
    ensures s.index[id := point] == PointsOf(db)
    ensures s.index[id := point] - {id} == PointsOf(s.db)
  {
  }

  lemma WriteEpisodeAgrees(s: State, r: WriteRequest)
    requires Tidy(s) && s.index == PointsOf(s.db)
    ensures var s' := EpisodicWritten(s, r, NO_FAULTS); s'.index == PointsOf(s'.db)
  {
    var db := AddEpisodic(s.db, s.nextId, EpisodicRow(r));
    assert PointsOf(db) == PointsOf(s.db)[s.nextId := PointFor(r, Episodic)];
    NewRowAgrees(s, db, s.nextId, PointFor(r, Episodic));
  }

  lemma CheckKeepsPoints(s: State, r: WriteRequest, similar: seq<Id>, nli: Nli)
    requires Tidy(s) && r.tenant in s.db.tenants && CheckOf(s, r, similar, nli).Ok?
    ensures PointsOf(CheckOf(s, r, similar, nli).value) == PointsOf(s.db)
  {
    CheckKeepsIds(s, r, similar, nli);
  }

  lemma NewFactPoints(db: Tables, id: Id, r: WriteRequest)
    requires id !in RowIds(db)
    ensures var db' := AddSemantic(db, id, SemanticRow(r));
      RowIds(db') == RowIds(db) + {id} && PointsOf(db') == PointsOf(db)[id := PointFor(r, Semantic)]
  {
  }

  lemma WriteFactAgrees(s: State, r: WriteRequest, similar: seq<Id>, nli: Nli)
    requires Tidy(s) && s.index == PointsOf(s.db)
    ensures var s' := SemanticWritten(s, r, similar, nli, NO_FAULTS); s'.index == PointsOf(s'.db)
  {
    if r.tenant in s.db.tenants && CheckOf(s, r, similar, nli).Ok? {
      CheckKeepsPoints(s, r, similar, nli);
      CheckStaysTidy(s, r, similar, nli);
      var session := CheckOf(s, r, similar, nli).value;
      NewFactPoints(session, s.nextId, r);
      NewRowAgrees(State(session, s.index, s.nextId), AddSemantic(session, s.nextId, SemanticRow(r)), s.nextId,
                   PointFor(r, Semantic));
    }
  }

  lemma SweepAgrees(s: State, now: Time)
    requires Tidy(s) && s.index == PointsOf(s.db)
    ensures var s' := Swept(s, now, {}, Done); s'.index == PointsOf(s'.db)
  {
    var tenants := s.db.tenants.Keys;
    assert tenants - {} == tenants;
    SweptIds(s.db, Expired(s.db, now, tenants));
  }

  lemma ScoresSent(db: Tables)
    requires RowsValid(db)
    ensures var scores := EpisodicScores(db) + SemanticScores(db);
      && scores.Keys == RowIds(db)
      && (forall id :: id in db.episodic ==> scores[id] == AgedEpisodic(db.episodic[id]).importance)
      && (forall id :: id in db.semantic ==> scores[id] == AgedSemantic(db.semantic[id]).importance)
  {
    assert EpisodicScores(db).Keys == db.episodic.Keys;
    assert SemanticScores(db).Keys == db.semantic.Keys;
  }

  lemma RescoredPointwise(index: map<Id, Point>, scores: map<Id, Milli>, target: map<Id, Point>)
    requires target.Keys == index.Keys <= scores.Keys
    requires forall id :: id in index ==> index[id].(importance := scores[id]) == target[id]
    ensures Rescored(index, scores, {}) == target
  {
  }

  lemma RescoringIsAging(db: Tables)
    requires RowsValid(db)
    ensures Rescored(PointsOf(db), EpisodicScores(db) + SemanticScores(db), {}) == PointsOf(Aged(db))
  {
    var scores, aged := EpisodicScores(db) + SemanticScores(db), Aged(db);
    ScoresSent(db);
    assert aged.episodic.Keys == db.episodic.Keys && aged.semantic.Keys == db.semantic.Keys;
    forall id | id in RowIds(db) ensures PointsOf(db)[id].(importance := scores[id]) == PointsOf(aged)[id] {
      if id in db.episodic {
        assert aged.episodic[id] == AgedEpisodic(db.episodic[id]);
      } else {
        assert aged.semantic[id] == AgedSemantic(db.semantic[id]);
      }
    }
    RescoredPointwise(PointsOf(db), scores, PointsOf(aged));
  }

  lemma DecayAgrees(s: State)
    requires Tidy(s) && s.index == PointsOf(s.db)
    ensures var s' := DecayedScores(s, {}, Done); s'.index == PointsOf(s'.db)
  {
    RescoringIsAging(s.db);
  }

  lemma GroupAgrees(s: State, sha: Hash, tenant: TenantId, user: string, group: seq<Id>, now: Time)
    requires Tidy(s) && s.index == PointsOf(s.db) && group != []
    ensures var s' := GroupDone(s, sha, tenant, user, group, now, Smooth(true)); s'.index == PointsOf(s'.db)
  {
    var db := WithGroup(s.db, sha, tenant, user, group, s.nextId, now);
    assert PointsOf(db) == PointsOf(s.db)[s.nextId := CompressedPoint(tenant, user)];
  }

  lemma {:induction false} GroupsAgree(s: State, sha: Hash, tenant: TenantId, batch: seq<Id>, users: seq<string>,
                                       now: Time)
    requires Tidy(s) && s.index == PointsOf(s.db)
    ensures var s' := GroupsDone(s, sha, tenant, batch, users, now, map[]); s'.index == PointsOf(s'.db)
    decreases |users|
  {
    if users != [] {
      var group := GroupOf(s.db.episodic, batch, users[0]);
      if NeedsWork(s.db, sha, group) {
        var next := GroupDone(s, sha, tenant, users[0], group, now, Smooth(true));
        GroupStaysTidy(s, sha, tenant, users[0], group, now, Smooth(true));
        GroupAgrees(s, sha, tenant, users[0], group, now);
        GroupsAgree(next, sha, tenant, batch, users[1..], now);
      } else {
        GroupsAgree(s, sha, tenant, batch, users[1..], now);
      }
    }
  }

  lemma FindAgrees(s: State, q: Query, exp: Curve)
    requires Tidy(s) && s.index == PointsOf(s.db)
    ensures var s' := Searched(s, q, exp, Done); s'.index == PointsOf(s'.db)
  {
    assert RowIds(Accessed(s.db, Returned(s.db, s.index, q, exp))) == RowIds(s.db);
  }

  lemma SettingsAgree(s: State, t: TenantId, settings: Tenant)
    requires s.index == PointsOf(s.db)
    ensures var s' := Step(s, SetTenant(t, settings)); s'.index == PointsOf(s'.db)
  {
    var db' := s.db.(tenants := s.db.tenants[t := settings]);
    assert RowIds(db') == RowIds(s.db);
  }

  lemma FaultFreeStepAgrees(s: State, e: Event)
    requires Tidy(s) && s.index == PointsOf(s.db) && FaultFree(e)
    ensures Step(s, e).index == PointsOf(Step(s, e).db)
  {
    match e
    case SetTenant(t, settings) => SettingsAgree(s, t, settings);
    case WriteEpisode(r, _) => WriteEpisodeAgrees(s, r);
    case WriteFact(r, similar, nli, _) => WriteFactAgrees(s, r, similar, nli);
    case Sweep(now, _, _) => SweepAgrees(s, now);
    case DecayDay(_, _) => DecayAgrees(s);
    case Find(q, exp, _) => FindAgrees(s, q, exp);
    case Compress(t, sha, now, _) =>
      var batch := Batch(s.db.episodic, t);
      if |batch| >= 3 { GroupsAgree(s, sha, t, batch, UsersOf(s.db.episodic, batch), now); }
  }

  /** With no faults, workers included, the index is at every moment exactly the one the
      rows call for: the same ids, tenants, users, types and importance. */
  lemma {:induction false} FaultFreeRunsAgree(deferredKeys: bool, events: seq<Event>)
    requires forall i :: 0 <= i < |events| ==> FaultFree(events[i])
    ensures var s := Run(Empty(deferredKeys), events); s.index == PointsOf(s.db)
  {
    if |events| > 0 {
      var before := events[..|events| - 1];
      FaultFreeRunsAgree(deferredKeys, before);
      EmptyIsSound(deferredKeys);
      RunKeepsInv(Empty(deferredKeys), before);
      FaultFreeStepAgrees(Run(Empty(deferredKeys), before), events[|events| - 1]);
    }
  }

  // --- What a search can see -----------------------------------------------------------

  /** In every reachable state, whatever failed before, a search returns only rows of the
      tenant and of the end user who asks, though rows are looked up by tenant alone. */
  lemma SearchSeesOwnMemoriesOnly(deferredKeys: bool, events: seq<Event>, q: Query, exp: Curve)
    ensures var s := Run(Empty(deferredKeys), events);
      forall c :: c in Returned(s.db, s.index, q, exp) ==>
        if c.kind == Episodic
        then c.id in s.db.episodic && s.db.episodic[c.id].tenant == q.tenant && s.db.episodic[c.id].user == q.user
        else c.id in s.db.semantic && s.db.semantic[c.id].tenant == q.tenant && s.db.semantic[c.id].user == q.user
             && s.db.semantic[c.id].supersededBy.None?
  {
    EmptyIsSound(deferredKeys);
    RunKeepsInv(Empty(deferredKeys), events);
    var s := Run(Empty(deferredKeys), events);
    SearchContract(s.db, s.index, q, exp);
  }

  lemma ScoreInRange(exp: Curve, now: Time, rank: nat, m: Record)
    requires IsDecayCurve(exp) && m.importance <= 1000
    ensures 0 <= ScoreOf(exp, now, rank, m) <= 7164
  {
    var age := AgeInDays(now, m.createdAt);
    QuotientOrder(age, Stability(m.accessCount), Stability(m.accessCount));
    var x := -age / Stability(m.accessCount);
    assert x == -(age / Stability(m.accessCount));
    assert 0.0 < exp(x) <= 1.0;
    CompositeInRange(rank, exp(x), m.importance);
  }

  lemma ScoresInRange(db: Tables, index: map<Id, Point>, q: Query, exp: Curve)
    requires IsDecayCurve(exp) && RowsValid(db)
    ensures forall c :: c in Returned(db, index, q, exp) ==> 0 <= c.score <= 7164
  {
    var hits := HitsFor(index, q);
    CandidatesAreHydratedHits(db, index, q, exp, hits, |hits|);
    TopIsBest(AllCandidates(db, index, q, exp), q.limit);
    forall c | c in Returned(db, index, q, exp) ensures 0 <= c.score <= 7164 {
      ScoreInRange(exp, q.now, c.rank, Hydrate(db, q.tenant, c.id, c.kind).value);
    }
  }

  /** In every reachable state the score of every result lies in [0, 0.7164]. */
  lemma ReachableScoresInRange(deferredKeys: bool, events: seq<Event>, q: Query, exp: Curve)
    requires IsDecayCurve(exp)
    ensures var s := Run(Empty(deferredKeys), events);
      forall c :: c in Returned(s.db, s.index, q, exp) ==> 0 <= c.score <= 7164
  {
    EmptyIsSound(deferredKeys);
    RunKeepsInv(Empty(deferredKeys), events);
    var s := Run(Empty(deferredKeys), events);
    ScoresInRange(s.db, s.index, q, exp);
  }
}
