/** What lasts from one event to the next, and what follows from it over runs: compressed
    texts stay compressed, a full batch stays full, and a later sweep makes good an earlier one. */
module Persistence {
  import opened MemoryModel
  import Contradiction
  import opened MemoryWrite
  import opened Retention
  import opened Compression
  import opened CompressionRestart
  import opened MemoryRead
  import opened Engine
  import opened StoreAgreement

  type Episodes = map<Id, EpisodicMemory>

  // --- From one event to the next --------------------------------------------------------

  /** The same memory, but for its importance and its access count. */
  predicate SameMemory(row: EpisodicMemory, row': EpisodicMemory) {
    row' == row.(importance := row'.importance, accessCount := row'.accessCount)
  }

  /** A memory there afterwards was there before. */
  predicate NoneNew(rows: Episodes, rows': Episodes) {
    forall id :: id in rows' ==> id in rows && SameMemory(rows[id], rows'[id])
  }

  /** The one memory that the event adds. */
  predicate AddsEpisode(s: State, e: Event, rows': Episodes) {
    && e.WriteEpisode? && s.nextId in rows' && rows'[s.nextId] == EpisodicRow(e.request)
    && NoneNew(s.db.episodic, rows' - {s.nextId})
  }

  predicate EpisodesLast(s: State, e: Event, s': State) {
    && (NoneNew(s.db.episodic, s'.db.episodic) || AddsEpisode(s, e, s'.db.episodic))
    && (forall id :: id in s.db.episodic && id !in Deleted(s, e) ==> id in s'.db.episodic)
  }

  /** Ids are drawn upwards, no fact takes an old id, and logs stay. */
  predicate RestLasts(s: State, s': State) {
    && s.nextId <= s'.nextId
    && (forall id :: id in s'.db.semantic && id < s.nextId ==> id in s.db.semantic)
    && s.db.compressions <= s'.db.compressions
  }

  predicate Lasts(s: State, e: Event, s': State) {
    EpisodesLast(s, e, s') && RestLasts(s, s')
  }

  lemma WriteEpisodeLasts(s: State, r: WriteRequest, f: WriteFaults)
    ensures Lasts(s, WriteEpisode(r, f), EpisodicWritten(s, r, f))
  {
  }

  lemma WriteFactLasts(s: State, r: WriteRequest, similar: seq<Id>, nli: Contradiction.Nli, f: WriteFaults)
    ensures Lasts(s, WriteFact(r, similar, nli, f), SemanticWritten(s, r, similar, nli, f))
  {
    if r.tenant in s.db.tenants && CheckOf(s, r, similar, nli).Ok? {
      Contradiction.CheckedTables(s.db, s.db.tenants[r.tenant].policy, r.tenant, s.nextId, r.content,
                                  SemanticHits(s, r, similar), nli);
    }
  }

  lemma SweepLasts(s: State, now: Time, lost: set<TenantId>, commit: Call)
    ensures Lasts(s, Sweep(now, lost, commit), Swept(s, now, lost, commit))
  {
  }

  lemma DecayLasts(s: State, lost: set<Id>, commit: Call)
    ensures Lasts(s, DecayDay(lost, commit), DecayedScores(s, lost, commit))
  {
  }

  lemma FindLasts(s: State, q: Query, exp: Curve, commit: Call)
    ensures Lasts(s, Find(q, exp, commit), Searched(s, q, exp, commit))
  {
  }

  /** Compression adds facts and logs, nothing else. */
  predicate Extends(s: State, s': State) {
    && s'.db.episodic == s.db.episodic && s.nextId <= s'.nextId
    && (forall id :: id in s'.db.semantic && id < s.nextId ==> id in s.db.semantic)
    && s.db.compressions <= s'.db.compressions
  }

  lemma ExtendsBoth(s: State, next: State, s': State)
    requires Extends(s, next) && Extends(next, s')
    ensures Extends(s, s')
  {
  }

  lemma GroupExtends(s: State, sha: Hash, t: TenantId, user: string, group: seq<Id>, now: Time, fault: GroupFault)
    requires group != []
    ensures Extends(s, GroupDone(s, sha, t, user, group, now, fault))
  {
  }

  lemma {:induction false} WorkExtends(s: State, job: Job, work: seq<string>, now: Time, faults: Faults)
    requires forall u :: u in work ==> |job.Group(u)| >= 2
    ensures Extends(s, WorkDone(s, job, work, now, faults))
    decreases |work|
  {
    if work != [] {
      var fault := FaultFor(faults, work[0]);
      var next := GroupDone(s, job.sha, job.tenant, work[0], job.Group(work[0]), now, fault);
      GroupExtends(s, job.sha, job.tenant, work[0], job.Group(work[0]), now, fault);
      if fault.Smooth? {
        WorkExtends(next, job, work[1..], now, faults);
        ExtendsBoth(s, next, WorkDone(next, job, work[1..], now, faults));
      }
    }
  }

  lemma CompressLasts(s: State, sha: Hash, t: TenantId, now: Time, faults: Faults)
    requires IdsIssued(s)
    ensures Lasts(s, Compress(t, sha, now, faults), Compressed(s, sha, t, now, faults))
  {
    CompressionIsWork(s, sha, t, now, faults);
    WorkExtends(s, JobFor(s, sha, t), WorkFor(s, sha, t), now, faults);
  }

  lemma StepLasts(s: State, e: Event)
    requires Tidy(s)
    ensures Lasts(s, e, Step(s, e))
  {
    match e
    case SetTenant(_, _) =>
    case WriteEpisode(r, f) => WriteEpisodeLasts(s, r, f);
    case WriteFact(r, similar, nli, f) => WriteFactLasts(s, r, similar, nli, f);
    case Sweep(now, lost, commit) => SweepLasts(s, now, lost, commit);
    case DecayDay(lost, commit) => DecayLasts(s, lost, commit);
    case Compress(t, sha, now, faults) => CompressLasts(s, sha, t, now, faults);
    case Find(q, exp, commit) => FindLasts(s, q, exp, commit);
  }

  // --- From any state to any later one -----------------------------------------------------

  /** Old ids still mean what they meant, if they mean anything, and logs are still there. */
  predicate Follows(s: State, s': State) {
    && s.nextId <= s'.nextId
    && (forall id :: id in s'.db.episodic && id < s.nextId
                     ==> id in s.db.episodic && SameMemory(s.db.episodic[id], s'.db.episodic[id]))
    && (forall id :: id in s'.db.semantic && id < s.nextId ==> id in s.db.semantic)
    && s.db.compressions <= s'.db.compressions
  }

  lemma FollowsOn(s: State, e: Event, next: State, s': State)
    requires Follows(s, next) && Lasts(next, e, s')
    ensures Follows(s, s')
  {
    forall id | id in s'.db.episodic && id < s.nextId
      ensures id in s.db.episodic && SameMemory(s.db.episodic[id], s'.db.episodic[id])
    {
      if AddsEpisode(next, e, s'.db.episodic) {
        assert id in s'.db.episodic - {next.nextId};
      }
      assert SameMemory(next.db.episodic[id], s'.db.episodic[id]);
    }
  }

  lemma {:induction false} RunFollows(s: State, events: seq<Event>)
    requires Inv(s)
    ensures Follows(s, Run(s, events))
  {
    if |events| > 0 {
      var before, e := events[..|events| - 1], events[|events| - 1];
      RunFollows(s, before);
      RunKeepsInv(s, before);
      StepLasts(Run(s, before), e);
      FollowsOn(s, e, Run(s, before), Run(s, events));
    }
  }

  lemma StepThenRun(s: State, e: Event, next: State, events: seq<Event>)
    requires Inv(s) && next == Step(s, e)
    ensures Follows(next, Run(next, events))
  {
    StepKeepsInv(s, e);
    RunFollows(next, events);
  }

  lemma {:induction false} RunSplits(s: State, events: seq<Event>, i: nat)
    requires i <= |events|
    ensures Run(s, events) == Run(At(s, events, i), events[i..])
    decreases |events| - i
  {
    if i == |events| {
      assert events[..i] == events;
    } else {
      var last := |events| - 1;
      RunSplits(s, events[..last], i);
      assert events[..last][..i] == events[..i];
      assert events[i..][..last - i] == events[..last][i..] && events[i..][last - i] == events[last];
    }
  }

  /** What a sweep deletes does not come back. */
  lemma DeletedIsGone(s: State, events: seq<Event>, i: nat, id: Id)
    requires Inv(s) && i < |events| && id in Deleted(At(s, events, i), events[i])
    ensures id !in Run(s, events).db.episodic
  {
    var now, next := At(s, events, i), At(s, events, i + 1);
    RunKeepsInv(s, events[..i]);
    NextState(s, events, i);
    DeletedAtOnce(now, events[i], id);
    StepThenRun(now, events[i], next, events[i + 1..]);
    RunSplits(s, events, i + 1);
  }

  lemma DeletedAtOnce(s: State, e: Event, id: Id)
    requires Tidy(s) && id in Deleted(s, e)
    ensures id !in Step(s, e).db.episodic && id < Step(s, e).nextId
  {
  }

  // --- Sweeps -----------------------------------------------------------------------------

  /** Every tenant whose memories expire has them expire still, and no later. */
  predicate RetentionNoLonger(db: Tables, db': Tables) {
    forall t :: t in db.tenants && db.tenants[t].retentionDays > 0 ==>
      t in db'.tenants && 0 < db'.tenants[t].retentionDays <= db.tenants[t].retentionDays
  }

  /** The rows that a rolled-back sweep stripped of their points are gone after the next sweep
      that commits, whatever happens in between, as long as retention was not extended by then. */
  lemma LaterSweepRepairs(s: State, now: Time, lost: set<TenantId>, events: seq<Event>,
                          later: Time, lost': set<TenantId>, commit: Call)
    requires Inv(s) && now <= later && commit.Lands()
    requires RetentionNoLonger(s.db, Run(Swept(s, now, lost, Refused), events).db)
    ensures var s' := Run(Swept(s, now, lost, Refused), events);
      NewBare(s, Sweep(now, lost, Refused)) !! RowIds(Swept(s', later, lost', commit).db)
  {
    var e := Sweep(now, lost, Refused);
    StepThenRun(s, e, Swept(s, now, lost, Refused), events);
    var s' := Run(Swept(s, now, lost, Refused), events);
    forall id | id in NewBare(s, e) ensures id !in RowIds(Swept(s', later, lost', commit).db) {
      StrippedIsSwept(s, s', now, lost, later, lost', commit, id);
    }
  }

  lemma StrippedIsSwept(s: State, s': State, now: Time, lost: set<TenantId>, later: Time, lost': set<TenantId>,
                        commit: Call, id: Id)
    requires Tidy(s) && Follows(Swept(s, now, lost, Refused), s') && RetentionNoLonger(s.db, s'.db)
    requires now <= later && commit.Lands() && id in NewBare(s, Sweep(now, lost, Refused))
    ensures id !in RowIds(Swept(s', later, lost', commit).db)
  {
    assert id !in s'.db.semantic;
    if id in s'.db.episodic { StillExpired(s.db, s'.db, now, later, id); }
  }

  lemma StillExpired(db: Tables, db': Tables, now: Time, later: Time, id: Id)
    requires IsExpired(db, now, id) && now <= later && RetentionNoLonger(db, db')
    requires id in db'.episodic && SameMemory(db.episodic[id], db'.episodic[id])
    ensures IsExpired(db', later, id)
  {
  }

  // --- Compressed texts ---------------------------------------------------------------------

  lemma LoggedHashStays(s: State, s': State, hash: string)
    requires s.db.compressions <= s'.db.compressions && hash in Hashes(s.db)
    ensures hash in Hashes(s'.db)
  {
    LoggedIsInOutput(s.db, |s.db.compressions|, hash);
    LoggedIsInOutput(s'.db, |s'.db.compressions|, hash);
    var i :| 0 <= i < |s.db.compressions| && s.db.compressions[i].hash == hash;
    assert s'.db.compressions[i] == s.db.compressions[i];
  }

  /** A group whose hash is logged is not worked on, then or ever after, for any tenant. */
  lemma LoggedTextIsNeverWork(s: State, s': State, sha: Hash, t: TenantId, user: string)
    requires Follows(s, s') && JobFor(s', sha, t).HashOf(user) in Hashes(s.db)
    ensures user !in WorkFor(s', sha, t)
  {
    var job := JobFor(s', sha, t);
    LoggedHashStays(s, s', job.HashOf(user));
    LoggedIsNotTodo(job, Hashes(s'.db), UsersOf(job.rows, job.batch), user);
  }

  lemma SameItemsSameHash(job: Job, user: string, job': Job, user': string)
    requires job.Texts(user) != [] && job'.sha == job.sha
    requires AllItems(job'.Texts(user')) == AllItems(job.Texts(user))
    ensures job'.HashOf(user') == job.HashOf(user)
  {
    assert AllItems(job.Texts(user)) != [];
    SameTextIff(job'.Texts(user'), job.Texts(user));
  }

  /** The content hash is compared across tenants: once one tenant's group is compressed, no
      group with the same texts, of whatever tenant and however much later, ever is; nor one
      whose texts are the same only when split at the marks in them. */
  lemma EqualTextIsCompressedOnce(s: State, sha: Hash, t: TenantId, user: string, first: Attempt, next: State,
                                  events: seq<Event>, other: TenantId, user': string)
    requires Inv(s) && NoCrash(first.faults) && user in WorkFor(s, sha, t)
    requires next == Compressed(s, sha, t, first.now, first.faults)
    requires AllItems(JobFor(Run(next, events), sha, other).Texts(user')) == AllItems(JobFor(s, sha, t).Texts(user))
    ensures user' !in WorkFor(Run(next, events), sha, other)
  {
    CompressedThenRun(s, sha, t, first, next, events);
    WorkIsLogged(s, sha, t, first, user);
    SameItemsSameHash(JobFor(s, sha, t), user, JobFor(Run(next, events), sha, other), user');
    LoggedTextIsNeverWork(next, Run(next, events), sha, other, user');
  }

  lemma CompressedThenRun(s: State, sha: Hash, t: TenantId, first: Attempt, next: State, events: seq<Event>)
    requires Inv(s) && next == Compressed(s, sha, t, first.now, first.faults)
    ensures Follows(next, Run(next, events))
  {
    StepThenRun(s, Compress(t, sha, first.now, first.faults), next, events);
  }

  lemma WorkIsLogged(s: State, sha: Hash, t: TenantId, first: Attempt, user: string)
    requires IdsIssued(s) && NoCrash(first.faults) && user in WorkFor(s, sha, t)
    ensures JobFor(s, sha, t).HashOf(user) in Hashes(Compressed(s, sha, t, first.now, first.faults).db)
    ensures |JobFor(s, sha, t).Texts(user)| >= 2
  {
    var work := WorkFor(s, sha, t);
    var n := RunProgresses(s, sha, t, first.now, first.faults);
    assert work[..n] == work;
    assert |JobFor(s, sha, t).Group(user)| >= 2;
    HashesAdded(JobFor(s, sha, t), s, Compressed(s, sha, t, first.now, first.faults), work);
  }
}
