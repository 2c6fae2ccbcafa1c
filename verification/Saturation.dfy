/** Compression never marks its sources, so the oldest memories stay in the batch: a full
    batch keeps everything newer out, and a batch with room is compressed again as a whole. */
module Saturation {
  import opened MemoryModel
  import opened MemoryWrite
  import opened Sorting
  import opened Compression
  import opened CompressionRestart
  import opened Engine
  import opened StoreAgreement
  import opened Persistence

  // --- What the batch is made of -----------------------------------------------------------

  /** `batch` is in order of age, and ahead of every other memory the tenant could compress. */
  ghost predicate Heads(rows: Episodes, t: TenantId, batch: seq<Id>) {
    && InOrder(CreatedAt(rows), BY_ID, batch)
    && (forall b :: b in batch ==> IsEligible(rows, t, b))
    && (forall b, id :: b in batch && id !in batch && IsEligible(rows, t, id) ==> Ahead(CreatedAt(rows), BY_ID, b, id))
  }

  lemma FullBatchHeads(rows: Episodes, t: TenantId)
    ensures Heads(rows, t, Batch(rows, t))
  {
    BatchIsOldest(rows, t);
  }

  lemma HeadsAreBatch(rows: Episodes, t: TenantId, batch: seq<Id>)
    requires Heads(rows, t, batch) && |batch| == BATCH
    ensures Batch(rows, t) == batch
  {
    OldestFirstIsOrdered(rows, t);
    OrderedPrefix(CreatedAt(rows), BY_ID, batch, OldestFirst(rows, t));
  }

  // --- A full batch ------------------------------------------------------------------------

  /** The event dates no new memory of the tenant before `latest`. */
  predicate IsLater(e: Event, t: TenantId, latest: Time) {
    e.WriteEpisode? && e.request.tenant == t ==> latest <= e.request.now
  }

  /** The event deletes none of the batch. */
  predicate Spares(s: State, e: Event, batch: seq<Id>) {
    forall b :: b in batch ==> b !in Deleted(s, e)
  }

  ghost predicate AllSpare(s: State, events: seq<Event>, batch: seq<Id>) {
    forall i: nat :: i < |events| ==> Spares(At(s, events, i), events[i], batch)
  }

  /** `latest` is no earlier than any memory of the batch. */
  predicate DatedBy(rows: Episodes, batch: seq<Id>, latest: Time) {
    forall b :: b in batch ==> b in rows && rows[b].createdAt <= latest
  }

  /** The batch as it was, and still at the head. */
  ghost predicate StaysAhead(rows: Episodes, rows': Episodes, t: TenantId, batch: seq<Id>) {
    Heads(rows', t, batch) && forall b :: b in batch ==> b in rows && SameMemory(rows[b], rows'[b])
  }

  lemma EpisodesStay(s: State, e: Event, s': State, b: Id)
    requires EpisodesLast(s, e, s') && b !in Deleted(s, e) && b in s.db.episodic && b < s.nextId
    ensures b in s'.db.episodic && SameMemory(s.db.episodic[b], s'.db.episodic[b])
  {
    if AddsEpisode(s, e, s'.db.episodic) { assert b in s'.db.episodic - {s.nextId}; }
  }

  /** A memory the event adds sorts behind the batch. */
  lemma NewcomerIsBehind(s: State, e: Event, s': State, t: TenantId, batch: seq<Id>, latest: Time, b: Id, id: Id)
    requires EpisodesLast(s, e, s') && IsLater(e, t, latest) && Spares(s, e, batch) && Heads(s.db.episodic, t, batch)
    requires forall b :: b in batch ==> b < s.nextId && s.db.episodic[b].createdAt <= latest
    requires b in batch && id !in batch && IsEligible(s'.db.episodic, t, id) && s.nextId !in s.db.episodic
    ensures Ahead(CreatedAt(s'.db.episodic), BY_ID, b, id)
  {
    EpisodesStay(s, e, s', b);
    if id != s.nextId {
      OlderStaysEligible(s, e, s', t, id);
      assert Ahead(CreatedAt(s.db.episodic), BY_ID, b, id);
    }
  }

  lemma OlderStaysEligible(s: State, e: Event, s': State, t: TenantId, id: Id)
    requires EpisodesLast(s, e, s') && id != s.nextId && IsEligible(s'.db.episodic, t, id)
    ensures IsEligible(s.db.episodic, t, id) && SameMemory(s.db.episodic[id], s'.db.episodic[id])
  {
    if AddsEpisode(s, e, s'.db.episodic) { assert id in s'.db.episodic - {s.nextId}; }
  }

  lemma BatchInOrder(rows: Episodes, rows': Episodes, batch: seq<Id>)
    requires InOrder(CreatedAt(rows), BY_ID, batch)
    requires forall b :: b in batch ==> b in rows && b in rows' && SameMemory(rows[b], rows'[b])
    ensures InOrder(CreatedAt(rows'), BY_ID, batch)
  {
    forall i, j | 0 <= i < j < |batch| ensures Ahead(CreatedAt(rows'), BY_ID, batch[i], batch[j]) {
      assert Ahead(CreatedAt(rows), BY_ID, batch[i], batch[j]);
    }
  }

  lemma BatchStaysAhead(s: State, e: Event, s': State, t: TenantId, batch: seq<Id>, latest: Time)
    requires EpisodesLast(s, e, s') && IsLater(e, t, latest) && Spares(s, e, batch) && Heads(s.db.episodic, t, batch)
    requires forall b :: b in batch ==> b < s.nextId && s.db.episodic[b].createdAt <= latest
    requires s.nextId !in s.db.episodic
    ensures StaysAhead(s.db.episodic, s'.db.episodic, t, batch)
  {
    forall b | b in batch ensures b in s'.db.episodic && SameMemory(s.db.episodic[b], s'.db.episodic[b]) {
      EpisodesStay(s, e, s', b);
    }
    BatchInOrder(s.db.episodic, s'.db.episodic, batch);
    forall b, id | b in batch && id !in batch && IsEligible(s'.db.episodic, t, id)
      ensures Ahead(CreatedAt(s'.db.episodic), BY_ID, b, id)
    {
      NewcomerIsBehind(s, e, s', t, batch, latest, b, id);
    }
  }

  lemma StaysAheadOn(rows: Episodes, next: Episodes, rows': Episodes, t: TenantId, batch: seq<Id>)
    requires StaysAhead(rows, next, t, batch) && StaysAhead(next, rows', t, batch)
    ensures StaysAhead(rows, rows', t, batch)
  {
  }

  lemma AllSpareBefore(s: State, events: seq<Event>, batch: seq<Id>)
    requires |events| > 0 && AllSpare(s, events, batch)
    ensures AllSpare(s, events[..|events| - 1], batch)
    ensures Spares(Run(s, events[..|events| - 1]), events[|events| - 1], batch)
  {
    var before := events[..|events| - 1];
    forall i: nat | i < |before| ensures Spares(At(s, before, i), before[i], batch) {
      assert before[..i] == events[..i];
      assert Spares(At(s, events, i), events[i], batch);
    }
    assert Spares(At(s, events, |events| - 1), events[|events| - 1], batch);
  }

  lemma {:induction false} BatchStaysAheadOverRun(s: State, events: seq<Event>, t: TenantId, batch: seq<Id>,
                                                  latest: Time)
    requires Inv(s) && Heads(s.db.episodic, t, batch) && DatedBy(s.db.episodic, batch, latest)
    requires AllSpare(s, events, batch) && forall i :: 0 <= i < |events| ==> IsLater(events[i], t, latest)
    ensures StaysAhead(s.db.episodic, Run(s, events).db.episodic, t, batch)
  {
    if |events| > 0 {
      var before, e := events[..|events| - 1], events[|events| - 1];
      AllSpareBefore(s, events, batch);
      BatchStaysAheadOverRun(s, before, t, batch, latest);
      RunKeepsInv(s, before);
      StepLasts(Run(s, before), e);
      BatchStaysAhead(Run(s, before), e, Run(s, events), t, batch, latest);
      StaysAheadOn(s.db.episodic, Run(s, before).db.episodic, Run(s, events).db.episodic, t, batch);
    }
  }

  // --- The same batch, the same groups -------------------------------------------------------

  ghost predicate SameRows(rows: Episodes, rows': Episodes, ids: seq<Id>) {
    forall id :: id in ids ==> id in rows && id in rows' && SameMemory(rows[id], rows'[id])
  }

  lemma {:induction false} SameGroups(rows: Episodes, rows': Episodes, batch: seq<Id>, user: string)
    requires SameRows(rows, rows', batch)
    ensures GroupOf(rows', batch, user) == GroupOf(rows, batch, user)
    ensures SameRows(rows, rows', GroupOf(rows, batch, user))
  {
    if batch != [] { SameGroups(rows, rows', batch[..|batch| - 1], user); }
  }

  lemma {:induction false} SameUsers(rows: Episodes, rows': Episodes, batch: seq<Id>)
    requires SameRows(rows, rows', batch)
    ensures UsersOf(rows', batch) == UsersOf(rows, batch)
  {
    if batch != [] { SameUsers(rows, rows', batch[..|batch| - 1]); }
  }

  lemma {:induction false} SameContents(rows: Episodes, rows': Episodes, ids: seq<Id>)
    requires SameRows(rows, rows', ids)
    ensures Contents(rows', ids) == Contents(rows, ids)
  {
    if ids != [] { SameContents(rows, rows', ids[1..]); }
  }

  ghost predicate SameJob(job: Job, job': Job) {
    forall user :: job'.Group(user) == job.Group(user) && job'.Texts(user) == job.Texts(user)
  }

  lemma SameRowsSameJob(rows: Episodes, rows': Episodes, sha: Hash, t: TenantId, batch: seq<Id>)
    requires SameRows(rows, rows', batch)
    ensures SameJob(Job(rows, sha, t, batch), Job(rows', sha, t, batch))
  {
    forall user
      ensures var job, job' := Job(rows, sha, t, batch), Job(rows', sha, t, batch);
        job'.Group(user) == job.Group(user) && job'.Texts(user) == job.Texts(user)
    {
      SameGroups(rows, rows', batch, user);
      SameContents(rows, rows', GroupOf(rows, batch, user));
    }
  }

  lemma {:induction false} NothingMoreTodo(job: Job, job': Job, logged: set<string>, logged': set<string>,
                                           users: seq<string>)
    requires SameJob(job, job') && job'.sha == job.sha && logged <= logged'
    requires Todo(job, logged, users) == []
    ensures Todo(job', logged', users) == []
    decreases |users|
  {
    if users != [] {
      assert job'.Group(users[0]) == job.Group(users[0]) && job'.HashOf(users[0]) == job.HashOf(users[0]);
      NothingMoreTodo(job, job', logged, logged', users[1..]);
    }
  }

  lemma LoggedStays(s: State, s': State)
    requires s.db.compressions <= s'.db.compressions
    ensures Hashes(s.db) <= Hashes(s'.db)
  {
    forall hash | hash in Hashes(s.db) ensures hash in Hashes(s'.db) { LoggedHashStays(s, s', hash); }
  }

  lemma FullBatchHasNoWork(s: State, s': State, sha: Hash, t: TenantId, batch: seq<Id>)
    requires Batch(s.db.episodic, t) == batch && |batch| == BATCH && WorkFor(s, sha, t) == []
    requires StaysAhead(s.db.episodic, s'.db.episodic, t, batch) && s.db.compressions <= s'.db.compressions
    ensures Batch(s'.db.episodic, t) == batch && WorkFor(s', sha, t) == []
  {
    var rows, rows' := s.db.episodic, s'.db.episodic;
    HeadsAreBatch(rows', t, batch);
    SameUsers(rows, rows', batch);
    SameRowsSameJob(rows, rows', sha, t, batch);
    LoggedStays(s, s');
    NothingMoreTodo(Job(rows, sha, t, batch), Job(rows', sha, t, batch), Hashes(s.db), Hashes(s'.db),
                    UsersOf(rows, batch));
  }

  /** A full batch stays what it is, however many memories are written, exactly as long as no
      sweep deletes one of its own. */
  lemma FullBatchStaysIff(s: State, events: seq<Event>, t: TenantId, latest: Time)
    requires Inv(s) && |Batch(s.db.episodic, t)| == BATCH
    requires DatedBy(s.db.episodic, Batch(s.db.episodic, t), latest)
    requires forall i :: 0 <= i < |events| ==> IsLater(events[i], t, latest)
    ensures Batch(Run(s, events).db.episodic, t) == Batch(s.db.episodic, t)
      <==> AllSpare(s, events, Batch(s.db.episodic, t))
  {
    var batch := Batch(s.db.episodic, t);
    FullBatchHeads(s.db.episodic, t);
    if AllSpare(s, events, batch) {
      BatchStaysAheadOverRun(s, events, t, batch, latest);
      HeadsAreBatch(Run(s, events).db.episodic, t, batch);
    }
    forall i: nat | i < |events| && !Spares(At(s, events, i), events[i], batch)
      ensures Batch(Run(s, events).db.episodic, t) != batch
    {
      DeletionChangesBatch(s, events, i, t, batch);
    }
  }

  lemma DeletionChangesBatch(s: State, events: seq<Event>, i: nat, t: TenantId, batch: seq<Id>)
    requires Inv(s) && i < |events| && !Spares(At(s, events, i), events[i], batch)
    ensures Batch(Run(s, events).db.episodic, t) != batch
  {
    var b :| b in batch && b in Deleted(At(s, events, i), events[i]);
    DeletedIsGone(s, events, i, b);
    FullBatchHeads(Run(s, events).db.episodic, t);
  }

  /** Once twenty memories fill a tenant's batch and all its groups are logged, compression does
      nothing more for the tenant, however many memories are written, as long as no sweep
      deletes one of the twenty. */
  lemma FullBatchIsStuck(s: State, events: seq<Event>, sha: Hash, t: TenantId, latest: Time, again: Attempt)
    requires Inv(s) && |Batch(s.db.episodic, t)| == BATCH && WorkFor(s, sha, t) == []
    requires DatedBy(s.db.episodic, Batch(s.db.episodic, t), latest)
    requires forall i :: 0 <= i < |events| ==> IsLater(events[i], t, latest)
    requires AllSpare(s, events, Batch(s.db.episodic, t))
    ensures Batch(Run(s, events).db.episodic, t) == Batch(s.db.episodic, t)
    ensures Compressed(Run(s, events), sha, t, again.now, again.faults) == Run(s, events)
  {
    var batch, s' := Batch(s.db.episodic, t), Run(s, events);
    FullBatchHeads(s.db.episodic, t);
    BatchStaysAheadOverRun(s, events, t, batch, latest);
    RunFollows(s, events);
    FullBatchHasNoWork(s, s', sha, t, batch);
    NoWorkNoChange(s', sha, t, again, events, s);
  }

  lemma NoWorkNoChange(s': State, sha: Hash, t: TenantId, again: Attempt, events: seq<Event>, s: State)
    requires Inv(s) && s' == Run(s, events) && WorkFor(s', sha, t) == []
    ensures Compressed(s', sha, t, again.now, again.faults) == s'
  {
    RunKeepsInv(s, events);
    CompressionIsWork(s', sha, t, again.now, again.faults);
  }

  // --- A batch with room ---------------------------------------------------------------------

  /** The rows after the write: a memory newer than all that the tenant could compress before. */
  ghost predicate NewestAdded(s: State, r: WriteRequest, rows': Episodes) {
    && (forall id :: id in s.db.episodic ==> id < s.nextId)
    && rows' == s.db.episodic[s.nextId := EpisodicRow(r)]
    && (forall id :: IsEligible(s.db.episodic, r.tenant, id) ==> s.db.episodic[id].createdAt <= r.now)
  }

  lemma EligibleAfter(s: State, r: WriteRequest, rows': Episodes, id: Id)
    requires NewestAdded(s, r, rows')
    ensures IsEligible(rows', r.tenant, id) <==> IsEligible(s.db.episodic, r.tenant, id) || id == s.nextId
    ensures IsEligible(s.db.episodic, r.tenant, id) ==> Ahead(CreatedAt(rows'), BY_ID, id, s.nextId)
  {
  }

  lemma NewestGoesLast(key: Id -> int, pos: Id -> int, ids: seq<Id>, id: Id)
    requires InOrder(key, pos, ids) && forall i :: i in ids ==> Ahead(key, pos, i, id)
    ensures InOrder(key, pos, ids + [id])
  {
  }

  ghost predicate IsListing(rows: Episodes, t: TenantId, ids: seq<Id>) {
    InOrder(CreatedAt(rows), BY_ID, ids) && forall id :: id in ids <==> IsEligible(rows, t, id)
  }

  lemma ListingGrows(s: State, r: WriteRequest, rows': Episodes, ids: seq<Id>)
    requires NewestAdded(s, r, rows') && IsListing(s.db.episodic, r.tenant, ids)
    ensures IsListing(rows', r.tenant, ids + [s.nextId])
  {
    BatchInOrder(s.db.episodic, rows', ids);
    forall id | id in ids ensures Ahead(CreatedAt(rows'), BY_ID, id, s.nextId) { EligibleAfter(s, r, rows', id); }
    NewestGoesLast(CreatedAt(rows'), BY_ID, ids, s.nextId);
    forall id ensures id in ids + [s.nextId] <==> IsEligible(rows', r.tenant, id) {
      EligibleAfter(s, r, rows', id);
      assert id in ids + [s.nextId] <==> id in ids || id == s.nextId;
    }
  }

  lemma BatchGrows(s: State, r: WriteRequest, rows': Episodes)
    requires NewestAdded(s, r, rows') && |Batch(s.db.episodic, r.tenant)| < BATCH
    ensures Batch(rows', r.tenant) == Batch(s.db.episodic, r.tenant) + [s.nextId]
    ensures SameRows(s.db.episodic, rows', Batch(s.db.episodic, r.tenant))
  {
    var rows, batch := s.db.episodic, OldestFirst(s.db.episodic, r.tenant);
    OldestFirstIsOrdered(rows, r.tenant);
    OldestFirstIsOrdered(rows', r.tenant);
    ListingGrows(s, r, rows', batch);
    OrderedListing(CreatedAt(rows'), BY_ID, batch + [s.nextId], OldestFirst(rows', r.tenant));
  }

  lemma GroupGrows(s: State, sha: Hash, r: WriteRequest, rows': Episodes)
    requires NewestAdded(s, r, rows') && |Batch(s.db.episodic, r.tenant)| < BATCH
    ensures var job := JobFor(s, sha, r.tenant);
      var job' := Job(rows', sha, r.tenant, Batch(rows', r.tenant));
      && job'.Group(r.user) == job.Group(r.user) + [s.nextId]
      && job'.Texts(r.user) == job.Texts(r.user) + [r.content]
  {
    var rows, batch := s.db.episodic, Batch(s.db.episodic, r.tenant);
    BatchGrows(s, r, rows');
    GroupOfLonger(rows', batch, s.nextId, r.user);
    SameGroups(rows, rows', batch, r.user);
    SameContents(rows, rows', GroupOf(rows, batch, r.user));
    ContentsLonger(rows', GroupOf(rows, batch, r.user), s.nextId);
  }

  lemma {:induction false} ContentsLonger(rows: Episodes, ids: seq<Id>, id: Id)
    ensures Contents(rows, ids + [id]) == Contents(rows, ids) + [if id in rows then rows[id].content else ""]
  {
    if ids != [] {
      assert (ids + [id])[1..] == ids[1..] + [id];
      ContentsLonger(rows, ids[1..], id);
    } else {
      assert ids + [id] == [id];
    }
  }

  lemma EpisodeAdded(s: State, r: WriteRequest, f: WriteFaults)
    requires s.nextId !in s.db.episodic && s.nextId in EpisodicWritten(s, r, f).db.episodic
    ensures EpisodicWritten(s, r, f).db == s.db.(episodic := s.db.episodic[s.nextId := EpisodicRow(r)])
  {
  }

  lemma SameHashes(s: State, s': State)
    requires s'.db.compressions == s.db.compressions
    ensures Hashes(s'.db) == Hashes(s.db)
  {
    LoggedStays(s, s');
    LoggedStays(s', s);
  }

  /** While the batch has room, a user's new memory puts the user's whole group to work again,
      memories compressed before included: with one more text its hash is another. */
  lemma NewMemoryReopensGroup(s: State, s': State, sha: Hash, r: WriteRequest, f: WriteFaults)
    requires Inv(s) && 2 <= |Batch(s.db.episodic, r.tenant)| < BATCH
    requires s' == EpisodicWritten(s, r, f) && s.nextId in s'.db.episodic
    requires forall id :: IsEligible(s.db.episodic, r.tenant, id) ==> s.db.episodic[id].createdAt <= r.now
    ensures var job, job' := JobFor(s, sha, r.tenant), JobFor(s', sha, r.tenant);
      && job'.Group(r.user) == job.Group(r.user) + [s.nextId]
      && job'.Texts(r.user) == job.Texts(r.user) + [r.content]
      && (r.user in WorkFor(s', sha, r.tenant)
          <==> job.Group(r.user) != [] && IsFirstOfItsHash(job', Hashes(s.db), r.user))
  {
    EpisodeAdded(s, r, f);
    assert NewestAdded(s, r, s'.db.episodic);
    GroupGrows(s, sha, r, s'.db.episodic);
    SameHashes(s, s');
    GrownGroupIsWork(s, s', sha, r);
  }

  lemma GrownGroupIsWork(s: State, s': State, sha: Hash, r: WriteRequest)
    requires NewestAdded(s, r, s'.db.episodic) && 2 <= |Batch(s.db.episodic, r.tenant)| < BATCH
    requires var job, job' := JobFor(s, sha, r.tenant), JobFor(s', sha, r.tenant);
      job'.Group(r.user) == job.Group(r.user) + [s.nextId]
    ensures r.user in WorkFor(s', sha, r.tenant) <==>
      JobFor(s, sha, r.tenant).Group(r.user) != []
      && IsFirstOfItsHash(JobFor(s', sha, r.tenant), Hashes(s'.db), r.user)
  {
    var job' := JobFor(s', sha, r.tenant);
    BatchGrows(s, r, s'.db.episodic);
    assert s.nextId in job'.batch && UserOf(job'.rows, s.nextId) == r.user;
    UserIsWork(job', Hashes(s'.db), r.user);
  }

  function Position(xs: seq<string>, x: string): (i: nat)
    requires x in xs
    ensures i < |xs| && xs[i] == x && x !in xs[..i]
  {
    if xs[0] == x then 0 else 1 + Position(xs[1..], x)
  }

  /** The users who come before `user` in the batch. */
  function EarlierUsers(job: Job, user: string): seq<string> {
    var users := UsersOf(job.rows, job.batch);
    if user in users then users[..Position(users, user)] else users
  }

  /** The group's hash is neither logged nor that of an earlier group of two or more. */
  predicate IsFirstOfItsHash(job: Job, logged: set<string>, user: string) {
    job.HashOf(user) !in logged
    && forall u :: u in EarlierUsers(job, user) && |job.Group(u)| >= 2 ==> job.HashOf(u) != job.HashOf(user)
  }

  lemma UserIsWork(job: Job, logged: set<string>, user: string)
    requires user in UsersOf(job.rows, job.batch)
    ensures user in Todo(job, logged, UsersOf(job.rows, job.batch))
      <==> |job.Group(user)| >= 2 && IsFirstOfItsHash(job, logged, user)
  {
    var users := UsersOf(job.rows, job.batch);
    var k := Position(users, user);
    TodoExactly(job, logged, users, k);
    assert forall j :: 0 <= j < k ==> users[..k][j] == users[j];
  }

  /** A user's group is worked on exactly when the tenant has three memories or more to compress, two
      or more of them in the batch are the user's, and their hash is new. */
  lemma WorkIff(s: State, sha: Hash, t: TenantId, user: string)
    ensures var job := JobFor(s, sha, t);
      user in WorkFor(s, sha, t) <==>
        |Eligible(s.db.episodic, t)| >= 3 && |job.Group(user)| >= 2 && IsFirstOfItsHash(job, Hashes(s.db), user)
  {
    var job := JobFor(s, sha, t);
    BatchIsOldest(s.db.episodic, t);
    if user in UsersOf(job.rows, job.batch) {
      UserIsWork(job, Hashes(s.db), user);
    } else {
      OthersHaveNoGroup(job.rows, job.batch, user);
      TodoMembers(job, Hashes(s.db), UsersOf(job.rows, job.batch));
    }
  }
}
