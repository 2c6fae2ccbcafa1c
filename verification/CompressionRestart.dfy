/** Compression may crash at any group and be run again: what it commits in the end is what
    one uninterrupted run commits. */
module CompressionRestart {
  import opened Wrappers
  import opened MemoryModel
  import opened Compression

  /** One committed log with the fact it produced, ids and times left out. */
  datatype Entry = Entry(log: CompressionLog, fact: Option<SemanticMemory>)

  function FactOf(db: Tables, resulting: Option<Id>): Option<SemanticMemory> {
    if resulting.Some? && resulting.value in db.semantic
    then Some(db.semantic[resulting.value].(createdAt := 0)) else None
  }

  /** The entries of the first `n` logs. */
  function OutputTo(db: Tables, n: nat): (r: seq<Entry>)
    requires n <= |db.compressions|
    ensures |r| == n
  {
    if n == 0 then []
    else
      var log := db.compressions[n - 1];
      OutputTo(db, n - 1) + [Entry(log.(resulting := None), FactOf(db, log.resulting))]
  }

  function Output(db: Tables): seq<Entry> {
    OutputTo(db, |db.compressions|)
  }

  /** Ids in use were issued before. */
  ghost predicate IdsIssued(s: State) {
    && (forall id :: id in s.db.semantic ==> id < s.nextId)
    && (forall i :: 0 <= i < |s.db.compressions| && s.db.compressions[i].resulting.Some?
                    ==> s.db.compressions[i].resulting.value < s.nextId)
  }

  predicate NoCrash(faults: Faults) {
    forall user :: user in faults ==> faults[user].Smooth?
  }

  function HashesIn(entries: seq<Entry>): set<string> {
    set e | e in entries :: e.log.hash
  }

  function Hashes(db: Tables): set<string> {
    HashesIn(Output(db))
  }

  lemma {:induction false} LoggedIsInOutput(db: Tables, n: nat, hash: string)
    requires n <= |db.compressions|
    ensures hash in HashesIn(OutputTo(db, n)) <==> exists i :: 0 <= i < n && db.compressions[i].hash == hash
  {
    if n > 0 {
      LoggedIsInOutput(db, n - 1, hash);
      var last := OutputTo(db, n)[n - 1];
      assert OutputTo(db, n) == OutputTo(db, n - 1) + [last];
      assert HashesIn(OutputTo(db, n)) == HashesIn(OutputTo(db, n - 1)) + {last.log.hash};
    }
  }

  /** A tenant's compression as it stands before the groups: what never changes from one
      attempt to the next. */
  datatype Job = Job(rows: map<Id, EpisodicMemory>, sha: Hash, tenant: TenantId, batch: seq<Id>) {
    function Group(user: string): seq<Id> { GroupOf(rows, batch, user) }

    function Texts(user: string): seq<string> { Contents(rows, Group(user)) }

    function HashOf(user: string): string { sha(CombinedText(Texts(user))) }
  }

  /** The users whose groups need work, given the hashes already logged. */
  function Todo(job: Job, logged: set<string>, users: seq<string>): seq<string>
    decreases |users|
  {
    if users == [] then []
    else if |job.Group(users[0])| >= 2 && job.HashOf(users[0]) !in logged
    then [users[0]] + Todo(job, logged + {job.HashOf(users[0])}, users[1..])
    else Todo(job, logged, users[1..])
  }

  function HashesOf(job: Job, users: seq<string>): set<string> {
    set u | u in users :: job.HashOf(u)
  }

  /** Exactly the groups of two or more whose hash is neither logged nor that of an earlier
      group of the batch are compressed. The log of any tenant counts. */
  lemma {:induction false} TodoExactly(job: Job, logged: set<string>, users: seq<string>, k: nat)
    requires k < |users| && forall i, j :: 0 <= i < j < |users| ==> users[i] != users[j]
    ensures users[k] in Todo(job, logged, users) <==>
      && |job.Group(users[k])| >= 2 && job.HashOf(users[k]) !in logged
      && forall j :: 0 <= j < k && |job.Group(users[j])| >= 2 ==> job.HashOf(users[j]) != job.HashOf(users[k])
    decreases k
  {
    var first := users[0];
    var works := |job.Group(first)| >= 2 && job.HashOf(first) !in logged;
    var logged' := if works then logged + {job.HashOf(first)} else logged;
    TodoMembers(job, logged', users[1..]);
    if k == 0 {
      assert first !in users[1..];
    } else {
      TodoExactly(job, logged', users[1..], k - 1);
      assert users[1..][k - 1] == users[k];
      assert forall j :: 1 <= j < k ==> users[1..][j - 1] == users[j];
      assert first != users[k];
    }
  }

  lemma {:induction false} TodoMembers(job: Job, logged: set<string>, users: seq<string>)
    ensures forall u :: u in Todo(job, logged, users) ==> u in users && |job.Group(u)| >= 2
    decreases |users|
  {
    if users != [] {
      TodoMembers(job, logged + {job.HashOf(users[0])}, users[1..]);
      TodoMembers(job, logged, users[1..]);
    }
  }

  /** After a prefix of the work is logged, exactly the rest of it is left. */
  lemma {:induction false} RestIsLeft(job: Job, logged: set<string>, users: seq<string>, n: nat)
    requires n <= |Todo(job, logged, users)|
    ensures Todo(job, logged + HashesOf(job, Todo(job, logged, users)[..n]), users)
         == Todo(job, logged, users)[n..]
    decreases |users|
  {
    if users != [] {
      var todo := Todo(job, logged, users);
      var u := users[0];
      if |job.Group(u)| >= 2 && job.HashOf(u) !in logged {
        if n == 0 {
          assert logged + HashesOf(job, todo[..n]) == logged;
        } else {
          var later := Todo(job, logged + {job.HashOf(u)}, users[1..]);
          RestIsLeft(job, logged + {job.HashOf(u)}, users[1..], n - 1);
          assert todo[..n] == [u] + later[..n - 1];
          assert logged + HashesOf(job, todo[..n])
              == logged + {job.HashOf(u)} + HashesOf(job, later[..n - 1]);
        }
      } else {
        RestIsLeft(job, logged, users[1..], n);
      }
    } else {
      assert logged + HashesOf(job, []) == logged;
    }
  }

  function EntryFor(job: Job, user: string): Entry
    requires |job.Group(user)| >= 2
  {
    var contents := Contents(job.rows, job.Group(user));
    var text := Synthesized(contents);
    Entry(CompressionLog(job.tenant, job.Group(user), job.HashOf(user), text,
                         Ratio(|text|, TotalLength(contents)), None, Completed),
          Some(SemanticMemory(job.tenant, user, text, COMPRESSED_IMPORTANCE, COMPRESSED_CONFIDENCE,
                              Some(job.Group(user)[0]), 0, false, None, 0)))
  }

  function EntriesFor(job: Job, users: seq<string>): seq<Entry>
    requires forall u :: u in users ==> |job.Group(u)| >= 2
  {
    if users == [] then [] else [EntryFor(job, users[0])] + EntriesFor(job, users[1..])
  }

  /** Only logs and facts are added. */
  ghost predicate Keeps(s: State, s': State) {
    && s'.db == s.db.(semantic := s'.db.semantic, compressions := s'.db.compressions)
    && IdsIssued(s') && s.nextId <= s'.nextId
    && (forall id :: id in s.db.semantic ==> id in s'.db.semantic && s'.db.semantic[id] == s.db.semantic[id])
  }

  /** `s'` is `s` with the work of `users` committed on top, and nothing else. */
  ghost predicate Adds(job: Job, s: State, s': State, users: seq<string>) {
    && (forall u :: u in users ==> |job.Group(u)| >= 2)
    && Keeps(s, s')
    && Output(s'.db) == Output(s.db) + EntriesFor(job, users)
    && |s'.db.semantic| == |s.db.semantic| + |users|
  }

  lemma AddsNothing(job: Job, s: State)
    requires IdsIssued(s)
    ensures Adds(job, s, s, [])
  {
    assert Output(s.db) + [] == Output(s.db);
  }

  lemma {:induction false} OldOutputStays(db: Tables, db': Tables, n: nat)
    requires n <= |db.compressions| <= |db'.compressions|
    requires forall i :: 0 <= i < n ==> db'.compressions[i] == db.compressions[i]
                                        && FactOf(db', db.compressions[i].resulting)
                                           == FactOf(db, db.compressions[i].resulting)
    ensures OutputTo(db', n) == OutputTo(db, n)
  {
    if n > 0 { OldOutputStays(db, db', n - 1); }
  }

  lemma OneMoreEntry(job: Job, s: State, user: string, now: Time)
    requires IdsIssued(s) && job.rows == s.db.episodic && |job.Group(user)| >= 2
    ensures var db' := WithGroup(s.db, job.sha, job.tenant, user, job.Group(user), s.nextId, now);
      Output(db') == Output(s.db) + EntriesFor(job, [user])
  {
    var db' := WithGroup(s.db, job.sha, job.tenant, user, job.Group(user), s.nextId, now);
    assert s.nextId !in s.db.semantic;
    OldOutputStays(s.db, db', |s.db.compressions|);
    assert Output(db') == Output(s.db) + [EntryFor(job, user)];
    assert EntriesFor(job, [user]) == [EntryFor(job, user)];
  }

  lemma AddsOne(job: Job, s: State, user: string, now: Time, index: map<Id, Point>)
    requires IdsIssued(s) && job.rows == s.db.episodic && |job.Group(user)| >= 2
    ensures var db' := WithGroup(s.db, job.sha, job.tenant, user, job.Group(user), s.nextId, now);
      Adds(job, s, State(db', index, s.nextId + 1), [user])
  {
    var db' := WithGroup(s.db, job.sha, job.tenant, user, job.Group(user), s.nextId, now);
    OneMoreEntry(job, s, user, now);
    assert |db'.semantic| == |s.db.semantic| + 1;
    assert Keeps(s, State(db', index, s.nextId + 1));
  }

  lemma {:induction false} EntriesJoin(job: Job, us: seq<string>, vs: seq<string>)
    requires forall u :: u in us || u in vs ==> |job.Group(u)| >= 2
    ensures forall u :: u in us + vs ==> |job.Group(u)| >= 2
    ensures EntriesFor(job, us + vs) == EntriesFor(job, us) + EntriesFor(job, vs)
  {
    if us == [] {
      assert us + vs == vs;
    } else {
      assert (us + vs)[1..] == us[1..] + vs;
      EntriesJoin(job, us[1..], vs);
    }
  }

  lemma {:induction false} HashesOfEntries(job: Job, users: seq<string>)
    requires forall u :: u in users ==> |job.Group(u)| >= 2
    ensures HashesIn(EntriesFor(job, users)) == HashesOf(job, users)
  {
    if users != [] {
      HashesOfEntries(job, users[1..]);
      assert users == [users[0]] + users[1..];
      assert HashesOf(job, users) == {job.HashOf(users[0])} + HashesOf(job, users[1..]);
      assert HashesIn(EntriesFor(job, users)) == {job.HashOf(users[0])} + HashesIn(EntriesFor(job, users[1..]));
    }
  }

  lemma SingletonHash(job: Job, user: string)
    ensures HashesOf(job, [user]) == {job.HashOf(user)}
  {
  }

  lemma HashesAdded(job: Job, s: State, s': State, users: seq<string>)
    requires Adds(job, s, s', users)
    ensures Hashes(s'.db) == Hashes(s.db) + HashesOf(job, users)
  {
    HashesOfEntries(job, users);
    assert forall e :: e in Output(s'.db) <==> e in Output(s.db) || e in EntriesFor(job, users);
  }

  lemma KeepsBoth(s: State, s': State, s'': State)
    requires Keeps(s, s') && Keeps(s', s'')
    ensures Keeps(s, s'')
  {
  }

  lemma Regroup<T>(x: seq<T>, y: seq<T>, z: seq<T>)
    ensures (x + y) + z == x + (y + z)
  {
  }

  lemma AddsBoth(job: Job, s: State, s': State, s'': State, us: seq<string>, vs: seq<string>)
    requires Adds(job, s, s', us) && Adds(job, s', s'', vs)
    ensures Adds(job, s, s'', us + vs)
  {
    EntriesJoin(job, us, vs);
    Regroup(Output(s.db), EntriesFor(job, us), EntriesFor(job, vs));
    KeepsBoth(s, s', s'');
  }

  lemma TakeMore<T>(xs: seq<T>, m: nat, k: nat)
    requires m + k <= |xs|
    ensures xs[..m] + xs[m..][..k] == xs[..m + k] && xs[m..][k..] == xs[m + k..]
    ensures xs[m..][..|xs| - m] == xs[m..] && xs[..m] + xs[m..] == xs
  {
  }

  lemma TakeCons<T>(x: T, xs: seq<T>, m: nat)
    requires m <= |xs|
    ensures ([x] + xs)[..m + 1] == [x] + xs[..m] && ([x] + xs)[..1] == [x] && ([x] + xs)[..0] == []
  {
  }

  /** `s'` comes from `s` by the first `n` groups that need work. */
  ghost predicate DoesPrefix(job: Job, s: State, s': State, users: seq<string>, n: nat) {
    n <= |Todo(job, Hashes(s.db), users)| && Adds(job, s, s', Todo(job, Hashes(s.db), users)[..n])
  }

  lemma PrefixCons(job: Job, s: State, next: State, s': State, users: seq<string>, m: nat)
    requires users != [] && |job.Group(users[0])| >= 2 && job.HashOf(users[0]) !in Hashes(s.db)
    requires Adds(job, s, next, [users[0]]) && DoesPrefix(job, next, s', users[1..], m)
    ensures DoesPrefix(job, s, s', users, m + 1)
  {
    HashesAdded(job, s, next, [users[0]]);
    SingletonHash(job, users[0]);
    var later := Todo(job, Hashes(next.db), users[1..]);
    TakeCons(users[0], later, m);
    AddsBoth(job, s, next, s', [users[0]], later[..m]);
  }

  lemma TodoAfterOne(job: Job, s: State, next: State, users: seq<string>)
    requires users != [] && |job.Group(users[0])| >= 2 && job.HashOf(users[0]) !in Hashes(s.db)
    requires Adds(job, s, next, [users[0]])
    ensures |Todo(job, Hashes(s.db), users)| == 1 + |Todo(job, Hashes(next.db), users[1..])|
  {
    HashesAdded(job, s, next, [users[0]]);
    SingletonHash(job, users[0]);
  }

  lemma PrefixOfOne(job: Job, s: State, next: State, users: seq<string>)
    requires users != [] && |job.Group(users[0])| >= 2 && job.HashOf(users[0]) !in Hashes(s.db)
    requires Adds(job, s, next, [users[0]])
    ensures DoesPrefix(job, s, next, users, 1)
  {
    TakeCons(users[0], Todo(job, Hashes(s.db), users)[1..], 0);
  }

  lemma PrefixOfNone(job: Job, s: State, s': State, users: seq<string>)
    requires IdsIssued(s) && s'.db == s.db && s.nextId <= s'.nextId
    ensures DoesPrefix(job, s, s', users, 0)
  {
    AddsNothing(job, s);
    assert Todo(job, Hashes(s.db), users)[..0] == [];
    assert Adds(job, s, s', []);
  }

  /** One attempt at the groups of `users` commits a prefix of the work, all of it if
      nothing crashes. */
  ghost predicate Commits(job: Job, s: State, users: seq<string>, now: Time, faults: Faults, n: nat) {
    && DoesPrefix(job, s, GroupsDone(s, job.sha, job.tenant, job.batch, users, now, faults), users, n)
    && (NoCrash(faults) ==> n == |Todo(job, Hashes(s.db), users)|)
  }

  lemma IdleGroup(job: Job, s: State, users: seq<string>, now: Time, faults: Faults, n: nat)
    requires IdsIssued(s) && job.rows == s.db.episodic
    requires users != [] && !NeedsWork(s.db, job.sha, job.Group(users[0]))
    requires Commits(job, s, users[1..], now, faults, n)
    ensures Commits(job, s, users, now, faults, n)
  {
    LoggedIsInOutput(s.db, |s.db.compressions|, job.HashOf(users[0]));
  }

  lemma CrashingGroup(job: Job, s: State, users: seq<string>, now: Time, faults: Faults) returns (n: nat)
    requires IdsIssued(s) && job.rows == s.db.episodic
    requires users != [] && NeedsWork(s.db, job.sha, job.Group(users[0])) && FaultFor(faults, users[0]).Crash?
    ensures Commits(job, s, users, now, faults, n)
  {
    var fault := FaultFor(faults, users[0]);
    var next := GroupDone(s, job.sha, job.tenant, users[0], job.Group(users[0]), now, fault);
    LoggedIsInOutput(s.db, |s.db.compressions|, job.HashOf(users[0]));
    if fault.committed {
      n := 1;
      AddsOne(job, s, users[0], now, next.index);
      PrefixOfOne(job, s, next, users);
    } else {
      n := 0;
      PrefixOfNone(job, s, next, users);
    }
  }

  lemma SmoothGroup(job: Job, s: State, next: State, users: seq<string>, now: Time, faults: Faults, m: nat)
    requires job.rows == s.db.episodic
    requires users != [] && NeedsWork(s.db, job.sha, job.Group(users[0])) && FaultFor(faults, users[0]).Smooth?
    requires next == GroupDone(s, job.sha, job.tenant, users[0], job.Group(users[0]), now, FaultFor(faults, users[0]))
    requires Adds(job, s, next, [users[0]]) && Commits(job, next, users[1..], now, faults, m)
    ensures Commits(job, s, users, now, faults, m + 1)
  {
    LoggedIsInOutput(s.db, |s.db.compressions|, job.HashOf(users[0]));
    TodoAfterOne(job, s, next, users);
    PrefixCons(job, s, next, GroupsDone(next, job.sha, job.tenant, job.batch, users[1..], now, faults), users, m);
  }

  lemma {:induction false} AttemptCommits(job: Job, s: State, users: seq<string>, now: Time, faults: Faults)
    returns (n: nat)
    requires IdsIssued(s) && job.rows == s.db.episodic
    ensures Commits(job, s, users, now, faults, n)
    decreases |users|
  {
    if users == [] {
      n := 0;
      PrefixOfNone(job, s, s, users);
    } else if !NeedsWork(s.db, job.sha, job.Group(users[0])) {
      n := AttemptCommits(job, s, users[1..], now, faults);
      IdleGroup(job, s, users, now, faults, n);
    } else if FaultFor(faults, users[0]).Crash? {
      n := CrashingGroup(job, s, users, now, faults);
    } else {
      var next := GroupDone(s, job.sha, job.tenant, users[0], job.Group(users[0]), now, FaultFor(faults, users[0]));
      AddsOne(job, s, users[0], now, next.index);
      var m := AttemptCommits(job, next, users[1..], now, faults);
      SmoothGroup(job, s, next, users, now, faults, m);
      n := m + 1;
    }
  }

  function JobFor(s: State, sha: Hash, tenant: TenantId): Job {
    Job(s.db.episodic, sha, tenant, Batch(s.db.episodic, tenant))
  }

  /** The work one uninterrupted run would do from `s`. */
  function WorkFor(s: State, sha: Hash, tenant: TenantId): seq<string> {
    var job := JobFor(s, sha, tenant);
    if |job.batch| < 3 then [] else Todo(job, Hashes(s.db), UsersOf(job.rows, job.batch))
  }

  /** `s'` comes from `s` by the first `n` groups of the work, and the others are left. */
  ghost predicate Progress(s: State, s': State, sha: Hash, tenant: TenantId, n: nat) {
    && n <= |WorkFor(s, sha, tenant)|
    && Adds(JobFor(s, sha, tenant), s, s', WorkFor(s, sha, tenant)[..n])
    && WorkFor(s', sha, tenant) == WorkFor(s, sha, tenant)[n..]
  }

  lemma NoProgress(s: State, sha: Hash, tenant: TenantId)
    requires IdsIssued(s)
    ensures Progress(s, s, sha, tenant, 0)
  {
    AddsNothing(JobFor(s, sha, tenant), s);
  }

  lemma ProgressAddsUp(s: State, s': State, s'': State, sha: Hash, tenant: TenantId, m: nat, k: nat)
    requires Progress(s, s', sha, tenant, m) && Progress(s', s'', sha, tenant, k)
    ensures Progress(s, s'', sha, tenant, m + k)
  {
    var work := WorkFor(s, sha, tenant);
    TakeMore(work, m, k);
    AddsBoth(JobFor(s, sha, tenant), s, s', s'', work[..m], work[m..][..k]);
  }

  lemma RunProgresses(s: State, sha: Hash, tenant: TenantId, now: Time, faults: Faults) returns (n: nat)
    requires IdsIssued(s)
    ensures Progress(s, Compressed(s, sha, tenant, now, faults), sha, tenant, n)
    ensures NoCrash(faults) ==> n == |WorkFor(s, sha, tenant)|
  {
    var job := JobFor(s, sha, tenant);
    if |job.batch| < 3 {
      n := 0;
      NoProgress(s, sha, tenant);
    } else {
      var users := UsersOf(job.rows, job.batch);
      n := AttemptCommits(job, s, users, now, faults);
      HashesAdded(job, s, Compressed(s, sha, tenant, now, faults), Todo(job, Hashes(s.db), users)[..n]);
      RestIsLeft(job, Hashes(s.db), users, n);
    }
  }

  // --- The groups that are worked on ----------------------------------------------------

  /** The groups of `work` one after the other, up to the first crash. */
  function WorkDone(s: State, job: Job, work: seq<string>, now: Time, faults: Faults): State
    requires forall u :: u in work ==> |job.Group(u)| >= 2
    decreases |work|
  {
    if work == [] then s
    else
      var fault := FaultFor(faults, work[0]);
      var next := GroupDone(s, job.sha, job.tenant, work[0], job.Group(work[0]), now, fault);
      if fault.Crash? then next else WorkDone(next, job, work[1..], now, faults)
  }

  /** The loop over all users with its hash checks does the work that was there to do. */
  lemma {:induction false} GroupsAreWork(s: State, job: Job, users: seq<string>, now: Time, faults: Faults)
    requires IdsIssued(s) && job.rows == s.db.episodic
    ensures forall u :: u in Todo(job, Hashes(s.db), users) ==> |job.Group(u)| >= 2
    ensures GroupsDone(s, job.sha, job.tenant, job.batch, users, now, faults)
         == WorkDone(s, job, Todo(job, Hashes(s.db), users), now, faults)
    decreases |users|
  {
    TodoMembers(job, Hashes(s.db), users);
    if users != [] {
      LoggedIsInOutput(s.db, |s.db.compressions|, job.HashOf(users[0]));
      if NeedsWork(s.db, job.sha, job.Group(users[0])) {
        NextGroupIsWork(s, job, users, now, faults);
      } else {
        GroupsAreWork(s, job, users[1..], now, faults);
      }
    }
  }

  lemma {:induction false} NextGroupIsWork(s: State, job: Job, users: seq<string>, now: Time, faults: Faults)
    requires IdsIssued(s) && job.rows == s.db.episodic
    requires users != [] && NeedsWork(s.db, job.sha, job.Group(users[0])) && job.HashOf(users[0]) !in Hashes(s.db)
    ensures forall u :: u in Todo(job, Hashes(s.db), users) ==> |job.Group(u)| >= 2
    ensures GroupsDone(s, job.sha, job.tenant, job.batch, users, now, faults)
         == WorkDone(s, job, Todo(job, Hashes(s.db), users), now, faults)
    decreases |users|, 0
  {
    TodoMembers(job, Hashes(s.db), users);
    var fault := FaultFor(faults, users[0]);
    if fault.Smooth? {
      var next := GroupDone(s, job.sha, job.tenant, users[0], job.Group(users[0]), now, fault);
      AddsOne(job, s, users[0], now, next.index);
      HashesAdded(job, s, next, [users[0]]);
      SingletonHash(job, users[0]);
      GroupsAreWork(next, job, users[1..], now, faults);
      assert Todo(job, Hashes(s.db), users)[1..] == Todo(job, Hashes(next.db), users[1..]);
    }
  }

  /** A whole compression is the work there is to do. */
  lemma CompressionIsWork(s: State, sha: Hash, tenant: TenantId, now: Time, faults: Faults)
    requires IdsIssued(s)
    ensures forall u :: u in WorkFor(s, sha, tenant) ==> |JobFor(s, sha, tenant).Group(u)| >= 2
    ensures Compressed(s, sha, tenant, now, faults)
         == WorkDone(s, JobFor(s, sha, tenant), WorkFor(s, sha, tenant), now, faults)
  {
    var job := JobFor(s, sha, tenant);
    if |job.batch| >= 3 {
      GroupsAreWork(s, job, UsersOf(job.rows, job.batch), now, faults);
    }
  }

  /** A run completes exactly when none of the groups to be worked on crashes. */
  lemma {:induction false} GroupsCompleteIff(s: State, job: Job, users: seq<string>, now: Time, faults: Faults)
    requires IdsIssued(s) && job.rows == s.db.episodic
    ensures GroupsComplete(s, job.sha, job.tenant, job.batch, users, now, faults)
      <==> forall u :: u in Todo(job, Hashes(s.db), users) ==> FaultFor(faults, u).Smooth?
    decreases |users|
  {
    if users != [] {
      LoggedIsInOutput(s.db, |s.db.compressions|, job.HashOf(users[0]));
      if NeedsWork(s.db, job.sha, job.Group(users[0])) {
        var next := GroupDone(s, job.sha, job.tenant, users[0], job.Group(users[0]), now, FaultFor(faults, users[0]));
        if FaultFor(faults, users[0]).Smooth? {
          TodoAfterSmooth(s, next, job, users, now, faults);
          GroupsCompleteIff(next, job, users[1..], now, faults);
        }
      } else {
        GroupsCompleteIff(s, job, users[1..], now, faults);
      }
    }
  }

  lemma TodoAfterSmooth(s: State, next: State, job: Job, users: seq<string>, now: Time, faults: Faults)
    requires IdsIssued(s) && job.rows == s.db.episodic && users != [] && FaultFor(faults, users[0]).Smooth?
    requires |job.Group(users[0])| >= 2 && job.HashOf(users[0]) !in Hashes(s.db)
    requires next == GroupDone(s, job.sha, job.tenant, users[0], job.Group(users[0]), now, FaultFor(faults, users[0]))
    ensures IdsIssued(next) && next.db.episodic == s.db.episodic
    ensures Todo(job, Hashes(s.db), users) == [users[0]] + Todo(job, Hashes(next.db), users[1..])
  {
    AddsOne(job, s, users[0], now, next.index);
    HashesAdded(job, s, next, [users[0]]);
    SingletonHash(job, users[0]);
  }

  lemma CompletesIff(s: State, sha: Hash, tenant: TenantId, now: Time, faults: Faults)
    requires IdsIssued(s)
    ensures Completes(s, sha, tenant, now, faults)
      <==> forall u :: u in WorkFor(s, sha, tenant) ==> FaultFor(faults, u).Smooth?
  {
    var job := JobFor(s, sha, tenant);
    if |job.batch| >= 3 { GroupsCompleteIff(s, job, UsersOf(job.rows, job.batch), now, faults); }
  }

  datatype Attempt = Attempt(now: Time, faults: Faults)

  function Attempted(s: State, sha: Hash, tenant: TenantId, attempts: seq<Attempt>): State
    decreases |attempts|
  {
    if attempts == [] then s
    else Attempted(Compressed(s, sha, tenant, attempts[0].now, attempts[0].faults), sha, tenant, attempts[1..])
  }

  /** The first attempt of several. */
  lemma FirstAttempt(s: State, sha: Hash, tenant: TenantId, attempts: seq<Attempt>) returns (next: State, m: nat)
    requires IdsIssued(s) && attempts != []
    ensures Attempted(s, sha, tenant, attempts) == Attempted(next, sha, tenant, attempts[1..])
    ensures Progress(s, next, sha, tenant, m) && IdsIssued(next)
  {
    next := Compressed(s, sha, tenant, attempts[0].now, attempts[0].faults);
    m := RunProgresses(s, sha, tenant, attempts[0].now, attempts[0].faults);
  }

  lemma {:induction false} AttemptsProgress(s: State, end: State, sha: Hash, tenant: TenantId, attempts: seq<Attempt>)
    returns (n: nat)
    requires IdsIssued(s) && end == Attempted(s, sha, tenant, attempts)
    ensures Progress(s, end, sha, tenant, n)
    decreases |attempts|
  {
    if attempts == [] {
      n := 0;
      NoProgress(s, sha, tenant);
    } else {
      var next, m := FirstAttempt(s, sha, tenant, attempts);
      var k := AttemptsProgress(next, end, sha, tenant, attempts[1..]);
      n := m + k;
      ProgressAddsUp(s, next, end, sha, tenant, m, k);
    }
  }

  lemma RestartFinishes(s: State, end: State, sha: Hash, tenant: TenantId, attempts: seq<Attempt>, last: Attempt)
    requires IdsIssued(s) && NoCrash(last.faults)
    requires end == Compressed(Attempted(s, sha, tenant, attempts), sha, tenant, last.now, last.faults)
    ensures Progress(s, end, sha, tenant, |WorkFor(s, sha, tenant)|)
  {
    var partial := Attempted(s, sha, tenant, attempts);
    var n := AttemptsProgress(s, partial, sha, tenant, attempts);
    LastAttemptFinishes(s, partial, end, sha, tenant, n, last);
  }

  lemma LastAttemptFinishes(s: State, partial: State, end: State, sha: Hash, tenant: TenantId, n: nat, last: Attempt)
    requires Progress(s, partial, sha, tenant, n) && NoCrash(last.faults)
    requires end == Compressed(partial, sha, tenant, last.now, last.faults)
    ensures Progress(s, end, sha, tenant, |WorkFor(s, sha, tenant)|)
  {
    LastAttempt(partial, end, sha, tenant, last);
    WorkAddsUp(s, partial, end, sha, tenant, n);
  }

  lemma LastAttempt(partial: State, end: State, sha: Hash, tenant: TenantId, last: Attempt)
    requires IdsIssued(partial) && NoCrash(last.faults)
    requires end == Compressed(partial, sha, tenant, last.now, last.faults)
    ensures Progress(partial, end, sha, tenant, |WorkFor(partial, sha, tenant)|)
  {
    var m := RunProgresses(partial, sha, tenant, last.now, last.faults);
  }

  lemma WorkAddsUp(s: State, partial: State, end: State, sha: Hash, tenant: TenantId, n: nat)
    requires Progress(s, partial, sha, tenant, n)
    requires Progress(partial, end, sha, tenant, |WorkFor(partial, sha, tenant)|)
    ensures Progress(s, end, sha, tenant, |WorkFor(s, sha, tenant)|)
  {
    ProgressAddsUp(s, partial, end, sha, tenant, n, |WorkFor(partial, sha, tenant)|);
  }

  lemma FullProgressIsDetermined(s: State, s1: State, s2: State, sha: Hash, tenant: TenantId, n: nat)
    requires Progress(s, s1, sha, tenant, n) && Progress(s, s2, sha, tenant, n)
    ensures Output(s1.db) == Output(s2.db) && |s1.db.semantic| == |s2.db.semantic|
    ensures forall id :: id in s.db.semantic ==> id in s1.db.semantic && s1.db.semantic[id] == s.db.semantic[id]
  {
  }

  /** Any number of attempts that crash anywhere, then one that completes, leave the same
      logs and facts, in the same order, as a single run that completes at once; as many
      facts in all, and the older facts as they were. */
  lemma RestartEqualsOneRun(s: State, sha: Hash, tenant: TenantId, attempts: seq<Attempt>, last: Attempt, once: Attempt)
    requires IdsIssued(s) && NoCrash(last.faults) && NoCrash(once.faults)
    ensures var restarted := Compressed(Attempted(s, sha, tenant, attempts), sha, tenant, last.now, last.faults);
      var direct := Compressed(s, sha, tenant, once.now, once.faults);
      && Output(restarted.db) == Output(direct.db)
      && |restarted.db.semantic| == |direct.db.semantic|
      && (forall id :: id in s.db.semantic ==>
            id in restarted.db.semantic && restarted.db.semantic[id] == s.db.semantic[id])
  {
    var restarted := Compressed(Attempted(s, sha, tenant, attempts), sha, tenant, last.now, last.faults);
    var direct := Compressed(s, sha, tenant, once.now, once.faults);
    assert Attempted(s, sha, tenant, []) == s;
    RestartFinishes(s, restarted, sha, tenant, attempts, last);
    RestartFinishes(s, direct, sha, tenant, [], once);
    FullProgressIsDetermined(s, restarted, direct, sha, tenant, |WorkFor(s, sha, tenant)|);
  }

  /** Once a run has completed, another changes nothing at all. */
  lemma RerunAddsNothing(s: State, sha: Hash, tenant: TenantId, first: Attempt, again: Attempt)
    requires IdsIssued(s) && NoCrash(first.faults)
    ensures var s' := Compressed(s, sha, tenant, first.now, first.faults);
      Compressed(s', sha, tenant, again.now, again.faults) == s'
  {
    var s' := Compressed(s, sha, tenant, first.now, first.faults);
    var n := RunProgresses(s, sha, tenant, first.now, first.faults);
    if |JobFor(s', sha, tenant).batch| >= 3 {
      NothingTodo(JobFor(s', sha, tenant), s', UsersOf(s'.db.episodic, JobFor(s', sha, tenant).batch),
                  again.now, again.faults);
    }
  }

  lemma {:induction false} NothingTodo(job: Job, s: State, users: seq<string>, now: Time, faults: Faults)
    requires job.rows == s.db.episodic && Todo(job, Hashes(s.db), users) == []
    ensures GroupsDone(s, job.sha, job.tenant, job.batch, users, now, faults) == s
    decreases |users|
  {
    if users != [] {
      LoggedIsInOutput(s.db, |s.db.compressions|, job.HashOf(users[0]));
      NothingTodo(job, s, users[1..], now, faults);
    }
  }

  lemma {:induction false} LoggedIsNotTodo(job: Job, logged: set<string>, users: seq<string>, user: string)
    requires job.HashOf(user) in logged
    ensures user !in Todo(job, logged, users)
    decreases |users|
  {
    if users != [] {
      LoggedIsNotTodo(job, logged + {job.HashOf(users[0])}, users[1..], user);
      LoggedIsNotTodo(job, logged, users[1..], user);
    }
  }

  // --- What a run writes -----------------------------------------------------------------------

  lemma {:induction false} WorkKeepsFacts(s: State, job: Job, work: seq<string>, now: Time, faults: Faults, id: Id)
    requires id in s.db.semantic && id < s.nextId && forall u :: u in work ==> |job.Group(u)| >= 2
    ensures var s' := WorkDone(s, job, work, now, faults);
      id in s'.db.semantic && s'.db.semantic[id] == s.db.semantic[id]
    decreases |work|
  {
    if work != [] && FaultFor(faults, work[0]).Smooth? {
      var next := GroupDone(s, job.sha, job.tenant, work[0], job.Group(work[0]), now, FaultFor(faults, work[0]));
      WorkKeepsFacts(next, job, work[1..], now, faults, id);
    }
  }

  /** Two memories or more, all with rows. */
  predicate IsProperGroup(job: Job, user: string) {
    |job.Group(user)| >= 2 && forall id :: id in job.Group(user) ==> id in job.rows
  }

  ghost predicate FactWritten(s': State, job: Job, user: string, id: Id, now: Time) {
    id in s'.db.semantic
    && IsCompression(s'.db.semantic[id], job.rows, job.tenant, user, job.Group(user), now)
  }

  lemma FirstIsWritten(s: State, job: Job, user: string, now: Time, fault: GroupFault)
    requires job.rows == s.db.episodic && fault.Smooth? && IsProperGroup(job, user)
    ensures var next := GroupDone(s, job.sha, job.tenant, user, job.Group(user), now, fault);
      && next.nextId == s.nextId + 1 && next.db.episodic == s.db.episodic
      && FactWritten(next, job, user, s.nextId, now)
  {
    GroupIsWritten(s, job.sha, job.tenant, user, job.Group(user), now, fault);
  }

  lemma FactStays(next: State, s': State, job: Job, user: string, id: Id, now: Time)
    requires FactWritten(next, job, user, id, now)
    requires id in s'.db.semantic && s'.db.semantic[id] == next.db.semantic[id]
    ensures FactWritten(s', job, user, id, now)
  {
  }

  lemma WorkGoesOn(s: State, job: Job, work: seq<string>, now: Time, faults: Faults)
    requires work != [] && NoCrash(faults) && forall u :: u in work ==> |job.Group(u)| >= 2
    ensures var next := GroupDone(s, job.sha, job.tenant, work[0], job.Group(work[0]), now, FaultFor(faults, work[0]));
      WorkDone(s, job, work, now, faults) == WorkDone(next, job, work[1..], now, faults)
  {
  }

  /** The store when the work comes to its group `k`. */
  lemma {:induction false} WorkReaches(s: State, job: Job, work: seq<string>, now: Time, faults: Faults, k: nat)
    returns (reached: State)
    requires NoCrash(faults) && k < |work| && forall u :: u in work ==> |job.Group(u)| >= 2
    ensures reached.nextId == s.nextId + k && reached.db.episodic == s.db.episodic
    ensures WorkDone(s, job, work, now, faults) == WorkDone(reached, job, work[k..], now, faults)
    decreases k
  {
    if k == 0 {
      reached := s;
      assert work[0..] == work;
    } else {
      WorkGoesOn(s, job, work, now, faults);
      var next := GroupDone(s, job.sha, job.tenant, work[0], job.Group(work[0]), now, FaultFor(faults, work[0]));
      reached := WorkReaches(next, job, work[1..], now, faults, k - 1);
      assert work[1..][k - 1..] == work[k..];
    }
  }

  lemma FirstOfWorkIsWritten(s: State, s': State, job: Job, work: seq<string>, now: Time, faults: Faults,
                             user: string, id: Id)
    requires job.rows == s.db.episodic && NoCrash(faults) && IsProperGroup(job, user)
    requires work != [] && user == work[0] && id == s.nextId && forall u :: u in work ==> |job.Group(u)| >= 2
    requires s' == WorkDone(s, job, work, now, faults)
    ensures FactWritten(s', job, user, id, now)
  {
    var fault := FaultFor(faults, user);
    var next := GroupDone(s, job.sha, job.tenant, user, job.Group(user), now, fault);
    FirstIsWritten(s, job, user, now, fault);
    WorkGoesOn(s, job, work, now, faults);
    WorkKeepsFacts(next, job, work[1..], now, faults, id);
    FactStays(next, s', job, user, id, now);
  }

  lemma WorkIsWritten(s: State, s': State, job: Job, work: seq<string>, now: Time, faults: Faults, k: nat,
                      user: string, id: Id)
    requires job.rows == s.db.episodic && NoCrash(faults) && IsProperGroup(job, user)
    requires k < |work| && user == work[k] && id == s.nextId + k && forall u :: u in work ==> |job.Group(u)| >= 2
    requires s' == WorkDone(s, job, work, now, faults)
    ensures FactWritten(s', job, user, id, now)
  {
    var reached := WorkReaches(s, job, work, now, faults, k);
    assert work[k..][0] == user;
    FirstOfWorkIsWritten(reached, s', job, work[k..], now, faults, user, id);
  }

  lemma GroupIsOfRows(s: State, sha: Hash, tenant: TenantId, user: string)
    ensures var job := JobFor(s, sha, tenant); forall id :: id in job.Group(user) ==> id in job.rows
  {
    BatchIsOldest(s.db.episodic, tenant);
    GroupMembers(s.db.episodic, Batch(s.db.episodic, tenant), user);
  }

  /** A run that does not crash leaves, for every user whose group was to be worked on, a fact that
      names the group's memories in order. */
  lemma RunWritesFacts(s: State, s': State, sha: Hash, tenant: TenantId, run: Attempt, job: Job, k: nat, user: string,
                       id: Id)
    requires IdsIssued(s) && NoCrash(run.faults) && k < |WorkFor(s, sha, tenant)|
    requires s' == Compressed(s, sha, tenant, run.now, run.faults) && job == JobFor(s, sha, tenant)
    requires user == WorkFor(s, sha, tenant)[k] && id == s.nextId + k
    ensures FactWritten(s', job, user, id, run.now)
  {
    CompressionIsWork(s, sha, tenant, run.now, run.faults);
    GroupIsOfRows(s, sha, tenant, user);
    WorkIsWritten(s, s', job, WorkFor(s, sha, tenant), run.now, run.faults, k, user, id);
  }
}
