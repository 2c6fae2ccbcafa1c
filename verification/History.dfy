/** What holds over whole runs of the engine: supersession chains, conservation, and what
    the schema's immediate foreign keys make of it. */
module History {
  import opened Wrappers
  import opened MemoryModel
  import opened Contradiction
  import opened MemoryWrite
  import opened Retention
  import opened Compression
  import opened Decay
  import opened VectorSearch
  import opened Supersession
  import opened Engine
  import Restart = CompressionRestart

  /** A link, once written, is never changed or removed; a fact never changes hands and is
      never deleted. */
  lemma {:induction false} LinksAreWrittenOnce(s: State, events: seq<Event>)
    requires Inv(s)
    ensures Grows(FactsOf(s.db), FactsOf(Run(s, events).db))
  {
    if |events| > 0 {
      var before := events[..|events| - 1];
      LinksAreWrittenOnce(s, before);
      RunKeepsInv(s, before);
      StepKeepsInv(Run(s, before), events[|events| - 1]);
      GrowsOnAndOn(FactsOf(s.db), FactsOf(Run(s, before).db), FactsOf(Run(s, events).db));
    }
  }

  ghost predicate Bounded(facts: Facts, limit: nat) {
    forall id :: id in facts ==> id < limit
  }

  /** In every reachable state, whatever failed on the way: following successors from any
      fact ends at a live fact of the same tenant and user, drawn no earlier; and two facts
      with the same end lie on one chain. */
  lemma ChainsEndAtOneLiveFact(deferredKeys: bool, events: seq<Event>, a: Id, b: Id)
    requires var s := Run(Empty(deferredKeys), events); a in FactsOf(s.db) && b in FactsOf(s.db) && a <= b
    ensures var s := Run(Empty(deferredKeys), events);
      var facts := FactsOf(s.db);
      && Forward(facts) && Injective(facts) && Bounded(facts, s.nextId)
      && End(facts, s.nextId, a) in Live(facts)
      && facts[End(facts, s.nextId, a)].tenant == facts[a].tenant
      && facts[End(facts, s.nextId, a)].user == facts[a].user
      && (End(facts, s.nextId, a) == End(facts, s.nextId, b) <==> Reaches(facts, s.nextId, a, b))
  {
    EmptyIsSound(deferredKeys);
    RunKeepsInv(Empty(deferredKeys), events);
    var s := Run(Empty(deferredKeys), events);
    SameEndSameChain(FactsOf(s.db), s.nextId, a, b);
  }

  function LiveRows(db: Tables): set<Id> {
    set id | id in db.semantic && db.semantic[id].supersededBy.None?
  }

  function ReplacedRows(db: Tables): set<Id> {
    set id | id in db.semantic && db.semantic[id].supersededBy.Some?
  }

  lemma RowsAreFacts(db: Tables)
    ensures LiveRows(db) == Live(FactsOf(db)) && ReplacedRows(db) == LinkedFacts(FactsOf(db))
    ensures |FactsOf(db)| == |db.semantic|
  {
    assert FactsOf(db).Keys == db.semantic.Keys;
  }

  /** Conservation: the live facts are all the facts less one for every contradiction that
      policy resolved for the new fact. */
  lemma LiveFactsAreConserved(deferredKeys: bool, events: seq<Event>)
    ensures var db := Run(Empty(deferredKeys), events).db;
      |LiveRows(db)| == |db.semantic| - |KeptLogs(db.contradictions)|
  {
    EmptyIsSound(deferredKeys);
    RunKeepsInv(Empty(deferredKeys), events);
    var db := Run(Empty(deferredKeys), events).db;
    KeptCountIsSize(db.contradictions);
    RowsAreFacts(db);
  }

  /** Those logs and the links are one to one. */
  lemma KeptLogsAreLinks(deferredKeys: bool, events: seq<Event>)
    ensures var db := Run(Empty(deferredKeys), events).db;
      var logs, kept := db.contradictions, KeptLogs(db.contradictions);
      && ReplacedRows(db) == (set i | i in kept :: logs[i].existingFact)
      && (forall i :: i in kept ==> logs[i].existingFact in db.semantic
                                    && db.semantic[logs[i].existingFact].supersededBy == Some(logs[i].newFact))
      && (forall i, j :: i in kept && j in kept && i != j ==>
            logs[i].existingFact != logs[j].existingFact && logs[i].newFact != logs[j].newFact)
  {
    EmptyIsSound(deferredKeys);
    RunKeepsInv(Empty(deferredKeys), events);
    var db := Run(Empty(deferredKeys), events).db;
    LogsAreLinks(FactsOf(db), db.contradictions);
    RowsAreFacts(db);
    LogsNameLinkedRows(db);
  }

  lemma LogsNameLinkedRows(db: Tables)
    requires Sound(FactsOf(db), db.contradictions)
    ensures forall i :: i in KeptLogs(db.contradictions) ==>
      && db.contradictions[i].existingFact in db.semantic
      && db.semantic[db.contradictions[i].existingFact].supersededBy == Some(db.contradictions[i].newFact)
  {
    LogsAreLinks(FactsOf(db), db.contradictions);
    forall i | i in KeptLogs(db.contradictions)
      ensures db.contradictions[i].existingFact in db.semantic
      ensures db.semantic[db.contradictions[i].existingFact].supersededBy == Some(db.contradictions[i].newFact)
    {
      assert db.contradictions[i].existingFact in LinkedFacts(FactsOf(db));
    }
  }

  lemma {:induction false} KeptCountIsSize(logs: seq<ContradictionLog>)
    ensures KeptCount(logs) == |KeptLogs(logs)|
  {
    if logs != [] {
      var last := |logs| - 1;
      KeptCountIsSize(logs[..last]);
      assert KeptLogs(logs) == KeptLogs(logs[..last]) + if IsKept(logs[last]) then {last} else {};
    }
  }

  lemma SoundKeysHold(db: Tables)
    requires Sound(FactsOf(db), db.contradictions)
    requires forall i :: 0 <= i < |db.compressions| ==>
      db.compressions[i].resulting.Some? && db.compressions[i].resulting.value in db.semantic
    ensures KeysHold(db)
  {
    forall id | id in db.semantic && db.semantic[id].supersededBy.Some?
      ensures db.semantic[id].supersededBy.value in db.semantic
    {
      assert FactsOf(db)[id].successor.Some?;
    }
  }

  /** Every committed log and link names a committed row: the keys hold at each commit. */
  lemma CommittedKeysResolve(deferredKeys: bool, events: seq<Event>)
    ensures var db := Run(Empty(deferredKeys), events).db;
      && KeysHold(db)
      && forall i :: 0 <= i < |db.compressions| ==>
           db.compressions[i].status == Completed && db.compressions[i].resulting.Some?
  {
    EmptyIsSound(deferredKeys);
    RunKeepsInv(Empty(deferredKeys), events);
    SoundKeysHold(Run(Empty(deferredKeys), events).db);
  }

  /** In every reachable state, compression may crash and restart any number of times and
      still commits what one run commits. */
  lemma CompressionSurvivesCrashes(deferredKeys: bool, events: seq<Event>, sha: Hash, t: TenantId,
                                   attempts: seq<Restart.Attempt>, last: Restart.Attempt, once: Restart.Attempt)
    requires Restart.NoCrash(last.faults) && Restart.NoCrash(once.faults)
    ensures var s := Run(Empty(deferredKeys), events);
      var restarted := Compressed(Restart.Attempted(s, sha, t, attempts), sha, t, last.now, last.faults);
      var direct := Compressed(s, sha, t, once.now, once.faults);
      Restart.Output(restarted.db) == Restart.Output(direct.db) && |restarted.db.semantic| == |direct.db.semantic|
  {
    EmptyIsSound(deferredKeys);
    RunKeepsInv(Empty(deferredKeys), events);
    var s := Run(Empty(deferredKeys), events);
    assert Restart.IdsIssued(s);
    Restart.RestartEqualsOneRun(s, sha, t, attempts, last, once);
  }

  // --- Writes that meet a contradiction -------------------------------------------------

  /** No outside failure and no refusal of the row itself stops the write. */
  predicate Unhindered(s: State, r: WriteRequest, f: WriteFaults) {
    && f.embed && f.search && !f.upsert.Raises() && f.commit.Lands()
    && f.flush && (r.source.Some? ==> r.source.value in s.db.episodic)
  }

  /** The link and the log are sent before the row that they name. So a write that meets a
      contradiction commits exactly when the keys wait for the commit and nothing else
      stands in its way; otherwise every row and log is as it was. */
  lemma ClashCommitsIffDeferred(s: State, r: WriteRequest, similar: seq<Id>, nli: Nli, f: WriteFaults)
    requires s.nextId !in s.db.semantic && r.tenant in s.db.tenants
    requires FirstClash(s.db, r.tenant, SemanticHits(s, r, similar), r.content, nli).Clash?
    ensures var s' := SemanticWritten(s, r, similar, nli, f);
      && (s.nextId in s'.db.semantic <==> s.db.deferredKeys && Unhindered(s, r, f))
      && (s.nextId !in s'.db.semantic ==> s'.db == s.db)
      && (!s.db.deferredKeys ==> s' == s.(nextId := s.nextId + 1))
  {
    var clash := FirstClash(s.db, r.tenant, SemanticHits(s, r, similar), r.content, nli);
    SentIfNameable(s.db, s.db.tenants[r.tenant].policy, r.tenant, s.nextId, r.content,
                   clash.existing, clash.confidence);
  }

  /** Had the row come first, its keys would have been good under either reading. */
  lemma RowFirstIsNeverRefused(db: Tables, policy: Policy, tenant: TenantId, id: Id, row: SemanticMemory,
                               existing: Id, confidence: real)
    requires existing in db.semantic && existing != id
    ensures Sent(AddSemantic(db, id, row), policy, tenant, id, row.content, existing, confidence)
         == Ok(Resolved(AddSemantic(db, id, row), policy, tenant, id, row.content, existing, confidence))
  {
    SentIfNameable(AddSemantic(db, id, row), policy, tenant, id, row.content, existing, confidence);
  }

  /** What is committed of a write that met a contradiction, whatever failed on the way: the
      new fact, live; the old one, live or superseded by the new as the tenant's policy says;
      one log with both texts; and every other fact and log as it was. */
  lemma PolicyDecides(s: State, r: WriteRequest, similar: seq<Id>, nli: Nli, f: WriteFaults,
                      existing: Id, confidence: real)
    requires s.nextId !in s.db.semantic && r.tenant in s.db.tenants
    requires FirstClash(s.db, r.tenant, SemanticHits(s, r, similar), r.content, nli) == Clash(existing, confidence)
    requires s.nextId in SemanticWritten(s, r, similar, nli, f).db.semantic
    ensures var db, db', id := s.db, SemanticWritten(s, r, similar, nli, f).db, s.nextId;
      var policy, old' := s.db.tenants[r.tenant].policy, s.db.semantic[existing];
      var stays := policy == ManualReview || (policy == ConfidenceWeighted && confidence <= old'.confidence);
      && db'.semantic[id].content == r.content && db'.semantic[id].supersededBy == None
      && existing in db'.semantic && db'.semantic[existing].supersededBy == (if stays then None else Some(id))
      && (forall k :: k in db.semantic && k != existing ==> k in db'.semantic && db'.semantic[k] == db.semantic[k])
      && |db'.contradictions| == |db.contradictions| + 1 && db.contradictions <= db'.contradictions
      && var log := db'.contradictions[|db.contradictions|];
         && log.newFact == id && log.newContent == r.content && log.score == confidence
         && log.existingFact == existing && log.existingContent == old'.content
         && (log.autoResolved <==> policy != ManualReview)
         && (log.resolution == NewFactKept <==> !stays) && (log.resolution == Pending <==> policy == ManualReview)
         && log.policyApplied == (if policy == ManualReview then None else Some(policy))
  {
    ClashCommitsIffDeferred(s, r, similar, nli, f);
    SentIfNameable(s.db, s.db.tenants[r.tenant].policy, r.tenant, s.nextId, r.content, existing, confidence);
  }

  ghost predicate NothingSuperseded(db: Tables) {
    !db.deferredKeys && db.contradictions == []
    && forall id :: id in db.semantic ==> db.semantic[id].supersededBy.None?
  }

  /** So with the keys as the migration declares them no run ever supersedes a fact or logs a
      contradiction: every fact stays live. */
  lemma {:induction false} ImmediateKeysNeverSupersede(events: seq<Event>)
    ensures NothingSuperseded(Run(Empty(false), events).db)
  {
    if |events| > 0 {
      var before := events[..|events| - 1];
      ImmediateKeysNeverSupersede(before);
      EmptyIsSound(false);
      RunKeepsInv(Empty(false), before);
      ImmediateStep(Run(Empty(false), before), events[|events| - 1]);
    }
  }

  lemma ImmediateWrite(s: State, r: WriteRequest, similar: seq<Id>, nli: Nli, f: WriteFaults)
    requires s.nextId !in s.db.semantic && NothingSuperseded(s.db)
    ensures NothingSuperseded(SemanticWritten(s, r, similar, nli, f).db)
  {
    if r.tenant in s.db.tenants {
      if FirstClash(s.db, r.tenant, SemanticHits(s, r, similar), r.content, nli).Clash? {
        ClashCommitsIffDeferred(s, r, similar, nli, f);
      }
    }
  }

  lemma ImmediateStep(s: State, e: Event)
    requires Tidy(s) && NothingSuperseded(s.db)
    ensures NothingSuperseded(Step(s, e).db)
  {
    match e
    case WriteFact(r, similar, nli, f) => ImmediateWrite(s, r, similar, nli, f);
    case Compress(t, sha, now, faults) =>
      var batch := Batch(s.db.episodic, t);
      if |batch| >= 3 { ImmediateGroups(s, sha, t, batch, UsersOf(s.db.episodic, batch), now, faults); }
    case _ =>
      SameFacts(s, e);
      forall id | id in Step(s, e).db.semantic ensures Step(s, e).db.semantic[id].supersededBy.None? {
        assert FactsOf(Step(s, e).db)[id] == FactsOf(s.db)[id];
      }
  }

  lemma {:induction false} ImmediateGroups(s: State, sha: Hash, tenant: TenantId, batch: seq<Id>, users: seq<string>,
                                           now: Time, faults: Faults)
    requires NothingSuperseded(s.db)
    ensures NothingSuperseded(GroupsDone(s, sha, tenant, batch, users, now, faults).db)
    decreases |users|
  {
    if users != [] {
      var group := GroupOf(s.db.episodic, batch, users[0]);
      if NeedsWork(s.db, sha, group) {
        var fault := FaultFor(faults, users[0]);
        if fault.Smooth? {
          var next := GroupDone(s, sha, tenant, users[0], group, now, fault);
          ImmediateGroups(next, sha, tenant, batch, users[1..], now, faults);
        }
      } else {
        ImmediateGroups(s, sha, tenant, batch, users[1..], now, faults);
      }
    }
  }

  // --- What supersession does not touch ------------------------------------------------

  lemma DecayAgesUnflagged(db: Tables)
    requires RowsValid(db)
    ensures Aged(db).semantic.Keys == db.semantic.Keys && Aged(db).episodic.Keys == db.episodic.Keys
    ensures forall id :: id in db.semantic ==>
      Aged(db).semantic[id] == db.semantic[id].(importance := Decayed(db.semantic[id].importance))
    ensures forall id :: id in db.episodic ==>
      Aged(db).episodic[id] == db.episodic[id].(importance := Decayed(db.episodic[id].importance))
  {
  }

  /** Superseding a fact sets its successor but never its `superseded` flag, so the daily
      decay, which selects by the flag, ages every row there is, superseded facts included. */
  lemma DecayAgesEveryRow(deferredKeys: bool, events: seq<Event>, lost: set<Id>)
    ensures var s := Run(Empty(deferredKeys), events);
      var db' := Step(s, DecayDay(lost, Done)).db;
      && db'.semantic.Keys == s.db.semantic.Keys && db'.episodic.Keys == s.db.episodic.Keys
      && (forall id :: id in s.db.semantic ==>
            db'.semantic[id] == s.db.semantic[id].(importance := Decayed(s.db.semantic[id].importance)))
      && (forall id :: id in s.db.episodic ==>
            db'.episodic[id] == s.db.episodic[id].(importance := Decayed(s.db.episodic[id].importance)))
  {
    EmptyIsSound(deferredKeys);
    RunKeepsInv(Empty(deferredKeys), events);
    DecayAgesUnflagged(Run(Empty(deferredKeys), events).db);
  }

  // --- A run that meets a contradiction ----------------------------------------------------

  function Request(content: string, now: Time): WriteRequest { WriteRequest(0, "user", content, None, now) }

  /** A tenant whose policy keeps the newer fact, and its first fact. */
  function FirstFact(content: string): seq<Event> {
    [SetTenant(0, Tenant(MostRecentWins, 30)), WriteFact(Request(content, 0), [], (p, h) => NoConflict, NO_FAULTS)]
  }

  /** A fact that the inference service finds to contradict the first one. */
  function Contradicting(content: string): Event {
    WriteFact(Request(content, 1), [0], (p, h) => Conflict(1.0), NO_FAULTS)
  }

  lemma RunOneMore(s: State, events: seq<Event>, e: Event)
    ensures Run(s, events + [e]) == Step(Run(s, events), e)
  {
    assert (events + [e])[..|events|] == events;
  }

  lemma FirstFactIsStored(s: State, content: string)
    requires s.db.semantic == map[] && s.index == map[] && s.nextId == 0 && 0 in s.db.tenants
    ensures var r := Request(content, 0);
      Step(s, WriteFact(r, [], (p, h) => NoConflict, NO_FAULTS))
      == State(s.db.(semantic := map[0 := SemanticRow(r)]), map[0 := PointFor(r, Semantic)], 1)
  {
  }

  lemma RunToFirstFact(deferredKeys: bool, content: string)
    ensures var tenants := map[0 := Tenant(MostRecentWins, 30)];
      var r := Request(content, 0);
      Run(Empty(deferredKeys), FirstFact(content))
      == State(Tables(deferredKeys, tenants, map[], map[0 := SemanticRow(r)], [], []),
               map[0 := PointFor(r, Semantic)], 1)
  {
    var s, first := Empty(deferredKeys), SetTenant(0, Tenant(MostRecentWins, 30));
    RunOneMore(s, [], first);
    assert [] + [first] == [first];
    FirstFactIsStored(Run(s, [first]), content);
    var second := WriteFact(Request(content, 0), [], (p, h) => NoConflict, NO_FAULTS);
    RunOneMore(s, [first], second);
    assert [first] + [second] == FirstFact(content);
  }

  lemma ContradictionIsMet(s: State, content: string)
    requires 0 in s.index && Passes(s.index[0], 0, "user", Some(Semantic)) && IsLive(s.db, 0, 0)
    ensures var e := Contradicting(content);
      FirstClash(s.db, 0, SemanticHits(s, e.request, e.similar), content, e.nli) == Clash(0, 1.0)
  {
    assert [0][..0] == [];
    assert Hits(s.index, [0], 0, "user", Some(Semantic)) == [0];
  }

  /** Three events are enough to meet a contradiction: with deferred keys the second fact takes
      the first one's place; with the keys as migrated it is refused and no row changes. */
  lemma ContradictionIsReached(deferredKeys: bool, first: string, second: string)
    ensures var s := Run(Empty(deferredKeys), FirstFact(first));
      var s' := Run(Empty(deferredKeys), FirstFact(first) + [Contradicting(second)]);
      && s.db.semantic.Keys == {0} && s.db.semantic[0].content == first
      && if deferredKeys
         then s'.db.semantic.Keys == {0, 1} && s'.db.semantic[0].supersededBy == Some(1)
              && s'.db.semantic[1].supersededBy == None && |s'.db.contradictions| == 1
         else s' == s.(nextId := 2)
  {
    var s, e := Run(Empty(deferredKeys), FirstFact(first)), Contradicting(second);
    RunToFirstFact(deferredKeys, first);
    RunOneMore(Empty(deferredKeys), FirstFact(first), e);
    ContradictionIsMet(s, second);
    ClashCommitsIffDeferred(s, e.request, e.similar, e.nli, e.faults);
    if deferredKeys {
      PolicyDecides(s, e.request, e.similar, e.nli, e.faults, 0, 1.0);
      CommittedRows(s, e.request, e.similar, e.nli, e.faults);
    }
  }

  /** A write adds at most its own row. */
  lemma CommittedRows(s: State, r: WriteRequest, similar: seq<Id>, nli: Nli, f: WriteFaults)
    ensures SemanticWritten(s, r, similar, nli, f).db.semantic.Keys <= s.db.semantic.Keys + {s.nextId}
  {
    if r.tenant in s.db.tenants && CheckOf(s, r, similar, nli).Ok? {
      CheckedTables(s.db, s.db.tenants[r.tenant].policy, r.tenant, s.nextId, r.content,
                    SemanticHits(s, r, similar), nli);
    }
  }

  /** A superseded fact, then, is aged like any other. */
  lemma SupersededFactIsAged(first: string, second: string)
    ensures var s := Run(Empty(true), FirstFact(first) + [Contradicting(second)]);
      var aged := Step(s, DecayDay({}, Done)).db.semantic;
      && 0 in s.db.semantic && s.db.semantic[0].supersededBy == Some(1) && 0 in aged
      && aged[0].importance == Decayed(s.db.semantic[0].importance)
  {
    ContradictionIsReached(true, first, second);
    DecayAgesEveryRow(true, FirstFact(first) + [Contradicting(second)], {});
  }
}
