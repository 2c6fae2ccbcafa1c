/** The retention sweep and the daily importance decay. Both talk to the vector index over
    HTTP calls whose failures are swallowed, and commit the rows at the end. */
module Retention {
  import opened Wrappers
  import opened MemoryModel
  import opened Decay

  const DAY: Time := 86_400_000_000

  // --- Sweep ---------------------------------------------------------------------------

  predicate IsExpired(db: Tables, now: Time, id: Id) {
    && id in db.episodic
    && db.episodic[id].tenant in db.tenants
    && db.tenants[db.episodic[id].tenant].retentionDays > 0
    && db.episodic[id].createdAt < now - db.tenants[db.episodic[id].tenant].retentionDays * DAY
  }

  function Expired(db: Tables, now: Time, tenants: set<TenantId>): set<Id> {
    set id | id in db.episodic && db.episodic[id].tenant in tenants && IsExpired(db, now, id)
  }

  /** ON DELETE SET NULL */
  function Unsourced(row: SemanticMemory, ids: set<Id>): SemanticMemory {
    if row.source.Some? && row.source.value in ids then row.(source := None) else row
  }

  function WithoutEpisodic(db: Tables, ids: set<Id>): Tables {
    db.(episodic := db.episodic - ids,
        semantic := map id | id in db.semantic :: Unsourced(db.semantic[id], ids))
  }

  /** `lost` are the tenants whose batch delete in the index does not take effect. */
  function Swept(s: State, now: Time, lost: set<TenantId>, commit: Call): State {
    var tenants := s.db.tenants.Keys;
    State(if commit.Lands() then WithoutEpisodic(s.db, Expired(s.db, now, tenants)) else s.db,
          s.index - Expired(s.db, now, tenants - lost), s.nextId)
  }

  lemma DeletingTwice(db: Tables, a: set<Id>, b: set<Id>)
    ensures WithoutEpisodic(WithoutEpisodic(db, a), b) == WithoutEpisodic(db, a + b)
  {
    var twice, once := WithoutEpisodic(WithoutEpisodic(db, a), b), WithoutEpisodic(db, a + b);
    assert twice.episodic == once.episodic;
    assert twice.semantic == once.semantic;
  }

  lemma DeletingNothing(db: Tables)
    ensures WithoutEpisodic(db, {}) == db
  {
    var same := WithoutEpisodic(db, {});
    assert same.episodic == db.episodic;
    assert same.semantic == db.semantic;
  }

  /** Sweeping one more tenant. */
  lemma SweepingOneMore(db: Tables, now: Time, swept: set<TenantId>, t: TenantId)
    ensures Expired(db, now, swept + {t}) == Expired(db, now, swept) + Expired(db, now, {t})
    ensures WithoutEpisodic(WithoutEpisodic(db, Expired(db, now, swept)), Expired(db, now, {t}))
         == WithoutEpisodic(db, Expired(db, now, swept + {t}))
  {
    DeletingTwice(db, Expired(db, now, swept), Expired(db, now, {t}));
  }

  /** Another tenant's sweep leaves this tenant's expired rows in place. */
  lemma ExpiredIsUntouched(db: Tables, now: Time, swept: set<TenantId>, t: TenantId)
    requires t !in swept
    ensures Expired(WithoutEpisodic(db, Expired(db, now, swept)), now, {t}) == Expired(db, now, {t})
  {
  }

  lemma LostOrNot(swept: set<TenantId>, t: TenantId, lost: set<TenantId>)
    ensures (swept + {t}) - lost == if t in lost then swept - lost else (swept - lost) + {t}
  {
  }

  method SweepExpiredMemories(st: Stores, now: Time, lost: set<TenantId>, commit: Call) returns (ok: bool)
    requires st.Idle()
    modifies st
    ensures st.Idle() && st.Now() == Swept(old(st.Now()), now, lost, commit)
    ensures ok == !commit.Raises()
  {
    ghost var db, index := st.committed, st.index;
    var tenants := st.session.tenants.Keys;
    ghost var swept: set<TenantId> := {};
    DeletingNothing(db);
    assert st.index == index - Expired(db, now, {});
    while tenants != {}
      invariant swept !! tenants && swept + tenants == db.tenants.Keys
      invariant st.committed == db && st.nextId == old(st.nextId)
      invariant st.session == WithoutEpisodic(db, Expired(db, now, swept))
      invariant st.index == index - Expired(db, now, swept - lost)
      decreases tenants
    {
      var t :| t in tenants;
      SweepingOneMore(db, now, swept, t);
      SweepingOneMore(db, now, swept - lost, t);
      ExpiredIsUntouched(db, now, swept, t);
      LostOrNot(swept, t, lost);
      SweepTenant(st, now, t, if t in lost then Refused else Done);
      tenants := tenants - {t};
      swept := swept + {t};
    }
    assert swept == db.tenants.Keys;
    SameLinksKeepKeys(db, st.session);
    ok := st.Commit(commit);
  }

  method SweepTenant(st: Stores, now: Time, t: TenantId, call: Call)
    requires t in st.session.tenants
    modifies st`session, st`index
    ensures st.session == WithoutEpisodic(old(st.session), Expired(old(st.session), now, {t}))
    ensures st.index == Drop(old(st.index), Expired(old(st.session), now, {t}), call)
  {
    var retention := st.session.tenants[t].retentionDays;
    var expired := set id | id in st.session.episodic && st.session.episodic[id].tenant == t
                            && retention > 0 && st.session.episodic[id].createdAt < now - retention * DAY;
    assert expired == Expired(st.session, now, {t});
    if expired == {} {
      DeletingNothing(st.session);
      return;
    }
    st.DeletePoints(expired, call);
    st.session := WithoutEpisodic(st.session, expired);
  }

  // --- Decay ---------------------------------------------------------------------------

  function AgedEpisodic(row: EpisodicMemory): EpisodicMemory {
    if row.superseded then row else row.(importance := Decayed(row.importance))
  }

  function AgedSemantic(row: SemanticMemory): SemanticMemory {
    if row.superseded then row else row.(importance := Decayed(row.importance))
  }

  function Aged(db: Tables): Tables {
    db.(episodic := map id | id in db.episodic :: AgedEpisodic(db.episodic[id]),
        semantic := map id | id in db.semantic :: AgedSemantic(db.semantic[id]))
  }

  /** The scores the worker sends to the index. */
  function EpisodicScores(db: Tables): map<Id, Milli> {
    map id | id in db.episodic && !db.episodic[id].superseded :: Decayed(db.episodic[id].importance)
  }

  function SemanticScores(db: Tables): map<Id, Milli> {
    map id | id in db.semantic && !db.semantic[id].superseded :: Decayed(db.semantic[id].importance)
  }

  /** The payload updates for `scores`, those in `lost` having no effect; an update for an
      id without a point has none either. */
  function Rescored(index: map<Id, Point>, scores: map<Id, Milli>, lost: set<Id>): map<Id, Point> {
    map id | id in index ::
      if id in scores && id !in lost then index[id].(importance := scores[id]) else index[id]
  }

  /** `lost` are the ids whose payload update does not take effect. */
  function DecayedScores(s: State, lost: set<Id>, commit: Call): State {
    State(if commit.Lands() then Aged(s.db) else s.db,
          Rescored(s.index, EpisodicScores(s.db) + SemanticScores(s.db), lost), s.nextId)
  }

  lemma RescoringTwice(index: map<Id, Point>, first: map<Id, Milli>, second: map<Id, Milli>, lost: set<Id>)
    ensures Rescored(Rescored(index, first, lost), second, lost) == Rescored(index, first + second, lost)
  {
  }

  lemma RescoringOneMore(index: map<Id, Point>, scores: map<Id, Milli>, rows: set<Id>, id: Id, lost: set<Id>)
    requires id in rows && id in scores
    ensures Rescored(Rescored(index, scores - rows, lost), map[id := scores[id]], lost)
         == Rescored(index, scores - (rows - {id}), lost)
  {
    RescoringTwice(index, scores - rows, map[id := scores[id]], lost);
    var sent, next := (scores - rows) + map[id := scores[id]], scores - (rows - {id});
    assert sent.Keys == next.Keys;
    assert sent == next;
  }

  method UpdatePayloadImportance(st: Stores, id: Id, importance: Milli, lost: set<Id>)
    modifies st`index
    ensures st.index == Rescored(old(st.index), map[id := importance], lost)
  {
    if id !in lost && id in st.index {
      st.index := st.index[id := st.index[id].(importance := importance)];
    }
  }

  function EpisodicExcept(db: Tables, pending: set<Id>): map<Id, EpisodicMemory> {
    map id | id in db.episodic :: if id in pending then db.episodic[id] else AgedEpisodic(db.episodic[id])
  }

  lemma AgeEpisodic(db: Tables, pending: set<Id>, id: Id)
    requires pending <= EpisodicScores(db).Keys && id in pending
    ensures EpisodicExcept(db, pending - {id})
         == EpisodicExcept(db, pending)[id := db.episodic[id].(importance := EpisodicScores(db)[id])]
  {
  }

  method DecayEpisodic(st: Stores, lost: set<Id>)
    modifies st`session, st`index
    ensures st.session == old(st.session).(episodic := Aged(old(st.session)).episodic)
    ensures st.index == Rescored(old(st.index), EpisodicScores(old(st.session)), lost)
  {
    ghost var db, index := st.session, st.index;
    ghost var scores := EpisodicScores(db);
    var rows := set id | id in st.session.episodic && !st.session.episodic[id].superseded;
    assert rows == scores.Keys;
    assert st.session.episodic == EpisodicExcept(db, rows);
    assert st.index == Rescored(index, scores - rows, lost);
    while rows != {}
      invariant rows <= scores.Keys
      invariant st.session == db.(episodic := EpisodicExcept(db, rows))
      invariant st.index == Rescored(index, scores - rows, lost)
      decreases rows
    {
      var id :| id in rows;
      var row := st.session.episodic[id];
      row := row.(importance := Decayed(row.importance));
      AgeEpisodic(db, rows, id);
      RescoringOneMore(index, scores, rows, id, lost);
      st.session := st.session.(episodic := st.session.episodic[id := row]);
      UpdatePayloadImportance(st, id, row.importance, lost);
      rows := rows - {id};
    }
    assert scores - {} == scores;
    assert EpisodicExcept(db, {}) == Aged(db).episodic;
  }

  function SemanticExcept(db: Tables, pending: set<Id>): map<Id, SemanticMemory> {
    map id | id in db.semantic :: if id in pending then db.semantic[id] else AgedSemantic(db.semantic[id])
  }

  lemma AgeSemantic(db: Tables, pending: set<Id>, id: Id)
    requires pending <= SemanticScores(db).Keys && id in pending
    ensures SemanticExcept(db, pending - {id})
         == SemanticExcept(db, pending)[id := db.semantic[id].(importance := SemanticScores(db)[id])]
  {
  }

  method DecaySemantic(st: Stores, lost: set<Id>)
    modifies st`session, st`index
    ensures st.session == old(st.session).(semantic := Aged(old(st.session)).semantic)
    ensures st.index == Rescored(old(st.index), SemanticScores(old(st.session)), lost)
  {
    ghost var db, index := st.session, st.index;
    ghost var scores := SemanticScores(db);
    var rows := set id | id in st.session.semantic && !st.session.semantic[id].superseded;
    assert rows == scores.Keys;
    assert st.session.semantic == SemanticExcept(db, rows);
    assert st.index == Rescored(index, scores - rows, lost);
    while rows != {}
      invariant rows <= scores.Keys
      invariant st.session == db.(semantic := SemanticExcept(db, rows))
      invariant st.index == Rescored(index, scores - rows, lost)
      decreases rows
    {
      var id :| id in rows;
      var row := st.session.semantic[id];
      row := row.(importance := Decayed(row.importance));
      AgeSemantic(db, rows, id);
      RescoringOneMore(index, scores, rows, id, lost);
      st.session := st.session.(semantic := st.session.semantic[id := row]);
      UpdatePayloadImportance(st, id, row.importance, lost);
      rows := rows - {id};
    }
    assert scores - {} == scores;
    assert SemanticExcept(db, {}) == Aged(db).semantic;
  }

  method DecayImportanceScores(st: Stores, lost: set<Id>, commit: Call) returns (ok: bool)
    requires st.Idle()
    modifies st
    ensures st.Idle() && st.Now() == DecayedScores(old(st.Now()), lost, commit)
    ensures ok == !commit.Raises()
  {
    ghost var db, index := st.committed, st.index;
    DecayEpisodic(st, lost);
    assert SemanticScores(st.session) == SemanticScores(db);
    DecaySemantic(st, lost);
    RescoringTwice(index, EpisodicScores(db), SemanticScores(db), lost);
    SameLinksKeepKeys(db, st.session);
    ok := st.Commit(commit);
  }

  // --- How long a memory is kept ---------------------------------------------------------------

  /** A committed sweep keeps a memory exactly when its tenant has no row or no retention limit, or
      the memory is no more than that many days old; what it keeps, it keeps as it was, and its
      point too. Facts stay; a source that goes leaves none behind. */
  lemma SweepKeepsWhatIsDue(s: State, now: Time, lost: set<TenantId>, commit: Call)
    requires commit.Lands()
    ensures var s', rows := Swept(s, now, lost, commit), s.db.episodic;
      && s'.db.tenants == s.db.tenants && s'.db.contradictions == s.db.contradictions
      && s'.db.compressions == s.db.compressions
      && (forall id :: id in s'.db.episodic ==> id in rows && s'.db.episodic[id] == rows[id])
      && (forall id :: id in rows ==>
            var t := rows[id].tenant;
            id in s'.db.episodic <==>
              t !in s.db.tenants || s.db.tenants[t].retentionDays == 0
              || now - rows[id].createdAt <= s.db.tenants[t].retentionDays * 86_400_000_000)
      && s'.db.semantic.Keys == s.db.semantic.Keys
      && (forall id :: id in s.db.semantic ==>
            var row := s.db.semantic[id];
            s'.db.semantic[id]
            == if row.source != None && row.source.value in rows && row.source.value !in s'.db.episodic
               then row.(source := None) else row)
  {
  }

  /** Of the points, a sweep deletes those of the memories that are due, commit or not, for the
      tenants whose call reached the index; no other. */
  lemma SweepDropsPointsDue(s: State, now: Time, lost: set<TenantId>, commit: Call)
    ensures var s' := Swept(s, now, lost, commit);
      && (forall id :: id in s'.index ==> id in s.index && s'.index[id] == s.index[id])
      && (forall id :: id in s.index && id !in s'.index ==>
            && id in s.db.episodic && s.db.episodic[id].tenant !in lost && s.db.episodic[id].tenant in s.db.tenants
            && var days := s.db.tenants[s.db.episodic[id].tenant].retentionDays;
               days > 0 && now - s.db.episodic[id].createdAt > days * 86_400_000_000)
      && (forall id :: id in s.index && id in s.db.episodic && s.db.episodic[id].tenant !in lost
                       && s.db.episodic[id].tenant in s.db.tenants
                       && s.db.tenants[s.db.episodic[id].tenant].retentionDays > 0
                       && now - s.db.episodic[id].createdAt
                          > s.db.tenants[s.db.episodic[id].tenant].retentionDays * 86_400_000_000
                       ==> id !in s'.index)
      && (!commit.Lands() ==> s'.db == s.db)
  {
  }

  /** A decay day leaves rows as they were but for their importance. */
  lemma DecayTouchesImportanceOnly(s: State, lost: set<Id>, commit: Call)
    ensures var s' := DecayedScores(s, lost, commit);
      && s'.index.Keys == s.index.Keys
      && (forall id :: id in s.index ==>
            var point := s.index[id];
            s'.index[id] ==
              if id in lost then point
              else if id in s.db.semantic && !s.db.semantic[id].superseded
              then point.(importance := Decayed(s.db.semantic[id].importance))
              else if id in s.db.episodic && !s.db.episodic[id].superseded
              then point.(importance := Decayed(s.db.episodic[id].importance))
              else point)
      && s'.db == s.db.(episodic := s'.db.episodic, semantic := s'.db.semantic)
      && s'.db.episodic.Keys == s.db.episodic.Keys && s'.db.semantic.Keys == s.db.semantic.Keys
      && (forall id :: id in s.db.episodic ==>
            var row := s.db.episodic[id];
            s'.db.episodic[id]
            == if commit.Lands() && !row.superseded then row.(importance := Decayed(row.importance)) else row)
      && (forall id :: id in s.db.semantic ==>
            var row := s.db.semantic[id];
            s'.db.semantic[id]
            == if commit.Lands() && !row.superseded then row.(importance := Decayed(row.importance)) else row)
      && (!commit.Lands() ==> s'.db == s.db)
  {
  }
}
