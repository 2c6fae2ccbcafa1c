/** Retrieval: the index's hits are hydrated from the rows, scored, rounded, sorted and cut,
    and every returned memory gains one access. */
module MemoryRead {
  import opened Wrappers
  import opened Rounding
  import opened Sorting
  import opened MemoryModel
  import opened VectorSearch

  /** Stands for the exponential; what the theorems use of it is `IsDecayCurve`. */
  type Curve = real -> real

  ghost predicate IsDecayCurve(exp: Curve) {
    forall x, y :: x <= y <= 0.0 ==> 0.0 < exp(x) <= exp(y) <= 1.0
  }

  datatype Query = Query(
    tenant: TenantId, user: string, kind: Option<MemoryType>, limit: nat, similar: seq<Id>, now: Time)

  /** The part of a row that retrieval reads. */
  datatype Record = Record(content: string, importance: Milli, accessCount: nat, createdAt: Time)

  /** One entry of the list that is sorted; `score` counts ten-thousandths. */
  datatype Candidate = Candidate(id: Id, kind: MemoryType, rank: nat, score: int)

  datatype MemoryResult = MemoryResult(
    id: Id, kind: MemoryType, content: string, importance: Milli, score: int, createdAt: Time)

  function FetchLimit(limit: nat): nat {
    if 3 * limit < 100 then 3 * limit else 100
  }

  function HitsFor(index: map<Id, Point>, q: Query): seq<Id> {
    Search(index, q.similar, q.tenant, q.user, q.kind, FetchLimit(q.limit))
  }

  /** The tenant's row behind a point, unless it is a superseded fact. */
  function Hydrate(db: Tables, tenant: TenantId, id: Id, kind: MemoryType): Option<Record> {
    match kind
    case Episodic =>
      if id in db.episodic && db.episodic[id].tenant == tenant then
        var m := db.episodic[id];
        Some(Record(m.content, m.importance, m.accessCount, m.createdAt))
      else None
    case Semantic =>
      if id in db.semantic && db.semantic[id].tenant == tenant && db.semantic[id].supersededBy.None? then
        var m := db.semantic[id];
        Some(Record(m.content, m.importance, m.accessCount, m.createdAt))
      else None
  }

  // --- Scoring -------------------------------------------------------------------------

  function AgeInDays(now: Time, createdAt: Time): (age: real)
    ensures age >= 0.01
  {
    var days := (now - createdAt) as real / 86_400_000_000.0;
    if days < 0.01 then 0.01 else days
  }

  function Stability(accessCount: nat): (days: real)
    ensures days >= 30.0
  {
    30.0 * (1 + accessCount) as real
  }

  function Retrievability(exp: Curve, age: real, accessCount: nat): real {
    exp(-age / Stability(accessCount))
  }

  /** round(1 / (60 + rank + 1) + 0.4 * retrievability + 0.3 * importance, 4) */
  function Composite(rank: nat, retrievability: real, importance: Milli): int {
    RoundHalfEven(10000.0 * (1.0 / (61 + rank) as real + 0.4 * retrievability + 0.3 * (importance as real / 1000.0)))
  }

  /** How retrievable the memory is at the time. */
  function RetrievabilityOf(exp: Curve, now: Time, m: Record): real {
    Retrievability(exp, AgeInDays(now, m.createdAt), m.accessCount)
  }

  function ScoreOf(exp: Curve, now: Time, rank: nat, m: Record): int {
    Composite(rank, RetrievabilityOf(exp, now, m), m.importance)
  }

  // --- Ranking -------------------------------------------------------------------------

  /** The candidates among the first `n` hits. */
  function Candidates(db: Tables, index: map<Id, Point>, q: Query, exp: Curve, hits: seq<Id>, n: nat): seq<Candidate>
    requires n <= |hits| && forall id :: id in hits ==> id in index
  {
    if n == 0 then []
    else
      var before := Candidates(db, index, q, exp, hits, n - 1);
      var id := hits[n - 1];
      match Hydrate(db, q.tenant, id, index[id].kind)
      case None => before
      case Some(m) => before + [Candidate(id, index[id].kind, n - 1, ScoreOf(exp, q.now, n - 1, m))]
  }

  function AllCandidates(db: Tables, index: map<Id, Point>, q: Query, exp: Curve): seq<Candidate> {
    var hits := HitsFor(index, q);
    Candidates(db, index, q, exp, hits, |hits|)
  }

  /** Best score first. */
  const BY_SCORE: Candidate -> int := (c: Candidate) => -c.score
  const BY_RANK: Candidate -> int := (c: Candidate) => c.rank as int

  function Top(candidates: seq<Candidate>, limit: nat): seq<Candidate> {
    var sorted := SortBy(BY_SCORE, candidates);
    if |sorted| <= limit then sorted else sorted[..limit]
  }

  function Returned(db: Tables, index: map<Id, Point>, q: Query, exp: Curve): seq<Candidate> {
    Top(AllCandidates(db, index, q, exp), q.limit)
  }

  function IdsOf(cs: seq<Candidate>, kind: MemoryType): set<Id> {
    set c | c in cs && c.kind == kind :: c.id
  }

  /** One more access for each of the given candidates. */
  function Accessed(db: Tables, cs: seq<Candidate>): Tables {
    db.(
      episodic := map id | id in db.episodic ::
        if id in IdsOf(cs, Episodic)
        then db.episodic[id].(accessCount := db.episodic[id].accessCount + 1) else db.episodic[id],
      semantic := map id | id in db.semantic ::
        if id in IdsOf(cs, Semantic)
        then db.semantic[id].(accessCount := db.semantic[id].accessCount + 1) else db.semantic[id])
  }

  function Searched(s: State, q: Query, exp: Curve, commit: Call): State {
    if commit.Lands() then s.(db := Accessed(s.db, Returned(s.db, s.index, q, exp))) else s
  }

  function ResultFor(db: Tables, tenant: TenantId, c: Candidate): MemoryResult
    requires Hydrate(db, tenant, c.id, c.kind).Some?
  {
    var m := Hydrate(db, tenant, c.id, c.kind).value;
    MemoryResult(c.id, c.kind, m.content, m.importance, c.score, m.createdAt)
  }

  /** Every entry is a hydrated hit, scored. */
  ghost predicate AreCandidates(db: Tables, index: map<Id, Point>, q: Query, exp: Curve, hits: seq<Id>,
                                top: seq<Candidate>)
    requires forall id :: id in hits ==> id in index
  {
    forall c :: c in top ==>
      && c.rank < |hits| && c.id == hits[c.rank] && c.kind == index[c.id].kind
      && Hydrate(db, q.tenant, c.id, c.kind).Some?
      && c.score == ScoreOf(exp, q.now, c.rank, Hydrate(db, q.tenant, c.id, c.kind).value)
  }

  lemma {:induction false} CandidatesAreHits(db: Tables, index: map<Id, Point>, q: Query, exp: Curve, hits: seq<Id>,
                                             n: nat)
    requires n <= |hits| && forall id :: id in hits ==> id in index
    ensures AreCandidates(db, index, q, exp, hits, Candidates(db, index, q, exp, hits, n))
    ensures forall c :: c in Candidates(db, index, q, exp, hits, n) ==> c.rank < n
  {
    if n > 0 { CandidatesAreHits(db, index, q, exp, hits, n - 1); }
  }

  lemma {:induction false} CandidatesAscend(db: Tables, index: map<Id, Point>, q: Query, exp: Curve, hits: seq<Id>,
                                            n: nat)
    requires n <= |hits| && forall id :: id in hits ==> id in index
    ensures Ascending(BY_RANK, Candidates(db, index, q, exp, hits, n))
  {
    if n > 0 {
      CandidatesAscend(db, index, q, exp, hits, n - 1);
      CandidatesAreHits(db, index, q, exp, hits, n - 1);
      match Hydrate(db, q.tenant, hits[n - 1], index[hits[n - 1]].kind)
      case None =>
      case Some(m) =>
        AscendingOneMore(Candidates(db, index, q, exp, hits, n - 1),
                         Candidate(hits[n - 1], index[hits[n - 1]].kind, n - 1, ScoreOf(exp, q.now, n - 1, m)));
    }
  }

  lemma {:induction false} HydratedHitIsCandidate(db: Tables, index: map<Id, Point>, q: Query, exp: Curve,
                                                  hits: seq<Id>, n: nat, r: nat)
    requires r < n <= |hits| && forall id :: id in hits ==> id in index
    requires Hydrate(db, q.tenant, hits[r], index[hits[r]].kind).Some?
    ensures exists c :: c in Candidates(db, index, q, exp, hits, n) && c.rank == r
  {
    var cs := Candidates(db, index, q, exp, hits, n);
    if r == n - 1 {
      assert cs[|cs| - 1] in cs && cs[|cs| - 1].rank == r;
    } else {
      HydratedHitIsCandidate(db, index, q, exp, hits, n - 1, r);
      var c :| c in Candidates(db, index, q, exp, hits, n - 1) && c.rank == r;
      assert c in cs;
    }
  }

  /** What the candidate list is, without the recursion: one entry per hydrated hit. */
  lemma CandidatesAreHydratedHits(db: Tables, index: map<Id, Point>, q: Query, exp: Curve, hits: seq<Id>, n: nat)
    requires n <= |hits| && forall id :: id in hits ==> id in index
    ensures var cs := Candidates(db, index, q, exp, hits, n);
      && Ascending(BY_RANK, cs)
      && (forall c :: c in cs ==> c.rank < n)
      && AreCandidates(db, index, q, exp, hits, cs)
      && (forall r :: 0 <= r < n && Hydrate(db, q.tenant, hits[r], index[hits[r]].kind).Some?
                      ==> exists c :: c in cs && c.rank == r)
  {
    CandidatesAscend(db, index, q, exp, hits, n);
    CandidatesAreHits(db, index, q, exp, hits, n);
    forall r | 0 <= r < n && Hydrate(db, q.tenant, hits[r], index[hits[r]].kind).Some?
      ensures exists c :: c in Candidates(db, index, q, exp, hits, n) && c.rank == r
    {
      HydratedHitIsCandidate(db, index, q, exp, hits, n, r);
    }
  }

  lemma AscendingOneMore(cs: seq<Candidate>, c: Candidate)
    requires Ascending(BY_RANK, cs) && forall d :: d in cs ==> d.rank < c.rank
    ensures Ascending(BY_RANK, cs + [c])
  {
  }

  /** The selection: a sorted prefix of the candidates that beats everything left out. */
  lemma TopIsBest(cs: seq<Candidate>, limit: nat)
    requires Ascending(BY_RANK, cs)
    ensures var top := Top(cs, limit);
      && |top| == (if |cs| < limit then |cs| else limit)
      && InOrder(BY_SCORE, BY_RANK, top)
      && (forall c :: c in top ==> c in cs)
      && (forall c, t :: c in cs && c !in top && t in top ==> Ahead(BY_SCORE, BY_RANK, t, c))
  {
    var sorted, top := SortBy(BY_SCORE, cs), Top(cs, limit);
    SortIsStable(BY_SCORE, BY_RANK, cs);
    SortKeepsElements(BY_SCORE, cs);
    assert forall i {:trigger sorted[i]} :: 0 <= i < |top| ==> top[i] == sorted[i];
    forall c | c in top ensures c in cs {
      assert c in multiset(sorted);
    }
    forall c, t | c in cs && c !in top && t in top ensures Ahead(BY_SCORE, BY_RANK, t, c) {
      assert c in multiset(cs);
      var j :| 0 <= j < |sorted| && sorted[j] == c;
      var i :| 0 <= i < |top| && top[i] == t;
      assert i < |top| <= j;
    }
  }

  /** Whatever the index holds, a search returns at most `limit` memories, all different,
      each a hit of the index that is a row of the tenant and not a superseded fact; they
      come best score first, equal scores in the index's order, and each of them comes
      before every hydrated hit left out. */
  lemma SearchContract(db: Tables, index: map<Id, Point>, q: Query, exp: Curve)
    ensures var all, top := AllCandidates(db, index, q, exp), Returned(db, index, q, exp);
      && |top| == (if |all| < q.limit then |all| else q.limit)
      && (forall i, j :: 0 <= i < j < |top| ==> top[i].id != top[j].id)
      && InOrder(BY_SCORE, BY_RANK, top)
      && (forall c :: c in top ==>
            && c.id in HitsFor(index, q) && c.kind == index[c.id].kind && index[c.id].user == q.user
            && Hydrate(db, q.tenant, c.id, c.kind).Some?)
      && (forall c, t :: c in all && c !in top && t in top ==> Ahead(BY_SCORE, BY_RANK, t, c))
  {
    var hits := HitsFor(index, q);
    var top := Returned(db, index, q, exp);
    CandidatesAreHydratedHits(db, index, q, exp, hits, |hits|);
    TopIsBest(AllCandidates(db, index, q, exp), q.limit);
    forall i, j | 0 <= i < j < |top| ensures top[i].id != top[j].id {
      assert top[i] in top && top[j] in top;
      assert Ahead(BY_SCORE, BY_RANK, top[i], top[j]);
      assert top[i].rank != top[j].rank;
    }
  }

  method IncrementAccessCount(st: Stores, c: Candidate)
    modifies st`session
    ensures st.session == Accessed(old(st.session), [c])
  {
    match c.kind
    case Episodic =>
      if c.id in st.session.episodic {
        var row := st.session.episodic[c.id];
        st.session := st.session.(
          episodic := st.session.episodic[c.id := row.(accessCount := row.accessCount + 1)]);
      }
    case Semantic =>
      if c.id in st.session.semantic {
        var row := st.session.semantic[c.id];
        st.session := st.session.(
          semantic := st.session.semantic[c.id := row.(accessCount := row.accessCount + 1)]);
      }
  }

  lemma AccessOneMore(db: Tables, cs: seq<Candidate>, n: nat)
    requires n < |cs| && forall i, j :: 0 <= i < j < |cs| ==> cs[i].id != cs[j].id
    ensures Accessed(Accessed(db, cs[..n]), [cs[n]]) == Accessed(db, cs[..n + 1])
  {
    forall kind: MemoryType
      ensures IdsOf(cs[..n + 1], kind) == IdsOf(cs[..n], kind) + IdsOf([cs[n]], kind)
    {
      assert cs[..n + 1] == cs[..n] + [cs[n]];
    }
    assert cs[n].id !in IdsOf(cs[..n], Episodic) && cs[n].id !in IdsOf(cs[..n], Semantic);
    var twice, once := Accessed(Accessed(db, cs[..n]), [cs[n]]), Accessed(db, cs[..n + 1]);
    assert twice.episodic == once.episodic;
    assert twice.semantic == once.semantic;
  }

  /** Hydrate and score the hits, in the index's order. */
  method ScoreHits(st: Stores, q: Query, exp: Curve, hits: seq<Id>) returns (scored: seq<Candidate>)
    requires forall id :: id in hits ==> id in st.index
    ensures scored == Candidates(st.session, st.index, q, exp, hits, |hits|)
  {
    scored := [];
    for rank := 0 to |hits|
      invariant scored == Candidates(st.session, st.index, q, exp, hits, rank)
    {
      var id := hits[rank];
      var record := Hydrate(st.session, q.tenant, id, st.index[id].kind);
      if record.None? { continue; }
      var m := record.value;
      var retrievability := Retrievability(exp, AgeInDays(q.now, m.createdAt), m.accessCount);
      scored := scored + [Candidate(id, st.index[id].kind, rank, Composite(rank, retrievability, m.importance))];
    }
  }

  /** Format the chosen candidates and count the access to each. */
  method Deliver(st: Stores, tenant: TenantId, top: seq<Candidate>) returns (r: seq<MemoryResult>)
    requires forall i, j :: 0 <= i < j < |top| ==> top[i].id != top[j].id
    requires forall c :: c in top ==> Hydrate(st.session, tenant, c.id, c.kind).Some?
    modifies st`session
    ensures st.session == Accessed(old(st.session), top)
    ensures |r| == |top| && forall i :: 0 <= i < |r| ==>
      top[i] in top && r[i] == ResultFor(old(st.session), tenant, top[i])
  {
    ghost var db := st.session;
    r := [];
    AccessNone(db);
    for i := 0 to |top|
      invariant st.session == Accessed(db, top[..i])
      invariant |r| == i && forall k :: 0 <= k < i ==> top[k] in top && r[k] == ResultFor(db, tenant, top[k])
    {
      var c := top[i];
      AccessLeavesOthers(db, tenant, top, i);
      r := r + [ResultFor(st.session, tenant, c)];
      IncrementAccessCount(st, c);
      AccessOneMore(db, top, i);
    }
    assert top[..|top|] == top;
  }

  lemma AccessNone(db: Tables)
    ensures Accessed(db, []) == db
  {
    assert Accessed(db, []).episodic == db.episodic;
    assert Accessed(db, []).semantic == db.semantic;
  }

  lemma AccessLeavesOthers(db: Tables, tenant: TenantId, cs: seq<Candidate>, n: nat)
    requires n < |cs| && forall i, j :: 0 <= i < j < |cs| ==> cs[i].id != cs[j].id
    ensures Hydrate(Accessed(db, cs[..n]), tenant, cs[n].id, cs[n].kind) == Hydrate(db, tenant, cs[n].id, cs[n].kind)
  {
    assert cs[n].id !in IdsOf(cs[..n], cs[n].kind);
  }

  method SearchMemories(st: Stores, q: Query, exp: Curve, commit: Call) returns (r: seq<MemoryResult>, ok: bool)
    requires st.Idle()
    modifies st
    ensures st.Idle() && st.Now() == Searched(old(st.Now()), q, exp, commit)
    ensures ok == !commit.Raises()
    ensures var top := Returned(old(st.committed), old(st.index), q, exp);
      |r| == |top| && forall i :: 0 <= i < |r| ==>
        Hydrate(old(st.committed), q.tenant, top[i].id, top[i].kind).Some?
        && r[i] == ResultFor(old(st.committed), q.tenant, top[i])
  {
    var hits := HitsFor(st.index, q);
    var scored := ScoreHits(st, q, exp, hits);
    var top := Top(scored, q.limit);
    SearchContract(st.committed, st.index, q, exp);
    r := Deliver(st, q.tenant, top);
    SameLinksKeepKeys(st.committed, st.session);
    ok := st.Commit(commit);
  }

  // --- Bounds on the score -------------------------------------------------------------

  lemma RankTermBounds(rank: nat)
    ensures 0.0 < 1.0 / (61 + rank) as real <= 1.0 / 61.0
    ensures rank < 100 ==> 1.0 / 160.0 <= 1.0 / (61 + rank) as real
  {
    QuotientOrder(1.0, 61.0, (61 + rank) as real);
    if rank < 100 { QuotientOrder(1.0, (61 + rank) as real, 160.0); }
  }

  lemma QuotientOrder(x: real, small: real, large: real)
    requires x > 0.0 && 0.0 < small <= large
    ensures 0.0 < x / large <= x / small
  {
    assert x / small - x / large == x * (large - small) / (small * large);
  }

  /** Every composite score lies in [0, 0.7164]. */
  lemma CompositeInRange(rank: nat, retrievability: real, importance: Milli)
    requires 0.0 <= retrievability <= 1.0 && importance <= 1000
    ensures 0 <= Composite(rank, retrievability, importance) <= 7164
  {
    RankTermBounds(rank);
  }

  /** Between two fetched candidates equally retrievable, an importance gap of 0.035
      settles the order, whatever their ranks. */
  lemma ImportanceGapDecides(rank: nat, rank': nat, retrievability: real, high: Milli, low: Milli)
    requires rank < 100 && rank' < 100 && high >= low + 35
    ensures Composite(rank, retrievability, high) > Composite(rank', retrievability, low)
  {
    RankTermBounds(rank);
    RankTermBounds(rank');
    var x := 10000.0 * (1.0 / (61 + rank) as real + 0.4 * retrievability + 0.3 * (high as real / 1000.0));
    var y := 10000.0 * (1.0 / (61 + rank') as real + 0.4 * retrievability + 0.3 * (low as real / 1000.0));
    assert x - y > 1.0;
  }

  lemma ScoreGap(exp: Curve, now: Time, rank: nat, rank': nat, m: Record, n: Record)
    requires rank < 100 && rank' < 100
    requires RetrievabilityOf(exp, now, m) == RetrievabilityOf(exp, now, n) && m.importance >= n.importance + 35
    ensures ScoreOf(exp, now, rank, m) > ScoreOf(exp, now, rank', n)
  {
    ImportanceGapDecides(rank, rank', RetrievabilityOf(exp, now, m), m.importance, n.importance);
  }

  lemma CandidateIsScored(db: Tables, index: map<Id, Point>, q: Query, exp: Curve, c: Candidate)
    requires c in AllCandidates(db, index, q, exp)
    ensures c.rank < 100 && Hydrate(db, q.tenant, c.id, c.kind).Some?
    ensures c.score == ScoreOf(exp, q.now, c.rank, Hydrate(db, q.tenant, c.id, c.kind).value)
  {
    var hits := HitsFor(index, q);
    CandidatesAreHits(db, index, q, exp, hits, |hits|);
  }

  /** In the ranking itself: of two candidates equally retrievable, the one that is more
      important by 0.035 comes first, and is returned if the other is. */
  lemma ImportanceGapOrdersCandidates(db: Tables, index: map<Id, Point>, q: Query, exp: Curve,
                                      c: Candidate, d: Candidate)
    requires c in AllCandidates(db, index, q, exp) && d in AllCandidates(db, index, q, exp)
    requires Hydrate(db, q.tenant, c.id, c.kind).Some? && Hydrate(db, q.tenant, d.id, d.kind).Some?
    requires var m, n := Hydrate(db, q.tenant, c.id, c.kind).value, Hydrate(db, q.tenant, d.id, d.kind).value;
      RetrievabilityOf(exp, q.now, m) == RetrievabilityOf(exp, q.now, n) && m.importance >= n.importance + 35
    ensures Ahead(BY_SCORE, BY_RANK, c, d)
    ensures d in Returned(db, index, q, exp) ==> c in Returned(db, index, q, exp)
  {
    CandidateIsScored(db, index, q, exp, c);
    CandidateIsScored(db, index, q, exp, d);
    ScoreGap(exp, q.now, c.rank, d.rank, Hydrate(db, q.tenant, c.id, c.kind).value,
             Hydrate(db, q.tenant, d.id, d.kind).value);
    if d in Returned(db, index, q, exp) { HigherScoreIsReturned(db, index, q, exp, c, d); }
  }

  lemma HigherScoreIsReturned(db: Tables, index: map<Id, Point>, q: Query, exp: Curve, c: Candidate, d: Candidate)
    requires c in AllCandidates(db, index, q, exp) && d in Returned(db, index, q, exp) && c.score > d.score
    ensures c in Returned(db, index, q, exp)
  {
    var hits := HitsFor(index, q);
    CandidatesAscend(db, index, q, exp, hits, |hits|);
    TopIsBest(AllCandidates(db, index, q, exp), q.limit);
    assert !Ahead(BY_SCORE, BY_RANK, d, c);
  }

  /** The gap settles the order of two fetched candidates, equally retrievable, of the importances
      that rows hold: decay never goes below 0.05. */
  predicate Decides(gap: nat, rank: nat, rank': nat, retrievability: real, low: Milli) {
    rank < 100 && rank' < 100 && 0.0 <= retrievability <= 1.0 && 50 <= low && low + gap <= 1000
    ==> Composite(rank, retrievability, low + gap) > Composite(rank', retrievability, low)
  }

  ghost predicate GapDecides(gap: nat) {
    forall rank, rank', retrievability, low :: Decides(gap, rank, rank', retrievability, low)
  }

  /** A gap of 0.034 does not: the last fetched candidate can tie with the first. */
  lemma SmallerGapTies()
    ensures Composite(99, 0.000225, 84) == Composite(0, 0.000225, 50)
  {
    RoundIsDetermined(10000.0 * (1.0 / 160.0 + 0.4 * 0.000225 + 0.3 * (84 as real / 1000.0)), 315);
    RoundIsDetermined(10000.0 * (1.0 / 61.0 + 0.4 * 0.000225 + 0.3 * (50 as real / 1000.0)), 315);
  }

  lemma ImportanceKeepsOrder(rank: nat, retrievability: real, low: Milli, high: Milli)
    requires low <= high
    ensures Composite(rank, retrievability, low) <= Composite(rank, retrievability, high)
  {
    var rest := 1.0 / (61 + rank) as real + 0.4 * retrievability;
    RoundKeepsOrder(10000.0 * (rest + 0.3 * (low as real / 1000.0)), 10000.0 * (rest + 0.3 * (high as real / 1000.0)));
  }

  lemma SmallerGapDoesNotDecide(gap: nat)
    requires gap < 35
    ensures !Decides(gap, 99, 0, 0.000225, 50)
  {
    SmallerGapTies();
    ImportanceKeepsOrder(99, 0.000225, 50 + gap, 84);
  }

  lemma LargeGapDecides(gap: nat, rank: nat, rank': nat, retrievability: real, low: Milli)
    requires gap >= 35
    ensures Decides(gap, rank, rank', retrievability, low)
  {
    if rank < 100 && rank' < 100 { ImportanceGapDecides(rank, rank', retrievability, low + gap, low); }
  }

  /** The gaps that decide at all fetched ranks, of those that occur, are exactly those of 0.035 and more. */
  lemma GapDecidesIff(gap: nat)
    requires gap <= 950
    ensures GapDecides(gap) <==> gap >= 35
  {
    if gap < 35 {
      SmallerGapDoesNotDecide(gap);
    } else {
      forall rank, rank', retrievability, low ensures Decides(gap, rank, rank', retrievability, low) {
        LargeGapDecides(gap, rank, rank', retrievability, low);
      }
    }
  }

  lemma CompositeKeepsOrder(rank: nat, retrievability: real, retrievability': real, importance: Milli)
    requires retrievability <= retrievability'
    ensures Composite(rank, retrievability, importance) <= Composite(rank, retrievability', importance)
  {
    var rankTerm, importanceTerm := 1.0 / (61 + rank) as real, 0.3 * (importance as real / 1000.0);
    RoundKeepsOrder(10000.0 * (rankTerm + 0.4 * retrievability + importanceTerm),
                    10000.0 * (rankTerm + 0.4 * retrievability' + importanceTerm));
  }

  /** An access never lowers a memory's retrievability. */
  lemma AccessRaisesRetrievability(exp: Curve, age: real, accessCount: nat)
    requires IsDecayCurve(exp) && age > 0.0
    ensures Retrievability(exp, age, accessCount) <= Retrievability(exp, age, accessCount + 1)
  {
    var before, after := Stability(accessCount), Stability(accessCount + 1);
    QuotientOrder(age, before, after);
    assert -age / before == -(age / before) && -age / after == -(age / after);
  }

  /** An access never lowers a memory's score. */
  lemma AccessRaisesScore(exp: Curve, now: Time, rank: nat, m: Record)
    requires IsDecayCurve(exp)
    ensures ScoreOf(exp, now, rank, m.(accessCount := m.accessCount + 1)) >= ScoreOf(exp, now, rank, m)
  {
    var age := AgeInDays(now, m.createdAt);
    AccessRaisesRetrievability(exp, age, m.accessCount);
    CompositeKeepsOrder(rank, Retrievability(exp, age, m.accessCount), Retrievability(exp, age, m.accessCount + 1),
                        m.importance);
  }

  // --- Feedback ------------------------------------------------------------------------

  /** The same hits later: nobody's score fell, and only the chosen ones may have risen. */
  ghost predicate Favours(cs: seq<Candidate>, later: seq<Candidate>, chosen: seq<Candidate>) {
    |later| == |cs| && forall i {:trigger later[i]} {:trigger cs[i]} :: 0 <= i < |cs| ==>
      && later[i].id == cs[i].id && later[i].kind == cs[i].kind && later[i].rank == cs[i].rank
      && (if cs[i] in chosen then later[i].score >= cs[i].score else later[i].score == cs[i].score)
  }

  function RanksOf(cs: seq<Candidate>): set<nat> {
    set c | c in cs :: c.rank
  }

  lemma {:induction false} DistinctRanks(cs: seq<Candidate>)
    requires forall i, j :: 0 <= i < j < |cs| ==> cs[i].rank != cs[j].rank
    ensures |RanksOf(cs)| == |cs|
  {
    if cs != [] {
      var init := cs[..|cs| - 1];
      DistinctRanks(init);
      assert cs == init + [cs[|cs| - 1]];
      assert RanksOf(cs) == RanksOf(init) + {cs[|cs| - 1].rank};
      assert cs[|cs| - 1].rank !in RanksOf(init);
    }
  }

  lemma SameSizeSets(a: set<nat>, b: set<nat>)
    requires |a| == |b| && a != b
    ensures a - b != {} && b - a != {}
  {
    if a - b == {} {
      forall x | x in a ensures x in b { assert x !in a - b; }
      SubsetOfSameSize(a, b);
    }
    if b - a == {} {
      forall x | x in b ensures x in a { assert x !in b - a; }
      SubsetOfSameSize(b, a);
    }
  }

  lemma SubsetOfSameSize(a: set<nat>, b: set<nat>)
    requires a <= b && |a| == |b|
    ensures a == b
  {
    assert |b - a| == |b| - |a|;
  }

  lemma ByRank(cs: seq<Candidate>, later: seq<Candidate>, chosen: seq<Candidate>, c: Candidate) returns (l: Candidate)
    requires Favours(cs, later, chosen) && c in cs
    ensures l in later && l.rank == c.rank
    ensures if c in chosen then l.score >= c.score else l.score == c.score
  {
    var i :| 0 <= i < |cs| && cs[i] == c;
    l := later[i];
  }

  lemma RankIdentifies(cs: seq<Candidate>, c: Candidate, d: Candidate)
    requires Ascending(BY_RANK, cs) && c in cs && d in cs && c.rank == d.rank
    ensures c == d
  {
    var i :| 0 <= i < |cs| && cs[i] == c;
    var j :| 0 <= j < |cs| && cs[j] == d;
    assert i != j ==> BY_RANK(c) != BY_RANK(d);
  }

  /** A favoured candidate keeps its place ahead of one that was left out. */
  lemma StaysAhead(cs: seq<Candidate>, later: seq<Candidate>, top: seq<Candidate>, t: Candidate, t': Candidate,
                   c: Candidate, c': Candidate)
    requires Ascending(BY_RANK, later) && Favours(cs, later, top)
    requires t in cs && t in top && c in cs && c !in top && Ahead(BY_SCORE, BY_RANK, t, c)
    requires t' in later && t'.rank == t.rank && c' in later && c'.rank == c.rank
    ensures Ahead(BY_SCORE, BY_RANK, t', c') && !Ahead(BY_SCORE, BY_RANK, c', t')
  {
    var u := ByRank(cs, later, top, t);
    var d := ByRank(cs, later, top, c);
    RankIdentifies(later, t', u);
    RankIdentifies(later, c', d);
  }

  /** No newcomer displaces a chosen candidate. */
  lemma ChosenStays(cs: seq<Candidate>, later: seq<Candidate>, limit: nat, r: nat, r': nat)
    requires Ascending(BY_RANK, cs) && Ascending(BY_RANK, later)
    requires Favours(cs, later, Top(cs, limit))
    requires r in RanksOf(Top(cs, limit)) && r' in RanksOf(Top(later, limit)) - RanksOf(Top(cs, limit))
    ensures r in RanksOf(Top(later, limit))
  {
    var top, next := Top(cs, limit), Top(later, limit);
    TopIsBest(cs, limit);
    TopIsBest(later, limit);
    var t :| t in top && t.rank == r;
    var c' :| c' in next && c'.rank == r';
    var k :| 0 <= k < |later| && later[k] == c';
    var c := cs[k];
    assert c in cs && c.rank == r' && c !in top;
    var t' := ByRank(cs, later, top, t);
    StaysAhead(cs, later, top, t, t', c, c');
    assert t' in next;
  }

  /** A favoured selection is selected again. */
  lemma SelectionIsStable(cs: seq<Candidate>, later: seq<Candidate>, limit: nat)
    requires Ascending(BY_RANK, cs) && Ascending(BY_RANK, later)
    requires Favours(cs, later, Top(cs, limit))
    ensures RanksOf(Top(later, limit)) == RanksOf(Top(cs, limit))
  {
    var ranks, ranks' := RanksOf(Top(cs, limit)), RanksOf(Top(later, limit));
    TopHasDistinctRanks(cs, limit);
    TopHasDistinctRanks(later, limit);
    if ranks != ranks' {
      SameSizeSets(ranks, ranks');
      var r :| r in ranks - ranks';
      var r' :| r' in ranks' - ranks;
      ChosenStays(cs, later, limit, r, r');
      assert false;
    }
  }

  lemma TopHasDistinctRanks(cs: seq<Candidate>, limit: nat)
    requires Ascending(BY_RANK, cs)
    ensures |RanksOf(Top(cs, limit))| == (if |cs| < limit then |cs| else limit)
  {
    TopIsBest(cs, limit);
    var top := Top(cs, limit);
    forall i, j | 0 <= i < j < |top| ensures top[i].rank != top[j].rank {
      assert top[i] in cs && top[j] in cs && Ahead(BY_SCORE, BY_RANK, top[i], top[j]);
      if top[i].rank == top[j].rank { RankIdentifies(cs, top[i], top[j]); }
    }
    DistinctRanks(top);
  }

  lemma FavoursOneMore(cs: seq<Candidate>, later: seq<Candidate>, chosen: seq<Candidate>, c: Candidate, l: Candidate)
    requires Favours(cs, later, chosen)
    requires l.id == c.id && l.kind == c.kind && l.rank == c.rank
    requires if c in chosen then l.score >= c.score else l.score == c.score
    ensures Favours(cs + [c], later + [l], chosen)
  {
  }

  /** One hit before and after the accesses of `top` were counted. */
  lemma AccessLiftsHit(db: Tables, index: map<Id, Point>, q: Query, exp: Curve, hits: seq<Id>, r: nat,
                       top: seq<Candidate>, m: Record)
    requires IsDecayCurve(exp) && r < |hits| && hits[r] in index
    requires forall i, j :: 0 <= i < j < |hits| ==> hits[i] != hits[j]
    requires Hydrate(db, q.tenant, hits[r], index[hits[r]].kind) == Some(m)
    requires var c := Candidate(hits[r], index[hits[r]].kind, r, ScoreOf(exp, q.now, r, m));
      forall d :: d in top ==> d.rank < |hits| && d.id == hits[d.rank] && (d.rank == r ==> d == c)
    ensures var c := Candidate(hits[r], index[hits[r]].kind, r, ScoreOf(exp, q.now, r, m));
      var m' := Hydrate(Accessed(db, top), q.tenant, hits[r], index[hits[r]].kind);
      && m'.Some?
      && (if c in top then ScoreOf(exp, q.now, r, m'.value) >= c.score else ScoreOf(exp, q.now, r, m'.value) == c.score)
  {
    HydrateAccessed(db, top, q.tenant, hits[r], index[hits[r]].kind);
    AccessRaisesScore(exp, q.now, r, m);
    ChosenById(hits, top, Candidate(hits[r], index[hits[r]].kind, r, ScoreOf(exp, q.now, r, m)));
  }

  /** Counting the accesses of `top` favours `top`. */
  lemma {:induction false} AccessFavoursChosen(db: Tables, index: map<Id, Point>, q: Query, exp: Curve,
                                               hits: seq<Id>, n: nat, top: seq<Candidate>)
    requires IsDecayCurve(exp)
    requires n <= |hits| && forall id :: id in hits ==> id in index
    requires forall i, j :: 0 <= i < j < |hits| ==> hits[i] != hits[j]
    requires AreCandidates(db, index, q, exp, hits, top)
    ensures Favours(Candidates(db, index, q, exp, hits, n),
                    Candidates(Accessed(db, top), index, q, exp, hits, n), top)
  {
    if n > 0 {
      AccessFavoursChosen(db, index, q, exp, hits, n - 1, top);
      var id, kind := hits[n - 1], index[hits[n - 1]].kind;
      HydrateAccessed(db, top, q.tenant, id, kind);
      match Hydrate(db, q.tenant, id, kind)
      case None =>
      case Some(m) =>
        AccessLiftsHit(db, index, q, exp, hits, n - 1, top, m);
        var m' := Hydrate(Accessed(db, top), q.tenant, id, kind).value;
        FavoursOneMore(Candidates(db, index, q, exp, hits, n - 1),
                       Candidates(Accessed(db, top), index, q, exp, hits, n - 1),
                       top, Candidate(id, kind, n - 1, ScoreOf(exp, q.now, n - 1, m)),
                       Candidate(id, kind, n - 1, ScoreOf(exp, q.now, n - 1, m')));
    }
  }

  lemma HydrateAccessed(db: Tables, cs: seq<Candidate>, tenant: TenantId, id: Id, kind: MemoryType)
    ensures Hydrate(Accessed(db, cs), tenant, id, kind)
         == match Hydrate(db, tenant, id, kind)
            case None => None
            case Some(m) => Some(if id in IdsOf(cs, kind) then m.(accessCount := m.accessCount + 1) else m)
  {
  }

  lemma ChosenById(hits: seq<Id>, top: seq<Candidate>, c: Candidate)
    requires c.rank < |hits| && hits[c.rank] == c.id
    requires forall i, j :: 0 <= i < j < |hits| ==> hits[i] != hits[j]
    requires forall d :: d in top ==> d.rank < |hits| && d.id == hits[d.rank] && (d.rank == c.rank ==> d == c)
    ensures c.id in IdsOf(top, c.kind) <==> c in top
  {
    if c.id in IdsOf(top, c.kind) {
      var d :| d in top && d.kind == c.kind && d.id == c.id;
      assert hits[d.rank] == hits[c.rank];
    }
  }

  function IdsReturned(s: State, q: Query, exp: Curve): set<Id> {
    set c | c in Returned(s.db, s.index, q, exp) :: c.id
  }

  /** Searching again, at the same instant, finds the same memories. */
  lemma SearchFindsTheSame(s: State, q: Query, exp: Curve, commit: Call)
    requires IsDecayCurve(exp)
    ensures IdsReturned(Searched(s, q, exp, commit), q, exp) == IdsReturned(s, q, exp)
  {
    if commit.Lands() {
      var hits := HitsFor(s.index, q);
      var all := AllCandidates(s.db, s.index, q, exp);
      var top := Returned(s.db, s.index, q, exp);
      var db' := Accessed(s.db, top);
      CandidatesAreHydratedHits(s.db, s.index, q, exp, hits, |hits|);
      CandidatesAreHydratedHits(db', s.index, q, exp, hits, |hits|);
      TopIsBest(all, q.limit);
      TopIsBest(AllCandidates(db', s.index, q, exp), q.limit);
      AccessFavoursChosen(s.db, s.index, q, exp, hits, |hits|, top);
      SelectionIsStable(all, AllCandidates(db', s.index, q, exp), q.limit);
      IdsFromRanks(hits, top);
      IdsFromRanks(hits, Returned(db', s.index, q, exp));
    }
  }

  lemma IdsFromRanks(hits: seq<Id>, cs: seq<Candidate>)
    requires forall c :: c in cs ==> c.rank < |hits| && c.id == hits[c.rank]
    ensures (set c | c in cs :: c.id) == set r | r in RanksOf(cs) && r < |hits| :: hits[r]
  {
    forall c | c in cs ensures c.rank in RanksOf(cs) {}
  }

  function SearchedAgain(s: State, q: Query, exp: Curve, commits: seq<Call>): State {
    if commits == [] then s
    else Searched(SearchedAgain(s, q, exp, commits[..|commits| - 1]), q, exp, commits[|commits| - 1])
  }

  /** However often a search is repeated at the same instant on an otherwise unchanged
      store, and whichever of the repetitions fail to commit, it returns the same
      memories: the accesses it counts only ever lift what it returned. */
  lemma {:induction false} RepeatedSearchFindsTheSame(s: State, q: Query, exp: Curve, commits: seq<Call>)
    requires IsDecayCurve(exp)
    ensures IdsReturned(SearchedAgain(s, q, exp, commits), q, exp) == IdsReturned(s, q, exp)
  {
    if commits != [] {
      var before := commits[..|commits| - 1];
      RepeatedSearchFindsTheSame(s, q, exp, before);
      SearchFindsTheSame(SearchedAgain(s, q, exp, before), q, exp, commits[|commits| - 1]);
    }
  }

  // --- What the score is made of -----------------------------------------------------------

  lemma DivideTwice(x: real, y: real, z: real)
    requires y > 0.0 && z > 0.0
    ensures x / y / z == x / (y * z)
  {
    assert x / y / z * (y * z) == x;
  }

  /** From 0.01 days on, a memory stands at exp(-1) after thirty days for itself and for every
      access it had, and so on along the curve. */
  lemma RetrievabilityAtAge(exp: Curve, m: Record, t: Time)
    requires t >= 864_000_000
    ensures RetrievabilityOf(exp, m.createdAt + t, m)
         == exp(-(t as real) / (86_400_000_000.0 * (30 * (1 + m.accessCount)) as real))
  {
    var days, stability := t as real / 86_400_000_000.0, (30 * (1 + m.accessCount)) as real;
    assert AgeInDays(m.createdAt + t, m.createdAt) == days;
    assert Stability(m.accessCount) == stability;
    DivideTwice(-(t as real), 86_400_000_000.0, stability);
    assert -days == -(t as real) / 86_400_000_000.0;
  }

  /** Before that, and when its time lies ahead, it counts as 0.01 days old. */
  lemma RetrievabilityWhenFresh(exp: Curve, m: Record, t: Time)
    requires t <= 864_000_000
    ensures RetrievabilityOf(exp, m.createdAt + t, m) == exp(-0.01 / (30 * (1 + m.accessCount)) as real)
  {
    assert t as real / 86_400_000_000.0 <= 0.01;
  }

  /** Of two memories alike but for their age, the older never scores higher. */
  lemma OlderNeverScoresHigher(exp: Curve, now: Time, rank: nat, older: Record, newer: Record)
    requires IsDecayCurve(exp) && older.createdAt <= newer.createdAt
    requires older.accessCount == newer.accessCount && older.importance == newer.importance
    ensures ScoreOf(exp, now, rank, older) <= ScoreOf(exp, now, rank, newer)
  {
    var x, y := AgeInDays(now, older.createdAt), AgeInDays(now, newer.createdAt);
    var stability := Stability(older.accessCount);
    QuotientsInOrder(-x, -y, stability);
    assert -y / stability <= 0.0;
    CompositeKeepsOrder(rank, exp(-x / stability), exp(-y / stability), older.importance);
  }

  lemma QuotientsInOrder(x: real, y: real, d: real)
    requires x <= y <= 0.0 && d > 0.0
    ensures x / d <= y / d <= 0.0
  {
    assert x / d * d <= y / d * d <= 0.0;
  }

  /** The score is 1 / (61 + rank) + 0.4 retrievability + 0.3 importance, to four places. */
  lemma ScoreIsNearest(exp: Curve, now: Time, rank: nat, m: Record)
    ensures var exact := 10000.0 / (61 + rank) as real + 4000.0 * RetrievabilityOf(exp, now, m)
                         + 3.0 * m.importance as real;
      -0.5 <= ScoreOf(exp, now, rank, m) as real - exact <= 0.5
  {
    assert 10000.0 * (1.0 / (61 + rank) as real) == 10000.0 / (61 + rank) as real;
  }

  /** Full retrievability is worth 0.4. */
  lemma RetrievabilityWeighs(rank: nat, importance: Milli)
    ensures Composite(rank, 1.0, importance) - Composite(rank, 0.0, importance) == 4000
  {
    var none := 10000.0 * (1.0 / (61 + rank) as real + 0.4 * 0.0 + 0.3 * (importance as real / 1000.0));
    RoundIsDetermined(none + 4000.0, RoundHalfEven(none) + 4000);
    assert none + 4000.0 == 10000.0 * (1.0 / (61 + rank) as real + 0.4 * 1.0 + 0.3 * (importance as real / 1000.0));
  }

  // --- What a search returns -----------------------------------------------------------------

  /** The row that a point of this kind stands for can be returned to the tenant. */
  predicate IsReturnable(db: Tables, tenant: TenantId, id: Id, kind: MemoryType) {
    if kind == Episodic then id in db.episodic && db.episodic[id].tenant == tenant
    else id in db.semantic && db.semantic[id].tenant == tenant && db.semantic[id].supersededBy == None
  }

  /** What is read of it. */
  function RecordOf(db: Tables, id: Id, kind: MemoryType): Record
    requires if kind == Episodic then id in db.episodic else id in db.semantic
  {
    if kind == Episodic then
      var row := db.episodic[id];
      Record(row.content, row.importance, row.accessCount, row.createdAt)
    else
      var row := db.semantic[id];
      Record(row.content, row.importance, row.accessCount, row.createdAt)
  }

  lemma HydratesReturnable(db: Tables, tenant: TenantId, id: Id, kind: MemoryType)
    ensures Hydrate(db, tenant, id, kind)
         == if IsReturnable(db, tenant, id, kind) then Some(RecordOf(db, id, kind)) else None
  {
  }

  /** The hits are the most similar points of the tenant and user, of the type if one is asked
      for: three times the limit, but a hundred at most, and all there are if fewer. */
  lemma HitsAreWhatIsAsked(index: map<Id, Point>, q: Query)
    ensures var hits := HitsFor(index, q);
      && |hits| <= 3 * q.limit && |hits| <= 100 && BySimilarity(q.similar, hits)
      && (forall id :: id in hits ==>
            && id in index && index[id].tenant == q.tenant && index[id].user == q.user
            && (q.kind == None || q.kind == Some(index[id].kind)))
      && (forall id :: id in q.similar && id in index && index[id].tenant == q.tenant && index[id].user == q.user
                       && (q.kind == None || q.kind == Some(index[id].kind)) && id !in hits ==>
            && (|hits| == 3 * q.limit || |hits| == 100)
            && forall k :: k in hits ==> Position(q.similar, k) < Position(q.similar, id))
  {
    SearchKeepsMostSimilar(index, q.similar, q.tenant, q.user, q.kind, FetchLimit(q.limit));
    forall id | id in index && index[id].tenant == q.tenant && index[id].user == q.user
                && (q.kind == None || q.kind == Some(index[id].kind))
      ensures Passes(index[id], q.tenant, q.user, q.kind) {}
  }

  /** A search returns, of the hits whose row can be returned, the best: each with what its row
      holds, each of the type asked for; and a hit left out is beaten by a full page. */
  lemma SearchReturnsBest(db: Tables, index: map<Id, Point>, q: Query, exp: Curve)
    ensures var hits, top := HitsFor(index, q), Returned(db, index, q, exp);
      && |top| <= q.limit
      && (forall c :: c in top ==>
            && c.rank < |hits| && hits[c.rank] == c.id && c.id in index && c.kind == index[c.id].kind
            && IsReturnable(db, q.tenant, c.id, c.kind)
            && c.score == ScoreOf(exp, q.now, c.rank, RecordOf(db, c.id, c.kind)))
      && (forall r :: 0 <= r < |hits| && IsReturnable(db, q.tenant, hits[r], index[hits[r]].kind) ==>
            || (exists c :: c in top && c.rank == r)
            || (|top| == q.limit && forall c :: c in top ==>
                  c.score >= ScoreOf(exp, q.now, r, RecordOf(db, hits[r], index[hits[r]].kind))))
  {
    var hits, all := HitsFor(index, q), AllCandidates(db, index, q, exp);
    var top := Returned(db, index, q, exp);
    CandidatesAreHydratedHits(db, index, q, exp, hits, |hits|);
    TopIsBest(all, q.limit);
    forall c | c in top
      ensures IsReturnable(db, q.tenant, c.id, c.kind)
              && c.score == ScoreOf(exp, q.now, c.rank, RecordOf(db, c.id, c.kind))
    {
      HydratesReturnable(db, q.tenant, c.id, c.kind);
    }
    forall r | 0 <= r < |hits| && IsReturnable(db, q.tenant, hits[r], index[hits[r]].kind)
      ensures (exists c :: c in top && c.rank == r)
           || (|top| == q.limit && forall c :: c in top ==>
                 c.score >= ScoreOf(exp, q.now, r, RecordOf(db, hits[r], index[hits[r]].kind)))
    {
      HydratesReturnable(db, q.tenant, hits[r], index[hits[r]].kind);
      var d :| d in all && d.rank == r;
      if d !in top { LeftOutIsBeaten(all, q.limit, d); }
    }
  }

  lemma LeftOutIsBeaten(all: seq<Candidate>, limit: nat, d: Candidate)
    requires Ascending(BY_RANK, all) && d in all && d !in Top(all, limit)
    ensures |Top(all, limit)| == limit && forall c :: c in Top(all, limit) ==> c.score >= d.score
  {
    TopIsBest(all, limit);
    forall c | c in Top(all, limit) ensures c.score >= d.score { assert Ahead(BY_SCORE, BY_RANK, c, d); }
    if |Top(all, limit)| < limit { AllFit(all, limit, d); }
  }

  lemma AllFit(all: seq<Candidate>, limit: nat, d: Candidate)
    requires d in all && |all| < limit
    ensures d in Top(all, limit)
  {
    SortKeepsElements(BY_SCORE, all);
    assert d in multiset(all);
    assert d in multiset(SortBy(BY_SCORE, all));
  }

  /** What the caller reads of a result is what the row holds. */
  lemma ResultHoldsRow(db: Tables, tenant: TenantId, c: Candidate)
    requires IsReturnable(db, tenant, c.id, c.kind)
    ensures Hydrate(db, tenant, c.id, c.kind).Some?
    ensures var r, m := ResultFor(db, tenant, c), RecordOf(db, c.id, c.kind);
      && r.id == c.id && r.kind == c.kind && r.score == c.score
      && r.content == m.content && r.importance == m.importance && r.createdAt == m.createdAt
  {
    HydratesReturnable(db, tenant, c.id, c.kind);
  }

  /** A committed search adds one access to each row returned, and changes nothing else; one that
      is not committed changes nothing. */
  lemma SearchCountsAccesses(s: State, q: Query, exp: Curve, commit: Call)
    ensures var s', top := Searched(s, q, exp, commit), Returned(s.db, s.index, q, exp);
      && s'.index == s.index && s'.nextId == s.nextId
      && s'.db == s.db.(episodic := s'.db.episodic, semantic := s'.db.semantic)
      && s'.db.episodic.Keys == s.db.episodic.Keys && s'.db.semantic.Keys == s.db.semantic.Keys
      && (forall id :: id in s.db.episodic ==>
            var row, counted := s.db.episodic[id], exists c :: c in top && c.id == id && c.kind == Episodic;
            s'.db.episodic[id] == if commit.Lands() && counted then row.(accessCount := row.accessCount + 1) else row)
      && (forall id :: id in s.db.semantic ==>
            var row, counted := s.db.semantic[id], exists c :: c in top && c.id == id && c.kind == Semantic;
            s'.db.semantic[id] == if commit.Lands() && counted then row.(accessCount := row.accessCount + 1) else row)
  {
  }
}
