/** Contradiction detection: a new fact is checked against the live facts most similar to
    it, and the first conflict found is resolved by the tenant's policy. */
module Contradiction {
  import opened Wrappers
  import opened MemoryModel
  import opened VectorSearch

  /** What the inference service answers for a premise and a hypothesis. */
  datatype Verdict = NoConflict | Conflict(confidence: real) | Unavailable

  type Nli = (string, string) -> Verdict

  datatype Finding = Clear | Clash(existing: Id, confidence: real) | NliDown

  datatype CheckError = SearchFailed | NliFailed | KeyViolated

  const CANDIDATES: nat := 5

  /** The fact is a row of the tenant that nothing has superseded. */
  predicate IsLive(db: Tables, tenant: TenantId, id: Id) {
    id in db.semantic && db.semantic[id].tenant == tenant && db.semantic[id].supersededBy.None?
  }

  /** The verdict on the first live candidate that does not come out clear. */
  function FirstClash(db: Tables, tenant: TenantId, hits: seq<Id>, content: string, nli: Nli): (f: Finding)
    ensures f.Clash? ==> f.existing in hits && IsLive(db, tenant, f.existing)
  {
    if hits == [] then Clear
    else if !IsLive(db, tenant, hits[0]) then FirstClash(db, tenant, hits[1..], content, nli)
    else
      match nli(db.semantic[hits[0]].content, content)
      case Conflict(confidence) => Clash(hits[0], confidence)
      case Unavailable => NliDown
      case NoConflict => FirstClash(db, tenant, hits[1..], content, nli)
  }

  /** The new fact takes the old one's place. */
  predicate NewFactWins(policy: Policy, fact: SemanticMemory, confidence: real) {
    policy.MostRecentWins? || (policy.ConfidenceWeighted? && confidence > fact.confidence)
  }

  function LogFor(policy: Policy, tenant: TenantId, newFact: Id, newContent: string,
                  existing: Id, fact: SemanticMemory, confidence: real): ContradictionLog
  {
    ContradictionLog(
      tenant, newFact, existing, newContent, fact.content, confidence,
      if policy.ManualReview? then Pending
      else if NewFactWins(policy, fact, confidence) then NewFactKept else ExistingFactKept,
      !policy.ManualReview?,
      if policy.ManualReview? then None else Some(policy))
  }

  /** What the tenant's policy makes of a clash. */
  function Resolved(db: Tables, policy: Policy, tenant: TenantId, newFact: Id, newContent: string,
                    existing: Id, confidence: real): Tables
    requires existing in db.semantic
  {
    var fact := db.semantic[existing];
    var log := LogFor(policy, tenant, newFact, newContent, existing, fact, confidence);
    db.(contradictions := db.contradictions + [log],
        semantic := if log.resolution.NewFactKept?
                    then db.semantic[existing := fact.(supersededBy := Some(newFact))]
                    else db.semantic)
  }

  /** UPDATE semantic_memories SET superseded_by */
  function WithSuccessor(db: Tables, id: Id, successor: Id): Result<Tables, CheckError>
    requires id in db.semantic
  {
    if MayName(db, successor)
    then Ok(db.(semantic := db.semantic[id := db.semantic[id].(supersededBy := Some(successor))]))
    else Err(KeyViolated)
  }

  /** INSERT INTO contradiction_log */
  function WithLog(db: Tables, log: ContradictionLog): Result<Tables, CheckError> {
    if MayName(db, log.newFact) && MayName(db, log.existingFact)
    then Ok(db.(contradictions := db.contradictions + [log]))
    else Err(KeyViolated)
  }

  /** The statements in the order they are sent: the link if the new fact wins, then the log. */
  function Sent(db: Tables, policy: Policy, tenant: TenantId, newFact: Id, newContent: string,
                existing: Id, confidence: real): Result<Tables, CheckError>
    requires existing in db.semantic
  {
    var fact := db.semantic[existing];
    var log := LogFor(policy, tenant, newFact, newContent, existing, fact, confidence);
    if !NewFactWins(policy, fact, confidence) then WithLog(db, log)
    else
      match WithSuccessor(db, existing, newFact)
      case Err(e) => Err(e)
      case Ok(linked) => WithLog(linked, log)
  }

  /** The statements go through, and then do what the policy says, exactly when they may name
      the new fact: when the keys wait for the commit, or its row is there already. */
  lemma SentIfNameable(db: Tables, policy: Policy, tenant: TenantId, newFact: Id, newContent: string,
                       existing: Id, confidence: real)
    requires existing in db.semantic
    ensures Sent(db, policy, tenant, newFact, newContent, existing, confidence)
         == if MayName(db, newFact) then Ok(Resolved(db, policy, tenant, newFact, newContent, existing, confidence))
            else Err(KeyViolated)
  {
    var fact := db.semantic[existing];
    if MayName(db, newFact) && NewFactWins(policy, fact, confidence) {
      var linked := WithSuccessor(db, existing, newFact).value;
      assert linked.semantic.Keys == db.semantic.Keys;
    }
  }

  /** The session after the check; an error leaves the caller to roll back. */
  function Checked(db: Tables, policy: Policy, tenant: TenantId, newFact: Id, content: string,
                   hits: seq<Id>, nli: Nli): Result<Tables, CheckError>
  {
    match FirstClash(db, tenant, hits, content, nli)
    case Clear => Ok(db)
    case NliDown => Err(NliFailed)
    case Clash(existing, confidence) =>
      Sent(db, policy, tenant, newFact, content, existing, confidence)
  }

  lemma CheckedTables(db: Tables, policy: Policy, tenant: TenantId, newFact: Id, content: string,
                      hits: seq<Id>, nli: Nli)
    requires Checked(db, policy, tenant, newFact, content, hits, nli).Ok?
    ensures Checked(db, policy, tenant, newFact, content, hits, nli).value ==
      match FirstClash(db, tenant, hits, content, nli)
      case Clash(existing, confidence) => Resolved(db, policy, tenant, newFact, content, existing, confidence)
      case _ => db
  {
    match FirstClash(db, tenant, hits, content, nli)
    case Clash(existing, confidence) => SentIfNameable(db, policy, tenant, newFact, content, existing, confidence);
    case _ =>
  }

  /** Candidate `i` is where the check stops: it is live and not cleared, and every live
      candidate before it was cleared. */
  ghost predicate StopsAt(db: Tables, tenant: TenantId, hits: seq<Id>, content: string, nli: Nli, i: nat) {
    && i < |hits| && IsLive(db, tenant, hits[i])
    && !nli(db.semantic[hits[i]].content, content).NoConflict?
    && forall j :: 0 <= j < i && IsLive(db, tenant, hits[j])
                   ==> nli(db.semantic[hits[j]].content, content).NoConflict?
  }

  /** The check acts on the first live candidate that is not cleared, and on no other. */
  lemma {:induction false} FirstClashIsFirst(db: Tables, tenant: TenantId, hits: seq<Id>, content: string, nli: Nli)
    ensures var f := FirstClash(db, tenant, hits, content, nli);
      if f.Clear?
      then forall i :: 0 <= i < |hits| && IsLive(db, tenant, hits[i])
                       ==> nli(db.semantic[hits[i]].content, content).NoConflict?
      else exists i: nat ::
        && StopsAt(db, tenant, hits, content, nli, i)
        && f == (if nli(db.semantic[hits[i]].content, content).Unavailable? then NliDown
                 else Clash(hits[i], nli(db.semantic[hits[i]].content, content).confidence))
  {
    if hits != [] {
      var rest := hits[1..];
      FirstClashIsFirst(db, tenant, rest, content, nli);
      if IsLive(db, tenant, hits[0]) && !nli(db.semantic[hits[0]].content, content).NoConflict? {
        assert StopsAt(db, tenant, hits, content, nli, 0);
      } else if !FirstClash(db, tenant, rest, content, nli).Clear? {
        var i: nat :| StopsAt(db, tenant, rest, content, nli, i)
          && FirstClash(db, tenant, rest, content, nli)
             == (if nli(db.semantic[rest[i]].content, content).Unavailable? then NliDown
                 else Clash(rest[i], nli(db.semantic[rest[i]].content, content).confidence));
        assert hits[i + 1] == rest[i];
        assert StopsAt(db, tenant, hits, content, nli, i + 1);
      }
    }
  }

  /** A refused statement changes nothing. */
  ghost predicate Takes(before: Tables, after: Tables, statement: Result<Tables, CheckError>, ok: bool) {
    ok == statement.Ok? && after == if ok then statement.value else before
  }

  /** A candidate of the tenant that nothing supersedes, found to conflict or left undecided, is not
      passed over. */
  lemma {:induction false} ConflictIsNotMissed(db: Tables, tenant: TenantId, hits: seq<Id>, content: string, nli: Nli,
                                               i: nat)
    requires i < |hits| && hits[i] in db.semantic && db.semantic[hits[i]].tenant == tenant
    requires db.semantic[hits[i]].supersededBy == None && nli(db.semantic[hits[i]].content, content) != NoConflict
    ensures FirstClash(db, tenant, hits, content, nli) != Clear
  {
    if i > 0 { ConflictIsNotMissed(db, tenant, hits[1..], content, nli, i - 1); }
  }

  method MarkSuperseded(st: Stores, id: Id, successor: Id) returns (ok: bool)
    requires id in st.session.semantic
    modifies st`session
    ensures Takes(old(st.session), st.session, WithSuccessor(old(st.session), id, successor), ok)
  {
    if !st.session.deferredKeys && successor !in st.session.semantic { return false; }
    var fact := st.session.semantic[id].(supersededBy := Some(successor));
    st.session := st.session.(semantic := st.session.semantic[id := fact]);
    return true;
  }

  method AddLog(st: Stores, log: ContradictionLog) returns (ok: bool)
    modifies st`session
    ensures Takes(old(st.session), st.session, WithLog(old(st.session), log), ok)
  {
    if !MayName(st.session, log.newFact) || !MayName(st.session, log.existingFact) { return false; }
    st.session := st.session.(contradictions := st.session.contradictions + [log]);
    return true;
  }

  method ResolveContradiction(st: Stores, policy: Policy, tenant: TenantId, newFact: Id, newContent: string,
                              existing: Id, confidence: real) returns (ok: bool)
    requires existing in st.session.semantic
    modifies st`session
    ensures Takes(old(st.session), st.session,
                  Sent(old(st.session), policy, tenant, newFact, newContent, existing, confidence), ok)
  {
    SentIfNameable(st.session, policy, tenant, newFact, newContent, existing, confidence);
    var fact := st.session.semantic[existing];
    var resolution, autoResolved := Pending, false;
    if policy == MostRecentWins {
      ok := MarkSuperseded(st, existing, newFact);
      if !ok { return; }
      resolution, autoResolved := NewFactKept, true;
    } else if policy == ConfidenceWeighted {
      if confidence > fact.confidence {
        ok := MarkSuperseded(st, existing, newFact);
        if !ok { return; }
        resolution := NewFactKept;
      } else {
        resolution := ExistingFactKept;
      }
      autoResolved := true;
    }
    var log := ContradictionLog(tenant, newFact, existing, newContent, fact.content, confidence, resolution,
                                autoResolved, if autoResolved then Some(policy) else None);
    ok := AddLog(st, log);
  }

  lemma FirstClashFrom(db: Tables, tenant: TenantId, hits: seq<Id>, i: nat, content: string, nli: Nli)
    requires i < |hits|
    ensures FirstClash(db, tenant, hits[i..], content, nli) ==
      if !IsLive(db, tenant, hits[i]) then FirstClash(db, tenant, hits[i + 1..], content, nli)
      else
        match nli(db.semantic[hits[i]].content, content)
        case Conflict(confidence) => Clash(hits[i], confidence)
        case Unavailable => NliDown
        case NoConflict => FirstClash(db, tenant, hits[i + 1..], content, nli)
  {
    assert hits[i..][0] == hits[i] && hits[i..][1..] == hits[i + 1..];
  }

  /** What the check answers and leaves in the session, for the candidates found. */
  ghost predicate Answers(before: Tables, after: Tables, policy: Policy, tenant: TenantId, newFact: Id, content: string,
                          hits: seq<Id>, nli: Nli, r: Result<bool, CheckError>)
  {
    var expected := Checked(before, policy, tenant, newFact, content, hits, nli);
    if expected.Ok?
    then r == Ok(FirstClash(before, tenant, hits, content, nli).Clash?) && after == expected.value
    else r == Err(expected.error) && after == before
  }

  lemma NoClashIsAnswered(db: Tables, policy: Policy, tenant: TenantId, newFact: Id, content: string,
                          hits: seq<Id>, nli: Nli)
    requires !FirstClash(db, tenant, hits, content, nli).Clash?
    ensures Answers(db, db, policy, tenant, newFact, content, hits, nli,
                    if FirstClash(db, tenant, hits, content, nli).Clear? then Ok(false) else Err(NliFailed))
  {
  }

  lemma ClashIsAnswered(before: Tables, after: Tables, policy: Policy, tenant: TenantId, newFact: Id, content: string,
                        hits: seq<Id>, nli: Nli, existing: Id, confidence: real, ok: bool)
    requires FirstClash(before, tenant, hits, content, nli) == Clash(existing, confidence)
    requires Takes(before, after, Sent(before, policy, tenant, newFact, content, existing, confidence), ok)
    ensures Answers(before, after, policy, tenant, newFact, content, hits, nli,
                    if ok then Ok(true) else Err(KeyViolated))
  {
    SentIfNameable(before, policy, tenant, newFact, content, existing, confidence);
  }

  /** On success, whether a contradiction was found. */
  method CheckForContradiction(st: Stores, tenant: TenantId, policy: Policy, user: string, content: string,
                               newFact: Id, similar: seq<Id>, searchUp: bool, nli: Nli)
    returns (r: Result<bool, CheckError>)
    modifies st`session
    ensures !searchUp ==> r == Err(SearchFailed) && st.session == old(st.session)
    ensures searchUp ==>
      Answers(old(st.session), st.session, policy, tenant, newFact, content,
              Search(st.index, similar, tenant, user, Some(Semantic), CANDIDATES), nli, r)
  {
    if !searchUp { return Err(SearchFailed); }
    var candidates := Search(st.index, similar, tenant, user, Some(Semantic), CANDIDATES);
    if candidates == [] { return Ok(false); }
    r := CheckCandidates(st, tenant, policy, content, newFact, candidates, nli);
  }

  method CheckCandidates(st: Stores, tenant: TenantId, policy: Policy, content: string, newFact: Id,
                         candidates: seq<Id>, nli: Nli) returns (r: Result<bool, CheckError>)
    modifies st`session
    ensures Answers(old(st.session), st.session, policy, tenant, newFact, content, candidates, nli, r)
  {
    ghost var db := st.session;
    var memories := map id | id in candidates && id in st.session.semantic
                             && st.session.semantic[id].tenant == tenant :: st.session.semantic[id];
    for i := 0 to |candidates|
      invariant st.session == db
      invariant FirstClash(db, tenant, candidates, content, nli)
             == FirstClash(db, tenant, candidates[i..], content, nli)
    {
      var id := candidates[i];
      FirstClashFrom(db, tenant, candidates, i, content, nli);
      if id !in memories || memories[id].supersededBy.Some? { continue; }
      var verdict := nli(memories[id].content, content);
      if verdict.Unavailable? {
        NoClashIsAnswered(db, policy, tenant, newFact, content, candidates, nli);
        return Err(NliFailed);
      }
      if verdict.Conflict? {
        var ok := ResolveContradiction(st, policy, tenant, newFact, content, id, verdict.confidence);
        ClashIsAnswered(db, st.session, policy, tenant, newFact, content, candidates, nli, id, verdict.confidence, ok);
        return if ok then Ok(true) else Err(KeyViolated);
      }
    }
    assert candidates[|candidates|..] == [];
    NoClashIsAnswered(db, policy, tenant, newFact, content, candidates, nli);
    return Ok(false);
  }
}
