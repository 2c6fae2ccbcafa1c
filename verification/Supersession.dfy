/** The links between semantic facts: who supersedes whom, and what the contradiction log
    says about it. */
module Supersession {
  import opened Wrappers
  import opened MemoryModel

  /** What a fact's row says about its owner and its successor. */
  datatype Fact = Fact(tenant: TenantId, user: string, successor: Option<Id>)

  type Facts = map<Id, Fact>

  function FactsOf(db: Tables): Facts {
    map id | id in db.semantic ::
      Fact(db.semantic[id].tenant, db.semantic[id].user, db.semantic[id].supersededBy)
  }

  /** A link leads to a later fact of the same tenant and user. */
  ghost predicate Forward(facts: Facts) {
    forall id :: id in facts && facts[id].successor.Some? ==>
      var n := facts[id].successor.value;
      n in facts && id < n && facts[n].tenant == facts[id].tenant && facts[n].user == facts[id].user
  }

  /** No fact supersedes two. */
  ghost predicate Injective(facts: Facts) {
    forall a, b :: (a in facts && b in facts && facts[a].successor.Some? && facts[a].successor == facts[b].successor)
                   ==> a == b
  }

  predicate IsKept(log: ContradictionLog) {
    log.resolution.NewFactKept? && log.autoResolved
  }

  /** Log `i` records the link of fact `id`. */
  ghost predicate Records(facts: Facts, logs: seq<ContradictionLog>, i: nat, id: Id) {
    && i < |logs| && IsKept(logs[i]) && logs[i].existingFact == id
    && id in facts && facts[id].successor == Some(logs[i].newFact) && facts[id].tenant == logs[i].tenant
  }

  /** Links and automatic new-fact-kept logs are the same thing. */
  ghost predicate LogsMatchLinks(facts: Facts, logs: seq<ContradictionLog>) {
    && (forall i: nat :: i < |logs| && logs[i].resolution.NewFactKept? ==>
          Records(facts, logs, i, logs[i].existingFact))
    && (forall id :: id in facts && facts[id].successor.Some? ==> exists i: nat :: Records(facts, logs, i, id))
    && (forall i: nat :: i < |logs| ==> logs[i].newFact in facts && logs[i].existingFact in facts)
    && (forall i: nat, j: nat :: i < j < |logs| ==> logs[i].newFact < logs[j].newFact)
  }

  function Live(facts: Facts): set<Id> {
    set id | id in facts && facts[id].successor.None?
  }

  function KeptCount(logs: seq<ContradictionLog>): nat {
    if logs == [] then 0
    else KeptCount(logs[..|logs| - 1]) + if IsKept(logs[|logs| - 1]) then 1 else 0
  }

  /** Every fact is live, or was replaced in exactly one logged resolution. */
  ghost predicate Conserved(facts: Facts, logs: seq<ContradictionLog>) {
    |Live(facts)| == |facts| - KeptCount(logs)
  }

  ghost predicate Sound(facts: Facts, logs: seq<ContradictionLog>) {
    Forward(facts) && Injective(facts) && LogsMatchLinks(facts, logs) && Conserved(facts, logs)
  }

  /** Nothing written about a fact is ever taken back. */
  ghost predicate Grows(facts: Facts, later: Facts) {
    forall id :: id in facts ==>
      && id in later && later[id].tenant == facts[id].tenant && later[id].user == facts[id].user
      && (facts[id].successor.Some? ==> later[id].successor == facts[id].successor)
  }

  lemma GrowsOnAndOn(a: Facts, b: Facts, c: Facts)
    requires Grows(a, b) && Grows(b, c)
    ensures Grows(a, c)
  {
  }

  // --- Keeping it sound ----------------------------------------------------------------

  /** The facts so far and one more, live. */
  ghost predicate OneMore(facts: Facts, facts': Facts, id: Id) {
    && id !in facts && facts'.Keys == facts.Keys + {id} && facts'[id].successor.None?
    && forall k :: k in facts ==> facts'[k] == facts[k]
  }

  lemma OneMoreIsConserved(facts: Facts, facts': Facts, id: Id)
    requires OneMore(facts, facts', id)
    ensures |Live(facts')| == |Live(facts)| + 1 && |facts'| == |facts| + 1
  {
    assert Live(facts') == Live(facts) + {id};
    assert |facts'.Keys| == |facts.Keys| + 1;
  }

  lemma OneMoreKeepsLogs(facts: Facts, facts': Facts, id: Id, logs: seq<ContradictionLog>)
    requires OneMore(facts, facts', id) && LogsMatchLinks(facts, logs)
    ensures LogsMatchLinks(facts', logs)
  {
    forall i: nat, k | Records(facts, logs, i, k) ensures Records(facts', logs, i, k) {}
    forall k | k in facts' && facts'[k].successor.Some? ensures exists i: nat :: Records(facts', logs, i, k) {
      var i: nat :| Records(facts, logs, i, k);
      assert Records(facts', logs, i, k);
    }
    forall i: nat | i < |logs| && logs[i].resolution.NewFactKept?
      ensures Records(facts', logs, i, logs[i].existingFact)
    {
      assert Records(facts, logs, i, logs[i].existingFact);
    }
  }

  lemma NewFactKeepsSound(facts: Facts, logs: seq<ContradictionLog>, id: Id, tenant: TenantId, user: string)
    requires Sound(facts, logs) && forall k :: k in facts ==> k < id
    ensures var facts' := facts[id := Fact(tenant, user, None)];
      Sound(facts', logs) && Grows(facts, facts')
  {
    var facts' := facts[id := Fact(tenant, user, None)];
    assert OneMore(facts, facts', id);
    OneMoreIsConserved(facts, facts', id);
    OneMoreKeepsLogs(facts, facts', id, logs);
  }

  /** A log that leaves both facts in place. */
  lemma LoggedFactKeepsSound(facts: Facts, logs: seq<ContradictionLog>, id: Id, tenant: TenantId, user: string,
                             log: ContradictionLog)
    requires Sound(facts, logs) && forall k :: k in facts ==> k < id
    requires log.newFact == id && log.existingFact in facts && !log.resolution.NewFactKept?
    ensures var facts' := facts[id := Fact(tenant, user, None)];
      Sound(facts', logs + [log]) && Grows(facts, facts')
  {
    NewFactKeepsSound(facts, logs, id, tenant, user);
    UnkeptLogKeepsLogs(facts, facts[id := Fact(tenant, user, None)], id, logs, log);
    assert (logs + [log])[..|logs|] == logs;
  }

  lemma UnkeptLogKeepsLogs(facts: Facts, facts': Facts, id: Id, logs: seq<ContradictionLog>, log: ContradictionLog)
    requires LogsMatchLinks(facts, logs) && LogsMatchLinks(facts', logs) && id in facts' && facts.Keys <= facts'.Keys
    requires forall k :: k in facts ==> k < id
    requires log.newFact == id && log.existingFact in facts && !log.resolution.NewFactKept?
    ensures LogsMatchLinks(facts', logs + [log])
  {
    var logs' := logs + [log];
    forall i: nat, k | Records(facts', logs, i, k) ensures Records(facts', logs', i, k) {}
    forall k | k in facts' && facts'[k].successor.Some? ensures exists i: nat :: Records(facts', logs', i, k) {
      var i: nat :| Records(facts', logs, i, k);
      assert Records(facts', logs', i, k);
    }
    forall i: nat | i < |logs'| && logs'[i].resolution.NewFactKept?
      ensures Records(facts', logs', i, logs'[i].existingFact)
    {
      assert Records(facts', logs, i, logs[i].existingFact);
    }
  }

  /** `id` takes the place of `loser`. */
  function Linked(facts: Facts, loser: Id, id: Id): Facts
    requires loser in facts
  {
    facts[loser := facts[loser].(successor := Some(id))][id := Fact(facts[loser].tenant, facts[loser].user, None)]
  }

  lemma LinkKeepsShape(facts: Facts, loser: Id, id: Id)
    requires Forward(facts) && Injective(facts) && forall k :: k in facts ==> k < id
    requires loser in facts && facts[loser].successor.None?
    ensures Forward(Linked(facts, loser, id)) && Injective(Linked(facts, loser, id))
    ensures Grows(facts, Linked(facts, loser, id))
  {
    forall a | a in facts && facts[a].successor.Some? ensures facts[a].successor.value != id {
      assert facts[a].successor.value in facts;
    }
  }

  lemma LinkIsConserved(facts: Facts, loser: Id, id: Id)
    requires loser in facts && facts[loser].successor.None? && id !in facts
    ensures |Live(Linked(facts, loser, id))| == |Live(facts)| && |Linked(facts, loser, id)| == |facts| + 1
  {
    var facts' := Linked(facts, loser, id);
    assert Live(facts') == Live(facts) - {loser} + {id};
    assert facts'.Keys == facts.Keys + {id};
  }

  lemma LinkKeepsLogs(facts: Facts, logs: seq<ContradictionLog>, loser: Id, id: Id, log: ContradictionLog)
    requires LogsMatchLinks(facts, logs) && forall k :: k in facts ==> k < id
    requires loser in facts && facts[loser].successor.None?
    requires IsKept(log) && log.newFact == id && log.existingFact == loser && log.tenant == facts[loser].tenant
    ensures LogsMatchLinks(Linked(facts, loser, id), logs + [log])
  {
    var facts', logs' := Linked(facts, loser, id), logs + [log];
    forall i: nat, k | Records(facts, logs, i, k) ensures Records(facts', logs', i, k) {}
    assert Records(facts', logs', |logs|, loser);
    forall k | k in facts' && facts'[k].successor.Some? ensures exists i: nat :: Records(facts', logs', i, k) {
      if k != loser {
        var i: nat :| Records(facts, logs, i, k);
        assert Records(facts', logs', i, k);
      }
    }
    forall i: nat | i < |logs'| && logs'[i].resolution.NewFactKept?
      ensures Records(facts', logs', i, logs'[i].existingFact)
    {
      if i < |logs| { assert Records(facts, logs, i, logs[i].existingFact); }
    }
  }

  /** A log that replaces a live fact by the new one. */
  lemma LinkKeepsSound(facts: Facts, logs: seq<ContradictionLog>, loser: Id, id: Id, log: ContradictionLog)
    requires Sound(facts, logs) && forall k :: k in facts ==> k < id
    requires loser in facts && facts[loser].successor.None?
    requires IsKept(log) && log.newFact == id && log.existingFact == loser && log.tenant == facts[loser].tenant
    ensures Sound(Linked(facts, loser, id), logs + [log]) && Grows(facts, Linked(facts, loser, id))
  {
    LinkKeepsShape(facts, loser, id);
    LinkIsConserved(facts, loser, id);
    LinkKeepsLogs(facts, logs, loser, id, log);
    assert (logs + [log])[..|logs|] == logs;
  }

  // --- Chains --------------------------------------------------------------------------

  /** Follow the successors of `id` to the end. */
  function End(facts: Facts, limit: nat, id: Id): (last: Id)
    requires Forward(facts) && id in facts && forall k :: k in facts ==> k < limit
    ensures last in Live(facts) && id <= last
    ensures facts[last].tenant == facts[id].tenant && facts[last].user == facts[id].user
    ensures id in Live(facts) ==> last == id
    decreases limit - id
  {
    match facts[id].successor
    case None => id
    case Some(n) => End(facts, limit, n)
  }

  /** `b` lies on the chain of successors of `a`. */
  ghost predicate Reaches(facts: Facts, limit: nat, a: Id, b: Id)
    requires Forward(facts) && a in facts && forall k :: k in facts ==> k < limit
    decreases limit - a
  {
    a == b || (facts[a].successor.Some? && Reaches(facts, limit, facts[a].successor.value, b))
  }

  lemma {:induction false} ReachesForward(facts: Facts, limit: nat, a: Id, b: Id)
    requires Forward(facts) && a in facts && forall k :: k in facts ==> k < limit
    requires Reaches(facts, limit, a, b)
    ensures b in facts && a <= b && End(facts, limit, a) == End(facts, limit, b)
    decreases limit - a
  {
    if a != b { ReachesForward(facts, limit, facts[a].successor.value, b); }
  }

  lemma {:induction false} LastStep(facts: Facts, limit: nat, a: Id, c: Id) returns (p: Id)
    requires Forward(facts) && a in facts && forall k :: k in facts ==> k < limit
    requires Reaches(facts, limit, a, c) && a != c
    ensures p in facts && Reaches(facts, limit, a, p) && facts[p].successor == Some(c)
    decreases limit - a
  {
    var n := facts[a].successor.value;
    if n == c { p := a; } else { p := LastStep(facts, limit, n, c); }
  }

  /** Two facts with the same end lie on one chain: chains never merge, so each live fact
      ends exactly one chain, and the chains of different live facts are disjoint. */
  lemma {:induction false} SameEndSameChain(facts: Facts, limit: nat, a: Id, b: Id)
    requires Forward(facts) && Injective(facts) && a in facts && b in facts && forall k :: k in facts ==> k < limit
    requires a <= b
    ensures End(facts, limit, a) == End(facts, limit, b) <==> Reaches(facts, limit, a, b)
    decreases limit - a
  {
    if Reaches(facts, limit, a, b) {
      ReachesForward(facts, limit, a, b);
    } else if End(facts, limit, a) == End(facts, limit, b) {
      assert a < b <= End(facts, limit, b);
      var n := facts[a].successor.value;
      if n <= b {
        SameEndSameChain(facts, limit, n, b);
      } else {
        SameEndSameChain(facts, limit, b, n);
        var p := LastStep(facts, limit, b, n);
        ReachesForward(facts, limit, b, p);
      }
      assert false;
    }
  }

  // --- Logs and links are one to one ---------------------------------------------------

  function LinkedFacts(facts: Facts): set<Id> {
    set id | id in facts && facts[id].successor.Some?
  }

  function KeptLogs(logs: seq<ContradictionLog>): set<int> {
    set i | 0 <= i < |logs| && IsKept(logs[i])
  }

  /** Two different kept logs record different links, and the links are exactly theirs. */
  lemma LogsAreLinks(facts: Facts, logs: seq<ContradictionLog>)
    requires Sound(facts, logs)
    ensures forall i, j :: i in KeptLogs(logs) && j in KeptLogs(logs) && i != j
                           ==> logs[i].existingFact != logs[j].existingFact && logs[i].newFact != logs[j].newFact
    ensures LinkedFacts(facts) == set i | i in KeptLogs(logs) :: logs[i].existingFact
    ensures forall i :: i in KeptLogs(logs) ==> facts[logs[i].existingFact].successor == Some(logs[i].newFact)
  {
    forall i | i in KeptLogs(logs) ensures Records(facts, logs, i, logs[i].existingFact) {}
    forall id | id in LinkedFacts(facts) ensures exists i :: i in KeptLogs(logs) && logs[i].existingFact == id {
      var i: nat :| Records(facts, logs, i, id);
      assert i in KeptLogs(logs);
    }
    forall i, j | i in KeptLogs(logs) && j in KeptLogs(logs) && i < j
      ensures logs[i].existingFact != logs[j].existingFact && logs[i].newFact != logs[j].newFact
    {
      assert Records(facts, logs, i, logs[i].existingFact) && Records(facts, logs, j, logs[j].existingFact);
    }
  }
}
