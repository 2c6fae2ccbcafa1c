/** Compression of a tenant's oldest episodic memories into semantic facts, one group per
    end user, each group in a transaction of its own and skipped when a log already holds
    its content hash. */
module Compression {
  import opened Wrappers
  import opened Rounding
  import opened Sorting
  import opened Strings
  import opened MemoryModel

  const BATCH: nat := 20
  const COMPRESSED_IMPORTANCE: Milli := 750
  const COMPRESSED_CONFIDENCE: real := 0.85

  /** Stands for SHA-256; nothing is assumed of it. */
  type Hash = string -> string

  /** How the processing of one group goes. The index upsert never raises; `landed` says
      whether it took effect. A crash ends the worker: the group's transaction is rolled
      back, unless its commit had taken effect and only the reply was lost. */
  datatype GroupFault = Smooth(landed: bool) | Crash(landed: bool, committed: bool)

  type Faults = map<string, GroupFault>

  function FaultFor(faults: Faults, user: string): GroupFault {
    if user in faults then faults[user] else Smooth(true)
  }

  // --- The batch -----------------------------------------------------------------------

  lemma {:induction false} Smallest(ids: set<Id>) returns (m: Id)
    requires ids != {}
    ensures m in ids && forall i :: i in ids ==> m <= i
  {
    m :| m in ids;
    if ids != {m} {
      var others := ids - {m};
      assert ids == others + {m};
      var n := Smallest(others);
      if n < m { m := n; }
    }
  }

  lemma SmallestExists(ids: set<Id>)
    requires ids != {}
    ensures exists m :: m in ids && forall i :: i in ids ==> m <= i
  {
    var m := Smallest(ids);
  }

  function Least(ids: set<Id>): (m: Id)
    requires ids != {}
    ensures m in ids && forall i :: i in ids ==> m <= i
  {
    SmallestExists(ids);
    var m :| m in ids && forall i :: i in ids ==> m <= i;
    m
  }

  function AscendingIds(ids: set<Id>): (r: seq<Id>)
    ensures forall id :: id in r <==> id in ids
  {
    if ids == {} then [] else [Least(ids)] + AscendingIds(ids - {Least(ids)})
  }

  lemma {:induction false} AscendingIdsAscend(ids: set<Id>)
    ensures forall i, j :: 0 <= i < j < |AscendingIds(ids)| ==> AscendingIds(ids)[i] < AscendingIds(ids)[j]
  {
    if ids != {} {
      var m := Least(ids);
      var rest := AscendingIds(ids - {m});
      AscendingIdsAscend(ids - {m});
      var r := AscendingIds(ids);
      assert r == [m] + rest;
      forall i, j | 0 <= i < j < |r| ensures r[i] < r[j] {
        assert rest[j - 1] in rest;
        if i > 0 { assert rest[i - 1] < rest[j - 1]; }
      }
    }
  }

  lemma {:induction false} AscendingIdsSize(ids: set<Id>)
    ensures |AscendingIds(ids)| == |ids|
  {
    if ids != {} { AscendingIdsSize(ids - {Least(ids)}); }
  }

  const BY_ID: Id -> int := (id: Id) => id as int

  function CreatedAt(rows: map<Id, EpisodicMemory>): Id -> int {
    (id: Id) => if id in rows then rows[id].createdAt else 0
  }

  /** The tenant's unsuperseded memories, oldest first; equal times in order of id. */
  function OldestFirst(rows: map<Id, EpisodicMemory>, tenant: TenantId): seq<Id> {
    SortBy(CreatedAt(rows), AscendingIds(Eligible(rows, tenant)))
  }

  function Batch(rows: map<Id, EpisodicMemory>, tenant: TenantId): seq<Id> {
    var all := OldestFirst(rows, tenant);
    if |all| <= BATCH then all else all[..BATCH]
  }

  predicate IsEligible(rows: map<Id, EpisodicMemory>, tenant: TenantId, id: Id) {
    id in rows && rows[id].tenant == tenant && !rows[id].superseded
  }

  function Eligible(rows: map<Id, EpisodicMemory>, tenant: TenantId): set<Id> {
    set id | id in rows && IsEligible(rows, tenant, id)
  }

  lemma OldestFirstIsOrdered(rows: map<Id, EpisodicMemory>, tenant: TenantId)
    ensures InOrder(CreatedAt(rows), BY_ID, OldestFirst(rows, tenant))
    ensures forall id :: id in OldestFirst(rows, tenant) <==> IsEligible(rows, tenant, id)
    ensures |OldestFirst(rows, tenant)| == |Eligible(rows, tenant)|
  {
    var ids := AscendingIds(Eligible(rows, tenant));
    AscendingIdsAscend(Eligible(rows, tenant));
    AscendingIdsSize(Eligible(rows, tenant));
    assert Ascending(BY_ID, ids);
    SortIsStable(CreatedAt(rows), BY_ID, ids);
    SortKeepsElements(CreatedAt(rows), ids);
    forall id ensures id in SortBy(CreatedAt(rows), ids) <==> id in ids {
      assert id in multiset(SortBy(CreatedAt(rows), ids)) <==> id in multiset(ids);
    }
  }

  /** The batch holds the tenant's oldest memories in order of age, twenty or all there are, and
      no eligible memory left out comes before one of them. */
  lemma BatchIsOldest(rows: map<Id, EpisodicMemory>, tenant: TenantId)
    ensures var batch := Batch(rows, tenant);
      && |batch| == (if |Eligible(rows, tenant)| < 20 then |Eligible(rows, tenant)| else 20)
      && InOrder(CreatedAt(rows), BY_ID, batch)
      && (forall id :: id in batch ==> IsEligible(rows, tenant, id))
      && (forall id, b :: b in batch && id !in batch && IsEligible(rows, tenant, id)
                          ==> |batch| == 20 && Ahead(CreatedAt(rows), BY_ID, b, id))
  {
    var all, batch := OldestFirst(rows, tenant), Batch(rows, tenant);
    OldestFirstIsOrdered(rows, tenant);
    assert forall i {:trigger all[i]} :: 0 <= i < |batch| ==> batch[i] == all[i];
    forall id, b | b in batch && id !in batch && IsEligible(rows, tenant, id)
      ensures |batch| == BATCH && Ahead(CreatedAt(rows), BY_ID, b, id)
    {
      var i :| 0 <= i < |batch| && batch[i] == b;
      assert id in all;
      var j :| 0 <= j < |all| && all[j] == id;
      assert i < |batch| <= j;
    }
  }

  // --- Grouping ------------------------------------------------------------------------

  function UserOf(rows: map<Id, EpisodicMemory>, id: Id): string {
    if id in rows then rows[id].user else ""
  }

  /** The memories of one user, in batch order. */
  function GroupOf(rows: map<Id, EpisodicMemory>, batch: seq<Id>, user: string): seq<Id> {
    if batch == [] then []
    else
      var before, id := GroupOf(rows, batch[..|batch| - 1], user), batch[|batch| - 1];
      if UserOf(rows, id) == user then before + [id] else before
  }

  /** The users of the batch, each at its first memory: the key order of the dictionary. */
  function UsersOf(rows: map<Id, EpisodicMemory>, batch: seq<Id>): (users: seq<string>)
    ensures forall i, j :: 0 <= i < j < |users| ==> users[i] != users[j]
    ensures forall id :: id in batch ==> UserOf(rows, id) in users
  {
    if batch == [] then []
    else
      var before := UsersOf(rows, batch[..|batch| - 1]);
      var user := UserOf(rows, batch[|batch| - 1]);
      if user in before then before else before + [user]
  }

  /** The dictionary entry of one user. */
  ghost predicate IsEntry(rows: map<Id, EpisodicMemory>, batch: seq<Id>, groups: map<string, seq<Id>>, user: string) {
    && (user in groups <==> user in UsersOf(rows, batch))
    && (user in groups ==> groups[user] == GroupOf(rows, batch, user))
  }

  /** The dictionary built from `batch`. */
  ghost predicate IsGrouping(rows: map<Id, EpisodicMemory>, batch: seq<Id>, groups: map<string, seq<Id>>) {
    forall user :: IsEntry(rows, batch, groups, user)
  }

  lemma {:induction false} OthersHaveNoGroup(rows: map<Id, EpisodicMemory>, batch: seq<Id>, user: string)
    requires user !in UsersOf(rows, batch)
    ensures GroupOf(rows, batch, user) == []
  {
    if batch != [] { OthersHaveNoGroup(rows, batch[..|batch| - 1], user); }
  }

  lemma GroupOfLonger(rows: map<Id, EpisodicMemory>, batch: seq<Id>, id: Id, user: string)
    ensures GroupOf(rows, batch + [id], user)
         == if UserOf(rows, id) == user then GroupOf(rows, batch, user) + [id] else GroupOf(rows, batch, user)
  {
    assert (batch + [id])[..|batch|] == batch;
  }

  lemma UsersOfLonger(rows: map<Id, EpisodicMemory>, batch: seq<Id>, id: Id)
    ensures UsersOf(rows, batch + [id])
         == if UserOf(rows, id) in UsersOf(rows, batch) then UsersOf(rows, batch)
            else UsersOf(rows, batch) + [UserOf(rows, id)]
  {
    assert (batch + [id])[..|batch|] == batch;
  }

  /** setdefault(user, []).append(id) */
  function Appended(groups: map<string, seq<Id>>, user: string, id: Id): map<string, seq<Id>> {
    groups[user := (if user in groups then groups[user] else []) + [id]]
  }

  lemma AppendedInTwoSteps(groups: map<string, seq<Id>>, user: string, id: Id)
    ensures user !in groups ==> groups[user := []][user := [] + [id]] == Appended(groups, user, id)
    ensures user in groups ==> groups[user := groups[user] + [id]] == Appended(groups, user, id)
  {
  }

  lemma EntryOneMore(rows: map<Id, EpisodicMemory>, batch: seq<Id>, id: Id, groups: map<string, seq<Id>>, u: string)
    requires IsEntry(rows, batch, groups, u)
    ensures IsEntry(rows, batch + [id], Appended(groups, UserOf(rows, id), id), u)
  {
    UsersOfLonger(rows, batch, id);
    GroupOfLonger(rows, batch, id, u);
    if u !in groups { OthersHaveNoGroup(rows, batch, u); }
  }

  lemma GroupOneMore(rows: map<Id, EpisodicMemory>, batch: seq<Id>, id: Id, groups: map<string, seq<Id>>)
    requires IsGrouping(rows, batch, groups)
    ensures IsGrouping(rows, batch + [id], Appended(groups, UserOf(rows, id), id))
  {
    forall u ensures IsEntry(rows, batch + [id], Appended(groups, UserOf(rows, id), id), u) {
      assert IsEntry(rows, batch, groups, u);
      EntryOneMore(rows, batch, id, groups, u);
    }
  }

  method GroupByUser(rows: map<Id, EpisodicMemory>, batch: seq<Id>)
    returns (users: seq<string>, groups: map<string, seq<Id>>)
    ensures users == UsersOf(rows, batch)
    ensures IsGrouping(rows, batch, groups)
  {
    users, groups := [], map[];
    for i := 0 to |batch|
      invariant users == UsersOf(rows, batch[..i])
      invariant IsGrouping(rows, batch[..i], groups)
    {
      var user := UserOf(rows, batch[i]);
      assert batch[..i + 1] == batch[..i] + [batch[i]];
      UsersOfLonger(rows, batch[..i], batch[i]);
      assert IsEntry(rows, batch[..i], groups, user);
      GroupOneMore(rows, batch[..i], batch[i], groups);
      AppendedInTwoSteps(groups, user, batch[i]);
      if user !in groups {
        users := users + [user];
        groups := groups[user := []];
      }
      groups := groups[user := groups[user] + [batch[i]]];
    }
    assert batch[..|batch|] == batch;
  }

  /** `sub` is `whole` with some elements left out. */
  predicate IsSubsequence(sub: seq<Id>, whole: seq<Id>) {
    if sub == [] then true
    else if whole == [] then false
    else if sub[|sub| - 1] == whole[|whole| - 1] then IsSubsequence(sub[..|sub| - 1], whole[..|whole| - 1])
    else IsSubsequence(sub, whole[..|whole| - 1])
  }

  /** The groups partition the batch: a memory is in its own user's group and in no other,
      as often as in the batch. */
  lemma {:induction false} GroupsPartitionBatch(rows: map<Id, EpisodicMemory>, batch: seq<Id>, user: string, id: Id)
    ensures multiset(GroupOf(rows, batch, user))[id] ==
            if UserOf(rows, id) == user then multiset(batch)[id] else 0
  {
    if batch != [] {
      var before, last := batch[..|batch| - 1], batch[|batch| - 1];
      GroupsPartitionBatch(rows, before, user, id);
      assert batch == before + [last];
    }
  }

  /** Each group keeps the batch's order. */
  lemma {:induction false} GroupsKeepOrder(rows: map<Id, EpisodicMemory>, batch: seq<Id>, user: string)
    ensures IsSubsequence(GroupOf(rows, batch, user), batch)
  {
    if batch != [] {
      var before, last := batch[..|batch| - 1], batch[|batch| - 1];
      var group := GroupOf(rows, before, user);
      GroupsKeepOrder(rows, before, user);
      if UserOf(rows, last) == user {
        assert (group + [last])[..|group|] == group;
      } else {
        GroupMembers(rows, before, user);
        assert group == [] || group[|group| - 1] in group;
      }
    }
  }

  lemma {:induction false} GroupMembers(rows: map<Id, EpisodicMemory>, batch: seq<Id>, user: string)
    ensures forall id :: id in GroupOf(rows, batch, user) ==> id in batch && UserOf(rows, id) == user
  {
    if batch != [] { GroupMembers(rows, batch[..|batch| - 1], user); }
  }

  // --- One group -----------------------------------------------------------------------

  function Contents(rows: map<Id, EpisodicMemory>, ids: seq<Id>): (r: seq<string>)
    ensures |r| == |ids|
  {
    if ids == [] then []
    else [if ids[0] in rows then rows[ids[0]].content else ""] + Contents(rows, ids[1..])
  }

  function Bulleted(contents: seq<string>): seq<string> {
    if contents == [] then [] else ["- " + contents[0]] + Bulleted(contents[1..])
  }

  function Trimmed(contents: seq<string>): seq<string> {
    if contents == [] then [] else [RightStripDots(Strip(contents[0]))] + Trimmed(contents[1..])
  }

  function TotalLength(contents: seq<string>): nat {
    if contents == [] then 0 else |contents[0]| + TotalLength(contents[1..])
  }

  function CombinedText(contents: seq<string>): string {
    Join("\n", Bulleted(contents))
  }

  // --- Which contents share a hashed text ------------------------------------------------

  /** What separates two contents in the hashed text. */
  const MARK: string := "\n- "

  predicate AtMark(c: string) { |c| >= 3 && c[0] == MARK[0] && c[1] == MARK[1] && c[2] == MARK[2] }

  predicate HasMark(c: string) { exists k :: 0 <= k < |c| && AtMark(c[k..]) }

  /** The content split at every mark in it. */
  function Items(c: string): (r: seq<string>)
    ensures r != []
    decreases |c|
  {
    if c == [] then [""]
    else if AtMark(c) then [""] + Items(c[3..])
    else Prefixed(c[0], Items(c[1..]))
  }

  function Prefixed(x: char, parts: seq<string>): seq<string>
    requires parts != []
  {
    [[x] + parts[0]] + parts[1..]
  }

  function AllItems(contents: seq<string>): seq<string> {
    if contents == [] then [] else Items(contents[0]) + AllItems(contents[1..])
  }

  lemma JoinPrefixed(x: char, parts: seq<string>)
    requires parts != []
    ensures Join(MARK, Prefixed(x, parts)) == [x] + Join(MARK, parts)
  {
    if |parts| > 1 {
      assert [x] + (parts[0] + MARK + Join(MARK, parts[1..])) == ([x] + parts[0]) + MARK + Join(MARK, parts[1..]);
    }
  }

  lemma {:induction false} JoinItems(c: string)
    ensures Join(MARK, Items(c)) == c
    decreases |c|
  {
    if c != [] {
      if AtMark(c) {
        JoinItems(c[3..]);
        assert ([""] + Items(c[3..]))[1..] == Items(c[3..]);
        assert c == "" + MARK + c[3..];
      } else {
        JoinItems(c[1..]);
        JoinPrefixed(c[0], Items(c[1..]));
      }
    }
  }

  lemma PrefixedBefore(x: char, parts: seq<string>, more: seq<string>)
    requires parts != []
    ensures Prefixed(x, parts + more) == Prefixed(x, parts) + more
  {
    assert (parts + more)[1..] == parts[1..] + more;
  }

  /** A mark put between two contents makes no other mark with what is next to it. */
  lemma MarksStayApart(a: string, b: string)
    requires a != []
    ensures AtMark(a + MARK + b) <==> AtMark(a)
  {
  }

  lemma {:induction false} ItemsOfBoth(a: string, b: string)
    ensures Items(a + MARK + b) == Items(a) + Items(b)
    decreases |a|
  {
    var t := a + MARK + b;
    if a == [] {
      ItemsAtMark(t, b);
      assert Items(a) == [""];
    } else {
      MarksStayApart(a, b);
      if AtMark(a) {
        ItemsOfBoth(a[3..], b);
        ItemsAtMark(a, a[3..]);
        ItemsAtMark(t, a[3..] + MARK + b);
      } else {
        ItemsOfBoth(a[1..], b);
        ItemsElsewhere(t, a[1..] + MARK + b);
        PrefixedBefore(a[0], Items(a[1..]), Items(b));
      }
    }
  }

  lemma ItemsAtMark(t: string, rest: string)
    requires AtMark(t) && |t| == 3 + |rest| && t[3..] == rest
    ensures Items(t) == [""] + Items(rest)
  {
  }

  lemma ItemsElsewhere(t: string, rest: string)
    requires t != [] && !AtMark(t) && t[1..] == rest
    ensures Items(t) == Prefixed(t[0], Items(rest))
  {
  }

  lemma {:induction false} ItemsOfJoin(contents: seq<string>)
    requires contents != []
    ensures Items(Join(MARK, contents)) == AllItems(contents)
  {
    if |contents| == 1 {
      assert AllItems(contents[1..]) == [];
    } else {
      ItemsOfJoin(contents[1..]);
      ItemsOfBoth(contents[0], Join(MARK, contents[1..]));
    }
  }

  lemma {:induction false} CombinedTextIsJoin(contents: seq<string>)
    requires contents != []
    ensures CombinedText(contents) == "- " + Join(MARK, contents)
  {
    assert Bulleted(contents)[1..] == Bulleted(contents[1..]);
    if |contents| > 1 {
      CombinedTextIsJoin(contents[1..]);
      BulletAndMark(contents[0], Join(MARK, contents[1..]));
    }
  }

  lemma BulletAndMark(a: string, b: string)
    ensures ("- " + a) + "\n" + ("- " + b) == "- " + (a + MARK + b)
  {
  }

  /** Two lists of contents are hashed as one text exactly when they are the same once every
      content is split at the marks in it. */
  lemma SameTextIff(cs: seq<string>, ds: seq<string>)
    requires cs != [] && ds != []
    ensures CombinedText(cs) == CombinedText(ds) <==> AllItems(cs) == AllItems(ds)
  {
    CombinedTextIsJoin(cs);
    CombinedTextIsJoin(ds);
    ItemsOfJoin(cs);
    ItemsOfJoin(ds);
    JoinItems(Join(MARK, cs));
    JoinItems(Join(MARK, ds));
    assert CombinedText(cs)[2..] == Join(MARK, cs) && CombinedText(ds)[2..] == Join(MARK, ds);
  }

  lemma {:induction false} ItemsOfPlain(c: string)
    requires !HasMark(c)
    ensures Items(c) == [c]
    decreases |c|
  {
    if c != [] {
      assert c[0..] == c;
      forall k | 0 <= k < |c[1..]| ensures !AtMark(c[1..][k..]) { assert c[1..][k..] == c[k + 1..]; }
      ItemsOfPlain(c[1..]);
      assert [c[0]] + c[1..] == c;
    }
  }

  lemma {:induction false} AllItemsOfPlain(contents: seq<string>)
    requires forall c :: c in contents ==> !HasMark(c)
    ensures AllItems(contents) == contents
  {
    if contents != [] {
      ItemsOfPlain(contents[0]);
      AllItemsOfPlain(contents[1..]);
    }
  }

  /** So contents with no mark in them are told apart by their text. */
  lemma PlainTextIsUnique(cs: seq<string>, ds: seq<string>)
    requires cs != [] && ds != [] && forall c :: c in cs || c in ds ==> !HasMark(c)
    ensures CombinedText(cs) == CombinedText(ds) <==> cs == ds
  {
    SameTextIff(cs, ds);
    AllItemsOfPlain(cs);
    AllItemsOfPlain(ds);
  }

  lemma FirstOfBoth(c: string, cs: seq<string>, ds: seq<string>)
    requires AllItems(cs + ds) == AllItems(cs) + AllItems(ds)
    ensures AllItems([c] + cs + ds) == AllItems([c] + cs) + AllItems(ds)
  {
    assert ([c] + cs + ds)[1..] == cs + ds && ([c] + cs)[1..] == cs;
  }

  lemma {:induction false} AllItemsOfBoth(cs: seq<string>, ds: seq<string>)
    ensures AllItems(cs + ds) == AllItems(cs) + AllItems(ds)
  {
    if cs == [] {
      assert cs + ds == ds;
    } else {
      AllItemsOfBoth(cs[1..], ds);
      FirstOfBoth(cs[0], cs[1..], ds);
      assert [cs[0]] + cs[1..] == cs;
    }
  }

  lemma AllItemsOfTwo(c: string, d: string)
    ensures AllItems([c, d]) == Items(c) + Items(d) && AllItems([c]) == Items(c)
  {
    assert [c, d][1..] == [d];
    assert AllItems([d]) == Items(d) + AllItems([]);
    assert AllItems([c]) == Items(c) + AllItems([]);
  }

  /** And any content with a mark in it, wherever it stands, is taken for the two it falls into. */
  lemma MarkedTextIsShared(before: seq<string>, c: string, after: seq<string>, k: nat)
    requires k < |c| && AtMark(c[k..])
    ensures CombinedText(before + [c] + after) == CombinedText(before + [c[..k], c[k + 3..]] + after)
  {
    var cs, ds := before + [c] + after, before + [c[..k], c[k + 3..]] + after;
    assert c[k..][3..] == c[k + 3..];
    assert c == c[..k] + MARK + c[k + 3..];
    ItemsOfBoth(c[..k], c[k + 3..]);
    AllItemsOfTwo(c, "");
    AllItemsOfTwo(c[..k], c[k + 3..]);
    AllItemsOfBoth(before + [c], after);
    AllItemsOfBoth(before, [c]);
    AllItemsOfBoth(before + [c[..k], c[k + 3..]], after);
    AllItemsOfBoth(before, [c[..k], c[k + 3..]]);
    SameTextIff(cs, ds);
  }

  // --- Logs and facts ----------------------------------------------------------------------

  /** `_synthesize_memories` */
  function Synthesized(contents: seq<string>): string {
    "Consolidated Agent Observation: " + Join("; ", Trimmed(contents)) + "."
  }

  /** round(max(compressed, 1) / max(original, 1), 2), in hundredths */
  function Ratio(compressed: nat, original: nat): int {
    RoundHalfEven(100.0 * (if compressed < 1 then 1 else compressed) as real
                  / (if original < 1 then 1 else original) as real)
  }

  function NewFact(db: Tables, tenant: TenantId, user: string, group: seq<Id>, now: Time): SemanticMemory
    requires group != []
  {
    SemanticMemory(tenant, user, Synthesized(Contents(db.episodic, group)), COMPRESSED_IMPORTANCE,
                   COMPRESSED_CONFIDENCE, Some(group[0]), 0, false, None, now)
  }

  function GroupHash(db: Tables, sha: Hash, group: seq<Id>): string {
    sha(CombinedText(Contents(db.episodic, group)))
  }

  function NewLog(db: Tables, sha: Hash, tenant: TenantId, group: seq<Id>, resulting: Option<Id>): CompressionLog {
    var contents := Contents(db.episodic, group);
    var text := Synthesized(contents);
    CompressionLog(tenant, group, GroupHash(db, sha, group), text, Ratio(|text|, TotalLength(contents)),
                   resulting, Completed)
  }

  /** The group has work to do: two memories or more, and no log of any tenant with its hash. */
  predicate NeedsWork(db: Tables, sha: Hash, group: seq<Id>) {
    |group| >= 2 && !HashLogged(db, GroupHash(db, sha, group))
  }

  predicate HashLogged(db: Tables, hash: string) {
    exists i :: 0 <= i < |db.compressions| && db.compressions[i].hash == hash
  }

  function WithGroup(db: Tables, sha: Hash, tenant: TenantId, user: string, group: seq<Id>, id: Id, now: Time): Tables
    requires group != []
  {
    db.(semantic := db.semantic[id := NewFact(db, tenant, user, group, now)],
        compressions := db.compressions + [NewLog(db, sha, tenant, group, Some(id))])
  }

  function CompressedPoint(tenant: TenantId, user: string): Point {
    Point(tenant, user, Semantic, COMPRESSED_IMPORTANCE)
  }

  /** The store after one group that needs work. */
  function GroupDone(s: State, sha: Hash, tenant: TenantId, user: string, group: seq<Id>, now: Time,
                     fault: GroupFault): State
    requires group != []
  {
    State(if fault.Smooth? || fault.committed then WithGroup(s.db, sha, tenant, user, group, s.nextId, now) else s.db,
          if fault.landed then s.index[s.nextId := CompressedPoint(tenant, user)] else s.index,
          s.nextId + 1)
  }

  function GroupsDone(s: State, sha: Hash, tenant: TenantId, batch: seq<Id>, users: seq<string>, now: Time,
                      faults: Faults): State
    decreases |users|
  {
    if users == [] then s
    else
      var group := GroupOf(s.db.episodic, batch, users[0]);
      if !NeedsWork(s.db, sha, group) then GroupsDone(s, sha, tenant, batch, users[1..], now, faults)
      else
        var fault := FaultFor(faults, users[0]);
        var next := GroupDone(s, sha, tenant, users[0], group, now, fault);
        if fault.Crash? then next else GroupsDone(next, sha, tenant, batch, users[1..], now, faults)
  }

  function Compressed(s: State, sha: Hash, tenant: TenantId, now: Time, faults: Faults): State {
    var batch := Batch(s.db.episodic, tenant);
    if |batch| < 3 then s
    else GroupsDone(s, sha, tenant, batch, UsersOf(s.db.episodic, batch), now, faults)
  }

  lemma GroupKeepsKeys(db: Tables, sha: Hash, tenant: TenantId, user: string, group: seq<Id>, id: Id, now: Time)
    requires KeysHold(db) && group != []
    ensures KeysHold(WithGroup(db, sha, tenant, user, group, id, now))
  {
  }

  /** No group that needs work crashes. */
  predicate GroupsComplete(s: State, sha: Hash, tenant: TenantId, batch: seq<Id>, users: seq<string>, now: Time,
                           faults: Faults)
    decreases |users|
  {
    if users == [] then true
    else
      var group := GroupOf(s.db.episodic, batch, users[0]);
      if !NeedsWork(s.db, sha, group) then GroupsComplete(s, sha, tenant, batch, users[1..], now, faults)
      else
        var fault := FaultFor(faults, users[0]);
        fault.Smooth? && GroupsComplete(GroupDone(s, sha, tenant, users[0], group, now, fault), sha, tenant, batch,
                                        users[1..], now, faults)
  }

  predicate Completes(s: State, sha: Hash, tenant: TenantId, now: Time, faults: Faults) {
    var batch := Batch(s.db.episodic, tenant);
    |batch| < 3 || GroupsComplete(s, sha, tenant, batch, UsersOf(s.db.episodic, batch), now, faults)
  }

  /** One group's transaction; `crashed` ends the worker. */
  method CompressGroup(st: Stores, sha: Hash, tenant: TenantId, user: string, group: seq<Id>, now: Time,
                       fault: GroupFault) returns (crashed: bool)
    requires st.Idle() && group != []
    modifies st
    ensures st.Idle() && st.Now() == GroupDone(old(st.Now()), sha, tenant, user, group, now, fault)
    ensures crashed == fault.Crash?
  {
    ghost var db := st.session;
    var contents := Contents(st.session.episodic, group);
    var hash := sha(CombinedText(contents));
    var log := CompressionLog(tenant, group, hash, "", 0, None, Running);
    st.session := st.session.(compressions := st.session.compressions + [log]);
    var text := Synthesized(contents);
    var ratio := Ratio(|text|, TotalLength(contents));
    var id := st.FreshId();
    var fact := SemanticMemory(tenant, user, text, COMPRESSED_IMPORTANCE, COMPRESSED_CONFIDENCE, Some(group[0]),
                               0, false, None, now);
    st.session := st.session.(semantic := st.session.semantic[id := fact]);
    var _ := st.UpsertPoint(id, Point(tenant, user, Semantic, COMPRESSED_IMPORTANCE),
                            if fault.landed then Done else Refused);
    assert MayName(st.session, id);
    var last := |st.session.compressions| - 1;
    log := log.(resulting := Some(id), compressed := text, ratio := ratio, status := Completed);
    st.session := st.session.(compressions := st.session.compressions[last := log]);
    assert st.session.compressions == db.compressions + [log];
    GroupKeepsKeys(db, sha, tenant, user, group, id, now);
    var ok := st.Commit(if fault.Smooth? then Done else if fault.committed then Lost else Refused);
    crashed := !ok;
  }

  lemma GroupsDoneFrom(s: State, sha: Hash, tenant: TenantId, batch: seq<Id>, users: seq<string>, i: nat, now: Time,
                       faults: Faults)
    requires i < |users|
    ensures var group := GroupOf(s.db.episodic, batch, users[i]);
      GroupsDone(s, sha, tenant, batch, users[i..], now, faults) ==
      if !NeedsWork(s.db, sha, group) then GroupsDone(s, sha, tenant, batch, users[i + 1..], now, faults)
      else
        var next := GroupDone(s, sha, tenant, users[i], group, now, FaultFor(faults, users[i]));
        if FaultFor(faults, users[i]).Crash? then next
        else GroupsDone(next, sha, tenant, batch, users[i + 1..], now, faults)
  {
    assert users[i..][0] == users[i] && users[i..][1..] == users[i + 1..];
  }

  lemma GroupsCompleteFrom(s: State, sha: Hash, tenant: TenantId, batch: seq<Id>, users: seq<string>, i: nat, now: Time,
                           faults: Faults)
    requires i < |users|
    ensures var group := GroupOf(s.db.episodic, batch, users[i]);
      GroupsComplete(s, sha, tenant, batch, users[i..], now, faults) ==
      if !NeedsWork(s.db, sha, group) then GroupsComplete(s, sha, tenant, batch, users[i + 1..], now, faults)
      else
        var fault := FaultFor(faults, users[i]);
        fault.Smooth? && GroupsComplete(GroupDone(s, sha, tenant, users[i], group, now, fault), sha, tenant, batch,
                                        users[i + 1..], now, faults)
  {
    assert users[i..][0] == users[i] && users[i..][1..] == users[i + 1..];
  }

  method CompressTenantMemories(st: Stores, sha: Hash, tenant: TenantId, now: Time, faults: Faults)
    returns (completed: bool)
    requires st.Idle()
    modifies st
    ensures st.Idle() && st.Now() == Compressed(old(st.Now()), sha, tenant, now, faults)
    ensures completed == Completes(old(st.Now()), sha, tenant, now, faults)
  {
    var batch := Batch(st.session.episodic, tenant);
    if |batch| < 3 { return true; }
    ghost var rows := st.session.episodic;
    var users, groups := GroupByUser(st.session.episodic, batch);
    completed := CompressGroups(st, sha, tenant, batch, users, groups, now, faults);
  }

  method CompressGroups(st: Stores, sha: Hash, tenant: TenantId, batch: seq<Id>, users: seq<string>,
                        groups: map<string, seq<Id>>, now: Time, faults: Faults) returns (completed: bool)
    requires st.Idle() && IsGrouping(st.session.episodic, batch, groups) && users == UsersOf(st.session.episodic, batch)
    modifies st
    ensures st.Idle() && st.Now() == GroupsDone(old(st.Now()), sha, tenant, batch, users, now, faults)
    ensures completed == GroupsComplete(old(st.Now()), sha, tenant, batch, users, now, faults)
  {
    ghost var rows := st.session.episodic;
    for i := 0 to |users|
      invariant st.Idle() && st.committed.episodic == rows
      invariant GroupsDone(old(st.Now()), sha, tenant, batch, users, now, faults)
             == GroupsDone(st.Now(), sha, tenant, batch, users[i..], now, faults)
      invariant GroupsComplete(old(st.Now()), sha, tenant, batch, users, now, faults)
             == GroupsComplete(st.Now(), sha, tenant, batch, users[i..], now, faults)
    {
      var user := users[i];
      assert IsEntry(rows, batch, groups, user);
      var group := groups[user];
      GroupsDoneFrom(st.Now(), sha, tenant, batch, users, i, now, faults);
      GroupsCompleteFrom(st.Now(), sha, tenant, batch, users, i, now, faults);
      if |group| < 2 || HashLogged(st.session, sha(CombinedText(Contents(st.session.episodic, group)))) {
        continue;
      }
      var crashed := CompressGroup(st, sha, tenant, user, group, now, FaultFor(faults, user));
      if crashed { return false; }
    }
    return true;
  }

  // --- What a compressed fact says -------------------------------------------------------------

  /** `p` is the content without the white space around it and the dots at its end. */
  ghost predicate IsCore(content: string, p: string) {
    exists lead, dots, tail ::
      && content == lead + p + dots + tail && AllSpace(lead) && AllDots(dots) && AllSpace(tail)
      && (p == "" || (!IsSpace(p[0]) && p[|p| - 1] != '.')) && (dots == "" && p != "" ==> !IsSpace(p[|p| - 1]))
  }

  /** The text is these parts with "; " between them and a full stop at the end. */
  predicate ReadsAs(text: string, parts: seq<string>)
    decreases |parts|
  {
    parts != [] &&
    if |parts| == 1 then text == parts[0] + "."
    else
      var next := |parts[0]| + 2;
      next <= |text| && text[..next] == parts[0] + "; " && ReadsAs(text[next..], parts[1..])
  }

  predicate NoSeparator(p: string) {
    forall k {:trigger p[k]} :: 0 <= k < |p| - 1 ==> !(p[k] == ';' && p[k + 1] == ' ')
  }

  lemma LongerHoldsSeparator(text: string, p: string, q: string)
    requires |p| + 2 <= |text| && text[..|p| + 2] == p + "; "
    requires |q| + 2 <= |text| && text[..|q| + 2] == q + "; " && |q| < |p|
    ensures !NoSeparator(p)
  {
    assert text[|q|] == text[..|q| + 2][|q|] == ';' && text[|q| + 1] == text[..|q| + 2][|q| + 1] == ' ';
    assert text[|p|] == text[..|p| + 2][|p|] == ';';
    assert forall k :: 0 <= k < |p| ==> p[k] == text[..|p| + 2][k] == text[k];
    assert |q| + 1 < |p|;
    assert p[|q|] == ';';
  }

  lemma LastHoldsSeparator(text: string, p: string, q: string)
    requires text == p + "." && |q| + 2 <= |text| && text[..|q| + 2] == q + "; "
    ensures !NoSeparator(p)
  {
    assert text[|q|] == text[..|q| + 2][|q|] == ';' && text[|q| + 1] == text[..|q| + 2][|q| + 1] == ' ';
    assert |q| + 1 < |p|;
    assert p[|q|] == ';';
  }

  /** Parts that hold no "; " can be read back from the text. */
  lemma {:induction false} PartsCanBeReadBack(text: string, ps: seq<string>, qs: seq<string>)
    requires ReadsAs(text, ps) && ReadsAs(text, qs)
    requires forall p :: p in ps || p in qs ==> NoSeparator(p)
    ensures ps == qs
    decreases |ps|
  {
    assert ps[0] in ps && qs[0] in qs;
    if |ps| == 1 && |qs| > 1 {
      LastHoldsSeparator(text, ps[0], qs[0]);
    } else if |ps| > 1 && |qs| == 1 {
      LastHoldsSeparator(text, qs[0], ps[0]);
    } else if |ps| > 1 && |qs[0]| < |ps[0]| {
      LongerHoldsSeparator(text, ps[0], qs[0]);
    } else if |ps| > 1 && |ps[0]| < |qs[0]| {
      LongerHoldsSeparator(text, qs[0], ps[0]);
    } else if |ps| > 1 {
      var next := |ps[0]| + 2;
      assert text[..next][..|ps[0]|] == ps[0] && text[..next][..|ps[0]|] == qs[0];
      PartsCanBeReadBack(text[next..], ps[1..], qs[1..]);
      assert ps == [ps[0]] + ps[1..] && qs == [qs[0]] + qs[1..];
    } else {
      assert ps[0] == text[..|text| - 1] == qs[0];
    }
  }

  lemma CoreOfContent(content: string)
    ensures IsCore(content, RightStripDots(Strip(content)))
  {
    var lead, tail := StripParts(content);
    var stripped := Strip(content);
    var dots := DotsStripped(stripped);
    var p := RightStripDots(stripped);
    assert content == lead + p + dots + tail;
    if p != "" { assert p[0] == stripped[0]; }
  }

  lemma {:induction false} JoinReadsAs(parts: seq<string>)
    requires parts != []
    ensures ReadsAs(Join("; ", parts) + ".", parts)
  {
    if |parts| > 1 {
      JoinReadsAs(parts[1..]);
      var text, next := Join("; ", parts) + ".", |parts[0]| + 2;
      assert text == (parts[0] + "; ") + (Join("; ", parts[1..]) + ".");
      assert text[..next] == parts[0] + "; " && text[next..] == Join("; ", parts[1..]) + ".";
    }
  }

  /** The parts are the cores of the contents, in order. */
  ghost predicate AreCores(contents: seq<string>, parts: seq<string>) {
    |parts| == |contents| && forall i :: 0 <= i < |parts| ==> IsCore(contents[i], parts[i])
  }

  lemma {:induction false} TrimmedAreCores(contents: seq<string>)
    ensures AreCores(contents, Trimmed(contents))
  {
    if contents != [] {
      TrimmedAreCores(contents[1..]);
      CoreOfContent(contents[0]);
      forall i | 0 <= i < |contents| ensures IsCore(contents[i], Trimmed(contents)[i]) {
        if i > 0 {
          assert contents[1..][i - 1] == contents[i] && Trimmed(contents)[i] == Trimmed(contents[1..])[i - 1];
        }
      }
    }
  }

  /** The text names every memory of the group in its order, each by the core of its content. */
  ghost predicate Summarizes(text: string, rows: map<Id, EpisodicMemory>, group: seq<Id>) {
    exists rest, parts ::
      && text == "Consolidated Agent Observation: " + rest && ReadsAs(rest, parts) && |parts| == |group|
      && forall i :: 0 <= i < |group| ==> group[i] in rows && IsCore(rows[group[i]].content, parts[i])
  }

  lemma {:induction false} ContentsAt(rows: map<Id, EpisodicMemory>, ids: seq<Id>, i: nat)
    requires i < |ids| && forall id :: id in ids ==> id in rows
    ensures Contents(rows, ids)[i] == rows[ids[i]].content
  {
    if i > 0 { ContentsAt(rows, ids[1..], i - 1); }
  }

  lemma SynthesizedSummarizes(rows: map<Id, EpisodicMemory>, group: seq<Id>)
    requires group != [] && forall id :: id in group ==> id in rows
    ensures Summarizes(Synthesized(Contents(rows, group)), rows, group)
  {
    var contents := Contents(rows, group);
    var parts := Trimmed(contents);
    TrimmedAreCores(contents);
    JoinReadsAs(parts);
    assert Synthesized(contents) == "Consolidated Agent Observation: " + (Join("; ", parts) + ".");
    forall i | 0 <= i < |group| ensures group[i] in rows && IsCore(rows[group[i]].content, parts[i]) {
      ContentsAt(rows, group, i);
    }
  }

  function LengthOf(rows: map<Id, EpisodicMemory>, ids: seq<Id>): nat {
    if ids == [] then 0 else (if ids[0] in rows then |rows[ids[0]].content| else 0) + LengthOf(rows, ids[1..])
  }

  lemma {:induction false} TotalIsLength(rows: map<Id, EpisodicMemory>, ids: seq<Id>)
    ensures TotalLength(Contents(rows, ids)) == LengthOf(rows, ids)
  {
    if ids != [] { TotalIsLength(rows, ids[1..]); }
  }

  /** The fact: its owner's, naming the group, of importance 0.75 and confidence 0.85, live. */
  ghost predicate IsCompression(fact: SemanticMemory, rows: map<Id, EpisodicMemory>, tenant: TenantId, user: string,
                                group: seq<Id>, now: Time)
  {
    && group != [] && fact.tenant == tenant && fact.user == user && Summarizes(fact.content, rows, group)
    && fact.importance == 750 && fact.confidence == 0.85 && fact.source == Some(group[0])
    && fact.accessCount == 0 && !fact.superseded && fact.supersededBy == None && fact.createdAt == now
  }

  /** Its log: done, with the sources, the same text, and its share of their length, to a hundredth. */
  ghost predicate IsLogOf(log: CompressionLog, fact: SemanticMemory, id: Id, rows: map<Id, EpisodicMemory>,
                          group: seq<Id>)
  {
    && log.tenant == fact.tenant && log.sources == group && log.compressed == fact.content
    && log.resulting == Some(id) && log.status == Completed
    && var share := 100.0 * (if |fact.content| == 0 then 1 else |fact.content|) as real
                    / (if LengthOf(rows, group) == 0 then 1 else LengthOf(rows, group)) as real;
       -0.5 <= log.ratio as real - share <= 0.5
  }

  lemma NewFactIsCompression(db: Tables, tenant: TenantId, user: string, group: seq<Id>, now: Time)
    requires group != [] && forall id :: id in group ==> id in db.episodic
    ensures IsCompression(NewFact(db, tenant, user, group, now), db.episodic, tenant, user, group, now)
  {
    SynthesizedSummarizes(db.episodic, group);
  }

  lemma NewLogIsOfFact(db: Tables, sha: Hash, tenant: TenantId, user: string, group: seq<Id>, id: Id, now: Time)
    requires group != []
    ensures IsLogOf(NewLog(db, sha, tenant, group, Some(id)), NewFact(db, tenant, user, group, now), id,
                    db.episodic, group)
    ensures NewLog(db, sha, tenant, group, Some(id)).hash == sha(CombinedText(Contents(db.episodic, group)))
  {
    TotalIsLength(db.episodic, group);
  }

  /** One such fact with its log is added, and nothing else. */
  ghost predicate AddsCompression(db: Tables, db': Tables, sha: Hash, tenant: TenantId, user: string, group: seq<Id>,
                                  id: Id, now: Time)
  {
    && id in db'.semantic && |db'.compressions| == |db.compressions| + 1
    && var fact, log := db'.semantic[id], db'.compressions[|db.compressions|];
       && IsCompression(fact, db.episodic, tenant, user, group, now)
       && IsLogOf(log, fact, id, db.episodic, group)
       && log.hash == sha(CombinedText(Contents(db.episodic, group)))
       && db' == db.(semantic := db.semantic[id := fact], compressions := db.compressions + [log])
  }

  /** A group's transaction adds, if it commits, one such fact and its log, and nothing else; and
      the fact's point, if the call lands. */
  lemma GroupIsWritten(s: State, sha: Hash, tenant: TenantId, user: string, group: seq<Id>, now: Time,
                       fault: GroupFault)
    requires group != [] && forall id :: id in group ==> id in s.db.episodic
    ensures var s', id := GroupDone(s, sha, tenant, user, group, now, fault), s.nextId;
      && s'.nextId == id + 1
      && s'.index == (if fault.landed then s.index[id := Point(tenant, user, Semantic, 750)] else s.index)
      && if fault.Crash? && !fault.committed then s'.db == s.db
         else AddsCompression(s.db, s'.db, sha, tenant, user, group, id, now)
  {
    NewFactIsCompression(s.db, tenant, user, group, now);
    NewLogIsOfFact(s.db, sha, tenant, user, group, s.nextId, now);
  }
}
