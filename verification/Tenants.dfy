/** Tenants, their members and their invitations. Requests are serial, and a request that
    raises is rolled back. */
module Tenants {
  import opened Wrappers
  import opened Strings

  type TenantId = nat
  type UserId = nat
  /** The hash of an invitation token. */
  type Token = string
  type Time = int

  datatype Role = Admin | Member | ReadOnly

  datatype Membership = Membership(tenant: TenantId, user: UserId, role: Role)

  datatype Status = Pending | Accepted | Expired

  datatype Invite = Invite(tenant: TenantId, email: string, role: Role, status: Status, expiresAt: Time)

  /** What a request raises. `KeyViolated` is the database's own refusal: an id or token in
      use already, or a tenant that does not exist. */
  datatype Error =
    | SlugTaken | NotAuthorized | NotFound | LastAdmin | AlreadyMember | AlreadyInvited | NotPending | InviteExpired
    | KeyViolated

  const PAGE: nat := 50
  const WEEK: Time := 604_800_000_000

  /** The tables; `members` in the order in which they joined. */
  datatype Tables = Tables(
    slugs: map<string, TenantId>, users: map<string, UserId>, members: seq<Membership>, invites: map<Token, Invite>)

  // --- Queries -------------------------------------------------------------------------

  function RoleOf(members: seq<Membership>, t: TenantId, u: UserId): Option<Role> {
    if members == [] then None
    else if members[0].tenant == t && members[0].user == u then Some(members[0].role)
    else RoleOf(members[1..], t, u)
  }

  function OfTenant(members: seq<Membership>, t: TenantId): seq<Membership> {
    if members == [] then []
    else (if members[0].tenant == t then [members[0]] else []) + OfTenant(members[1..], t)
  }

  /** `get_tenant_members`: the first page only. */
  function Page(members: seq<Membership>, t: TenantId): seq<Membership> {
    var all := OfTenant(members, t);
    if |all| <= PAGE then all else all[..PAGE]
  }

  function Admins(members: seq<Membership>): nat {
    if members == [] then 0 else (if members[0].role == Admin then 1 else 0) + Admins(members[1..])
  }

  function WithRole(members: seq<Membership>, t: TenantId, u: UserId, role: Role): seq<Membership> {
    if members == [] then []
    else [if members[0].tenant == t && members[0].user == u then members[0].(role := role) else members[0]]
         + WithRole(members[1..], t, u, role)
  }

  function Without(members: seq<Membership>, t: TenantId, u: UserId): seq<Membership> {
    if members == [] then []
    else (if members[0].tenant == t && members[0].user == u then [] else [members[0]]) + Without(members[1..], t, u)
  }

  predicate PendingFor(db: Tables, t: TenantId, email: string) {
    exists k ::
      && k in db.invites && db.invites[k].tenant == t && db.invites[k].status == Pending
      && db.invites[k].email == Lower(email)
  }

  // --- Requests ------------------------------------------------------------------------

  datatype Request =
    | CreateTenant(slug: string, t: TenantId, creator: UserId)
    | UpdateRole(t: TenantId, target: UserId, role: Role, requester: UserId)
    | Remove(t: TenantId, target: UserId, requester: UserId)
    | CreateInvite(t: TenantId, email: string, role: Role, token: Token, now: Time)
    | Accept(token: Token, user: UserId, now: Time)

  /** Why the request is refused, if it is. */
  function Refusal(db: Tables, r: Request): Option<Error> {
    match r
    case CreateTenant(slug, t, _) =>
      if slug in db.slugs then Some(SlugTaken)
      else if t in db.slugs.Values then Some(KeyViolated)
      else None
    case UpdateRole(t, target, role, requester) =>
      if RoleOf(db.members, t, requester) != Some(Admin) then Some(NotAuthorized)
      else if RoleOf(db.members, t, target).None? then Some(NotFound)
      else if RoleOf(db.members, t, target) == Some(Admin) && role != Admin && Admins(Page(db.members, t)) <= 1
          then Some(LastAdmin)
      else None
    case Remove(t, target, requester) =>
      if RoleOf(db.members, t, requester).None? then Some(NotAuthorized)
      else if target != requester && RoleOf(db.members, t, requester) != Some(Admin) then Some(NotAuthorized)
      else if RoleOf(db.members, t, target).None? then Some(NotFound)
      else if RoleOf(db.members, t, target) == Some(Admin) && Admins(Page(db.members, t)) <= 1 then Some(LastAdmin)
      else None
    case CreateInvite(t, email, _, token, _) =>
      if Lower(email) in db.users && RoleOf(db.members, t, db.users[Lower(email)]).Some? then Some(AlreadyMember)
      else if PendingFor(db, t, email) then Some(AlreadyInvited)
      else if t !in db.slugs.Values || token in db.invites then Some(KeyViolated)
      else None
    case Accept(token, user, now) =>
      if token !in db.invites then Some(NotFound)
      else if db.invites[token].status != Pending then Some(NotPending)
      else if db.invites[token].expiresAt < now then Some(InviteExpired)
      else if RoleOf(db.members, db.invites[token].tenant, user).Some? then Some(KeyViolated)
      else None
  }

  function Done(db: Tables, r: Request): Tables {
    match r
    case CreateTenant(slug, t, creator) =>
      db.(slugs := db.slugs[slug := t], members := db.members + [Membership(t, creator, Admin)])
    case UpdateRole(t, target, role, _) => db.(members := WithRole(db.members, t, target, role))
    case Remove(t, target, _) => db.(members := Without(db.members, t, target))
    case CreateInvite(t, email, role, token, now) =>
      db.(invites := db.invites[token := Invite(t, Lower(email), role, Pending, now + WEEK)])
    case Accept(token, user, _) =>
      if token !in db.invites then db
      else
        var invite := db.invites[token];
        db.(members := db.members + [Membership(invite.tenant, user, invite.role)],
            invites := db.invites[token := invite.(status := Accepted)])
  }

  /** A refused request leaves no trace: even an expired invitation's change of status is
      rolled back with the exception that reports it. */
  function After(db: Tables, r: Request): Tables {
    if Refusal(db, r).Some? then db else Done(db, r)
  }

  class TenantService {
    var db: Tables
    /** The transaction's view. */
    var session: Tables

    constructor (users: map<string, UserId>)
      ensures db == session == Tables(map[], users, [], map[])
    {
      db := Tables(map[], users, [], map[]);
      session := Tables(map[], users, [], map[]);
    }

    method CreateTenant(slug: string, t: TenantId, creator: UserId) returns (e: Option<Error>)
      requires session == db
      modifies this
      ensures session == db == After(old(db), Request.CreateTenant(slug, t, creator))
      ensures e == Refusal(old(db), Request.CreateTenant(slug, t, creator))
    {
      if slug in session.slugs { return Some(SlugTaken); }
      if t in session.slugs.Values { return Some(KeyViolated); }
      session := session.(slugs := session.slugs[slug := t]);
      session := session.(members := session.members + [Membership(t, creator, Admin)]);
      db := session;
      return None;
    }

    method CountAdmins(t: TenantId) returns (n: nat)
      ensures n == Admins(Page(session.members, t))
    {
      var page := Page(session.members, t);
      n := 0;
      for i := 0 to |page|
        invariant n + Admins(page[i..]) == Admins(page)
      {
        assert page[i..][1..] == page[i + 1..];
        if page[i].role == Admin { n := n + 1; }
      }
    }

    method UpdateMemberRole(t: TenantId, target: UserId, role: Role, requester: UserId) returns (e: Option<Error>)
      requires session == db
      modifies this
      ensures session == db == After(old(db), UpdateRole(t, target, role, requester))
      ensures e == Refusal(old(db), UpdateRole(t, target, role, requester))
    {
      var asking := RoleOf(session.members, t, requester);
      if asking.None? || asking.value != Admin { return Some(NotAuthorized); }
      var current := RoleOf(session.members, t, target);
      if current.None? { return Some(NotFound); }
      if current.value == Admin && role != Admin {
        var admins := CountAdmins(t);
        if admins <= 1 { return Some(LastAdmin); }
      }
      session := session.(members := WithRole(session.members, t, target, role));
      db := session;
      return None;
    }

    method RemoveMember(t: TenantId, target: UserId, requester: UserId) returns (e: Option<Error>)
      requires session == db
      modifies this
      ensures session == db == After(old(db), Remove(t, target, requester))
      ensures e == Refusal(old(db), Remove(t, target, requester))
    {
      var asking := RoleOf(session.members, t, requester);
      if asking.None? { return Some(NotAuthorized); }
      if target != requester && asking.value != Admin { return Some(NotAuthorized); }
      var current := RoleOf(session.members, t, target);
      if current.None? { return Some(NotFound); }
      if current.value == Admin {
        var admins := CountAdmins(t);
        if admins <= 1 { return Some(LastAdmin); }
      }
      session := session.(members := Without(session.members, t, target));
      db := session;
      return None;
    }

    method InviteByEmail(t: TenantId, email: string, role: Role, token: Token, now: Time) returns (e: Option<Error>)
      requires session == db
      modifies this
      ensures session == db == After(old(db), CreateInvite(t, email, role, token, now))
      ensures e == Refusal(old(db), CreateInvite(t, email, role, token, now))
    {
      if Lower(email) in session.users && RoleOf(session.members, t, session.users[Lower(email)]).Some? {
        return Some(AlreadyMember);
      }
      var pending := set k | k in session.invites && session.invites[k].tenant == t
                             && session.invites[k].status == Pending;
      while pending != {}
        invariant forall k :: (k in session.invites && session.invites[k].tenant == t
                               && session.invites[k].status == Pending && k !in pending)
                              ==> session.invites[k].email != Lower(email)
        invariant forall k :: k in pending ==> k in session.invites && session.invites[k].tenant == t
                                               && session.invites[k].status == Pending
        decreases pending
      {
        var k :| k in pending;
        if session.invites[k].email == Lower(email) { return Some(AlreadyInvited); }
        pending := pending - {k};
      }
      if t !in session.slugs.Values || token in session.invites { return Some(KeyViolated); }
      session := session.(invites := session.invites[token := Invite(t, Lower(email), role, Pending, now + WEEK)]);
      db := session;
      return None;
    }

    method AcceptInvite(token: Token, user: UserId, now: Time) returns (e: Option<Error>)
      requires session == db
      modifies this
      ensures session == db == After(old(db), Accept(token, user, now))
      ensures e == Refusal(old(db), Accept(token, user, now))
    {
      if token !in session.invites { return Some(NotFound); }
      var invite := session.invites[token];
      if invite.status != Pending { return Some(NotPending); }
      if invite.expiresAt < now {
        session := session.(invites := session.invites[token := invite.(status := Expired)]);
        session := db;
        return Some(InviteExpired);
      }
      if RoleOf(session.members, invite.tenant, user).Some? { return Some(KeyViolated); }
      session := session.(members := session.members + [Membership(invite.tenant, user, invite.role)]);
      session := session.(invites := session.invites[token := invite.(status := Accepted)]);
      db := session;
      return None;
    }
  }

  // --- Runs ----------------------------------------------------------------------------

  function Run(db: Tables, rs: seq<Request>): Tables {
    if rs == [] then db else After(Run(db, rs[..|rs| - 1]), rs[|rs| - 1])
  }

  function NoTenants(users: map<string, UserId>): Tables {
    Tables(map[], users, [], map[])
  }

  // --- The last admin ------------------------------------------------------------------

  ghost predicate UniqueMembers(members: seq<Membership>) {
    forall i, j :: 0 <= i < j < |members| ==>
      members[i].tenant != members[j].tenant || members[i].user != members[j].user
  }

  function AdminsOf(members: seq<Membership>, t: TenantId): nat {
    if members == [] then 0
    else (if members[0].tenant == t && members[0].role == Admin then 1 else 0) + AdminsOf(members[1..], t)
  }

  lemma {:induction false} AdminsOfTenant(members: seq<Membership>, t: TenantId)
    ensures Admins(OfTenant(members, t)) == AdminsOf(members, t)
  {
    if members != [] {
      AdminsOfTenant(members[1..], t);
      AdminsJoin(if members[0].tenant == t then [members[0]] else [], OfTenant(members[1..], t));
    }
  }

  lemma {:induction false} AdminsJoin(xs: seq<Membership>, ys: seq<Membership>)
    ensures Admins(xs + ys) == Admins(xs) + Admins(ys)
  {
    if xs == [] {
      assert xs + ys == ys;
    } else {
      assert (xs + ys)[1..] == xs[1..] + ys;
      AdminsJoin(xs[1..], ys);
    }
  }

  /** A page never shows more admins than there are. */
  lemma PageShowsSomeAdmins(members: seq<Membership>, t: TenantId)
    ensures Page(members, t) <= OfTenant(members, t)
    ensures |Page(members, t)| == if |OfTenant(members, t)| < 50 then |OfTenant(members, t)| else 50
    ensures Admins(Page(members, t)) <= AdminsOf(members, t)
    ensures |OfTenant(members, t)| <= 50 ==> Admins(Page(members, t)) == AdminsOf(members, t)
  {
    var all := OfTenant(members, t);
    AdminsOfTenant(members, t);
    if |all| > PAGE {
      assert all == all[..PAGE] + all[PAGE..];
      AdminsJoin(all[..PAGE], all[PAGE..]);
    }
  }

  lemma {:induction false} NotAmong(members: seq<Membership>, t: TenantId, u: UserId)
    ensures RoleOf(members, t, u).None?
      <==> forall k :: 0 <= k < |members| ==> members[k].tenant != t || members[k].user != u
  {
    if members != [] {
      NotAmong(members[1..], t, u);
      assert forall k :: 1 <= k < |members| ==> members[k] == members[1..][k - 1];
    }
  }

  lemma {:induction false} AbsentStays(members: seq<Membership>, t: TenantId, u: UserId, role: Role)
    requires RoleOf(members, t, u).None?
    ensures Without(members, t, u) == members && WithRole(members, t, u, role) == members
  {
    if members != [] {
      AbsentStays(members[1..], t, u, role);
    }
  }

  /** Removing or changing one membership changes its tenant's admins by at most one, and no
      other tenant's. */
  lemma {:induction false} AdminsAfterChange(members: seq<Membership>, t: TenantId, u: UserId, role: Role, t': TenantId)
    requires UniqueMembers(members)
    ensures var was := if t' == t && RoleOf(members, t, u) == Some(Admin) then 1 else 0;
      && AdminsOf(Without(members, t, u), t') == AdminsOf(members, t') - was
      && AdminsOf(WithRole(members, t, u, role), t')
         == AdminsOf(members, t') - was + (if t' == t && RoleOf(members, t, u).Some? && role == Admin then 1 else 0)
  {
    if members != [] {
      var m, rest := members[0], members[1..];
      if m.tenant == t && m.user == u {
        NotAmong(rest, t, u);
        assert forall k :: 0 <= k < |rest| ==> rest[k] == members[k + 1];
        AbsentStays(rest, t, u, role);
        assert Without(members, t, u) == rest;
      } else {
        AdminsAfterChange(rest, t, u, role, t');
        assert Without(members, t, u) == [m] + Without(rest, t, u);
      }
    }
  }

  lemma {:induction false} ChangedMembers(members: seq<Membership>, t: TenantId, u: UserId, role: Role)
    ensures |WithRole(members, t, u, role)| == |members|
    ensures forall k :: 0 <= k < |members| ==>
      var changed := WithRole(members, t, u, role)[k];
      changed.tenant == members[k].tenant && changed.user == members[k].user
  {
    if members != [] { ChangedMembers(members[1..], t, u, role); }
  }

  lemma {:induction false} RemovedMembers(members: seq<Membership>, t: TenantId, u: UserId)
    requires UniqueMembers(members)
    ensures UniqueMembers(Without(members, t, u))
    ensures forall m :: m in Without(members, t, u) ==> m in members
  {
    if members != [] {
      var m, rest, left := members[0], members[1..], Without(members[1..], t, u);
      assert forall k :: 0 <= k < |rest| ==> rest[k] == members[k + 1];
      RemovedMembers(rest, t, u);
      if m.tenant != t || m.user != u {
        forall j | 0 <= j < |left| ensures left[j].tenant != m.tenant || left[j].user != m.user {
          assert left[j] in rest;
        }
        assert Without(members, t, u) == [m] + left;
      } else {
        assert Without(members, t, u) == left;
      }
    }
  }

  lemma {:induction false} JoinedMembers(members: seq<Membership>, m: Membership, t: TenantId)
    ensures AdminsOf(members + [m], t) == AdminsOf(members, t) + if m.tenant == t && m.role == Admin then 1 else 0
  {
    if members != [] {
      assert (members + [m])[1..] == members[1..] + [m];
      JoinedMembers(members[1..], m, t);
    }
  }

  /** Every tenant has an admin, nobody is twice a member of one tenant, members and
      invitations belong to tenants, and tenants have one slug each. */
  ghost predicate Sound(db: Tables) {
    && UniqueMembers(db.members)
    && (forall slug :: slug in db.slugs ==> AdminsOf(db.members, db.slugs[slug]) >= 1)
    && (forall m :: m in db.members ==> m.tenant in db.slugs.Values)
    && (forall k :: k in db.invites ==> db.invites[k].tenant in db.slugs.Values)
    && (forall a, b :: a in db.slugs && b in db.slugs && db.slugs[a] == db.slugs[b] ==> a == b)
  }

  lemma CreateKeepsSound(db: Tables, slug: string, t: TenantId, creator: UserId)
    requires Sound(db) && slug !in db.slugs && t !in db.slugs.Values
    ensures Sound(Done(db, Request.CreateTenant(slug, t, creator)))
  {
    var m, db' := Membership(t, creator, Admin), Done(db, Request.CreateTenant(slug, t, creator));
    assert forall a :: a in db.slugs ==> db.slugs[a] in db.slugs.Values;
    assert db'.slugs.Values == db.slugs.Values + {t} by {
      assert db'.slugs[slug] == t;
      forall x | x in db.slugs.Values ensures x in db'.slugs.Values {
        var a :| a in db.slugs && db.slugs[a] == x;
        assert db'.slugs[a] == x;
      }
    }
    forall a | a in db'.slugs ensures AdminsOf(db'.members, db'.slugs[a]) >= 1 {
      JoinedMembers(db.members, m, db'.slugs[a]);
    }
    NewcomerIsUnique(db.members, m);
  }

  lemma NewcomerIsUnique(members: seq<Membership>, m: Membership)
    requires UniqueMembers(members)
    requires forall k :: 0 <= k < |members| ==> members[k].tenant != m.tenant || members[k].user != m.user
    ensures UniqueMembers(members + [m])
    ensures forall x :: x in members + [m] <==> x in members || x == m
  {
  }

  lemma AcceptKeepsSound(db: Tables, token: Token, user: UserId, now: Time)
    requires Sound(db) && token in db.invites && RoleOf(db.members, db.invites[token].tenant, user).None?
    ensures Sound(Done(db, Accept(token, user, now)))
  {
    var invite := db.invites[token];
    var m := Membership(invite.tenant, user, invite.role);
    NotAmong(db.members, invite.tenant, user);
    NewcomerIsUnique(db.members, m);
    forall a | a in db.slugs ensures AdminsOf(db.members + [m], db.slugs[a]) >= 1 {
      JoinedMembers(db.members, m, db.slugs[a]);
    }
  }

  lemma UpdateKeepsSound(db: Tables, t: TenantId, u: UserId, role: Role)
    requires Sound(db)
    requires RoleOf(db.members, t, u) == Some(Admin) && role != Admin ==> Admins(Page(db.members, t)) >= 2
    ensures Sound(db.(members := WithRole(db.members, t, u, role)))
  {
    PageShowsSomeAdmins(db.members, t);
    ChangedMembers(db.members, t, u, role);
    var members' := WithRole(db.members, t, u, role);
    forall a | a in db.slugs ensures AdminsOf(members', db.slugs[a]) >= 1 {
      AdminsAfterChange(db.members, t, u, role, db.slugs[a]);
    }
    forall m | m in members' ensures m.tenant in db.slugs.Values {
      var k :| 0 <= k < |members'| && members'[k] == m;
      assert db.members[k] in db.members;
    }
  }

  lemma RemoveKeepsSound(db: Tables, t: TenantId, u: UserId)
    requires Sound(db)
    requires RoleOf(db.members, t, u) == Some(Admin) ==> Admins(Page(db.members, t)) >= 2
    ensures Sound(db.(members := Without(db.members, t, u)))
  {
    PageShowsSomeAdmins(db.members, t);
    RemovedMembers(db.members, t, u);
    forall a | a in db.slugs ensures AdminsOf(Without(db.members, t, u), db.slugs[a]) >= 1 {
      AdminsAfterChange(db.members, t, u, Admin, db.slugs[a]);
    }
  }

  lemma RequestKeepsSound(db: Tables, r: Request)
    requires Sound(db)
    ensures Sound(After(db, r))
  {
    if Refusal(db, r).None? {
      match r
      case CreateTenant(slug, t, creator) => CreateKeepsSound(db, slug, t, creator);
      case UpdateRole(t, target, role, _) => UpdateKeepsSound(db, t, target, role);
      case Remove(t, target, _) => RemoveKeepsSound(db, t, target);
      case CreateInvite(_, _, _, _, _) =>
      case Accept(token, user, now) => AcceptKeepsSound(db, token, user, now);
    }
  }

  /** Whatever requests arrive, in whatever order: every tenant created keeps an admin,
      though the rule looks at one page of members only, and nobody becomes a member of a
      tenant twice. */
  lemma {:induction false} EveryTenantKeepsAnAdmin(users: map<string, UserId>, rs: seq<Request>)
    ensures var db := Run(NoTenants(users), rs);
      && (forall slug :: slug in db.slugs ==> AdminsOf(db.members, db.slugs[slug]) >= 1)
      && UniqueMembers(db.members)
      && Sound(db)
  {
    if rs != [] {
      EveryTenantKeepsAnAdmin(users, rs[..|rs| - 1]);
      RequestKeepsSound(Run(NoTenants(users), rs[..|rs| - 1]), rs[|rs| - 1]);
    }
  }

  /** The other half of the rule fails beyond one page: the service refuses to let an admin go,
      or to demote one, although another remains, exactly when the first fifty members show at
      most one of the admins. Up to fifty members it never does. */
  lemma NeedlessRefusalIff(db: Tables, t: TenantId, target: UserId, requester: UserId, role: Role)
    requires RoleOf(db.members, t, requester) == Some(Admin) && RoleOf(db.members, t, target) == Some(Admin)
    requires role != Admin
    ensures var kept := Refusal(db, Remove(t, target, requester)) == Some(LastAdmin);
      && (Refusal(db, UpdateRole(t, target, role, requester)) == Some(LastAdmin) <==> kept)
      && (kept && AdminsOf(db.members, t) >= 2
          <==> Admins(Page(db.members, t)) <= 1 && Admins(Page(db.members, t)) + AdminsBeyondPage(db.members, t) >= 2)
      && (|OfTenant(db.members, t)| <= 50 ==> (kept <==> AdminsOf(db.members, t) <= 1))
  {
    PageShowsSomeAdmins(db.members, t);
    var all := OfTenant(db.members, t);
    AdminsOfTenant(db.members, t);
    if |all| > PAGE {
      assert all == all[..PAGE] + all[PAGE..];
      AdminsJoin(all[..PAGE], all[PAGE..]);
    }
  }

  function AdminsBeyondPage(members: seq<Membership>, t: TenantId): nat {
    var all := OfTenant(members, t);
    if |all| <= PAGE then 0 else Admins(all[PAGE..])
  }

  // --- A run that ends in such a refusal -------------------------------------------------

  /** The founder, then members who are no admins, and one more admin when the page is full. */
  function Joiner(n: nat): Membership { Membership(0, n, if n == 0 || n == PAGE then Admin else Member) }

  function Team(n: nat): (members: seq<Membership>)
    ensures |members| == n + 1 && forall k :: 0 <= k <= n ==> members[k] == Joiner(k)
  {
    if n == 0 then [Joiner(0)] else Team(n - 1) + [Joiner(n)]
  }

  function TokenOf(n: nat): (token: Token)
    ensures |token| == n
  {
    seq(n, i => 'x')
  }

  /** The tenant is created; then each joiner is invited and accepts. */
  function Joining(n: nat): seq<Request> {
    if n == 0 then [Request.CreateTenant("acme", 0, 0)]
    else
      Joining(n - 1) + [CreateInvite(0, "new@acme", Joiner(n).role, TokenOf(n), 0)] + [Accept(TokenOf(n), n, 0)]
  }

  ghost predicate HasJoined(db: Tables, n: nat) {
    && db.slugs == map["acme" := 0] && db.users == map[] && db.members == Team(n)
    && forall token :: token in db.invites ==> |token| <= n && db.invites[token].status != Pending
  }

  lemma RunOneMore(db: Tables, rs: seq<Request>, r: Request)
    ensures Run(db, rs + [r]) == After(Run(db, rs), r)
  {
    assert (rs + [r])[..|rs|] == rs;
  }

  lemma OneMoreJoins(db: Tables, n: nat)
    requires n > 0 && HasJoined(db, n - 1)
    ensures HasJoined(After(After(db, CreateInvite(0, "new@acme", Joiner(n).role, TokenOf(n), 0)),
                            Accept(TokenOf(n), n, 0)), n)
  {
    assert db.slugs["acme"] == 0;
    assert TokenOf(n) !in db.invites;
    NotAmong(db.members, 0, n);
    assert Refusal(db, CreateInvite(0, "new@acme", Joiner(n).role, TokenOf(n), 0)).None?;
  }

  lemma {:induction false} TeamJoins(n: nat)
    ensures HasJoined(Run(NoTenants(map[]), Joining(n)), n)
  {
    if n == 0 {
      RunOneMore(NoTenants(map[]), [], Request.CreateTenant("acme", 0, 0));
      assert Joining(0) == [] + [Request.CreateTenant("acme", 0, 0)];
    } else {
      TeamJoins(n - 1);
      var invite := CreateInvite(0, "new@acme", Joiner(n).role, TokenOf(n), 0);
      RunOneMore(NoTenants(map[]), Joining(n - 1), invite);
      RunOneMore(NoTenants(map[]), Joining(n - 1) + [invite], Accept(TokenOf(n), n, 0));
      OneMoreJoins(Run(NoTenants(map[]), Joining(n - 1)), n);
    }
  }

  lemma {:induction false} AllOfTenant(members: seq<Membership>, t: TenantId)
    requires forall m :: m in members ==> m.tenant == t
    ensures OfTenant(members, t) == members
  {
    if members != [] { AllOfTenant(members[1..], t); }
  }

  lemma {:induction false} NoAdmins(members: seq<Membership>)
    requires forall k :: 0 <= k < |members| ==> members[k].role != Admin
    ensures Admins(members) == 0
  {
    if members != [] { NoAdmins(members[1..]); }
  }

  lemma TeamHidesAdmin(members: seq<Membership>)
    requires members == Team(PAGE)
    ensures AdminsOf(members, 0) == 2 && Admins(Page(members, 0)) == 1 && RoleOf(members, 0, 0) == Some(Admin)
  {
    var founder, others, late := [members[0]], members[1..PAGE], [members[PAGE]];
    AllOfTenant(members, 0);
    assert members[..PAGE] == founder + others && members == members[..PAGE] + late;
    AdminsJoin(founder, others);
    AdminsJoin(members[..PAGE], late);
    NoAdmins(others);
    AdminsOfTenant(members, 0);
  }

  /** A founder, forty-nine members and a second admin, all joined by invitation: the founder
      may not leave. */
  lemma SecondAdminGoesUnseen(n: nat)
    requires n == PAGE == 50
    ensures var db := Run(NoTenants(map[]), Joining(n));
      AdminsOf(db.members, 0) == 2 && Refusal(db, Remove(0, 0, 0)) == Some(LastAdmin)
  {
    TeamJoins(n);
    TeamHidesAdmin(Run(NoTenants(map[]), Joining(n)).members);
    FounderIsKept(Run(NoTenants(map[]), Joining(n)));
  }

  lemma FounderIsKept(db: Tables)
    requires Admins(Page(db.members, 0)) == 1 && RoleOf(db.members, 0, 0) == Some(Admin)
    ensures Refusal(db, Remove(0, 0, 0)) == Some(LastAdmin)
  {
  }

  // --- Invitations ---------------------------------------------------------------------

  /** Request `i` of the run accepts the invitation. */
  ghost predicate AcceptedAt(db: Tables, rs: seq<Request>, i: nat, token: Token) {
    i < |rs| && rs[i].Accept? && rs[i].token == token && Refusal(Run(db, rs[..i]), rs[i]).None?
  }

  lemma {:induction false} AcceptedStays(db: Tables, rs: seq<Request>, i: nat, token: Token)
    requires AcceptedAt(db, rs, i, token)
    ensures token in Run(db, rs).invites && Run(db, rs).invites[token].status == Accepted
    decreases |rs|
  {
    var last := |rs| - 1;
    if i < last {
      assert rs[..last][..i] == rs[..i];
      AcceptedStays(db, rs[..last], i, token);
    }
  }

  /** No invitation is accepted twice, whoever tries and however often. */
  lemma AcceptedAtMostOnce(users: map<string, UserId>, rs: seq<Request>, i: nat, j: nat, token: Token)
    requires AcceptedAt(NoTenants(users), rs, i, token) && AcceptedAt(NoTenants(users), rs, j, token)
    ensures i == j
  {
    if i < j {
      assert rs[..j][..i] == rs[..i];
      AcceptedStays(NoTenants(users), rs[..j], i, token);
    } else if j < i {
      assert rs[..i][..j] == rs[..j];
      AcceptedStays(NoTenants(users), rs[..i], j, token);
    }
  }

  /** No committed invitation ever has the status `expired`. */
  lemma {:induction false} ExpiryIsNeverRecorded(users: map<string, UserId>, rs: seq<Request>)
    ensures forall k :: k in Run(NoTenants(users), rs).invites ==>
      Run(NoTenants(users), rs).invites[k].status != Expired
  {
    if rs != [] { ExpiryIsNeverRecorded(users, rs[..|rs| - 1]); }
  }

  function TimeOf(r: Request, now: Time): Time {
    match r
    case CreateInvite(_, _, _, _, time) => time
    case Accept(_, _, time) => time
    case _ => now
  }

  lemma PendingSurvives(db: Tables, r: Request, token: Token, now: Time)
    requires token in db.invites && db.invites[token].status == Pending && db.invites[token].expiresAt < now
    requires TimeOf(r, now) >= now
    ensures token in After(db, r).invites && After(db, r).invites[token] == db.invites[token]
  {
  }

  /** So an invitation that expires unanswered stays pending for ever, and the same address
      can never be invited to the tenant again. */
  lemma {:induction false} ExpiredInviteBlocksReinviting(db: Tables, rs: seq<Request>, token: Token, now: Time,
                                                         email: string, role: Role, token': Token, later: Time)
    requires token in db.invites && db.invites[token].status == Pending && db.invites[token].expiresAt < now
    requires Lower(email) == db.invites[token].email
    requires forall i :: 0 <= i < |rs| ==> TimeOf(rs[i], now) >= now
    ensures var db' := Run(db, rs);
      && token in db'.invites && db'.invites[token] == db.invites[token]
      && Refusal(db', CreateInvite(db.invites[token].tenant, email, role, token', later)).Some?
  {
    if rs != [] {
      var last := |rs| - 1;
      ExpiredInviteBlocksReinviting(db, rs[..last], token, now, email, role, token', later);
      PendingSurvives(Run(db, rs[..last]), rs[last], token, now);
    }
    var db' := Run(db, rs);
    assert db'.invites[token] == db.invites[token];
    assert PendingFor(db', db.invites[token].tenant, email);
  }

  // --- Who may change a role ---------------------------------------------------------------------

  lemma {:induction false} RoleWithRole(members: seq<Membership>, t: TenantId, u: UserId, role: Role,
                                        t': TenantId, u': UserId)
    ensures RoleOf(WithRole(members, t, u, role), t', u')
         == if t' == t && u' == u && RoleOf(members, t, u).Some? then Some(role) else RoleOf(members, t', u')
  {
    if members != [] { RoleWithRole(members[1..], t, u, role, t', u'); }
  }

  lemma {:induction false} RoleWithout(members: seq<Membership>, t: TenantId, u: UserId, t': TenantId, u': UserId)
    ensures RoleOf(Without(members, t, u), t', u') == if t' == t && u' == u then None else RoleOf(members, t', u')
  {
    if members != [] {
      RoleWithout(members[1..], t, u, t', u');
      var rest := Without(members[1..], t, u);
      assert ([members[0]] + rest)[1..] == rest && [] + rest == rest;
    }
  }

  lemma {:induction false} RoleOfJoined(members: seq<Membership>, m: Membership, t: TenantId, u: UserId)
    ensures RoleOf(members + [m], t, u)
         == if RoleOf(members, t, u).Some? then RoleOf(members, t, u)
            else if m.tenant == t && m.user == u then Some(m.role) else None
  {
    if members != [] {
      assert (members + [m])[1..] == members[1..] + [m];
      RoleOfJoined(members[1..], m, t, u);
    }
  }

  /** The request entitles `u` to this role in `t`, or to none: an admin of the tenant says so, or
      the user leaves, takes up an invitation that is open, or founds the tenant. */
  predicate Entitles(db: Tables, r: Request, t: TenantId, u: UserId, role: Option<Role>) {
    match r
    case UpdateRole(tenant, target, given, requester) =>
      tenant == t && target == u && role == Some(given) && RoleOf(db.members, t, requester) == Some(Admin)
    case Remove(tenant, target, requester) =>
      tenant == t && target == u && role == None
      && (requester == u || RoleOf(db.members, t, requester) == Some(Admin))
    case Accept(token, user, now) =>
      && user == u && token in db.invites && db.invites[token].tenant == t && role == Some(db.invites[token].role)
      && db.invites[token].status == Pending && now <= db.invites[token].expiresAt
    case CreateTenant(_, tenant, creator) => tenant == t && creator == u && role == Some(Admin)
    case CreateInvite(_, _, _, _, _) => false
  }

  /** Nobody's role changes unless the request entitles them to it. */
  lemma RolesChangeByRight(db: Tables, r: Request, t: TenantId, u: UserId)
    requires RoleOf(After(db, r).members, t, u) != RoleOf(db.members, t, u)
    ensures Entitles(db, r, t, u, RoleOf(After(db, r).members, t, u))
  {
    match r
    case UpdateRole(tenant, target, role, _) => RoleWithRole(db.members, tenant, target, role, t, u);
    case Remove(tenant, target, _) => RoleWithout(db.members, tenant, target, t, u);
    case CreateTenant(_, tenant, creator) => RoleOfJoined(db.members, Membership(tenant, creator, Admin), t, u);
    case CreateInvite(_, _, _, _, _) =>
    case Accept(token, user, _) =>
      var invite := db.invites[token];
      RoleOfJoined(db.members, Membership(invite.tenant, user, invite.role), t, u);
  }

  /** Request `i` of the run entitled `u` to the role. */
  ghost predicate EntitledAt(users: map<string, UserId>, rs: seq<Request>, i: nat, t: TenantId, u: UserId, role: Role) {
    i < |rs| && Entitles(Run(NoTenants(users), rs[..i]), rs[i], t, u, Some(role))
  }

  /** Whoever has a role was entitled to it by some request of the run. */
  lemma {:induction false} RolesAreGranted(users: map<string, UserId>, rs: seq<Request>, t: TenantId, u: UserId,
                                           role: Role)
    requires RoleOf(Run(NoTenants(users), rs).members, t, u) == Some(role)
    ensures exists i: nat :: EntitledAt(users, rs, i, t, u, role)
  {
    var last := |rs| - 1;
    var before := Run(NoTenants(users), rs[..last]);
    if RoleOf(before.members, t, u) == Some(role) {
      RolesAreGranted(users, rs[..last], t, u, role);
      var i: nat :| EntitledAt(users, rs[..last], i, t, u, role);
      assert rs[..last][..i] == rs[..i];
      assert EntitledAt(users, rs, i, t, u, role);
    } else {
      RolesChangeByRight(before, rs[last], t, u);
      assert EntitledAt(users, rs, last, t, u, role);
    }
  }

  // --- What each request does ----------------------------------------------------------------------

  /** An admin's wish is done unless it concerns nobody or takes the last admin seen. */
  lemma RoleUpdateTakesEffect(db: Tables, t: TenantId, target: UserId, role: Role, requester: UserId)
    ensures var r, was := UpdateRole(t, target, role, requester), RoleOf(db.members, t, target);
      var done := RoleOf(db.members, t, requester) == Some(Admin) && was != None
                  && (was == Some(Admin) && role != Admin ==> Admins(Page(db.members, t)) >= 2);
      && (done ==> RoleOf(After(db, r).members, t, target) == Some(role))
      && (!done ==> After(db, r) == db)
      && After(db, r).invites == db.invites && After(db, r).slugs == db.slugs
  {
    RoleWithRole(db.members, t, target, role, t, target);
  }

  lemma RemovalTakesEffect(db: Tables, t: TenantId, target: UserId, requester: UserId)
    ensures var r, was := Remove(t, target, requester), RoleOf(db.members, t, target);
      var done := RoleOf(db.members, t, requester) != None && was != None
                  && (requester == target || RoleOf(db.members, t, requester) == Some(Admin))
                  && (was == Some(Admin) ==> Admins(Page(db.members, t)) >= 2);
      && (done ==> RoleOf(After(db, r).members, t, target) == None)
      && (!done ==> After(db, r) == db)
      && After(db, r).invites == db.invites && After(db, r).slugs == db.slugs
  {
    RoleWithout(db.members, t, target, t, target);
  }

  /** A new slug founds a tenant with its creator as admin. */
  lemma FoundingTakesEffect(db: Tables, slug: string, t: TenantId, creator: UserId)
    ensures var r := Request.CreateTenant(slug, t, creator);
      var done := slug !in db.slugs && t !in db.slugs.Values;
      After(db, r) == if done
                      then db.(slugs := db.slugs[slug := t], members := db.members + [Membership(t, creator, Admin)])
                      else db
  {
  }

  /** An address that is no member's and has no invitation pending is invited, for seven days. */
  lemma InvitationTakesEffect(db: Tables, t: TenantId, email: string, role: Role, token: Token, now: Time)
    ensures var r, address := CreateInvite(t, email, role, token, now), Lower(email);
      var done :=
        && (address !in db.users || RoleOf(db.members, t, db.users[address]) == None)
        && !(exists k :: k in db.invites && db.invites[k].tenant == t && db.invites[k].status == Pending
                         && db.invites[k].email == address)
        && t in db.slugs.Values && token !in db.invites;
      var sevenDays := 7 * 24 * 3600 * 1_000_000;
      After(db, r) == if done
                      then db.(invites := db.invites[token := Invite(t, address, role, Pending, now + sevenDays)])
                      else db
  {
  }

  /** An invitation taken up in time makes its bearer a member in the role offered, once. */
  lemma AcceptanceTakesEffect(db: Tables, token: Token, user: UserId, now: Time)
    ensures var r := Accept(token, user, now);
      var done := token in db.invites && db.invites[token].status == Pending && now <= db.invites[token].expiresAt
                  && RoleOf(db.members, db.invites[token].tenant, user) == None;
      if !done then After(db, r) == db
      else
        var invite := db.invites[token];
        After(db, r) == db.(members := db.members + [Membership(invite.tenant, user, invite.role)],
                            invites := db.invites[token := invite.(status := Accepted)])
  {
  }

  /** Why a request is refused: first that the requester may not ask, then that there is nobody or
      nothing to ask about, then what stands in the way. */
  lemma RefusalsAreReasoned(db: Tables, t: TenantId, target: UserId, role: Role, requester: UserId, token: Token,
                            now: Time)
    ensures var asking, was := RoleOf(db.members, t, requester), RoleOf(db.members, t, target);
      && (Refusal(db, UpdateRole(t, target, role, requester)) == Some(NotAuthorized) <==> asking != Some(Admin))
      && (Refusal(db, UpdateRole(t, target, role, requester)) == Some(NotFound) <==>
            asking == Some(Admin) && was == None)
      && (Refusal(db, Remove(t, target, requester)) == Some(NotAuthorized) <==>
            asking == None || (requester != target && asking != Some(Admin)))
      && (Refusal(db, Remove(t, target, requester)) == Some(NotFound) <==> asking == Some(Admin) && was == None)
    ensures var answer := Refusal(db, Accept(token, target, now));
      && (answer == Some(NotFound) <==> token !in db.invites)
      && (answer == Some(NotPending) <==> token in db.invites && db.invites[token].status != Pending)
      && (answer == Some(InviteExpired) <==>
            token in db.invites && db.invites[token].status == Pending && db.invites[token].expiresAt < now)
  {
  }
}
