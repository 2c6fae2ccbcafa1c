/** Working memory: one Redis hash per session and one set of session ids per end user, in a
    single key space, each expiring two hours after it was last written. Field values are
    the strings Redis stores. Times are in seconds. */
module WorkingMemory {
  import opened Strings
  import opened Wrappers

  type Time = int
  type Fields = map<string, string>

  const TTL: Time := 7200

  /** Tenant ids are UUIDs in text form: 36 characters, none of them a colon. */
  predicate IsTenantId(s: string) { |s| == 36 && ':' !in s }

  datatype Session = Session(tenant: string, user: string, id: string)

  /** wm:{tenant_id}:{external_user_id}:{session_id} */
  function MakeKey(s: Session): string { "wm:" + s.tenant + ":" + s.user + ":" + s.id }

  /** wm:idx:{tenant_id}:{external_user_id} */
  function IndexKey(tenant: string, user: string): string { "wm:idx:" + tenant + ":" + user }

  datatype Value = Hash(fields: Fields) | Ids(members: set<string>)

  datatype Entry = Entry(value: Value, expires: Time)

  type Redis = map<string, Entry>

  // --- Keys ----------------------------------------------------------------------------

  lemma KeyParts(s: Session)
    requires IsTenantId(s.tenant)
    ensures MakeKey(s)[3..39] == s.tenant && MakeKey(s)[40..] == s.user + ":" + s.id && |MakeKey(s)| > 40
  {
    var key := MakeKey(s);
    assert key == "wm:" + (s.tenant + (":" + (s.user + ":" + s.id)));
  }

  lemma IndexKeyParts(tenant: string, user: string)
    requires IsTenantId(tenant)
    ensures var key := IndexKey(tenant, user); |key| >= 44 && key[6] == ':' && key[7..43] == tenant && key[44..] == user
  {
    var key := IndexKey(tenant, user);
    assert key == "wm:idx:" + (tenant + (":" + user));
  }

  /** Two sessions share a key exactly when their tenants are the same and their user and
      session ids, joined by a colon, read the same. */
  lemma KeysCollideExactly(a: Session, b: Session)
    requires IsTenantId(a.tenant) && IsTenantId(b.tenant)
    ensures MakeKey(a) == MakeKey(b) <==> a.tenant == b.tenant && a.user + ":" + a.id == b.user + ":" + b.id
  {
    KeyParts(a);
    KeyParts(b);
    if a.tenant == b.tenant && a.user + ":" + a.id == b.user + ":" + b.id {
      assert MakeKey(a) == "wm:" + a.tenant + ":" + (a.user + ":" + a.id);
      assert MakeKey(b) == "wm:" + b.tenant + ":" + (b.user + ":" + b.id);
    }
  }

  /** For user ids without a colon the key builder is injective. */
  lemma KeysAreInjective(a: Session, b: Session)
    requires IsTenantId(a.tenant) && IsTenantId(b.tenant) && ':' !in a.user && ':' !in b.user
    ensures MakeKey(a) == MakeKey(b) <==> a == b
  {
    KeysCollideExactly(a, b);
    if MakeKey(a) == MakeKey(b) { SplitAtFirst(':', a.user, b.user, a.id, b.id); }
  }

  lemma IndexKeysAreInjective(t: string, u: string, t': string, u': string)
    requires IsTenantId(t) && IsTenantId(t')
    ensures IndexKey(t, u) == IndexKey(t', u') <==> t == t' && u == u'
  {
    IndexKeyParts(t, u);
    IndexKeyParts(t', u');
  }

  /** A session's hash and a user's index never share a key. */
  lemma KeyKindsAreApart(s: Session, t: string, u: string)
    requires IsTenantId(s.tenant) && IsTenantId(t)
    ensures MakeKey(s) != IndexKey(t, u)
  {
    KeyParts(s);
    IndexKeyParts(t, u);
    assert MakeKey(s)[3..39][3] == s.tenant[3];
  }

  // --- Redis commands ------------------------------------------------------------------

  predicate IsLive(redis: Redis, key: string, now: Time) {
    key in redis && now < redis[key].expires
  }

  /** HSET then EXPIRE; a live key of the other type is refused. */
  function SetFields(redis: Redis, key: string, fields: Fields, now: Time): Redis {
    if !IsLive(redis, key, now) then redis[key := Entry(Hash(fields), now + TTL)]
    else if redis[key].value.Ids? then redis
    else redis[key := Entry(Hash(redis[key].value.fields + fields), now + TTL)]
  }

  /** SADD then EXPIRE. */
  function AddMember(redis: Redis, key: string, id: string, now: Time): Redis {
    if !IsLive(redis, key, now) then redis[key := Entry(Ids({id}), now + TTL)]
    else if redis[key].value.Hash? then redis
    else redis[key := Entry(Ids(redis[key].value.members + {id}), now + TTL)]
  }

  /** DEL */
  function DeleteKey(redis: Redis, key: string): Redis {
    redis - {key}
  }

  /** SREM; an emptied set is deleted. */
  function RemoveMember(redis: Redis, key: string, id: string, now: Time): Redis {
    if !IsLive(redis, key, now) || redis[key].value.Hash? then redis
    else if redis[key].value.members - {id} == {} then redis - {key}
    else redis[key := redis[key].(value := Ids(redis[key].value.members - {id}))]
  }

  // --- Requests ------------------------------------------------------------------------

  datatype Request =
    | Update(s: Session, updates: Fields, now: Time)
    | Delete(s: Session, now: Time)

  function After(redis: Redis, r: Request): Redis {
    match r
    case Update(s, updates, now) =>
      if updates == map[] then redis
      else AddMember(SetFields(redis, MakeKey(s), updates, now), IndexKey(s.tenant, s.user), s.id, now)
    case Delete(s, now) =>
      RemoveMember(DeleteKey(redis, MakeKey(s)), IndexKey(s.tenant, s.user), s.id, now)
  }

  function State(redis: Redis, s: Session, now: Time): Fields {
    if IsLive(redis, MakeKey(s), now) && redis[MakeKey(s)].value.Hash? then redis[MakeKey(s)].value.fields else map[]
  }

  function Active(redis: Redis, tenant: string, user: string, now: Time): set<string> {
    var key := IndexKey(tenant, user);
    if IsLive(redis, key, now) && redis[key].value.Ids? then redis[key].value.members else {}
  }

  // --- Field values --------------------------------------------------------------------

  /** A value given or read back: one that JSON describes, or a text. Values other than
      dicts and lists are given as the text that `str` makes of them. */
  datatype Field<J> = Json(value: J) | Text(text: string)

  function Stored<J>(dumps: J -> string, field: Field<J>): string {
    match field
    case Json(value) => dumps(value)
    case Text(text) => text
  }

  function Loaded<J>(loads: string -> Option<J>, stored: string): Field<J> {
    match loads(stored)
    case Some(value) => Json(value)
    case None => Text(stored)
  }

  ghost predicate IsSerialized<J(!new)>(dumps: J -> string, updates: map<string, Field<J>>, fields: Fields) {
    fields.Keys == updates.Keys && forall k :: k in updates ==> fields[k] == Stored(dumps, updates[k])
  }

  ghost predicate IsParsed<J(!new)>(loads: string -> Option<J>, fields: Fields, parsed: map<string, Field<J>>) {
    parsed.Keys == fields.Keys && forall k :: k in fields ==> parsed[k] == Loaded(loads, fields[k])
  }

  class WorkingMemoryRepository {
    var redis: Redis

    constructor ()
      ensures redis == map[]
    {
      redis := map[];
    }

    method GetState<J(!new)>(s: Session, now: Time, loads: string -> Option<J>)
      returns (parsed: map<string, Field<J>>)
      ensures IsParsed(loads, State(redis, s, now), parsed)
    {
      parsed := map[];
      var key := MakeKey(s);
      if !IsLive(redis, key, now) || !redis[key].value.Hash? { return; }
      var data := redis[key].value.fields;
      var rest := data.Keys;
      while rest != {}
        invariant rest <= data.Keys && parsed.Keys == data.Keys - rest
        invariant forall k :: k in parsed ==> parsed[k] == Loaded(loads, data[k])
        decreases rest
      {
        var k :| k in rest;
        var value := loads(data[k]);
        if value.Some? {
          parsed := parsed[k := Json(value.value)];
        } else {
          parsed := parsed[k := Text(data[k])];
        }
        rest := rest - {k};
      }
    }

    method UpdateState<J(!new)>(s: Session, updates: map<string, Field<J>>, now: Time, dumps: J -> string)
      modifies this
      ensures exists fields ::
        IsSerialized(dumps, updates, fields) && redis == After(old(redis), Update(s, fields, now))
    {
      var serialized := map[];
      var rest := updates.Keys;
      while rest != {}
        invariant redis == old(redis)
        invariant rest <= updates.Keys && serialized.Keys == updates.Keys - rest
        invariant forall k :: k in serialized ==> serialized[k] == Stored(dumps, updates[k])
        decreases rest
      {
        var k :| k in rest;
        match updates[k] {
          case Json(value) => serialized := serialized[k := dumps(value)];
          case Text(text) => serialized := serialized[k := text];
        }
        rest := rest - {k};
      }
      if serialized != map[] {
        redis := SetFields(redis, MakeKey(s), serialized, now);
        redis := AddMember(redis, IndexKey(s.tenant, s.user), s.id, now);
      }
      assert IsSerialized(dumps, updates, serialized);
    }

    method DeleteState(s: Session, now: Time)
      modifies this
      ensures redis == After(old(redis), Delete(s, now))
    {
      redis := DeleteKey(redis, MakeKey(s));
      redis := RemoveMember(redis, IndexKey(s.tenant, s.user), s.id, now);
    }

    method GetActiveSessions(tenant: string, user: string, now: Time) returns (ids: set<string>)
      ensures ids == Active(redis, tenant, user, now)
    {
      var key := IndexKey(tenant, user);
      ids := if IsLive(redis, key, now) && redis[key].value.Ids? then redis[key].value.members else {};
    }
  }

  // --- Runs ----------------------------------------------------------------------------

  function Run(rs: seq<Request>): Redis {
    if rs == [] then map[] else After(Run(rs[..|rs| - 1]), rs[|rs| - 1])
  }

  /** Requests come in order of time, from tenants proper. */
  ghost predicate Ordered(rs: seq<Request>) {
    && (forall i :: 0 <= i < |rs| ==> IsTenantId(rs[i].s.tenant))
    && (forall i, j :: 0 <= i <= j < |rs| ==> rs[i].now <= rs[j].now)
  }

  /** And from users without a colon. */
  ghost predicate WellFormed(rs: seq<Request>) {
    Ordered(rs) && forall i :: 0 <= i < |rs| ==> ':' !in rs[i].s.user
  }

  /** A session's own story, from its own requests alone: the fields written since it was
      last deleted or expired, later writes on top, and when they expire. */
  function Own(rs: seq<Request>, s: Session): Option<(Fields, Time)> {
    if rs == [] then None
    else
      var before, r := Own(rs[..|rs| - 1], s), rs[|rs| - 1];
      if r.s != s then before
      else
        match r
        case Delete(_, _) => None
        case Update(_, updates, now) =>
          if updates == map[] then before
          else if before.Some? && now < before.value.1 then Some((before.value.0 + updates, now + TTL))
          else Some((updates, now + TTL))
  }

  ghost predicate HoldsOwn(redis: Redis, own: Option<(Fields, Time)>, key: string) {
    if own.None? then key !in redis else key in redis && redis[key] == Entry(Hash(own.value.0), own.value.1)
  }

  /** Sessions do not interfere: whatever the other sessions, users and tenants do in
      between, each session's hash is exactly what its own requests make it. */
  lemma {:induction false} SessionsDoNotInterfere(rs: seq<Request>, s: Session)
    requires WellFormed(rs) && IsTenantId(s.tenant) && ':' !in s.user
    ensures HoldsOwn(Run(rs), Own(rs, s), MakeKey(s))
  {
    if rs != [] {
      var before, r := rs[..|rs| - 1], rs[|rs| - 1];
      SessionsDoNotInterfere(before, s);
      KeysAreInjective(s, r.s);
      KeyKindsAreApart(s, r.s.tenant, r.s.user);
    }
  }

  /** What a reader gets is the session's own overlay, or nothing once it has expired. */
  lemma StateIsOwn(rs: seq<Request>, s: Session, now: Time)
    requires WellFormed(rs) && IsTenantId(s.tenant) && ':' !in s.user
    ensures State(Run(rs), s, now) ==
      var own := Own(rs, s);
      if own.Some? && now < own.value.1 then own.value.0 else map[]
  {
    SessionsDoNotInterfere(rs, s);
  }

  /** A field given is the field read back, until the session expires, exactly when JSON reads
      what it wrote, or does not read the text as something else. */
  lemma FieldsReadBack<J(!new)>(rs: seq<Request>, s: Session, updates: map<string, Field<J>>, fields: Fields,
                                loads: string -> Option<J>, dumps: J -> string, parsed: map<string, Field<J>>,
                                written: Time, now: Time, k: string)
    requires IsSerialized(dumps, updates, fields) && k in updates
    requires WellFormed(rs + [Update(s, fields, written)]) && now < written + TTL
    requires IsParsed(loads, State(Run(rs + [Update(s, fields, written)]), s, now), parsed)
    ensures k in parsed
    ensures parsed[k] == updates[k] <==>
      match updates[k]
      case Json(value) => loads(dumps(value)) == Some(value)
      case Text(text) => loads(text) == None
  {
    var longer := rs + [Update(s, fields, written)];
    assert longer[|rs|] == Update(s, fields, written) && longer[..|rs|] == rs;
    assert IsTenantId(s.tenant) && ':' !in s.user;
    StateIsOwn(longer, s, now);
    assert fields != map[];
  }

  // --- The index ------------------------------------------------------------------------

  /** A user's own story: the ids of the sessions written and not deleted since the index last
      expired, and when it expires, from the requests of this user's sessions alone. */
  function OwnIndex(rs: seq<Request>, tenant: string, user: string): Option<(set<string>, Time)> {
    if rs == [] then None
    else
      var before, r := OwnIndex(rs[..|rs| - 1], tenant, user), rs[|rs| - 1];
      if r.s.tenant != tenant || r.s.user != user then before
      else
        match r
        case Delete(_, now) =>
          if before.None? || before.value.1 <= now then before
          else if before.value.0 - {r.s.id} == {} then None
          else Some((before.value.0 - {r.s.id}, before.value.1))
        case Update(_, updates, now) =>
          if updates == map[] then before
          else if before.Some? && now < before.value.1 then Some((before.value.0 + {r.s.id}, now + TTL))
          else Some(({r.s.id}, now + TTL))
  }

  ghost predicate HoldsIndex(redis: Redis, own: Option<(set<string>, Time)>, key: string) {
    if own.None? then key !in redis else key in redis && redis[key] == Entry(Ids(own.value.0), own.value.1)
  }

  /** Each user's index is exactly what the requests of that user's sessions make it, colons or
      not: index keys never collide. */
  lemma {:induction false} IndexIsOwn(rs: seq<Request>, tenant: string, user: string)
    requires Ordered(rs) && IsTenantId(tenant)
    ensures HoldsIndex(Run(rs), OwnIndex(rs, tenant, user), IndexKey(tenant, user))
  {
    if rs != [] {
      var before, r := rs[..|rs| - 1], rs[|rs| - 1];
      IndexIsOwn(before, tenant, user);
      KeyKindsAreApart(r.s, tenant, user);
      IndexKeysAreInjective(tenant, user, r.s.tenant, r.s.user);
    }
  }

  /** The sessions reported as active are those of the user's own index, until it expires. */
  lemma ActiveIsOwn(rs: seq<Request>, tenant: string, user: string, now: Time)
    requires Ordered(rs) && IsTenantId(tenant)
    ensures Active(Run(rs), tenant, user, now) ==
      var own := OwnIndex(rs, tenant, user);
      if own.Some? && now < own.value.1 then own.value.0 else {}
  {
    IndexIsOwn(rs, tenant, user);
  }

  ghost predicate NotBefore(rs: seq<Request>, now: Time) {
    forall i :: 0 <= i < |rs| ==> rs[i].now <= now
  }

  /** A session still listed was written and not deleted since. */
  lemma {:induction false} ListedWasWritten(rs: seq<Request>, s: Session, now: Time)
    requires Ordered(rs) && NotBefore(rs, now)
    requires var own := OwnIndex(rs, s.tenant, s.user); own.Some? && now < own.value.1 && s.id in own.value.0
    ensures Own(rs, s).Some?
  {
    var before, r := rs[..|rs| - 1], rs[|rs| - 1];
    assert NotBefore(before, r.now);
    var own := OwnIndex(before, s.tenant, s.user);
    if own.Some? && r.now < own.value.1 && s.id in own.value.0 {
      ListedWasWritten(before, s, r.now);
    }
    if r.s.tenant != s.tenant || r.s.user != s.user { ListedWasWritten(before, s, now); }
  }

  /** Exactly when a session reported as active has nothing left: it was written and not
      deleted since, its own two hours are over, and the index, kept alive by the user's other
      sessions, still holds its id. */
  lemma StaleListingIff(rs: seq<Request>, s: Session, now: Time)
    requires WellFormed(rs) && NotBefore(rs, now) && IsTenantId(s.tenant) && ':' !in s.user
    ensures s.id in Active(Run(rs), s.tenant, s.user, now) && !IsLive(Run(rs), MakeKey(s), now) <==>
      var index, own := OwnIndex(rs, s.tenant, s.user), Own(rs, s);
      && own.Some? && own.value.1 <= now
      && index.Some? && now < index.value.1 && s.id in index.value.0
  {
    ActiveIsOwn(rs, s.tenant, s.user, now);
    SessionsDoNotInterfere(rs, s);
    var index := OwnIndex(rs, s.tenant, s.user);
    if index.Some? && now < index.value.1 && s.id in index.value.0 { ListedWasWritten(rs, s, now); }
  }

  lemma {:induction false} OwnIsListed(rs: seq<Request>, s: Session, now: Time)
    requires Ordered(rs) && NotBefore(rs, now)
    requires Own(rs, s).Some? && now < Own(rs, s).value.1
    ensures var index := OwnIndex(rs, s.tenant, s.user);
      index.Some? && s.id in index.value.0 && Own(rs, s).value.1 <= index.value.1
  {
    var before, r := rs[..|rs| - 1], rs[|rs| - 1];
    assert NotBefore(before, r.now);
    if r.s != s || (r.Update? && r.updates == map[]) {
      assert r.now <= now;
      OwnIsListed(before, s, now);
      OwnExpiresInTime(before, s);
      assert before != [] && before[|before| - 1].now <= r.now;
      if r.Delete? && r.s.tenant == s.tenant && r.s.user == s.user {
        assert s.id in OwnIndex(before, s.tenant, s.user).value.0 - {r.s.id};
      }
    }
  }

  lemma {:induction false} OwnExpiresInTime(rs: seq<Request>, s: Session)
    requires Ordered(rs) && Own(rs, s).Some?
    ensures Own(rs, s).value.1 <= rs[|rs| - 1].now + TTL
  {
    var before := rs[..|rs| - 1];
    if Own(before, s).Some? { OwnExpiresInTime(before, s); }
  }

  /** Every session that has not expired is in its user's index, and the index expires no
      earlier than the session. */
  lemma LiveSessionsAreListed(rs: seq<Request>, s: Session, now: Time)
    requires WellFormed(rs) && NotBefore(rs, now) && IsTenantId(s.tenant) && ':' !in s.user
    requires IsLive(Run(rs), MakeKey(s), now)
    ensures s.id in Active(Run(rs), s.tenant, s.user, now)
    ensures Run(rs)[MakeKey(s)].expires <= Run(rs)[IndexKey(s.tenant, s.user)].expires
  {
    SessionsDoNotInterfere(rs, s);
    OwnIsListed(rs, s, now);
    IndexIsOwn(rs, s.tenant, s.user);
  }

  // --- Limits of the design ------------------------------------------------------------

  /** With a colon in a user id two users' sessions can be the same hash: what one writes
      the other reads. */
  lemma ColonsLetSessionsMeet(tenant: string, updates: Fields, now: Time)
    requires IsTenantId(tenant) && updates != map[]
    ensures var writer, reader := Session(tenant, "a:b", "c"), Session(tenant, "a", "b:c");
      writer.user != reader.user && State(Run([Update(writer, updates, now)]), reader, now) == updates
  {
    var writer, reader := Session(tenant, "a:b", "c"), Session(tenant, "a", "b:c");
    KeysCollideExactly(writer, reader);
    assert writer.user + ":" + writer.id == "a:b:c" == reader.user + ":" + reader.id;
    KeyKindsAreApart(reader, tenant, writer.user);
    var rs := [Update(writer, updates, now)];
    assert rs[..0] == [];
    assert Run(rs) == After(map[], rs[0]);
  }

  /** The index may list sessions that have expired: one session's update keeps the whole
      index alive, with the ids of the others in it. */
  lemma IndexMayBeStale(tenant: string, updates: Fields)
    requires IsTenantId(tenant) && updates != map[]
    ensures var first, second := Session(tenant, "u", "first"), Session(tenant, "u", "second");
      var rs := [Update(first, updates, 0), Update(second, updates, 7000)];
      && State(Run(rs), first, 8000) == map[]
      && "first" in Active(Run(rs), tenant, "u", 8000)
  {
    var first, second := Session(tenant, "u", "first"), Session(tenant, "u", "second");
    var rs := [Update(first, updates, 0), Update(second, updates, 7000)];
    assert rs[..1] == [Update(first, updates, 0)] && rs[..1][..0] == [];
    assert WellFormed(rs);
    StateIsOwn(rs, first, 8000);
    ActiveIsOwn(rs, tenant, "u", 8000);
  }

  // --- Two hours -------------------------------------------------------------------------------

  /** A session's fields last two hours from its last update that had any; the index of its user, from
      the last such update of any of the user's sessions. */
  lemma FieldsLastTwoHours(rs: seq<Request>, s: Session, updates: Fields, written: Time, now: Time)
    requires WellFormed(rs + [Update(s, updates, written)]) && updates != map[]
    ensures var redis := Run(rs + [Update(s, updates, written)]);
      && (now < written + 7200 ==>
            && updates.Keys <= State(redis, s, now).Keys
            && (forall k :: k in updates ==> State(redis, s, now)[k] == updates[k])
            && s.id in Active(redis, s.tenant, s.user, now))
      && (now >= written + 7200 ==> State(redis, s, now) == map[] && Active(redis, s.tenant, s.user, now) == {})
  {
    var longer := rs + [Update(s, updates, written)];
    assert longer[|rs|] == Update(s, updates, written) && longer[..|rs|] == rs;
    assert IsTenantId(s.tenant) && ':' !in s.user;
    StateIsOwn(longer, s, now);
    ActiveIsOwn(longer, s.tenant, s.user, now);
  }

  /** A deleted session reads as empty and is listed no more. */
  lemma DeletedSessionIsGone(rs: seq<Request>, s: Session, deleted: Time, now: Time)
    requires WellFormed(rs + [Delete(s, deleted)]) && deleted <= now
    ensures var redis := Run(rs + [Delete(s, deleted)]);
      State(redis, s, now) == map[] && s.id !in Active(redis, s.tenant, s.user, now)
  {
    var longer := rs + [Delete(s, deleted)];
    assert longer[|rs|] == Delete(s, deleted) && longer[..|rs|] == rs;
    assert IsTenantId(s.tenant) && ':' !in s.user;
    StateIsOwn(longer, s, now);
    ActiveIsOwn(longer, s.tenant, s.user, now);
  }
}
