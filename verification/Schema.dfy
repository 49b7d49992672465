// The relational schema after all migrations: the tables, what a row may refer to,
// which rows exclude each other, and the statements that change tables.

module Schema {
  import opened Basics

  datatype Origin = Token | Form | DB | API

  datatype Entity = Entity(
    name: string,
    email: string,
    kind: string,
    size: int,
    consented: bool,
    callbackUrl: string,
    callbackSecret: string,
    managers: seq<Bytes>,
    authorized: bool)

  // The column `origin` is missing: no statement sets it, so it is always the default 'Token'.
  datatype Member = Member(
    entity: Bytes,
    key: Option<Bytes>,
    street: string,
    first: string,
    last: string,
    phone: string,
    email: Option<string>,
    birth: int,
    verified: int,
    tags: seq<int>,
    updatedAt: int)

  datatype Tag = Tag(entity: Bytes, name: string)

  datatype Target = Target(entity: Bytes, name: string)

  datatype Census = Census(
    entity: Bytes,
    target: Uuid,
    name: string,
    root: Bytes,
    uri: string,
    size: int,
    ephemeral: bool)

  datatype CensusMember = CensusMember(
    ephemeral: bool,
    key: Option<Bytes>,
    digest: Bytes,
    privateKey: Option<Bytes>)

  // Each table is a map from its primary key; `rows` is census_members, and
  // `nextTag` is the sequence behind the SERIAL column tags.id.
  datatype Tables = Tables(
    entities: map<Bytes, Entity>,
    origins: set<(Bytes, Origin)>,
    users: map<Bytes, Bytes>,
    members: map<Uuid, Member>,
    tags: map<int, Tag>,
    targets: map<Uuid, Target>,
    censuses: map<Bytes, Census>,
    rows: map<(Uuid, Bytes), CensusMember>,
    nextTag: int)

  const EMPTY := Tables(map[], {}, map[], map[], map[], map[], map[], map[], 1)

  // Largest value of the SERIAL (32-bit) column tags.id.
  const MAX_TAG := 0x7FFF_FFFF

  // ---------- Constraints ----------

  // UNIQUE (entity_id, public_key); SQL NULLs never collide.
  predicate SameKey(a: Member, b: Member) {
    a.entity == b.entity && a.key.Some? && a.key == b.key
  }

  // UNIQUE (entity_id, email)
  predicate SameEmail(a: Member, b: Member) {
    a.entity == b.entity && a.email.Some? && a.email == b.email
  }

  predicate Collide(a: Member, b: Member) {
    SameKey(a, b) || SameEmail(a, b)
  }

  // The foreign keys of a member row.
  predicate MemberRefs(t: Tables, m: Member) {
    && m.entity in t.entities
    && (m.entity, Token) in t.origins
    && (m.key.Some? ==> m.key.value in t.users)
  }

  ghost predicate LegalMembers(t: Tables) {
    && (forall a :: a in t.members ==> MemberRefs(t, t.members[a]))
    && (forall a, b :: a in t.members && b in t.members && a != b ==> !Collide(t.members[a], t.members[b]))
  }

  ghost predicate LegalOrigins(t: Tables) {
    forall o :: o in t.origins ==> o.0 in t.entities
  }

  ghost predicate LegalUsers(t: Tables) {
    forall a, b :: a in t.users && b in t.users && a != b ==> t.users[a] != t.users[b]
  }

  ghost predicate LegalTags(t: Tables) {
    && (forall a :: a in t.tags ==> t.tags[a].entity in t.entities)
    && (forall a, b :: a in t.tags && b in t.tags && a != b ==> t.tags[a] != t.tags[b])
  }

  ghost predicate LegalTargets(t: Tables) {
    && (forall a :: a in t.targets ==> t.targets[a].entity in t.entities)
    && (forall a, b :: a in t.targets && b in t.targets && a != b ==> t.targets[a] != t.targets[b])
  }

  ghost predicate LegalCensuses(t: Tables) {
    forall c :: c in t.censuses ==> t.censuses[c].entity in t.entities && t.censuses[c].target in t.targets
  }

  ghost predicate LegalRows(t: Tables) {
    forall p :: p in t.rows ==> p.0 in t.members && p.1 in t.censuses
  }

  // Every constraint of the schema at once. Primary keys hold because a map has one
  // value per key; every insertion below fails on a key that is already present.
  ghost predicate Legal(t: Tables) {
    && LegalMembers(t)
    && LegalOrigins(t)
    && LegalUsers(t)
    && LegalTags(t)
    && LegalTargets(t)
    && LegalCensuses(t)
    && LegalRows(t)
  }

  // ---------- INSERT ----------

  datatype Row =
    | EntityRow(entityId: Bytes, entity: Entity)
    | OriginRow(entityId: Bytes, origin: Origin)
    | UserRow(key: Bytes, digest: Bytes)
    | MemberRow(id: Uuid, member: Member)
    | TagRow(tagId: int, tag: Tag)
    | TargetRow(id: Uuid, target: Target)
    | CensusRow(censusId: Bytes, census: Census)
    | CensusMemberRow(id: Uuid, censusId: Bytes, entry: CensusMember)

  // The foreign keys of a row about to be inserted.
  predicate RefsOk(t: Tables, r: Row) {
    match r
    case EntityRow(_, _) => true
    case OriginRow(e, _) => e in t.entities
    case UserRow(_, _) => true
    case MemberRow(_, m) => MemberRefs(t, m)
    case TagRow(_, g) => g.entity in t.entities
    case TargetRow(_, g) => g.entity in t.entities
    case CensusRow(_, c) => c.entity in t.entities && c.target in t.targets
    case CensusMemberRow(m, c, _) => m in t.members && c in t.censuses
  }

  // The primary key and the unique constraints of a row about to be inserted.
  predicate Free(t: Tables, r: Row) {
    match r
    case EntityRow(e, _) => e !in t.entities
    case OriginRow(e, o) => (e, o) !in t.origins
    case UserRow(k, d) => k !in t.users && forall u :: u in t.users ==> t.users[u] != d
    case MemberRow(id, m) => id !in t.members && forall a :: a in t.members ==> !Collide(t.members[a], m)
    case TagRow(id, g) => id !in t.tags && forall a :: a in t.tags ==> t.tags[a] != g
    case TargetRow(id, g) => id !in t.targets && forall a :: a in t.targets ==> t.targets[a] != g
    case CensusRow(c, _) => c !in t.censuses
    case CensusMemberRow(m, c, _) => (m, c) !in t.rows
  }

  function Put(t: Tables, r: Row): Tables {
    match r
    case EntityRow(e, v) => t.(entities := t.entities[e := v])
    case OriginRow(e, o) => t.(origins := t.origins + {(e, o)})
    case UserRow(k, d) => t.(users := t.users[k := d])
    case MemberRow(id, m) => t.(members := t.members[id := m])
    case TagRow(id, g) => t.(tags := t.tags[id := g])
    case TargetRow(id, g) => t.(targets := t.targets[id := g])
    case CensusRow(c, v) => t.(censuses := t.censuses[c := v])
    case CensusMemberRow(m, c, v) => t.(rows := t.rows[(m, c) := v])
  }

  function InsertRow(t: Tables, r: Row): Option<Tables> {
    if RefsOk(t, r) && Free(t, r) then Some(Put(t, r)) else None
  }

  // A multi-row INSERT: all of the rows or none.
  function InsertAll(t: Tables, rows: seq<Row>): Option<Tables>
    decreases |rows|
  {
    if rows == [] then Some(t)
    else match InsertRow(t, rows[0])
      case None => None
      case Some(t1) => InsertAll(t1, rows[1..])
  }

  lemma {:induction false} PutEntityLegal(t: Tables, e: Bytes, v: Entity)
    requires Legal(t)
    ensures Legal(Put(t, EntityRow(e, v)))
  {
  }

  lemma {:induction false} PutOriginLegal(t: Tables, e: Bytes, o: Origin)
    requires Legal(t) && e in t.entities
    ensures Legal(Put(t, OriginRow(e, o)))
  {
  }

  lemma {:induction false} PutUserLegal(t: Tables, k: Bytes, d: Bytes)
    requires Legal(t) && Free(t, UserRow(k, d))
    ensures Legal(Put(t, UserRow(k, d)))
  {
  }

  lemma {:induction false} PutMemberLegal(t: Tables, id: Uuid, m: Member)
    requires Legal(t) && MemberRefs(t, m) && Free(t, MemberRow(id, m))
    ensures Legal(Put(t, MemberRow(id, m)))
  {
    var u := Put(t, MemberRow(id, m));
    forall a, b | a in u.members && b in u.members && a != b ensures !Collide(u.members[a], u.members[b]) {
      if a == id { assert !Collide(t.members[b], m); }
    }
  }

  lemma {:induction false} PutTagLegal(t: Tables, id: int, g: Tag)
    requires Legal(t) && g.entity in t.entities && Free(t, TagRow(id, g))
    ensures Legal(Put(t, TagRow(id, g)))
  {
  }

  lemma {:induction false} PutTargetLegal(t: Tables, id: Uuid, g: Target)
    requires Legal(t) && g.entity in t.entities && Free(t, TargetRow(id, g))
    ensures Legal(Put(t, TargetRow(id, g)))
  {
  }

  lemma {:induction false} PutCensusLegal(t: Tables, c: Bytes, v: Census)
    requires Legal(t) && RefsOk(t, CensusRow(c, v))
    ensures Legal(Put(t, CensusRow(c, v)))
  {
  }

  lemma {:induction false} PutCensusMemberLegal(t: Tables, a: Uuid, c: Bytes, v: CensusMember)
    requires Legal(t) && RefsOk(t, CensusMemberRow(a, c, v))
    ensures Legal(Put(t, CensusMemberRow(a, c, v)))
  {
  }

  lemma {:induction false} InsertRowLegal(t: Tables, r: Row)
    requires Legal(t) && InsertRow(t, r).Some?
    ensures Legal(InsertRow(t, r).value)
  {
    match r
    case EntityRow(e, v) => PutEntityLegal(t, e, v);
    case OriginRow(e, o) => PutOriginLegal(t, e, o);
    case UserRow(k, d) => PutUserLegal(t, k, d);
    case MemberRow(id, m) => PutMemberLegal(t, id, m);
    case TagRow(id, g) => PutTagLegal(t, id, g);
    case TargetRow(id, g) => PutTargetLegal(t, id, g);
    case CensusRow(c, v) => PutCensusLegal(t, c, v);
    case CensusMemberRow(a, c, v) => PutCensusMemberLegal(t, a, c, v);
  }

  // ---------- UPDATE ----------

  // Whether a member row may take the place of row `id`: it depends on the new row and on the other members.
  predicate Accepts(t: Tables, id: Uuid, m: Member) {
    MemberRefs(t, m) && forall a :: a in t.members && a != id ==> !Collide(t.members[a], m)
  }

  // UPDATE of one member row: fails when the new row breaks a unique constraint or a foreign key.
  function ReplaceMember(t: Tables, id: Uuid, m: Member): Option<Tables>
    requires id in t.members
  {
    if Accepts(t, id, m) then Some(t.(members := t.members[id := m])) else None
  }

  // ---------- DELETE ----------

  // DELETE FROM members; census_members.member_id cascades.
  function WithoutMembers(t: Tables, gone: set<Uuid>): Tables {
    t.(members := map a | a in t.members && a !in gone :: t.members[a],
       rows := map p | p in t.rows && p.0 !in gone :: t.rows[p])
  }

  // DELETE FROM censuses; census_members.census_id cascades.
  function WithoutCensus(t: Tables, c: Bytes): Tables {
    t.(censuses := t.censuses - {c},
       rows := map p | p in t.rows && p.1 != c :: t.rows[p])
  }

  // DELETE FROM entities with all its cascades, before the NO ACTION checks.
  function CascadeEntity(t: Tables, e: Bytes): Tables {
    t.(entities := t.entities - {e},
       origins := (set o | o in t.origins && o.0 != e),
       members := map a | a in t.members && t.members[a].entity != e :: t.members[a],
       tags := map a | a in t.tags && t.tags[a].entity != e :: t.tags[a],
       targets := map a | a in t.targets && t.targets[a].entity != e :: t.targets[a],
       censuses := map c | c in t.censuses && t.censuses[c].entity != e :: t.censuses[c],
       rows := map p | p in t.rows
         && !(p.0 in t.members && t.members[p.0].entity == e)
         && !(p.1 in t.censuses && t.censuses[p.1].entity == e) :: t.rows[p])
  }

  // The two foreign keys without a cascade are checked when the statement ends:
  // members(origin, entity_id) and censuses(target_id).
  predicate NoActionOk(t: Tables) {
    && (forall a :: a in t.members ==> (t.members[a].entity, Token) in t.origins)
    && (forall c :: c in t.censuses ==> t.censuses[c].target in t.targets)
  }

  function EntityDeleted(t: Tables, e: Bytes): Option<Tables> {
    var t1 := CascadeEntity(t, e);
    if e in t.entities && NoActionOk(t1) then Some(t1) else None
  }

  lemma {:induction false} WithoutMembersLegal(t: Tables, gone: set<Uuid>)
    requires Legal(t)
    ensures Legal(WithoutMembers(t, gone))
  {
  }

  lemma {:induction false} WithoutCensusLegal(t: Tables, c: Bytes)
    requires Legal(t)
    ensures Legal(WithoutCensus(t, c))
  {
  }

  lemma {:induction false} EntityDeletedLegal(t: Tables, e: Bytes)
    requires Legal(t) && EntityDeleted(t, e).Some?
    ensures Legal(EntityDeleted(t, e).value)
  {
  }

  // ---------- What an INSERT of many rows means ----------

  ghost predicate Has(t: Tables, r: Row) {
    match r
    case EntityRow(e, v) => e in t.entities && t.entities[e] == v
    case OriginRow(e, o) => (e, o) in t.origins
    case UserRow(k, d) => k in t.users && t.users[k] == d
    case MemberRow(id, m) => id in t.members && t.members[id] == m
    case TagRow(id, g) => id in t.tags && t.tags[id] == g
    case TargetRow(id, g) => id in t.targets && t.targets[id] == g
    case CensusRow(c, v) => c in t.censuses && t.censuses[c] == v
    case CensusMemberRow(m, c, v) => (m, c) in t.rows && t.rows[(m, c)] == v
  }

  // Two rows that may not both be stored.
  predicate Clash(r: Row, q: Row) {
    match (r, q)
    case (EntityRow(e, _), EntityRow(f, _)) => e == f
    case (OriginRow(e, o), OriginRow(f, u)) => e == f && o == u
    case (UserRow(k, d), UserRow(l, f)) => k == l || d == f
    case (MemberRow(i, m), MemberRow(j, n)) => i == j || Collide(m, n)
    case (TagRow(i, g), TagRow(j, h)) => i == j || g == h
    case (TargetRow(i, g), TargetRow(j, h)) => i == j || g == h
    case (CensusRow(c, _), CensusRow(d, _)) => c == d
    case (CensusMemberRow(m, c, _), CensusMemberRow(n, d, _)) => m == n && c == d
    case _ => false
  }

  predicate SameTable(r: Row, q: Row) {
    match (r, q)
    case (EntityRow(_, _), EntityRow(_, _)) => true
    case (OriginRow(_, _), OriginRow(_, _)) => true
    case (UserRow(_, _), UserRow(_, _)) => true
    case (MemberRow(_, _), MemberRow(_, _)) => true
    case (TagRow(_, _), TagRow(_, _)) => true
    case (TargetRow(_, _), TargetRow(_, _)) => true
    case (CensusRow(_, _), CensusRow(_, _)) => true
    case (CensusMemberRow(_, _, _), CensusMemberRow(_, _, _)) => true
    case _ => false
  }

  predicate OneTable(rows: seq<Row>) {
    forall i, j :: 0 <= i < j < |rows| ==> SameTable(rows[i], rows[j])
  }

  // The declarative reading of INSERT: every reference resolves in the tables as they
  // are, and no new row clashes with a stored row or with another new row.
  ghost predicate Fits(t: Tables, rows: seq<Row>) {
    && (forall i :: 0 <= i < |rows| ==> RefsOk(t, rows[i]) && Free(t, rows[i]))
    && (forall i, j :: 0 <= i < j < |rows| ==> !Clash(rows[i], rows[j]))
  }

  lemma {:induction false} FreeMeansNoClash(t: Tables, r: Row)
    ensures Free(t, r) <==> forall q :: Has(t, q) ==> !Clash(q, r)
  {
    if forall q :: Has(t, q) ==> !Clash(q, r) {
      match r
      case EntityRow(e, _) => if e in t.entities { assert Has(t, EntityRow(e, t.entities[e])); }
      case OriginRow(e, o) => if (e, o) in t.origins { assert Has(t, OriginRow(e, o)); }
      case UserRow(k, d) =>
        forall u | u in t.users ensures u != k && t.users[u] != d { assert Has(t, UserRow(u, t.users[u])); }
      case MemberRow(id, m) =>
        forall a | a in t.members ensures a != id && !Collide(t.members[a], m) {
          assert Has(t, MemberRow(a, t.members[a]));
        }
      case TagRow(id, g) =>
        forall a | a in t.tags ensures a != id && t.tags[a] != g { assert Has(t, TagRow(a, t.tags[a])); }
      case TargetRow(id, g) =>
        forall a | a in t.targets ensures a != id && t.targets[a] != g { assert Has(t, TargetRow(a, t.targets[a])); }
      case CensusRow(c, _) => if c in t.censuses { assert Has(t, CensusRow(c, t.censuses[c])); }
      case CensusMemberRow(m, c, _) =>
        if (m, c) in t.rows { assert Has(t, CensusMemberRow(m, c, t.rows[(m, c)])); }
    }
  }

  lemma {:induction false} PutFreeUser(t: Tables, k: Bytes, d: Bytes, l: Bytes, f: Bytes)
    requires Free(t, UserRow(k, d))
    ensures Free(Put(t, UserRow(k, d)), UserRow(l, f)) <==>
            Free(t, UserRow(l, f)) && !Clash(UserRow(k, d), UserRow(l, f))
  {
    var u := Put(t, UserRow(k, d));
    assert u.users[k] == d;
    assert forall x :: x in t.users ==> x in u.users && u.users[x] == t.users[x];
  }

  lemma {:induction false} PutFreeMember(t: Tables, a: Uuid, m: Member, b: Uuid, n: Member)
    requires Free(t, MemberRow(a, m))
    ensures Free(Put(t, MemberRow(a, m)), MemberRow(b, n)) <==>
            Free(t, MemberRow(b, n)) && !Clash(MemberRow(a, m), MemberRow(b, n))
  {
    var u := Put(t, MemberRow(a, m));
    assert u.members[a] == m;
    assert forall x :: x in t.members ==> x in u.members && u.members[x] == t.members[x];
  }

  lemma {:induction false} PutFreeTag(t: Tables, a: int, g: Tag, b: int, h: Tag)
    requires Free(t, TagRow(a, g))
    ensures Free(Put(t, TagRow(a, g)), TagRow(b, h)) <==>
            Free(t, TagRow(b, h)) && !Clash(TagRow(a, g), TagRow(b, h))
  {
    var u := Put(t, TagRow(a, g));
    assert u.tags[a] == g;
    assert forall x :: x in t.tags ==> x in u.tags && u.tags[x] == t.tags[x];
  }

  lemma {:induction false} PutFreeTarget(t: Tables, a: Uuid, g: Target, b: Uuid, h: Target)
    requires Free(t, TargetRow(a, g))
    ensures Free(Put(t, TargetRow(a, g)), TargetRow(b, h)) <==>
            Free(t, TargetRow(b, h)) && !Clash(TargetRow(a, g), TargetRow(b, h))
  {
    var u := Put(t, TargetRow(a, g));
    assert u.targets[a] == g;
    assert forall x :: x in t.targets ==> x in u.targets && u.targets[x] == t.targets[x];
  }

  lemma {:induction false} MembersApart(t: Tables)
    requires forall q :: Has(t, q) ==> RefsOk(t, q)
    requires forall q, r :: Has(t, q) && Has(t, r) && q != r ==> !Clash(q, r)
    ensures LegalMembers(t)
  {
    forall a | a in t.members ensures MemberRefs(t, t.members[a]) { assert Has(t, MemberRow(a, t.members[a])); }
    forall a, b | a in t.members && b in t.members && a != b ensures !Collide(t.members[a], t.members[b]) {
      assert Has(t, MemberRow(a, t.members[a])) && Has(t, MemberRow(b, t.members[b]));
    }
  }

  lemma {:induction false} NamesApart(t: Tables)
    requires forall q :: Has(t, q) ==> RefsOk(t, q)
    requires forall q, r :: Has(t, q) && Has(t, r) && q != r ==> !Clash(q, r)
    ensures LegalUsers(t) && LegalTags(t) && LegalTargets(t)
  {
    forall a, b | a in t.users && b in t.users && a != b ensures t.users[a] != t.users[b] {
      assert Has(t, UserRow(a, t.users[a])) && Has(t, UserRow(b, t.users[b]));
    }
    forall a | a in t.tags ensures t.tags[a].entity in t.entities { assert Has(t, TagRow(a, t.tags[a])); }
    forall a, b | a in t.tags && b in t.tags && a != b ensures t.tags[a] != t.tags[b] {
      assert Has(t, TagRow(a, t.tags[a])) && Has(t, TagRow(b, t.tags[b]));
    }
    forall a | a in t.targets ensures t.targets[a].entity in t.entities { assert Has(t, TargetRow(a, t.targets[a])); }
    forall a, b | a in t.targets && b in t.targets && a != b ensures t.targets[a] != t.targets[b] {
      assert Has(t, TargetRow(a, t.targets[a])) && Has(t, TargetRow(b, t.targets[b]));
    }
  }

  lemma {:induction false} ReferencesResolve(t: Tables)
    requires forall q :: Has(t, q) ==> RefsOk(t, q)
    ensures LegalOrigins(t) && LegalCensuses(t) && LegalRows(t)
  {
    forall o | o in t.origins ensures o.0 in t.entities { assert Has(t, OriginRow(o.0, o.1)); }
    forall c | c in t.censuses ensures t.censuses[c].entity in t.entities && t.censuses[c].target in t.targets {
      assert Has(t, CensusRow(c, t.censuses[c]));
    }
    forall p | p in t.rows ensures p.0 in t.members && p.1 in t.censuses {
      assert Has(t, CensusMemberRow(p.0, p.1, t.rows[p]));
    }
  }

  lemma {:induction false} LegalRefs(t: Tables, q: Row)
    requires Legal(t) && Has(t, q)
    ensures RefsOk(t, q)
  {
  }

  lemma {:induction false} LegalApart(t: Tables, q: Row, r: Row)
    requires Legal(t) && Has(t, q) && Has(t, r) && q != r
    ensures !Clash(q, r)
  {
  }

  // Legal tables are those whose rows all have what they refer to and never clash with one another.
  lemma {:induction false} LegalMeaning(t: Tables)
    ensures Legal(t) <==>
            && (forall q :: Has(t, q) ==> RefsOk(t, q))
            && (forall q, r :: Has(t, q) && Has(t, r) && q != r ==> !Clash(q, r))
  {
    if Legal(t) {
      forall q | Has(t, q) ensures RefsOk(t, q) { LegalRefs(t, q); }
      forall q, r | Has(t, q) && Has(t, r) && q != r ensures !Clash(q, r) { LegalApart(t, q, r); }
    }
    if (forall q :: Has(t, q) ==> RefsOk(t, q)) && (forall q, r :: Has(t, q) && Has(t, r) && q != r ==> !Clash(q, r)) {
      MembersApart(t);
      NamesApart(t);
      ReferencesResolve(t);
    }
  }

  lemma {:induction false} PutFreeElsewhere(t: Tables, r: Row, q: Row)
    requires !SameTable(r, q)
    ensures Free(Put(t, r), q) == Free(t, q) && !Clash(r, q)
  {
  }

  // A row is free after an insertion exactly when it was free and does not clash with the new row.
  lemma {:induction false} PutFree(t: Tables, r: Row, q: Row)
    requires Free(t, r)
    ensures Free(Put(t, r), q) <==> Free(t, q) && !Clash(r, q)
  {
    if !SameTable(r, q) {
      PutFreeElsewhere(t, r, q);
    } else {
      match r
      case UserRow(k, d) => PutFreeUser(t, k, d, q.key, q.digest);
      case MemberRow(a, m) => PutFreeMember(t, a, m, q.id, q.member);
      case TagRow(a, g) => PutFreeTag(t, a, g, q.tagId, q.tag);
      case TargetRow(a, g) => PutFreeTarget(t, a, g, q.id, q.target);
      case _ =>
    }
  }

  lemma {:induction false} PutHas(t: Tables, r: Row, q: Row)
    requires Free(t, r)
    ensures SameTable(r, q) ==> RefsOk(Put(t, r), q) == RefsOk(t, q)
    ensures Has(Put(t, r), q) <==> Has(t, q) || q == r
  {
  }

  lemma {:induction false} FitsCons(t: Tables, r: Row, rest: seq<Row>)
    requires OneTable([r] + rest)
    requires RefsOk(t, r) && Free(t, r)
    ensures Fits(t, [r] + rest) <==> Fits(Put(t, r), rest)
  {
    var rows, t1 := [r] + rest, Put(t, r);
    assert forall i :: 0 <= i < |rest| ==> rest[i] == rows[i + 1];
    forall i | 0 <= i < |rest|
      ensures Free(t1, rest[i]) <==> Free(t, rest[i]) && !Clash(rows[0], rows[i + 1])
      ensures RefsOk(t1, rest[i]) == RefsOk(t, rest[i])
    {
      assert SameTable(rows[0], rows[i + 1]);
      PutFree(t, r, rest[i]);
      PutHas(t, r, rest[i]);
    }
    if Fits(t1, rest) {
      forall i, j | 0 <= i < j < |rows| ensures !Clash(rows[i], rows[j]) {
        if i == 0 { assert Free(t1, rest[j - 1]); } else { assert !Clash(rest[i - 1], rest[j - 1]); }
      }
      forall i | 0 <= i < |rows| ensures RefsOk(t, rows[i]) && Free(t, rows[i]) {
        if i > 0 { assert Free(t1, rest[i - 1]); }
      }
    }
  }

  // INSERT of a list succeeds exactly when the list fits, and then stores exactly
  // the old rows and the new ones.
  lemma {:induction false} InsertAllMeaning(t: Tables, rows: seq<Row>)
    requires OneTable(rows)
    ensures InsertAll(t, rows).Some? <==> Fits(t, rows)
    ensures InsertAll(t, rows).Some? ==>
              var u := InsertAll(t, rows).value;
              u.nextTag == t.nextTag && forall q :: Has(u, q) <==> Has(t, q) || q in rows
    decreases |rows|
  {
    if rows != [] {
      var r, rest := rows[0], rows[1..];
      assert rows == [r] + rest;
      if InsertRow(t, r).Some? {
        var t1 := Put(t, r);
        InsertAllMeaning(t1, rest);
        forall q ensures Free(t1, q) <==> Free(t, q) && !Clash(r, q)
                 ensures SameTable(r, q) ==> RefsOk(t1, q) == RefsOk(t, q)
                 ensures Has(t1, q) <==> Has(t, q) || q == r
        { PutFree(t, r, q); PutHas(t, r, q); }
        assert forall i :: 0 <= i < |rest| ==> rest[i] == rows[i + 1] && SameTable(r, rest[i]);
        FitsCons(t, r, rest);
      }
    }
  }

  lemma {:induction false} InsertAllSplit(t: Tables, front: seq<Row>, back: seq<Row>)
    ensures InsertAll(t, front + back) ==
            match InsertAll(t, front) case None => None case Some(t1) => InsertAll(t1, back)
    decreases |front|
  {
    if front == [] {
      assert front + back == back;
    } else {
      assert (front + back)[1..] == front[1..] + back;
      if InsertRow(t, front[0]).Some? {
        InsertAllSplit(InsertRow(t, front[0]).value, front[1..], back);
      }
    }
  }

  predicate Maps<K, V(==)>(m: map<K, V>, k: K, v: V) {
    k in m && m[k] == v
  }

  lemma {:induction false} MapsDetermine<K(!new), V(!new)>(m: map<K, V>, n: map<K, V>)
    requires forall k, v :: Maps(m, k, v) <==> Maps(n, k, v)
    ensures m == n
  {
    forall k ensures k in m <==> k in n ensures k in m ==> m[k] == n[k] {
      if k in m { assert Maps(m, k, m[k]); }
      if k in n { assert Maps(n, k, n[k]); }
    }
  }

  ghost predicate SameContents(t: Tables, u: Tables) {
    forall q :: Has(t, q) <==> Has(u, q)
  }

  lemma {:induction false} SameKeyed(t: Tables, u: Tables)
    requires SameContents(t, u)
    ensures t.entities == u.entities && t.origins == u.origins && t.users == u.users
  {
    forall k, v ensures Maps(t.entities, k, v) <==> Maps(u.entities, k, v) {
      assert Has(t, EntityRow(k, v)) <==> Has(u, EntityRow(k, v));
    }
    MapsDetermine(t.entities, u.entities);
    forall o ensures o in t.origins <==> o in u.origins {
      assert Has(t, OriginRow(o.0, o.1)) <==> Has(u, OriginRow(o.0, o.1));
    }
    forall k, v ensures Maps(t.users, k, v) <==> Maps(u.users, k, v) {
      assert Has(t, UserRow(k, v)) <==> Has(u, UserRow(k, v));
    }
    MapsDetermine(t.users, u.users);
  }

  lemma {:induction false} SameOwned(t: Tables, u: Tables)
    requires SameContents(t, u)
    ensures t.members == u.members && t.tags == u.tags && t.targets == u.targets
  {
    forall k, v ensures Maps(t.members, k, v) <==> Maps(u.members, k, v) {
      assert Has(t, MemberRow(k, v)) <==> Has(u, MemberRow(k, v));
    }
    MapsDetermine(t.members, u.members);
    forall k, v ensures Maps(t.tags, k, v) <==> Maps(u.tags, k, v) {
      assert Has(t, TagRow(k, v)) <==> Has(u, TagRow(k, v));
    }
    MapsDetermine(t.tags, u.tags);
    forall k, v ensures Maps(t.targets, k, v) <==> Maps(u.targets, k, v) {
      assert Has(t, TargetRow(k, v)) <==> Has(u, TargetRow(k, v));
    }
    MapsDetermine(t.targets, u.targets);
  }

  lemma {:induction false} SameCensusTables(t: Tables, u: Tables)
    requires SameContents(t, u)
    ensures t.censuses == u.censuses && t.rows == u.rows
  {
    forall k, v ensures Maps(t.censuses, k, v) <==> Maps(u.censuses, k, v) {
      assert Has(t, CensusRow(k, v)) <==> Has(u, CensusRow(k, v));
    }
    MapsDetermine(t.censuses, u.censuses);
    forall p: (Uuid, Bytes), v ensures Maps(t.rows, p, v) <==> Maps(u.rows, p, v) {
      assert Has(t, CensusMemberRow(p.0, p.1, v)) <==> Has(u, CensusMemberRow(p.0, p.1, v));
    }
    MapsDetermine(t.rows, u.rows);
  }

  // Tables are determined by the rows they hold and the tag sequence.
  lemma {:induction false} RowsDetermineTables(t: Tables, u: Tables)
    requires t.nextTag == u.nextTag
    requires forall q :: Has(t, q) <==> Has(u, q)
    ensures t == u
  {
    assert SameContents(t, u);
    SameKeyed(t, u);
    SameOwned(t, u);
    SameCensusTables(t, u);
  }
}
