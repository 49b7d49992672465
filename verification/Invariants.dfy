// What every run of write steps keeps.

module Invariants {
  import opened Basics
  import opened Schema
  import opened Store

  // Every user row is its own digest.
  ghost predicate UsersSelf(t: Tables) {
    forall k :: k in t.users ==> t.users[k] == k
  }

  // The tag sequence is ahead of every tag.
  ghost predicate TagIds(t: Tables) {
    && 1 <= t.nextTag
    && (forall g :: g in t.tags ==> 1 <= g < t.nextTag)
  }

  // Every census_members row is for a member that is still an eligible member of the census's entity.
  ghost predicate RowsEligible(t: Tables) {
    forall p :: p in t.rows ==>
      && p.0 in t.members && p.1 in t.censuses
      && t.members[p.0].entity == t.censuses[p.1].entity
      && Eligible(t.members[p.0], t.censuses[p.1])
  }

  // A census that has rows has no more of them than its size column says.
  ghost predicate SizesBound(t: Tables) {
    forall c :: c in t.censuses ==> RowIds(t.rows, c) == {} || |RowIds(t.rows, c)| <= t.censuses[c].size
  }

  ghost predicate Inv(t: Tables) {
    Legal(t) && UsersSelf(t) && TagIds(t) && RowsEligible(t) && SizesBound(t)
  }

  // ---------- INSERT ----------

  predicate Plain(r: Row) {
    !r.CensusMemberRow? && !r.TagRow? && (r.UserRow? ==> r.digest == r.key)
  }

  lemma {:induction false} InsertRowTables(t: Tables, r: Row)
    requires LegalRows(t) && UsersSelf(t) && TagIds(t) && RowsEligible(t)
    requires Plain(r) && Free(t, r)
    ensures var u := Put(t, r); UsersSelf(u) && TagIds(u) && RowsEligible(u) && u.rows == t.rows
  {
  }

  lemma {:induction false} InsertRowSizes(t: Tables, r: Row)
    requires LegalRows(t) && SizesBound(t) && Plain(r) && Free(t, r)
    ensures SizesBound(Put(t, r))
  {
    if r.CensusRow? {
      assert RowIds(t.rows, r.censusId) == {};
    }
  }

  lemma {:induction false} InsertRowInv(t: Tables, r: Row)
    requires Inv(t) && Plain(r) && InsertRow(t, r).Some?
    ensures Inv(InsertRow(t, r).value)
  {
    InsertRowLegal(t, r);
    InsertRowTables(t, r);
    InsertRowSizes(t, r);
  }

  lemma {:induction false} InsertAllInv(t: Tables, rows: seq<Row>)
    requires Inv(t) && InsertAll(t, rows).Some?
    requires forall i :: 0 <= i < |rows| ==> Plain(rows[i])
    ensures Inv(InsertAll(t, rows).value)
    decreases |rows|
  {
    if rows != [] {
      InsertRowInv(t, rows[0]);
      InsertAllInv(InsertRow(t, rows[0]).value, rows[1..]);
    }
  }

  lemma {:induction false} EnsureUserInv(t: Tables, key: Bytes)
    requires Inv(t)
    ensures EnsureUser(t, key).Some?
    ensures Inv(EnsureUser(t, key).value)
    ensures EnsureUser(t, key).value == t.(users := t.users[key := key])
  {
    if key !in t.users {
      InsertRowInv(t, UserRow(key, key));
    } else {
      assert t.users == t.users[key := key];
    }
  }

  // A tag with the next id may be there; the sequence moves on.
  lemma {:induction false} NextTagInv(t: Tables, tags: map<int, Tag>)
    requires Inv(t) && LegalTags(t.(tags := tags))
    requires forall g :: g in tags ==> g in t.tags || g == t.nextTag
    ensures Inv(t.(tags := tags, nextTag := t.nextTag + 1))
  {
  }

  lemma {:induction false} NewTagLegal(t: Tables, id: int, g: Tag)
    requires LegalTags(t) && g.entity in t.entities && Free(t, TagRow(id, g))
    ensures LegalTags(t.(tags := t.tags[id := g]))
  {
  }

  lemma {:induction false} AddTagShape(t: Tables, e: Bytes, name: string)
    ensures AddTagOk(t, e, name) ==> AddTag(t, e, name) == t.(tags := t.tags[t.nextTag := Tag(e, name)], nextTag := t.nextTag + 1)
    ensures !AddTagOk(t, e, name) ==> AddTag(t, e, name) in {t, t.(nextTag := t.nextTag + 1)}
  {
  }

  lemma {:induction false} AddTagInv(t: Tables, e: Bytes, name: string)
    requires Inv(t)
    ensures Inv(AddTag(t, e, name))
  {
    AddTagShape(t, e, name);
    if AddTagOk(t, e, name) {
      NewTagLegal(t, t.nextTag, Tag(e, name));
      NextTagInv(t, t.tags[t.nextTag := Tag(e, name)]);
    } else {
      NextTagInv(t, t.tags);
      assert t.(tags := t.tags) == t;
    }
  }

  // `u` differs from `t` only by more origins, users and members.
  ghost predicate OnlyAdds(t: Tables, u: Tables) {
    && u == t.(origins := u.origins, users := u.users, members := u.members)
    && t.members.Keys <= u.members.Keys
    && (forall a :: a in t.members ==> u.members[a] == t.members[a])
  }

  lemma {:induction false} InsertFrame(t: Tables, rows: seq<Row>)
    requires InsertAll(t, rows).Some?
    requires forall i :: 0 <= i < |rows| ==> rows[i].OriginRow? || rows[i].UserRow? || rows[i].MemberRow?
    ensures OnlyAdds(t, InsertAll(t, rows).value)
    decreases |rows|
  {
    if rows != [] {
      var t1 := InsertRow(t, rows[0]).value;
      assert OnlyAdds(t, t1);
      InsertFrame(t1, rows[1..]);
    }
  }

  // The steps that insert lists add rows to four tables and leave the others and all old members alone.
  lemma {:induction false} InsertionAdds(t: Tables, op: Op)
    requires InsertsLists(op) && Try(t, op).Some?
    ensures var u := Try(t, op).value; OnlyAdds(t.(entities := u.entities), u)
    ensures var u := Try(t, op).value;
            t.entities.Keys <= u.entities.Keys && forall e :: e in t.entities ==> u.entities[e] == t.entities[e]
  {
    match op
    case AddEntityOp(e, info) =>
      InsertFrame(Put(t, EntityRow(e, EntityFrom(info, info.managers.value))), OriginRows(e, info.origins));
    case CreateMembersWithTokensOp(e, tokens, now) => InsertFrame(t, TokenRows(e, tokens, now));
    case ImportMembersOp(e, infos, gen, now) => InsertFrame(t, ImportRows(e, infos, gen, now));
    case AddMemberBulkOp(e, members, gen, now) =>
      InsertFrame(t, UserRows(members));
      InsertFrame(InsertAll(t, UserRows(members)).value, BulkRows(e, members, gen, now));
  }

  // ---------- UPDATE ----------

  lemma {:induction false} ReplaceMemberLegal(t: Tables, id: Uuid, m: Member)
    requires Legal(t) && id in t.members && ReplaceMember(t, id, m).Some?
    ensures Legal(ReplaceMember(t, id, m).value)
  {
    var u := ReplaceMember(t, id, m).value;
    forall a, b | a in u.members && b in u.members && a != b ensures !Collide(u.members[a], u.members[b]) {
      assert Collide(u.members[a], u.members[b]) == Collide(u.members[b], u.members[a]);
      if a != id && b != id { assert !Collide(t.members[a], t.members[b]); }
    }
    assert forall a :: a in u.members ==> a == id || MemberRefs(t, t.members[a]);
  }

  lemma {:induction false} FewerRows(t: Tables, u: Tables)
    requires SizesBound(t)
    requires u.rows.Keys <= t.rows.Keys
    requires forall c :: c in u.censuses ==> c in t.censuses && u.censuses[c].size == t.censuses[c].size
    ensures SizesBound(u)
  {
    forall c | c in u.censuses ensures RowIds(u.rows, c) == {} || |RowIds(u.rows, c)| <= u.censuses[c].size {
      assert RowIds(u.rows, c) <= RowIds(t.rows, c) by {
        forall a | a in RowIds(u.rows, c) ensures a in RowIds(t.rows, c) {
          assert (a, c) in u.rows.Keys;
        }
      }
      SubsetCardinality(RowIds(u.rows, c), RowIds(t.rows, c));
    }
  }

  lemma {:induction false} ReplaceMemberInv(t: Tables, id: Uuid, m: Member)
    requires Inv(t) && id in t.members && ReplaceMember(t, id, m).Some?
    requires m.entity == t.members[id].entity
    requires HasValidKey(t.members[id]) ==> HasValidKey(m)
    ensures Inv(ReplaceMember(t, id, m).value)
  {
    ReplaceMemberLegal(t, id, m);
    var u := ReplaceMember(t, id, m).value;
    assert u == t.(members := t.members[id := m]);
    FewerRows(t, u);
    forall p | p in u.rows
      ensures u.members[p.0].entity == u.censuses[p.1].entity && Eligible(u.members[p.0], u.censuses[p.1])
    {
      assert p in t.rows && Eligible(t.members[p.0], t.censuses[p.1]);
    }
  }

  // `u` differs from `t` in members' tags only.
  ghost predicate TagsOnly(t: Tables, u: Tables) {
    && u == t.(members := u.members)
    && u.members.Keys == t.members.Keys
    && (forall a :: a in t.members ==> u.members[a] == t.members[a].(tags := u.members[a].tags))
  }

  lemma {:induction false} TagsOnlyMembers(t: Tables, u: Tables)
    requires LegalMembers(t) && TagsOnly(t, u)
    ensures LegalMembers(u)
  {
    assert forall a, b :: a in t.members && b in t.members ==>
      Collide(t.members[a], t.members[b]) == Collide(u.members[a], u.members[b]);
  }

  lemma {:induction false} TagsOnlyRows(t: Tables, u: Tables)
    requires RowsEligible(t) && SizesBound(t) && TagsOnly(t, u)
    ensures LegalRows(u) && RowsEligible(u) && SizesBound(u)
  {
  }

  lemma {:induction false} TagsOnlyInv(t: Tables, u: Tables)
    requires Inv(t) && TagsOnly(t, u)
    ensures Inv(u)
  {
    TagsOnlyMembers(t, u);
    TagsOnlyRows(t, u);
  }

  lemma {:induction false} MapTagsInv(t: Tables, ids: set<Uuid>, f: seq<int> -> seq<int>)
    requires Inv(t)
    ensures Inv(MapTags(t, ids, f)) && TagsOnly(t, MapTags(t, ids, f))
  {
    TagsOnlyInv(t, MapTags(t, ids, f));
  }

  // ---------- DELETE ----------

  lemma {:induction false} WithoutMembersInv(t: Tables, gone: set<Uuid>)
    requires Inv(t)
    ensures Inv(WithoutMembers(t, gone))
  {
    var u := WithoutMembers(t, gone);
    WithoutMembersLegal(t, gone);
    FewerRows(t, u);
  }

  lemma {:induction false} WithoutCensusInv(t: Tables, c: Bytes)
    requires Inv(t)
    ensures Inv(WithoutCensus(t, c))
  {
    WithoutCensusLegal(t, c);
    FewerRows(t, WithoutCensus(t, c));
  }

  lemma {:induction false} EntityDeletedInv(t: Tables, e: Bytes)
    requires Inv(t) && EntityDeleted(t, e).Some?
    ensures Inv(EntityDeleted(t, e).value)
  {
    EntityDeletedLegal(t, e);
    FewerRows(t, EntityDeleted(t, e).value);
  }

  // ---------- Census ----------

  // A census row may change in any column but the entity, the target and the flag.
  ghost predicate SameBasis(v: Census, w: Census) {
    v.entity == w.entity && v.target == w.target && v.ephemeral == w.ephemeral
  }

  lemma {:induction false} CensusRowLegal(t: Tables, c: Bytes, v: Census)
    requires Legal(t) && c in t.censuses && SameBasis(v, t.censuses[c])
    ensures Legal(t.(censuses := t.censuses[c := v]))
  {
    PutCensusLegal(t, c, v);
  }

  lemma {:induction false} CensusRowEligible(t: Tables, c: Bytes, v: Census)
    requires RowsEligible(t) && c in t.censuses && SameBasis(v, t.censuses[c])
    ensures RowsEligible(t.(censuses := t.censuses[c := v]))
  {
  }

  lemma {:induction false} CensusRowInv(t: Tables, c: Bytes, v: Census)
    requires Legal(t) && UsersSelf(t) && TagIds(t) && RowsEligible(t)
    requires c in t.censuses && SameBasis(v, t.censuses[c])
    ensures var u := t.(censuses := t.censuses[c := v]); Legal(u) && UsersSelf(u) && TagIds(u) && RowsEligible(u)
  {
    CensusRowLegal(t, c, v);
    CensusRowEligible(t, c, v);
  }

  lemma {:induction false} CensusInfoInv(t: Tables, e: Bytes, c: Bytes, info: Option<CensusInfo>)
    requires Inv(t) && UpdateCensus(t, e, c, info).Some?
    ensures Inv(UpdateCensus(t, e, c, info).value)
  {
    if CensusOf(t, e, c) {
      var u := UpdateCensus(t, e, c, info).value;
      CensusRowInv(t, c, u.censuses[c]);
      assert u == t.(censuses := t.censuses[c := u.censuses[c]]);
      FewerRows(t, u);
    }
  }

  // Adding the rows of the members `ids` to a census without rows.
  lemma {:induction false} AddedRows(t: Tables, c: Bytes, ids: set<Uuid>, added: map<(Uuid, Bytes), CensusMember>)
    requires added.Keys == set a | a in ids :: (a, c)
    requires forall a :: a in ids ==> (a, c) !in t.rows
    ensures RowIds(t.rows + added, c) == RowIds(t.rows, c) + ids
    ensures forall d :: d != c ==> RowIds(t.rows + added, d) == RowIds(t.rows, d)
  {
    var rows := t.rows + added;
    forall a, d ensures a in RowIds(rows, d) <==> (a, d) in t.rows || (a, d) in added {
      assert (a, d) in rows <==> a in RowIds(rows, d);
    }
    forall d ensures d != c ==> RowIds(rows, d) == RowIds(t.rows, d) {
      assert forall a :: (a, d) in t.rows <==> a in RowIds(t.rows, d);
    }
    assert forall a :: (a, c) in t.rows <==> a in RowIds(t.rows, c);
    assert forall a :: (a, c) in added <==> a in ids;
  }

  // An expansion finds no rows of the census, and leaves one for each eligible member and no others.
  lemma {:induction false} ExpandCensusRows(t: Tables, e: Bytes, c: Bytes, keys: Uuid -> KeyPair)
    requires Inv(t) && ExpandCensus(t, e, c, keys).Some?
    ensures var u := ExpandCensus(t, e, c, keys).value;
            && RowIds(t.rows, c) == {}
            && RowIds(u.rows, c) == EligibleIds(t, e, t.censuses[c])
            && forall d :: d != c ==> RowIds(u.rows, d) == RowIds(t.rows, d)
  {
    var ids := EligibleIds(t, e, t.censuses[c]);
    assert forall a :: a in RowIds(t.rows, c) ==> (a, c) in t.rows && a in ids;
    AddedRows(t, c, ids, NewRows(t, c, ids, keys));
  }

  lemma {:induction false} ExpandCensusSizes(t: Tables, e: Bytes, c: Bytes, keys: Uuid -> KeyPair)
    requires Inv(t) && ExpandCensus(t, e, c, keys).Some?
    ensures SizesBound(ExpandCensus(t, e, c, keys).value)
  {
    ExpandCensusRows(t, e, c, keys);
    var u := ExpandCensus(t, e, c, keys).value;
    forall d | d in u.censuses ensures RowIds(u.rows, d) == {} || |RowIds(u.rows, d)| <= u.censuses[d].size {
      if d != c { assert u.censuses[d] == t.censuses[d] && RowIds(u.rows, d) == RowIds(t.rows, d); }
    }
  }

  // Adding rows for eligible members of a census's entity.
  lemma {:induction false} AddedEligible(t: Tables, c: Bytes, ids: set<Uuid>, added: map<(Uuid, Bytes), CensusMember>)
    requires RowsEligible(t) && c in t.censuses
    requires added.Keys == set a | a in ids :: (a, c)
    requires ids <= EligibleIds(t, t.censuses[c].entity, t.censuses[c])
    ensures RowsEligible(t.(rows := t.rows + added))
  {
    forall p | p in added ensures p.0 in ids && p.1 == c {
      assert p in added.Keys;
    }
  }

  lemma {:induction false} AddedLegal(t: Tables, added: map<(Uuid, Bytes), CensusMember>)
    requires Legal(t) && RowsEligible(t.(rows := t.rows + added))
    ensures Legal(t.(rows := t.rows + added))
  {
    var u := t.(rows := t.rows + added);
    assert LegalRows(u);
  }

  lemma {:induction false} ExpandCensusInv(t: Tables, e: Bytes, c: Bytes, keys: Uuid -> KeyPair)
    requires Inv(t) && ExpandCensus(t, e, c, keys).Some?
    ensures Inv(ExpandCensus(t, e, c, keys).value)
  {
    var ids := EligibleIds(t, e, t.censuses[c]);
    var added, v := NewRows(t, c, ids, keys), t.censuses[c].(size := |ids|);
    var u := t.(rows := t.rows + added);
    AddedEligible(t, c, ids, added);
    AddedLegal(t, added);
    CensusRowInv(u, c, v);
    assert ExpandCensus(t, e, c, keys).value == u.(censuses := u.censuses[c := v]);
    ExpandCensusSizes(t, e, c, keys);
  }

  // ---------- Steps and runs ----------

  lemma {:induction false} AddEntityInv(t: Tables, e: Bytes, info: EntityInfo)
    requires Inv(t) && AddEntity(t, e, info).Some?
    ensures Inv(AddEntity(t, e, info).value)
  {
    var r := EntityRow(e, EntityFrom(info, info.managers.value));
    InsertRowInv(t, r);
    InsertAllInv(InsertRow(t, r).value, OriginRows(e, info.origins));
  }

  lemma {:induction false} AddMemberInv(t: Tables, e: Bytes, key: Option<Bytes>, info: MemberInfo, id: Uuid, now: int)
    requires Inv(t) && AddMember(t, e, key, info, id, now).Some?
    ensures Inv(AddMember(t, e, key, info, id, now).value)
  {
    EnsureUserInv(t, key.value);
    InsertRowInv(EnsureUser(t, key.value).value, MemberRow(id, MemberFrom(e, key, info, now)));
  }

  lemma {:induction false} AddMemberBulkInv(t: Tables, e: Bytes, members: seq<NewMember>, gen: nat -> Uuid, now: int)
    requires Inv(t) && AddMemberBulk(t, e, members, gen, now).Some?
    ensures Inv(AddMemberBulk(t, e, members, gen, now).value)
  {
    InsertAllInv(t, UserRows(members));
    InsertAllInv(InsertAll(t, UserRows(members)).value, BulkRows(e, members, gen, now));
  }

  lemma {:induction false} RegisterMemberInv(t: Tables, e: Bytes, key: Bytes, id: Uuid, now: int)
    requires Inv(t) && RegisterMember(t, e, key, id, now).Some?
    ensures Inv(RegisterMember(t, e, key, id, now).value)
  {
    EnsureUserInv(t, key);
    var t1 := EnsureUser(t, key).value;
    ReplaceMemberInv(t1, id, t1.members[id].(key := Some(key), verified := now, updatedAt := now));
  }

  lemma {:induction false} DeleteTagInv(t: Tables, e: Bytes, tag: int)
    requires Inv(t) && DeleteTag(t, e, tag).Some?
    ensures Inv(DeleteTag(t, e, tag).value)
  {
    MapTagsInv(t, Tagged(t, e, tag), tags => Without(tags, tag));
  }

  lemma {:induction false} AddTagToMembersInv(t: Tables, e: Bytes, ids: seq<Uuid>, tag: int)
    requires Inv(t) && AddTagToMembers(t, e, ids, tag).Some?
    ensures Inv(AddTagToMembers(t, e, ids, tag).value)
  {
    MapTagsInv(t, ToTag(t, e, ids, tag), tags => tags + [tag]);
  }

  lemma {:induction false} RemoveTagFromMembersInv(t: Tables, e: Bytes, ids: seq<Uuid>, tag: int)
    requires Inv(t) && RemoveTagFromMembers(t, e, ids, tag).Some?
    ensures Inv(RemoveTagFromMembers(t, e, ids, tag).value)
  {
    MapTagsInv(t, ToUntag(t, e, ids, tag), tags => Without(tags, tag));
  }

  lemma {:induction false} EntityRowInv(t: Tables, e: Bytes, v: Entity)
    requires Inv(t) && e in t.entities
    ensures Inv(t.(entities := t.entities[e := v]))
  {
  }

  lemma {:induction false} InsertionStepInv(t: Tables, op: Op)
    requires Inv(t) && Inserting(op) && Try(t, op).Some?
    ensures Inv(Try(t, op).value)
  {
    match op
    case AddEntityOp(e, info) => AddEntityInv(t, e, info);
    case AddMemberOp(e, key, info, id, now) => AddMemberInv(t, e, key, info, id, now);
    case CreateMembersWithTokensOp(e, tokens, now) => InsertAllInv(t, TokenRows(e, tokens, now));
    case ImportMembersOp(e, infos, gen, now) => InsertAllInv(t, ImportRows(e, infos, gen, now));
    case AddMemberBulkOp(e, members, gen, now) => AddMemberBulkInv(t, e, members, gen, now);
    case AddTargetOp(e, _, name, id) => InsertRowInv(t, TargetRow(id, Target(e, name)));
    case AddCensusOp(e, c, target, info) => InsertRowInv(t, CensusRow(c, CensusFrom(e, target, info)));
  }

  lemma {:induction false} DeletionStepInv(t: Tables, op: Op)
    requires Inv(t) && Deleting(op) && Try(t, op).Some?
    ensures Inv(Try(t, op).value)
  {
    match op
    case DeleteEntityOp(e) => EntityDeletedInv(t, e);
    case DeleteMemberOp(e, id) => WithoutMembersInv(t, {id});
    case DeleteMembersOp(e, ids) => WithoutMembersInv(t, MembersById(t, e, ids));
    case DeleteMembersByKeysOp(e, keys) => WithoutMembersInv(t, MembersByKey(t, e, keys));
    case DeleteCensusOp(e, c) => WithoutCensusInv(t, c);
  }

  lemma {:induction false} UpdateMemberInv(t: Tables, e: Bytes, id: Uuid, info: MemberInfo, now: int)
    requires Inv(t) && UpdateMember(t, e, id, info, now).Some?
    ensures Inv(UpdateMember(t, e, id, info, now).value)
  {
    if Owned(t, e, id) && Differs(t.members[id], info) {
      ReplaceMemberInv(t, id, Merge(t.members[id], info, now));
    }
  }

  lemma {:induction false} TagStepInv(t: Tables, op: Op)
    requires Inv(t) && Tagging(op) && Try(t, op).Some?
    ensures Inv(Try(t, op).value)
  {
    match op
    case DeleteTagOp(e, tag) => DeleteTagInv(t, e, tag);
    case AddTagToMembersOp(e, ids, tag) => AddTagToMembersInv(t, e, ids, tag);
    case RemoveTagFromMembersOp(e, ids, tag) => RemoveTagFromMembersInv(t, e, ids, tag);
  }

  lemma {:induction false} ChangeStepInv(t: Tables, op: Op)
    requires Inv(t) && Changing(op) && Try(t, op).Some?
    ensures Inv(Try(t, op).value)
  {
    match op
    case UpdateEntityOp(e, info) =>
      if e in t.entities { EntityRowInv(t, e, UpdateEntity(t, e, info).entities[e]); }
    case AuthorizeEntityOp(e) => EntityRowInv(t, e, t.entities[e].(authorized := true));
    case RegisterMemberOp(e, key, id, now) => RegisterMemberInv(t, e, key, id, now);
    case UpdateMemberOp(e, id, info, now) => UpdateMemberInv(t, e, id, info, now);
    case UpdateCensusOp(e, c, info) => CensusInfoInv(t, e, c, info);
    case ExpandCensusOp(e, c, keys) => ExpandCensusInv(t, e, c, keys);
  }

  // Every step, successful or not, keeps every constraint of the schema and the census invariants.
  lemma {:induction false} StepInv(t: Tables, op: Op)
    requires Inv(t)
    ensures Inv(Apply(t, op))
  {
    if op.AddTagOp? {
      AddTagInv(t, op.entity, op.name);
    } else if Try(t, op).Some? {
      if Inserting(op) {
        InsertionStepInv(t, op);
      } else if Deleting(op) {
        DeletionStepInv(t, op);
      } else if Tagging(op) {
        TagStepInv(t, op);
      } else {
        ChangeStepInv(t, op);
      }
    }
  }

  lemma {:induction false} RunInv(t: Tables, ops: seq<Op>)
    requires Inv(t)
    ensures Inv(Run(t, ops))
    decreases |ops|
  {
    if ops != [] {
      StepInv(t, ops[0]);
      RunInv(Apply(t, ops[0]), ops[1..]);
    }
  }

  // Every state reachable from empty tables satisfies all constraints of the schema.
  lemma {:induction false} ReachableLegal(ops: seq<Op>)
    ensures Inv(Run(EMPTY, ops)) && Legal(Run(EMPTY, ops))
  {
    RunInv(EMPTY, ops);
  }
}
