// Entities do not see each other: what a step issued for one entity leaves unchanged
// for the others, and when an entity can be deleted at all.

module Tenancy {
  import opened Basics
  import opened Schema
  import opened Store
  import opened Invariants

  ghost predicate SameMembers(t: Tables, u: Tables, f: Bytes) {
    forall a :: (Owned(t, f, a) <==> Owned(u, f, a)) && (Owned(t, f, a) ==> t.members[a] == u.members[a])
  }

  predicate HasTag(t: Tables, f: Bytes, g: int) {
    g in t.tags && t.tags[g].entity == f
  }

  predicate HasTarget(t: Tables, f: Bytes, g: Uuid) {
    g in t.targets && t.targets[g].entity == f
  }

  predicate HasCensus(t: Tables, f: Bytes, c: Bytes) {
    c in t.censuses && t.censuses[c].entity == f
  }

  ghost predicate SameTagsTargets(t: Tables, u: Tables, f: Bytes) {
    && (forall g :: (HasTag(t, f, g) <==> HasTag(u, f, g)) && (HasTag(t, f, g) ==> t.tags[g] == u.tags[g]))
    && (forall g :: (HasTarget(t, f, g) <==> HasTarget(u, f, g)) && (HasTarget(t, f, g) ==> t.targets[g] == u.targets[g]))
  }

  ghost predicate SameCensuses(t: Tables, u: Tables, f: Bytes) {
    forall c :: (HasCensus(t, f, c) <==> HasCensus(u, f, c)) && (HasCensus(t, f, c) ==> t.censuses[c] == u.censuses[c])
  }

  ghost predicate SameRows(t: Tables, u: Tables, f: Bytes) {
    forall a, c :: HasCensus(t, f, c) ==>
      ((a, c) in t.rows <==> (a, c) in u.rows) && ((a, c) in t.rows ==> t.rows[(a, c)] == u.rows[(a, c)])
  }

  ghost predicate SameEntity(t: Tables, u: Tables, f: Bytes) {
    && (f in t.entities <==> f in u.entities)
    && (f in t.entities ==> t.entities[f] == u.entities[f])
    && (forall o :: (f, o) in t.origins <==> (f, o) in u.origins)
  }

  // Everything that belongs to entity f is the same in both states.
  ghost predicate SameTenant(t: Tables, u: Tables, f: Bytes) {
    SameMembers(t, u, f) && SameTagsTargets(t, u, f) && SameCensuses(t, u, f) && SameRows(t, u, f) && SameEntity(t, u, f)
  }

  lemma {:induction false} SameTenantTransitive(t: Tables, u: Tables, v: Tables, f: Bytes)
    requires SameTenant(t, u, f) && SameTenant(u, v, f)
    ensures SameTenant(t, v, f)
  {
  }

  // The entity that a new row belongs to; users belong to nobody.
  predicate Foreign(r: Row, f: Bytes) {
    match r
    case EntityRow(e, _) => e != f
    case OriginRow(e, _) => e != f
    case UserRow(_, _) => true
    case MemberRow(_, m) => m.entity != f
    case TagRow(_, g) => g.entity != f
    case TargetRow(_, g) => g.entity != f
    case CensusRow(_, c) => c.entity != f
    case CensusMemberRow(_, _, _) => false
  }

  lemma {:induction false} PutFrame(t: Tables, r: Row, f: Bytes)
    requires Foreign(r, f) && Free(t, r)
    ensures SameTenant(t, Put(t, r), f)
  {
  }

  lemma {:induction false} InsertAllFrame(t: Tables, rows: seq<Row>, f: Bytes)
    requires InsertAll(t, rows).Some?
    requires forall i :: 0 <= i < |rows| ==> Foreign(rows[i], f)
    ensures SameTenant(t, InsertAll(t, rows).value, f)
    decreases |rows|
  {
    if rows != [] {
      var t1 := Put(t, rows[0]);
      PutFrame(t, rows[0], f);
      assert forall i :: 0 <= i < |rows[1..]| ==> rows[1..][i] == rows[i + 1];
      InsertAllFrame(t1, rows[1..], f);
      SameTenantTransitive(t, t1, InsertAll(t, rows).value, f);
    }
  }

  // Changing members of other entities only.
  lemma {:induction false} MembersFrame(t: Tables, members: map<Uuid, Member>, f: Bytes)
    requires members.Keys == t.members.Keys
    requires forall a :: a in t.members ==>
      members[a].entity == t.members[a].entity && (t.members[a].entity == f ==> members[a] == t.members[a])
    ensures SameTenant(t, t.(members := members), f)
  {
  }

  lemma {:induction false} DeletionFrame(t: Tables, gone: set<Uuid>, f: Bytes)
    requires RowsEligible(t)
    requires forall a :: a in gone && a in t.members ==> t.members[a].entity != f
    ensures SameTenant(t, WithoutMembers(t, gone), f)
  {
  }

  lemma {:induction false} EntityDeletedFrame(t: Tables, e: Bytes, f: Bytes)
    requires RowsEligible(t) && e != f
    ensures SameTenant(t, CascadeEntity(t, e), f)
  {
  }

  lemma {:induction false} CensusRowFrame(t: Tables, c: Bytes, v: Census, f: Bytes)
    requires c in t.censuses && t.censuses[c].entity != f && v.entity != f
    ensures SameTenant(t, t.(censuses := t.censuses[c := v]), f)
  {
  }

  lemma {:induction false} CensusGoneFrame(t: Tables, c: Bytes, f: Bytes)
    requires c in t.censuses && t.censuses[c].entity != f
    ensures SameTenant(t, WithoutCensus(t, c), f)
  {
  }

  lemma {:induction false} RowsFrame(t: Tables, added: map<(Uuid, Bytes), CensusMember>, c: Bytes, f: Bytes)
    requires forall a, d :: (a, d) in added ==> d == c
    requires !HasCensus(t, f, c)
    ensures SameTenant(t, t.(rows := t.rows + added), f)
  {
  }

  lemma {:induction false} ExpandFrame(t: Tables, e: Bytes, c: Bytes, keys: Uuid -> KeyPair, f: Bytes)
    requires ExpandCensus(t, e, c, keys).Some? && e != f
    ensures SameTenant(t, ExpandCensus(t, e, c, keys).value, f)
  {
    var ids := EligibleIds(t, e, t.censuses[c]);
    var added := NewRows(t, c, ids, keys);
    assert added.Keys == set a | a in ids :: (a, c);
    var u := t.(rows := t.rows + added);
    assert forall a, d :: d != c ==> (a, d) !in added.Keys;
    RowsFrame(t, added, c, f);
    CensusRowFrame(u, c, t.censuses[c].(size := |ids|), f);
    SameTenantTransitive(t, u, ExpandCensus(t, e, c, keys).value, f);
  }

  lemma {:induction false} EntityRowFrame(t: Tables, e: Bytes, v: Entity, f: Bytes)
    requires e in t.entities && e != f
    ensures SameTenant(t, t.(entities := t.entities[e := v]), f)
  {
  }

  lemma {:induction false} TagFrame(t: Tables, e: Bytes, tag: int, f: Bytes)
    requires DeleteTag(t, e, tag).Some? && e != f
    ensures SameTenant(t, DeleteTag(t, e, tag).value, f)
  {
    var t1 := MapTags(t, Tagged(t, e, tag), tags => Without(tags, tag));
    MembersFrame(t, t1.members, f);
    assert t1 == t.(members := t1.members);
  }

  lemma {:induction false} AddTagFrame(t: Tables, e: Bytes, name: string, f: Bytes)
    requires e != f
    ensures SameTenant(t, AddTag(t, e, name), f)
  {
    if name != "" && t.nextTag <= MAX_TAG {
      var r := TagRow(t.nextTag, Tag(e, name));
      if InsertRow(t, r).Some? {
        PutFrame(t, r, f);
        assert AddTag(t, e, name) == Put(t, r).(nextTag := t.nextTag + 1);
      } else {
        assert AddTag(t, e, name) == t.(nextTag := t.nextTag + 1);
      }
    }
  }

  lemma {:induction false} BulkFrame(t: Tables, e: Bytes, members: seq<NewMember>, gen: nat -> Uuid, now: int, f: Bytes)
    requires e != f && AddMemberBulk(t, e, members, gen, now).Some?
    ensures SameTenant(t, AddMemberBulk(t, e, members, gen, now).value, f)
  {
    var users, rows := UserRows(members), BulkRows(e, members, gen, now);
    var t1 := InsertAll(t, users).value;
    InsertAllFrame(t, users, f);
    forall i | 0 <= i < |rows| ensures Foreign(rows[i], f) {
      assert rows[i] == MemberRow(gen(i), MemberFrom(e, Some(members[i].key), members[i].info, now));
    }
    InsertAllFrame(t1, rows, f);
    SameTenantTransitive(t, t1, InsertAll(t1, rows).value, f);
  }

  lemma {:induction false} UserFrame(t: Tables, key: Bytes, f: Bytes)
    requires EnsureUser(t, key).Some?
    ensures SameTenant(t, EnsureUser(t, key).value, f)
  {
  }

  lemma {:induction false} AddMemberFrame(t: Tables, e: Bytes, key: Option<Bytes>, info: MemberInfo, id: Uuid, now: int, f: Bytes)
    requires e != f && AddMember(t, e, key, info, id, now).Some?
    ensures SameTenant(t, AddMember(t, e, key, info, id, now).value, f)
  {
    var t1, r := EnsureUser(t, key.value).value, MemberRow(id, MemberFrom(e, key, info, now));
    UserFrame(t, key.value, f);
    PutFrame(t1, r, f);
    SameTenantTransitive(t, t1, Put(t1, r), f);
  }

  lemma {:induction false} RegisterFrame(t: Tables, e: Bytes, key: Bytes, id: Uuid, now: int, f: Bytes)
    requires e != f && RegisterMember(t, e, key, id, now).Some?
    ensures SameTenant(t, RegisterMember(t, e, key, id, now).value, f)
  {
    var t1, u := EnsureUser(t, key).value, RegisterMember(t, e, key, id, now).value;
    UserFrame(t, key, f);
    MembersFrame(t1, u.members, f);
    assert u == t1.(members := u.members);
    SameTenantTransitive(t, t1, u, f);
  }

  lemma {:induction false} UpdateMemberFrame(t: Tables, e: Bytes, id: Uuid, info: MemberInfo, now: int, f: Bytes)
    requires e != f && UpdateMember(t, e, id, info, now).Some?
    ensures SameTenant(t, UpdateMember(t, e, id, info, now).value, f)
  {
    var u := UpdateMember(t, e, id, info, now).value;
    MembersFrame(t, u.members, f);
    assert u == t.(members := u.members);
  }

  lemma {:induction false} MapTagsFrame(t: Tables, ids: set<Uuid>, g: seq<int> -> seq<int>, f: Bytes)
    requires forall a :: a in ids && a in t.members ==> t.members[a].entity != f
    ensures SameTenant(t, MapTags(t, ids, g), f)
  {
    MembersFrame(t, MapTags(t, ids, g).members, f);
  }

  lemma {:induction false} UpdateCensusFrame(t: Tables, e: Bytes, c: Bytes, info: Option<CensusInfo>, f: Bytes)
    requires e != f && UpdateCensus(t, e, c, info).Some?
    ensures SameTenant(t, UpdateCensus(t, e, c, info).value, f)
  {
    if CensusOf(t, e, c) {
      CensusRowFrame(t, c, UpdateCensus(t, e, c, info).value.censuses[c], f);
    }
  }

  lemma {:induction false} ListsFrame(t: Tables, op: Op, f: Bytes)
    requires op.entity != f && InsertsLists(op) && Try(t, op).Some?
    ensures SameTenant(t, Try(t, op).value, f)
  {
    match op
    case AddEntityOp(e, info) =>
      var t1 := Put(t, EntityRow(e, EntityFrom(info, info.managers.value)));
      PutFrame(t, EntityRow(e, EntityFrom(info, info.managers.value)), f);
      InsertAllFrame(t1, OriginRows(e, info.origins), f);
      SameTenantTransitive(t, t1, Try(t, op).value, f);
    case CreateMembersWithTokensOp(e, tokens, now) =>
      var rows := TokenRows(e, tokens, now);
      forall i | 0 <= i < |rows| ensures Foreign(rows[i], f) {
        assert rows[i] == MemberRow(tokens[i], MemberFrom(e, None, BLANK, now));
      }
      InsertAllFrame(t, rows, f);
    case ImportMembersOp(e, infos, gen, now) =>
      var rows := ImportRows(e, infos, gen, now);
      forall i | 0 <= i < |rows| ensures Foreign(rows[i], f) {
        assert rows[i] == MemberRow(gen(i), MemberFrom(e, None, infos[i], now));
      }
      InsertAllFrame(t, rows, f);
    case AddMemberBulkOp(e, members, gen, now) => BulkFrame(t, e, members, gen, now, f);
  }

  lemma {:induction false} InsertionFrame(t: Tables, op: Op, f: Bytes)
    requires op.entity != f && Inserting(op) && Try(t, op).Some?
    ensures SameTenant(t, Try(t, op).value, f)
  {
    if InsertsLists(op) {
      ListsFrame(t, op, f);
    } else {
      match op
      case AddMemberOp(e, key, info, id, now) => AddMemberFrame(t, e, key, info, id, now, f);
      case AddTargetOp(e, _, name, id) => PutFrame(t, TargetRow(id, Target(e, name)), f);
      case AddCensusOp(e, c, target, info) => PutFrame(t, CensusRow(c, CensusFrom(e, target, info)), f);
    }
  }

  lemma {:induction false} DeletionStepFrame(t: Tables, op: Op, f: Bytes)
    requires RowsEligible(t) && op.entity != f && Deleting(op) && Try(t, op).Some?
    ensures SameTenant(t, Try(t, op).value, f)
  {
    match op
    case DeleteEntityOp(e) => EntityDeletedFrame(t, e, f);
    case DeleteMemberOp(_, id) => DeletionFrame(t, {id}, f);
    case DeleteMembersOp(e, ids) => DeletionFrame(t, MembersById(t, e, ids), f);
    case DeleteMembersByKeysOp(e, keys) => DeletionFrame(t, MembersByKey(t, e, keys), f);
    case DeleteCensusOp(_, c) => CensusGoneFrame(t, c, f);
  }

  lemma {:induction false} TagStepFrame(t: Tables, op: Op, f: Bytes)
    requires op.entity != f && Tagging(op) && Try(t, op).Some?
    ensures SameTenant(t, Try(t, op).value, f)
  {
    match op
    case DeleteTagOp(e, tag) => TagFrame(t, e, tag, f);
    case AddTagToMembersOp(e, ids, tag) => MapTagsFrame(t, ToTag(t, e, ids, tag), tags => tags + [tag], f);
    case RemoveTagFromMembersOp(e, ids, tag) => MapTagsFrame(t, ToUntag(t, e, ids, tag), tags => Without(tags, tag), f);
  }

  lemma {:induction false} ChangeStepFrame(t: Tables, op: Op, f: Bytes)
    requires op.entity != f && Changing(op) && Try(t, op).Some?
    ensures SameTenant(t, Try(t, op).value, f)
  {
    match op
    case UpdateEntityOp(e, info) => if e in t.entities { EntityRowFrame(t, e, UpdateEntity(t, e, info).entities[e], f); }
    case AuthorizeEntityOp(e) => EntityRowFrame(t, e, t.entities[e].(authorized := true), f);
    case RegisterMemberOp(e, key, id, now) => RegisterFrame(t, e, key, id, now, f);
    case UpdateMemberOp(e, id, info, now) => UpdateMemberFrame(t, e, id, info, now, f);
    case UpdateCensusOp(e, c, info) => UpdateCensusFrame(t, e, c, info, f);
    case ExpandCensusOp(e, c, keys) => ExpandFrame(t, e, c, keys, f);
  }

  // A step issued for one entity leaves every other entity's members, tags, targets,
  // censuses and census rows as they were.
  lemma {:induction false} StepFrame(t: Tables, op: Op, f: Bytes)
    requires Inv(t) && op.entity != f
    ensures SameTenant(t, Apply(t, op), f)
  {
    if op.AddTagOp? {
      AddTagFrame(t, op.entity, op.name, f);
    } else if Try(t, op).Some? {
      if Inserting(op) {
        InsertionFrame(t, op, f);
      } else if Deleting(op) {
        DeletionStepFrame(t, op, f);
      } else if Tagging(op) {
        TagStepFrame(t, op, f);
      } else {
        ChangeStepFrame(t, op, f);
      }
    }
  }

  lemma {:induction false} RunFrame(t: Tables, ops: seq<Op>, f: Bytes)
    requires Inv(t)
    requires forall i :: 0 <= i < |ops| ==> ops[i].entity != f
    ensures SameTenant(t, Run(t, ops), f)
    decreases |ops|
  {
    if ops != [] {
      var t1 := Apply(t, ops[0]);
      StepInv(t, ops[0]);
      StepFrame(t, ops[0], f);
      assert forall i :: 0 <= i < |ops[1..]| ==> ops[1..][i] == ops[i + 1];
      RunFrame(t1, ops[1..], f);
      SameTenantTransitive(t, t1, Run(t1, ops[1..]), f);
    }
  }

  // ---------- Deleting an entity ----------

  // Another entity's census that is drawn from a target of e.
  ghost predicate Borrows(t: Tables, e: Bytes, c: Bytes) {
    c in t.censuses && t.censuses[c].entity != e && HasTarget(t, e, t.censuses[c].target)
  }

  lemma {:induction false} CascadeKeepsOrigins(t: Tables, e: Bytes)
    requires LegalMembers(t)
    ensures var u := CascadeEntity(t, e); forall a :: a in u.members ==> (u.members[a].entity, Token) in u.origins
  {
    assert forall a :: a in t.members ==> MemberRefs(t, t.members[a]);
  }

  lemma {:induction false} CascadeKeepsTargets(t: Tables, e: Bytes)
    requires LegalCensuses(t)
    ensures var u := CascadeEntity(t, e);
            (forall c :: c in u.censuses ==> u.censuses[c].target in u.targets) <==> forall c :: !Borrows(t, e, c)
  {
    var u := CascadeEntity(t, e);
    forall c ensures Borrows(t, e, c) <==> c in u.censuses && u.censuses[c].target !in u.targets {
      assert c in u.censuses ==> u.censuses[c] == t.censuses[c] && t.censuses[c].target in t.targets;
    }
  }

  // DeleteEntity succeeds exactly when the entity exists and no other entity's census is
  // drawn from one of its targets (adding a census does not check whose target it names).
  lemma {:induction false} DeleteEntityIff(t: Tables, e: Bytes)
    requires Inv(t)
    ensures DeleteEntity(t, e).Some? <==> e != [] && e in t.entities && forall c :: !Borrows(t, e, c)
  {
    CascadeKeepsOrigins(t, e);
    CascadeKeepsTargets(t, e);
  }

  function SomeInfo(e: Bytes): EntityInfo {
    EntityInfo("", "", "", 0, false, "", "", Some([e]), [Token])
  }

  function WithEntity(t: Tables, e: Bytes): Tables {
    t.(entities := t.entities[e := EntityFrom(SomeInfo(e), [e])], origins := t.origins + {(e, Token)})
  }

  lemma {:induction false} NewEntity(t: Tables, e: Bytes)
    requires e !in t.entities && (e, Token) !in t.origins
    ensures Apply(t, AddEntityOp(e, SomeInfo(e))) == WithEntity(t, e)
  {
    var t1, rows := Put(t, EntityRow(e, EntityFrom(SomeInfo(e), [e]))), OriginRows(e, [Token]);
    assert rows == [OriginRow(e, Token)] && rows[1..] == [];
    assert InsertAll(t1, rows) == InsertRow(t1, rows[0]);
  }

  lemma {:induction false} RunFirst(t: Tables, ops: seq<Op>, i: nat)
    requires i < |ops|
    ensures Run(t, ops[i..]) == Run(Apply(t, ops[i]), ops[i + 1..])
  {
    assert ops[i..][1..] == ops[i + 1..];
  }

  // Entity [2] draws a census from the target of entity [1].
  const BORROWING_RUN: seq<Op> := [
    AddEntityOp([1], SomeInfo([1])),
    AddEntityOp([2], SomeInfo([2])),
    AddTargetOp([1], [1], "all", 7),
    AddCensusOp([2], [9], 7, None)]

  const TWO_ENTITIES := WithEntity(WithEntity(EMPTY, [1]), [2])

  const BORROWED := TWO_ENTITIES.(
    targets := map[7 := Target([1], "all")],
    censuses := map[[9] := Census([2], 7, "", [], "", 0, false)])

  lemma {:induction false} CensusBorrows()
    ensures Apply(Apply(TWO_ENTITIES, BORROWING_RUN[2]), BORROWING_RUN[3]) == BORROWED
  {
    var t1 := TWO_ENTITIES.(targets := map[7 := Target([1], "all")]);
    assert [1] in TWO_ENTITIES.entities && [2] in TWO_ENTITIES.entities;
    assert AddTarget(TWO_ENTITIES, [1], [1], "all", 7) == Some(t1);
    assert AddCensus(t1, [2], [9], 7, None) == Some(BORROWED);
  }

  lemma {:induction false} BorrowingRun()
    ensures Run(EMPTY, BORROWING_RUN) == BORROWED
  {
    var r := BORROWING_RUN;
    NewEntity(EMPTY, [1]);
    NewEntity(WithEntity(EMPTY, [1]), [2]);
    CensusBorrows();
    assert r[0..] == r && r[4..] == [];
    RunFirst(EMPTY, r, 0);
    RunFirst(WithEntity(EMPTY, [1]), r, 1);
    RunFirst(TWO_ENTITIES, r, 2);
    RunFirst(Apply(TWO_ENTITIES, r[2]), r, 3);
  }

  // DeleteEntity can fail for an entity that is there, in a state reached by four successful steps.
  lemma {:induction false} DeleteEntityCanFail()
    ensures var u := Run(EMPTY, BORROWING_RUN);
            [1] in u.entities && Borrows(u, [1], [9]) && DeleteEntity(u, [1]).None?
  {
    BorrowingRun();
    RunInv(EMPTY, BORROWING_RUN);
    assert [1] in TWO_ENTITIES.entities;
    assert Borrows(BORROWED, [1], [9]);
    DeleteEntityIff(BORROWED, [1]);
  }

  // The cascades of an entity that nothing refers to delete nothing else.
  lemma {:induction false} NoMembersGone(t: Tables, u: Tables, e: Bytes)
    requires LegalMembers(t) && LegalCensuses(t) && LegalRows(t) && e !in t.entities
    requires u == t.(entities := u.entities, origins := u.origins)
    ensures var v := CascadeEntity(u, e); v.members == t.members && v.censuses == t.censuses && v.rows == t.rows
  {
    var v := CascadeEntity(u, e);
    assert forall a :: a in t.members ==> MemberRefs(t, t.members[a]);
    assert v.members == t.members;
    assert v.censuses == t.censuses;
    assert v.rows == t.rows;
  }

  lemma {:induction false} NoTagsGone(t: Tables, u: Tables, e: Bytes)
    requires LegalTags(t) && LegalTargets(t) && e !in t.entities
    requires u == t.(entities := u.entities, origins := u.origins)
    ensures var v := CascadeEntity(u, e); v.tags == t.tags && v.targets == t.targets
  {
    var v := CascadeEntity(u, e);
    forall g ensures g in v.tags <==> g in t.tags { assert g in t.tags ==> t.tags[g].entity != e; }
    assert v.tags == t.tags;
    forall g ensures g in v.targets <==> g in t.targets { assert g in t.targets ==> t.targets[g].entity != e; }
    assert v.targets == t.targets;
  }

  lemma {:induction false} OriginsOnly(t: Tables, rows: seq<Row>, e: Bytes)
    requires InsertAll(t, rows).Some?
    requires forall i :: 0 <= i < |rows| ==> rows[i].OriginRow? && rows[i].entityId == e
    ensures var u := InsertAll(t, rows).value;
            u == t.(origins := u.origins) && forall o: (Bytes, Origin) :: o.0 != e ==> (o in u.origins <==> o in t.origins)
    decreases |rows|
  {
    if rows != [] {
      OriginsOnly(InsertRow(t, rows[0]).value, rows[1..], e);
    }
  }

  // Deleting an entity right after adding it restores the tables.
  lemma {:induction false} AddThenDeleteEntity(t: Tables, e: Bytes, info: EntityInfo)
    requires Inv(t) && e != [] && AddEntity(t, e, info).Some?
    ensures DeleteEntity(AddEntity(t, e, info).value, e) == Some(t)
  {
    var t1, u := Put(t, EntityRow(e, EntityFrom(info, info.managers.value))), AddEntity(t, e, info).value;
    OriginsOnly(t1, OriginRows(e, info.origins), e);
    NoMembersGone(t, u, e);
    NoTagsGone(t, u, e);
    assert u.entities - {e} == t.entities;
    assert (set o | o in u.origins && o.0 != e) == t.origins;
    assert NoActionOk(t) by {
      assert forall a :: a in t.members ==> MemberRefs(t, t.members[a]);
    }
  }

  // Nothing in any table refers to e.
  ghost predicate Absent(t: Tables, e: Bytes) {
    && e !in t.entities
    && (forall o :: (e, o) !in t.origins)
    && (forall a :: !Owned(t, e, a))
    && (forall g :: !HasTag(t, e, g))
    && (forall g :: !HasTarget(t, e, g))
    && (forall c :: !HasCensus(t, e, c))
    && (forall a, c :: (a, c) in t.rows ==> a in t.members && c in t.censuses)
  }

  // Deleting an entity removes every row that depends on it and nothing of the others, or changes nothing.
  lemma {:induction false} DeleteEntityAllOrNothing(t: Tables, e: Bytes)
    requires Inv(t)
    ensures var u := Apply(t, DeleteEntityOp(e));
            if DeleteEntity(t, e).Some? then Absent(u, e) && u.users == t.users && u.nextTag == t.nextTag && forall f :: f != e ==> SameTenant(t, u, f)
            else u == t
  {
    if DeleteEntity(t, e).Some? {
      StepInv(t, DeleteEntityOp(e));
      forall f | f != e ensures SameTenant(t, Apply(t, DeleteEntityOp(e)), f) {
        EntityDeletedFrame(t, e, f);
      }
    }
  }

  // ---------- Authorizing an entity ----------

  predicate Authorized(t: Tables, e: Bytes) {
    e in t.entities && t.entities[e].authorized
  }

  lemma {:induction false} InsertionKeepsEntity(t: Tables, op: Op, e: Bytes)
    requires Inserting(op) && e in t.entities && Try(t, op).Some?
    ensures e in Try(t, op).value.entities && Try(t, op).value.entities[e] == t.entities[e]
  {
    if InsertsLists(op) {
      InsertionAdds(t, op);
    }
  }

  lemma {:induction false} StepKeepsAuthorized(t: Tables, op: Op, e: Bytes)
    requires Authorized(t, e) && e in Apply(t, op).entities
    ensures Authorized(Apply(t, op), e)
  {
    if Inserting(op) && Try(t, op).Some? {
      InsertionKeepsEntity(t, op, e);
    }
  }

  // The entity exists before, between and after all steps of the run.
  ghost predicate EntityStays(t: Tables, ops: seq<Op>, e: Bytes)
    decreases |ops|
  {
    e in t.entities && (ops != [] ==> EntityStays(Apply(t, ops[0]), ops[1..], e))
  }

  lemma {:induction false} StaysAuthorized(t: Tables, e: Bytes, ops: seq<Op>)
    requires Authorized(t, e) && EntityStays(t, ops, e)
    ensures Authorized(Run(t, ops), e)
    decreases |ops|
  {
    if ops != [] {
      assert EntityStays(Apply(t, ops[0]), ops[1..], e);
      StepKeepsAuthorized(t, ops[0], e);
      StaysAuthorized(Apply(t, ops[0]), e, ops[1..]);
    }
  }

  // An entity is authorized once: no AuthorizeEntity succeeds for it again before it is deleted.
  lemma {:induction false} AuthorizedOnce(t: Tables, e: Bytes, ops: seq<Op>)
    requires AuthorizeEntity(t, e).Some? && EntityStays(AuthorizeEntity(t, e).value, ops, e)
    ensures AuthorizeEntity(Run(AuthorizeEntity(t, e).value, ops), e).None?
  {
    StaysAuthorized(AuthorizeEntity(t, e).value, e, ops);
  }
}
