// Tag integrity. The tags column of members is an array without a foreign key, so
// that it names live tags only is kept by the steps and not by the schema.

module Tags {
  import opened Basics
  import opened Schema
  import opened Store
  import opened Invariants
  import opened Tenancy

  ghost predicate GoodTags(t: Tables, e: Bytes, tags: seq<int>) {
    Distinct(tags) && forall g :: g in tags ==> HasTag(t, e, g)
  }

  // Each member's tags are distinct live tags of its own entity.
  ghost predicate TagsOk(t: Tables) {
    forall a :: a in t.members ==> GoodTags(t, t.members[a].entity, t.members[a].tags)
  }

  lemma {:induction false} WithoutElements(s: seq<int>, g: int)
    ensures forall x :: x in Without(s, g) <==> x in s && x != g
    ensures Distinct(s) ==> Distinct(Without(s, g))
  {
    if s != [] {
      WithoutElements(s[1..], g);
      assert s == [s[0]] + s[1..];
      if Distinct(s) {
        var tail, r := s[1..], Without(s[1..], g);
        assert forall i :: 0 <= i < |tail| ==> tail[i] == s[i + 1];
        assert s[0] !in tail;
        assert Distinct([s[0]] + r);
      }
    }
  }

  lemma {:induction false} WithoutAbsent(s: seq<int>, g: int)
    requires g !in s
    ensures Without(s, g) == s
  {
    if s != [] {
      WithoutAbsent(s[1..], g);
      assert s == [s[0]] + s[1..];
    }
  }

  lemma {:induction false} WithoutAppend(s: seq<int>, g: int)
    ensures Without(s + [g], g) == Without(s, g)
  {
    if s == [] {
      assert [g][1..] == [];
    } else {
      assert (s + [g])[1..] == s[1..] + [g];
      WithoutAppend(s[1..], g);
    }
  }

  // Removing a tag right after adding it to a member that lacked it restores the array.
  lemma {:induction false} AddThenRemove(s: seq<int>, g: int)
    requires g !in s
    ensures Without(s + [g], g) == s
  {
    WithoutAppend(s, g);
    WithoutAbsent(s, g);
  }

  // An UpdateMember step is given distinct live tags of its entity, or none.
  ghost predicate GoodStep(t: Tables, op: Op) {
    op.UpdateMemberOp? && op.info.tags.Some? ==> GoodTags(t, op.entity, op.info.tags.value)
  }

  predicate Untagged(r: Row) {
    r.MemberRow? ==> r.member.tags == []
  }

  lemma {:induction false} PutTags(t: Tables, r: Row)
    requires TagsOk(t) && Untagged(r) && Free(t, r)
    ensures TagsOk(Put(t, r))
  {
    var u := Put(t, r);
    forall a | a in u.members ensures GoodTags(u, u.members[a].entity, u.members[a].tags) {
      if a in t.members { assert GoodTags(t, t.members[a].entity, t.members[a].tags); }
    }
  }

  lemma {:induction false} InsertAllTags(t: Tables, rows: seq<Row>)
    requires TagsOk(t) && InsertAll(t, rows).Some?
    requires forall i :: 0 <= i < |rows| ==> Untagged(rows[i])
    ensures TagsOk(InsertAll(t, rows).value)
    decreases |rows|
  {
    if rows != [] {
      PutTags(t, rows[0]);
      assert forall i :: 0 <= i < |rows[1..]| ==> rows[1..][i] == rows[i + 1];
      InsertAllTags(Put(t, rows[0]), rows[1..]);
    }
  }

  // Members may change in everything but the entity and the tags, or disappear.
  lemma {:induction false} MembersTags(t: Tables, u: Tables)
    requires TagsOk(t)
    requires forall a :: a in u.members ==>
      a in t.members && u.members[a].entity == t.members[a].entity && u.members[a].tags == t.members[a].tags
    requires forall a, g :: a in u.members && HasTag(t, u.members[a].entity, g) ==> HasTag(u, u.members[a].entity, g)
    ensures TagsOk(u)
  {
    forall a | a in u.members ensures GoodTags(u, u.members[a].entity, u.members[a].tags) {
      assert GoodTags(t, t.members[a].entity, t.members[a].tags);
    }
  }

  lemma {:induction false} AddTagTags(t: Tables, e: Bytes, name: string)
    requires TagsOk(t) && TagIds(t)
    ensures TagsOk(AddTag(t, e, name))
  {
    MembersTags(t, AddTag(t, e, name));
  }

  lemma {:induction false} DeleteTagTags(t: Tables, e: Bytes, tag: int)
    requires TagsOk(t) && DeleteTag(t, e, tag).Some?
    ensures TagsOk(DeleteTag(t, e, tag).value)
  {
    var u := DeleteTag(t, e, tag).value;
    forall a | a in u.members ensures GoodTags(u, u.members[a].entity, u.members[a].tags) {
      assert GoodTags(t, t.members[a].entity, t.members[a].tags);
      WithoutElements(t.members[a].tags, tag);
      if tag in t.members[a].tags { assert HasTag(t, t.members[a].entity, tag); }
    }
  }

  lemma {:induction false} AddTagToMembersTags(t: Tables, e: Bytes, ids: seq<Uuid>, tag: int)
    requires TagsOk(t) && AddTagToMembers(t, e, ids, tag).Some?
    ensures TagsOk(AddTagToMembers(t, e, ids, tag).value)
  {
    var u := AddTagToMembers(t, e, ids, tag).value;
    forall a | a in u.members ensures GoodTags(u, u.members[a].entity, u.members[a].tags) {
      assert GoodTags(t, t.members[a].entity, t.members[a].tags);
    }
  }

  lemma {:induction false} RemoveTagFromMembersTags(t: Tables, e: Bytes, ids: seq<Uuid>, tag: int)
    requires TagsOk(t) && RemoveTagFromMembers(t, e, ids, tag).Some?
    ensures TagsOk(RemoveTagFromMembers(t, e, ids, tag).value)
  {
    var u := RemoveTagFromMembers(t, e, ids, tag).value;
    forall a | a in u.members ensures GoodTags(u, u.members[a].entity, u.members[a].tags) {
      assert GoodTags(t, t.members[a].entity, t.members[a].tags);
      WithoutElements(t.members[a].tags, tag);
    }
  }

  // An update keeps tag integrity exactly when the tags it stores are good.
  lemma {:induction false} UpdateMemberTags(t: Tables, e: Bytes, id: Uuid, info: MemberInfo, now: int)
    requires TagsOk(t) && Owned(t, e, id) && UpdateMember(t, e, id, info, now).Some?
    ensures TagsOk(UpdateMember(t, e, id, info, now).value) <==>
            (info.tags.Some? ==> GoodTags(t, e, info.tags.value))
  {
    var u := UpdateMember(t, e, id, info, now).value;
    assert GoodTags(t, e, t.members[id].tags);
    assert info.tags.Some? ==> u.members[id].tags == info.tags.value;
    assert forall f, g :: HasTag(t, f, g) == HasTag(u, f, g);
    assert GoodTags(u, e, u.members[id].tags) == GoodTags(t, e, u.members[id].tags);
    if GoodTags(t, e, u.members[id].tags) {
      forall a | a in u.members ensures GoodTags(u, u.members[a].entity, u.members[a].tags) {
        assert GoodTags(t, t.members[a].entity, t.members[a].tags);
      }
    } else {
      assert !GoodTags(u, u.members[id].entity, u.members[id].tags);
    }
  }

  lemma {:induction false} DeletionTags(t: Tables, op: Op)
    requires TagsOk(t) && Deleting(op) && Try(t, op).Some?
    ensures TagsOk(Try(t, op).value)
  {
    MembersTags(t, Try(t, op).value);
  }

  lemma {:induction false} InsertionTags(t: Tables, op: Op)
    requires TagsOk(t) && InsertsLists(op) && Try(t, op).Some?
    ensures TagsOk(Try(t, op).value)
  {
    match op
    case AddEntityOp(e, info) =>
      var r := EntityRow(e, EntityFrom(info, info.managers.value));
      PutTags(t, r);
      InsertAllTags(Put(t, r), OriginRows(e, info.origins));
    case CreateMembersWithTokensOp(e, tokens, now) =>
      var rows := TokenRows(e, tokens, now);
      assert forall i :: 0 <= i < |rows| ==> rows[i] == MemberRow(tokens[i], MemberFrom(e, None, BLANK, now));
      InsertAllTags(t, rows);
    case ImportMembersOp(e, infos, gen, now) =>
      var rows := ImportRows(e, infos, gen, now);
      assert forall i :: 0 <= i < |rows| ==> rows[i] == MemberRow(gen(i), MemberFrom(e, None, infos[i], now));
      InsertAllTags(t, rows);
    case AddMemberBulkOp(e, members, gen, now) =>
      var users, rows := UserRows(members), BulkRows(e, members, gen, now);
      InsertAllTags(t, users);
      assert forall i :: 0 <= i < |rows| ==>
        rows[i] == MemberRow(gen(i), MemberFrom(e, Some(members[i].key), members[i].info, now));
      InsertAllTags(InsertAll(t, users).value, rows);
  }

  lemma {:induction false} OtherChangesKeepTags(t: Tables, op: Op)
    requires Changing(op) && !op.UpdateMemberOp? && Try(t, op).Some?
    ensures var u := Try(t, op).value;
            && u.tags == t.tags
            && forall a :: a in u.members ==>
                 a in t.members && u.members[a].entity == t.members[a].entity && u.members[a].tags == t.members[a].tags
  {
  }

  lemma {:induction false} ChangeTags(t: Tables, op: Op)
    requires TagsOk(t) && Changing(op) && GoodStep(t, op) && Try(t, op).Some?
    ensures TagsOk(Try(t, op).value)
  {
    if op.UpdateMemberOp? {
      if Owned(t, op.entity, op.id) {
        UpdateMemberTags(t, op.entity, op.id, op.info, op.now);
      }
    } else {
      OtherChangesKeepTags(t, op);
      MembersTags(t, Try(t, op).value);
    }
  }

  lemma {:induction false} AddMemberTags(t: Tables, e: Bytes, key: Option<Bytes>, info: MemberInfo, id: Uuid, now: int)
    requires TagsOk(t) && AddMember(t, e, key, info, id, now).Some?
    ensures TagsOk(AddMember(t, e, key, info, id, now).value)
  {
    var t1 := EnsureUser(t, key.value).value;
    MembersTags(t, t1);
    PutTags(t1, MemberRow(id, MemberFrom(e, key, info, now)));
  }

  lemma {:induction false} TaggingTags(t: Tables, op: Op)
    requires TagsOk(t) && Tagging(op) && Try(t, op).Some?
    ensures TagsOk(Try(t, op).value)
  {
    match op
    case DeleteTagOp(e, tag) => DeleteTagTags(t, e, tag);
    case AddTagToMembersOp(e, ids, tag) => AddTagToMembersTags(t, e, ids, tag);
    case RemoveTagFromMembersOp(e, ids, tag) => RemoveTagFromMembersTags(t, e, ids, tag);
  }

  lemma {:induction false} InsertingTags(t: Tables, op: Op)
    requires TagsOk(t) && Inserting(op) && Try(t, op).Some?
    ensures TagsOk(Try(t, op).value)
  {
    if InsertsLists(op) {
      InsertionTags(t, op);
    } else {
      match op
      case AddMemberOp(e, key, info, id, now) => AddMemberTags(t, e, key, info, id, now);
      case AddTargetOp(e, _, name, id) => PutTags(t, TargetRow(id, Target(e, name)));
      case AddCensusOp(e, c, target, info) => PutTags(t, CensusRow(c, CensusFrom(e, target, info)));
    }
  }

  // Every step keeps tag integrity when UpdateMember is only given good tags.
  lemma {:induction false} StepTags(t: Tables, op: Op)
    requires Inv(t) && TagsOk(t) && GoodStep(t, op)
    ensures TagsOk(Apply(t, op))
  {
    if op.AddTagOp? {
      AddTagTags(t, op.entity, op.name);
    } else if Try(t, op).Some? {
      if Inserting(op) {
        InsertingTags(t, op);
      } else if Deleting(op) {
        DeletionTags(t, op);
      } else if Tagging(op) {
        TaggingTags(t, op);
      } else {
        ChangeTags(t, op);
      }
    }
  }

  ghost predicate GoodRun(t: Tables, ops: seq<Op>)
    decreases |ops|
  {
    ops != [] ==> GoodStep(t, ops[0]) && GoodRun(Apply(t, ops[0]), ops[1..])
  }

  lemma {:induction false} RunTags(t: Tables, ops: seq<Op>)
    requires Inv(t) && TagsOk(t) && GoodRun(t, ops)
    ensures TagsOk(Run(t, ops))
    decreases |ops|
  {
    if ops != [] {
      StepInv(t, ops[0]);
      StepTags(t, ops[0]);
      RunTags(Apply(t, ops[0]), ops[1..]);
    }
  }

  // ---------- A deleted tag stays deleted ----------

  // An id that the sequence has passed and that names no tag.
  predicate Retired(t: Tables, g: int) {
    g < t.nextTag && g !in t.tags
  }

  lemma {:induction false} InsertingRetired(t: Tables, op: Op, g: int)
    requires Retired(t, g) && Inserting(op) && Try(t, op).Some?
    ensures Retired(Try(t, op).value, g)
  {
    if InsertsLists(op) {
      InsertionAdds(t, op);
    }
  }

  lemma {:induction false} OthersRetired(t: Tables, op: Op, g: int)
    requires Retired(t, g) && (Deleting(op) || Tagging(op)) && Try(t, op).Some?
    ensures Retired(Try(t, op).value, g)
  {
  }

  lemma {:induction false} ChangingRetired(t: Tables, op: Op, g: int)
    requires Retired(t, g) && Changing(op) && Try(t, op).Some?
    ensures Retired(Try(t, op).value, g)
  {
  }

  lemma {:induction false} StepRetired(t: Tables, op: Op, g: int)
    requires Retired(t, g)
    ensures Retired(Apply(t, op), g)
  {
    if Try(t, op).Some? {
      if Inserting(op) {
        InsertingRetired(t, op, g);
      } else if Changing(op) {
        ChangingRetired(t, op, g);
      } else if Deleting(op) || Tagging(op) {
        OthersRetired(t, op, g);
      }
    }
  }

  lemma {:induction false} RunRetired(t: Tables, ops: seq<Op>, g: int)
    requires Retired(t, g)
    ensures Retired(Run(t, ops), g)
    decreases |ops|
  {
    if ops != [] {
      StepRetired(t, ops[0], g);
      RunRetired(Apply(t, ops[0]), ops[1..], g);
    }
  }

  lemma {:induction false} RetiredOnNobody(t: Tables, g: int)
    requires TagsOk(t) && Retired(t, g)
    ensures forall a :: a in t.members ==> g !in t.members[a].tags
  {
    forall a | a in t.members ensures g !in t.members[a].tags {
      assert GoodTags(t, t.members[a].entity, t.members[a].tags);
    }
  }

  // After DeleteTag the id is on no member, now or after any later run.
  lemma {:induction false} DeletedTagNeverReturns(t: Tables, e: Bytes, tag: int, ops: seq<Op>)
    requires Inv(t) && TagsOk(t) && DeleteTag(t, e, tag).Some?
    requires GoodRun(DeleteTag(t, e, tag).value, ops)
    ensures var u := Run(DeleteTag(t, e, tag).value, ops);
            tag !in u.tags && forall a :: a in u.members ==> tag !in u.members[a].tags
  {
    var t1 := DeleteTag(t, e, tag).value;
    DeleteTagInv(t, e, tag);
    DeleteTagTags(t, e, tag);
    assert Retired(t1, tag);
    RunRetired(t1, ops, tag);
    RunTags(t1, ops);
    RetiredOnNobody(Run(t1, ops), tag);
  }
}
