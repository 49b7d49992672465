// What each write step stores, column by column, when it succeeds, and that it changes nothing else.

module Effects {
  import opened Basics
  import opened Schema
  import opened Store
  import opened Invariants
  import opened Claims
  import opened Expansion
  import opened Pgsql
  import opened Tags
  import opened Lifecycle

  // ---------- Entities ----------

  predicate EntityColumns(v: Entity, info: EntityInfo) {
    && v.name == info.name && v.email == info.email && v.kind == info.kind && v.size == info.size
    && v.consented == info.consented && v.callbackUrl == info.callbackUrl && v.callbackSecret == info.callbackSecret
    && Some(v.managers) == info.managers && !v.authorized
  }

  lemma {:induction false} OriginsFit(t: Tables, e: Bytes, origins: seq<Origin>)
    requires LegalOrigins(t) && e !in t.entities
    ensures forall v :: Fits(Put(t, EntityRow(e, v)), OriginRows(e, origins)) <==> Distinct(origins)
  {
    var rows := OriginRows(e, origins);
    forall v ensures Fits(Put(t, EntityRow(e, v)), rows) <==> Distinct(origins) {
      if Fits(Put(t, EntityRow(e, v)), rows) {
        forall i, j | 0 <= i < j < |origins| ensures origins[i] != origins[j] { assert !Clash(rows[i], rows[j]); }
      }
    }
  }

  lemma {:induction false} OriginsOnlyAdded(t: Tables, rows: seq<Row>)
    requires InsertAll(t, rows).Some? && forall i :: 0 <= i < |rows| ==> rows[i].OriginRow?
    ensures InsertAll(t, rows).value == t.(origins := InsertAll(t, rows).value.origins)
    decreases |rows|
  {
    if rows != [] {
      OriginsOnlyAdded(InsertRow(t, rows[0]).value, rows[1..]);
    }
  }

  lemma {:induction false} OriginsStored(t: Tables, e: Bytes, origins: seq<Origin>)
    requires InsertAll(t, OriginRows(e, origins)).Some?
    ensures var u := InsertAll(t, OriginRows(e, origins)).value;
            && u == t.(origins := u.origins)
            && (forall o: (Bytes, Origin) :: o in u.origins <==> o in t.origins || (o.0 == e && o.1 in origins))
  {
    var rows := OriginRows(e, origins);
    var u := InsertAll(t, rows).value;
    OriginsOnlyAdded(t, rows);
    InsertAllMeaning(t, rows);
    forall o: (Bytes, Origin) ensures o in u.origins <==> o in t.origins || (o.0 == e && o.1 in origins) {
      var r := OriginRow(o.0, o.1);
      assert Has(u, r) <==> Has(t, r) || r in rows;
      if o.0 == e && o.1 in origins {
        var i :| 0 <= i < |origins| && origins[i] == o.1;
        assert rows[i] == r;
      }
    }
  }

  lemma {:induction false} AddEntityStores(t: Tables, e: Bytes, info: EntityInfo)
    requires Legal(t)
    ensures Try(t, AddEntityOp(e, info)).Some? <==>
            info.managers.Some? && e !in t.entities && API !in info.origins && Distinct(info.origins)
    ensures Try(t, AddEntityOp(e, info)).Some? ==>
              var u := Apply(t, AddEntityOp(e, info));
              && u == t.(entities := u.entities, origins := u.origins)
              && u.entities.Keys == t.entities.Keys + {e}
              && (forall f :: f in t.entities ==> u.entities[f] == t.entities[f])
              && EntityColumns(u.entities[e], info)
              && (forall o: (Bytes, Origin) :: o in u.origins <==> o in t.origins || (o.0 == e && o.1 in info.origins))
  {
    if info.managers.Some? && e !in t.entities {
      var t1, rows := Put(t, EntityRow(e, EntityFrom(info, info.managers.value))), OriginRows(e, info.origins);
      OriginsFit(t, e, info.origins);
      InsertAllMeaning(t1, rows);
      if InsertAll(t1, rows).Some? {
        OriginsStored(t1, e, info.origins);
      }
    }
  }

  // Name and email are kept when none is given; the callback is taken as it is given.
  lemma {:induction false} UpdateEntityStores(t: Tables, e: Bytes, info: EntityInfo)
    ensures e !in t.entities ==> Apply(t, UpdateEntityOp(e, info)) == t
    ensures e in t.entities ==>
              var u, o := Apply(t, UpdateEntityOp(e, info)), t.entities[e];
              && u == t.(entities := u.entities) && u.entities.Keys == t.entities.Keys
              && (forall f :: f in t.entities && f != e ==> u.entities[f] == t.entities[f])
              && var v := u.entities[e];
              && v.name == (if info.name != "" then info.name else o.name)
              && v.email == (if info.email != "" then info.email else o.email)
              && v.callbackUrl == info.callbackUrl && v.callbackSecret == info.callbackSecret
              && v.kind == o.kind && v.size == o.size && v.consented == o.consented
              && v.managers == o.managers && v.authorized == o.authorized
  {
  }

  lemma {:induction false} AuthorizeEntityStores(t: Tables, e: Bytes)
    ensures Try(t, AuthorizeEntityOp(e)).Some? <==> e in t.entities && !t.entities[e].authorized
    ensures Try(t, AuthorizeEntityOp(e)).Some? ==>
              Apply(t, AuthorizeEntityOp(e)) == t.(entities := t.entities[e := t.entities[e].(authorized := true)])
  {
  }

  // ---------- Members ----------

  // The row of a new member: no tags, NULL for an empty email, everything else as given.
  predicate MemberColumns(v: Member, e: Bytes, key: Option<Bytes>, info: MemberInfo, now: int) {
    && v.entity == e && v.key == key
    && v.street == info.street && v.first == info.first && v.last == info.last && v.phone == info.phone
    && v.email == (if info.email != "" then Some(info.email) else None)
    && v.birth == info.birth && v.verified == info.verified && v.tags == [] && v.updatedAt == now
  }

  ghost predicate OldMembersSame(t: Tables, u: Tables) {
    forall a :: a in t.members ==> a in u.members && u.members[a] == t.members[a]
  }

  lemma {:induction false} AddMemberStores(t: Tables, e: Bytes, key: Option<Bytes>, info: MemberInfo, id: Uuid, now: int)
    requires Inv(t) && Try(t, AddMemberOp(e, key, info, id, now)).Some?
    ensures var u := Apply(t, AddMemberOp(e, key, info, id, now));
            && key.Some? && u == t.(users := t.users[key.value := key.value], members := u.members)
            && id !in t.members && u.members.Keys == t.members.Keys + {id} && OldMembersSame(t, u)
            && MemberColumns(u.members[id], e, key, info, now)
  {
    EnsureUserInv(t, key.value);
  }

  // An insertion of member rows stores exactly them beside the old ones.
  lemma {:induction false} MembersInserted(t: Tables, rows: seq<Row>)
    requires InsertAll(t, rows).Some? && forall i :: 0 <= i < |rows| ==> rows[i].MemberRow?
    ensures var u := InsertAll(t, rows).value;
            && u == t.(members := u.members) && OldMembersSame(t, u)
            && (forall i :: 0 <= i < |rows| ==> rows[i].id !in t.members && rows[i].id in u.members && u.members[rows[i].id] == rows[i].member)
            && (forall a :: a in u.members ==> a in t.members || exists i :: 0 <= i < |rows| && rows[i].id == a)
  {
    var u := InsertAll(t, rows).value;
    MembersOnly(t, rows);
    InsertFrame(t, rows);
    InsertAllMeaning(t, rows);
    forall i | 0 <= i < |rows|
      ensures rows[i].id !in t.members && rows[i].id in u.members && u.members[rows[i].id] == rows[i].member
    {
      assert rows[i] in rows && Has(u, rows[i]) && Free(t, rows[i]);
    }
    forall a | a in u.members && a !in t.members ensures exists i :: 0 <= i < |rows| && rows[i].id == a {
      var r := MemberRow(a, u.members[a]);
      assert Has(u, r);
      var i :| 0 <= i < |rows| && rows[i] == r;
    }
  }

  lemma {:induction false} CreateMembersWithTokensStores(t: Tables, e: Bytes, tokens: seq<Uuid>, now: int)
    requires Try(t, CreateMembersWithTokensOp(e, tokens, now)).Some?
    ensures var u := Apply(t, CreateMembersWithTokensOp(e, tokens, now));
            && u == t.(members := u.members) && OldMembersSame(t, u)
            && (forall a :: a in u.members <==> a in t.members || a in tokens)
            && (forall a :: a in tokens ==>
                  a !in t.members && u.members[a] == Member(e, None, "", "", "", "", None, 0, 0, [], now))
  {
    var rows := TokenRows(e, tokens, now);
    assert forall i :: 0 <= i < |rows| ==> rows[i].MemberRow? && rows[i].id == tokens[i];
    MembersInserted(t, rows);
    forall a | a in tokens
      ensures a !in t.members && a in InsertAll(t, rows).value.members
      ensures InsertAll(t, rows).value.members[a] == Member(e, None, "", "", "", "", None, 0, 0, [], now)
    {
      var i :| 0 <= i < |tokens| && tokens[i] == a;
      assert rows[i].member == MemberFrom(e, None, BLANK, now);
    }
  }

  // Ids are new and different, and emails, where given, as well.
  ghost predicate InfosFit(t: Tables, e: Bytes, infos: seq<MemberInfo>, gen: nat -> Uuid) {
    && (forall i :: 0 <= i < |infos| ==> gen(i) !in t.members)
    && (forall i :: 0 <= i < |infos| && infos[i].email != "" ==> !EmailInUse(t, e, infos[i].email))
    && (forall i, j :: 0 <= i < j < |infos| ==>
          gen(i) != gen(j) && (infos[i].email != "" ==> infos[i].email != infos[j].email))
  }

  lemma {:induction false} KeylessRowFree(t: Tables, e: Bytes, info: MemberInfo, id: Uuid, now: int)
    requires LegalOrigins(t)
    ensures var r := MemberRow(id, MemberFrom(e, None, info, now));
            RefsOk(t, r) && Free(t, r) <==>
            (e, Token) in t.origins && id !in t.members && (info.email != "" ==> !EmailInUse(t, e, info.email))
  {
    CollideMeans(t, MemberFrom(e, None, info, now));
  }

  lemma {:induction false} ImportFits(t: Tables, e: Bytes, infos: seq<MemberInfo>, gen: nat -> Uuid, now: int)
    requires LegalOrigins(t) && infos != []
    ensures Fits(t, ImportRows(e, infos, gen, now)) <==> (e, Token) in t.origins && InfosFit(t, e, infos, gen)
  {
    var rows := ImportRows(e, infos, gen, now);
    forall i | 0 <= i < |rows|
      ensures rows[i] == MemberRow(gen(i), MemberFrom(e, None, infos[i], now))
      ensures RefsOk(t, rows[i]) && Free(t, rows[i]) <==>
              (e, Token) in t.origins && gen(i) !in t.members && (infos[i].email != "" ==> !EmailInUse(t, e, infos[i].email))
    {
      KeylessRowFree(t, e, infos[i], gen(i), now);
    }
    if Fits(t, rows) {
      assert RefsOk(t, rows[0]);
      forall i, j | 0 <= i < j < |infos|
        ensures gen(i) != gen(j) && (infos[i].email != "" ==> infos[i].email != infos[j].email)
      {
        assert !Clash(rows[i], rows[j]);
      }
    }
  }

  lemma {:induction false} ImportMembersIff(t: Tables, e: Bytes, infos: seq<MemberInfo>, gen: nat -> Uuid, now: int)
    requires Legal(t)
    ensures Try(t, ImportMembersOp(e, infos, gen, now)).Some? <==>
            infos != [] && (e, Token) in t.origins && InfosFit(t, e, infos, gen)
  {
    if infos != [] {
      ImportFits(t, e, infos, gen, now);
      InsertAllMeaning(t, ImportRows(e, infos, gen, now));
    }
  }

  lemma {:induction false} ImportedInserted(t: Tables, e: Bytes, infos: seq<MemberInfo>, gen: nat -> Uuid, now: int)
    requires InsertAll(t, ImportRows(e, infos, gen, now)).Some?
    ensures var u := InsertAll(t, ImportRows(e, infos, gen, now)).value;
            && u == t.(members := u.members) && OldMembersSame(t, u)
            && (forall i :: 0 <= i < |infos| ==>
                  gen(i) in u.members && MemberColumns(u.members[gen(i)], e, None, infos[i], now))
            && (forall a :: a in u.members ==> a in t.members || exists i :: 0 <= i < |infos| && gen(i) == a)
  {
    var rows := ImportRows(e, infos, gen, now);
    assert forall i :: 0 <= i < |rows| ==> rows[i] == MemberRow(gen(i), MemberFrom(e, None, infos[i], now));
    MembersInserted(t, rows);
    forall i | 0 <= i < |infos|
      ensures gen(i) in InsertAll(t, rows).value.members
      ensures MemberColumns(InsertAll(t, rows).value.members[gen(i)], e, None, infos[i], now)
    {
      assert gen(i) == rows[i].id;
    }
  }

  lemma {:induction false} ImportMembersStores(t: Tables, e: Bytes, infos: seq<MemberInfo>, gen: nat -> Uuid, now: int)
    requires Try(t, ImportMembersOp(e, infos, gen, now)).Some?
    ensures var u := Apply(t, ImportMembersOp(e, infos, gen, now));
            && u == t.(members := u.members) && OldMembersSame(t, u)
            && (forall i :: 0 <= i < |infos| ==>
                  gen(i) in u.members && MemberColumns(u.members[gen(i)], e, None, infos[i], now))
            && (forall a :: a in u.members ==> a in t.members || exists i :: 0 <= i < |infos| && gen(i) == a)
  {
    ImportedInserted(t, e, infos, gen, now);
  }

  lemma {:induction false} UsersInserted(t: Tables, members: seq<NewMember>)
    requires InsertAll(t, UserRows(members)).Some?
    ensures var u := InsertAll(t, UserRows(members)).value;
            && u == t.(users := u.users)
            && (forall k :: k in u.users <==> k in t.users || k in KeyList(members))
            && (forall k :: k in t.users ==> u.users[k] == t.users[k])
            && (forall k :: k in KeyList(members) ==> u.users[k] == k)
  {
    var rows := UserRows(members);
    var u := InsertAll(t, rows).value;
    UsersOnly(t, rows);
    InsertAllMeaning(t, rows);
    assert forall i :: 0 <= i < |rows| ==> rows[i] == UserRow(KeyList(members)[i], KeyList(members)[i]);
    forall k ensures k in u.users <==> k in t.users || k in KeyList(members)
             ensures k in t.users ==> k in u.users && u.users[k] == t.users[k]
             ensures k in KeyList(members) ==> k in u.users && u.users[k] == k
    {
      if k in t.users { assert Has(t, UserRow(k, t.users[k])) && Has(u, UserRow(k, t.users[k])); }
      if k in KeyList(members) {
        var i :| 0 <= i < |rows| && KeyList(members)[i] == k;
        assert rows[i] in rows && Has(u, rows[i]);
      }
      if k in u.users && k !in t.users {
        assert Has(u, UserRow(k, u.users[k]));
        var i :| 0 <= i < |rows| && rows[i] == UserRow(k, u.users[k]);
        assert KeyList(members)[i] == k;
      }
    }
  }

  lemma {:induction false} BulkMembersInserted(t: Tables, e: Bytes, members: seq<NewMember>, gen: nat -> Uuid, now: int)
    requires InsertAll(t, BulkRows(e, members, gen, now)).Some?
    ensures var u := InsertAll(t, BulkRows(e, members, gen, now)).value;
            && u == t.(members := u.members) && OldMembersSame(t, u)
            && (forall i :: 0 <= i < |members| ==>
                  gen(i) in u.members && MemberColumns(u.members[gen(i)], e, Some(members[i].key), members[i].info, now))
            && (forall a :: a in u.members ==> a in t.members || exists i :: 0 <= i < |members| && gen(i) == a)
  {
    var rows := BulkRows(e, members, gen, now);
    assert forall i :: 0 <= i < |rows| ==>
      rows[i] == MemberRow(gen(i), MemberFrom(e, Some(members[i].key), members[i].info, now));
    MembersInserted(t, rows);
    forall i | 0 <= i < |members|
      ensures gen(i) in InsertAll(t, rows).value.members
      ensures MemberColumns(InsertAll(t, rows).value.members[gen(i)], e, Some(members[i].key), members[i].info, now)
    {
      assert gen(i) == rows[i].id;
    }
  }

  lemma {:induction false} AddMemberBulkStores(t: Tables, e: Bytes, members: seq<NewMember>, gen: nat -> Uuid, now: int)
    requires Try(t, AddMemberBulkOp(e, members, gen, now)).Some?
    ensures var u := Apply(t, AddMemberBulkOp(e, members, gen, now));
            && u == t.(users := u.users, members := u.members) && OldMembersSame(t, u)
            && (forall i :: 0 <= i < |members| ==>
                  gen(i) in u.members && MemberColumns(u.members[gen(i)], e, Some(members[i].key), members[i].info, now))
            && (forall a :: a in u.members ==> a in t.members || exists i :: 0 <= i < |members| && gen(i) == a)
            && (forall k :: k in u.users <==> k in t.users || k in KeyList(members))
            && (forall k :: k in u.users ==> u.users[k] == if k in t.users then t.users[k] else k)
  {
    UsersInserted(t, members);
    BulkMembersInserted(InsertAll(t, UserRows(members)).value, e, members, gen, now);
  }

  // A key can be registered when it is valid and no other member of the entity has it.
  lemma {:induction false} RegisterMemberStores(t: Tables, e: Bytes, key: Bytes, id: Uuid, now: int)
    requires Inv(t)
    ensures Try(t, RegisterMemberOp(e, key, id, now)).Some? <==>
            && ValidPubKey(key) && Owned(t, e, id)
            && forall b :: Owned(t, e, b) && b != id ==> t.members[b].key != Some(key)
    ensures Try(t, RegisterMemberOp(e, key, id, now)).Some? ==>
              Apply(t, RegisterMemberOp(e, key, id, now)) ==
              t.(users := t.users[key := key],
                 members := t.members[id := t.members[id].(key := Some(key), verified := now, updatedAt := now)])
  {
    if ValidPubKey(key) && Owned(t, e, id) {
      EnsureUserInv(t, key);
      var m, n := t.members[id], t.members[id].(key := Some(key), verified := now, updatedAt := now);
      assert MemberRefs(t, m);
      forall b | b in t.members && b != id ensures Collide(t.members[b], n) <==> Owned(t, e, b) && t.members[b].key == Some(key) {
        assert !Collide(t.members[b], m);
      }
    }
  }

  // Every given column equals the stored one; an empty email is compared as NULL.
  predicate SaysNothingNew(m: Member, info: MemberInfo) {
    && info.street == m.street && info.first == m.first && info.last == m.last && info.birth == m.birth
    && (if info.email == "" then m.email.None? else m.email == Some(info.email))
    && info.tags.Some? && info.tags.value == m.tags
  }

  // The row after an update: what is given and not empty, and otherwise what was there. The phone,
  // the key and the time of verification are never updated.
  predicate UpdatedColumns(n: Member, m: Member, info: MemberInfo, now: int) {
    && n.street == (if info.street != "" then info.street else m.street)
    && n.first == (if info.first != "" then info.first else m.first)
    && n.last == (if info.last != "" then info.last else m.last)
    && n.email == (if info.email != "" then Some(info.email) else m.email)
    && n.birth == info.birth
    && n.tags == (if info.tags.Some? then info.tags.value else m.tags)
    && n.entity == m.entity && n.key == m.key && n.phone == m.phone && n.verified == m.verified
    && n.updatedAt == (if SaysNothingNew(m, info) then m.updatedAt else now)
  }

  lemma {:induction false} UpdateAccepted(t: Tables, e: Bytes, id: Uuid, info: MemberInfo, now: int)
    requires LegalMembers(t) && Owned(t, e, id)
    ensures Accepts(t, id, Merge(t.members[id], info, now)) <==>
            (info.email != "" ==> forall b :: Owned(t, e, b) && b != id ==> t.members[b].email != Some(info.email))
  {
    var m, n := t.members[id], Merge(t.members[id], info, now);
    assert MemberRefs(t, m);
    forall b | b in t.members && b != id
      ensures Collide(t.members[b], n) <==> info.email != "" && Owned(t, e, b) && t.members[b].email == Some(info.email)
    {
      assert !Collide(t.members[b], m);
    }
  }

  lemma {:induction false} UnchangedEmailFree(t: Tables, e: Bytes, id: Uuid, info: MemberInfo)
    requires LegalMembers(t) && Owned(t, e, id) && !Differs(t.members[id], info) && info.email != ""
    ensures forall b :: Owned(t, e, b) && b != id ==> t.members[b].email != Some(info.email)
  {
    forall b | Owned(t, e, b) && b != id ensures t.members[b].email != Some(info.email) {
      assert !Collide(t.members[b], t.members[id]);
    }
  }

  // An update fails exactly on an email that another member of the entity has.
  lemma {:induction false} UpdateMemberIff(t: Tables, e: Bytes, id: Uuid, info: MemberInfo, now: int)
    requires LegalMembers(t)
    ensures Try(t, UpdateMemberOp(e, id, info, now)).Some? <==>
            (Owned(t, e, id) && info.email != "" ==>
               forall b :: Owned(t, e, b) && b != id ==> t.members[b].email != Some(info.email))
  {
    if Owned(t, e, id) {
      UpdateAccepted(t, e, id, info, now);
      if !Differs(t.members[id], info) && info.email != "" {
        UnchangedEmailFree(t, e, id, info);
      }
    }
  }

  lemma {:induction false} MergeColumns(m: Member, info: MemberInfo, now: int)
    ensures UpdatedColumns(if Differs(m, info) then Merge(m, info, now) else m, m, info, now)
  {
  }

  lemma {:induction false} UpdateMemberStores(t: Tables, e: Bytes, id: Uuid, info: MemberInfo, now: int)
    ensures var u := Apply(t, UpdateMemberOp(e, id, info, now));
            && u == t.(members := u.members) && u.members.Keys == t.members.Keys
            && (forall a :: a in t.members && !(a == id && Owned(t, e, id)) ==> u.members[a] == t.members[a])
            && (Owned(t, e, id) && Try(t, UpdateMemberOp(e, id, info, now)).Some? ==>
                  UpdatedColumns(u.members[id], t.members[id], info, now))
  {
    if Owned(t, e, id) {
      MergeColumns(t.members[id], info, now);
    }
  }

  // ---------- Deletions ----------

  // Exactly the members picked out are gone, and their census rows with them.
  ghost predicate MembersRemoved(t: Tables, u: Tables, gone: Uuid -> bool) {
    && u == t.(members := u.members, rows := u.rows)
    && (forall a :: a in u.members <==> a in t.members && !gone(a))
    && (forall a :: a in u.members ==> u.members[a] == t.members[a])
    && (forall p :: p in u.rows <==> p in t.rows && !gone(p.0))
    && (forall p :: p in u.rows ==> u.rows[p] == t.rows[p])
  }

  lemma {:induction false} DeleteMemberStores(t: Tables, e: Bytes, id: Uuid)
    ensures Try(t, DeleteMemberOp(e, id)).Some? <==> id in t.members && t.members[id].entity == e
    ensures Try(t, DeleteMemberOp(e, id)).Some? ==> MembersRemoved(t, Apply(t, DeleteMemberOp(e, id)), a => a == id)
  {
  }

  lemma {:induction false} DeleteMembersStores(t: Tables, e: Bytes, ids: seq<Uuid>)
    ensures Try(t, DeleteMembersOp(e, ids)).Some? <==> e != []
    ensures e != [] ==>
              MembersRemoved(t, Apply(t, DeleteMembersOp(e, ids)), a => a in ids && a in t.members && t.members[a].entity == e)
  {
  }

  lemma {:induction false} DeleteMembersByKeysStores(t: Tables, e: Bytes, keys: seq<Bytes>)
    ensures Try(t, DeleteMembersByKeysOp(e, keys)).Some? <==> e != []
    ensures e != [] ==>
              MembersRemoved(t, Apply(t, DeleteMembersByKeysOp(e, keys)),
                a => a in t.members && t.members[a].entity == e && exists k :: k in keys && t.members[a].key == Some(k))
  {
  }

  lemma {:induction false} DeleteCensusStores(t: Tables, e: Bytes, c: Bytes)
    ensures Try(t, DeleteCensusOp(e, c)).Some? <==> e != [] && c != [] && c in t.censuses && t.censuses[c].entity == e
    ensures Try(t, DeleteCensusOp(e, c)).Some? ==>
              var u := Apply(t, DeleteCensusOp(e, c));
              && u == t.(censuses := t.censuses - {c}, rows := u.rows)
              && (forall p :: p in u.rows <==> p in t.rows && p.1 != c)
              && (forall p :: p in u.rows ==> u.rows[p] == t.rows[p])
  {
  }

  // ---------- Tags ----------

  // array_remove of a concatenation, of the tag and of any other element: this determines it.
  lemma {:induction false} WithoutConcat(r: seq<int>, s: seq<int>, g: int)
    ensures Without(r + s, g) == Without(r, g) + Without(s, g)
    ensures forall x :: Without([x], g) == if x == g then [] else [x]
  {
    assert forall x: int :: [x][1..] == [];
    if r == [] {
      assert r + s == s;
    } else {
      assert (r + s)[1..] == r[1..] + s;
      WithoutConcat(r[1..], s, g);
    }
  }

  // array_remove on every array that may be asked about.
  lemma {:induction false} WithoutMeans(s: seq<int>, g: int)
    ensures g !in s ==> Without(s, g) == s
    ensures forall x :: x in Without(s, g) <==> x in s && x != g
  {
    WithoutElements(s, g);
    if g !in s { WithoutAbsent(s, g); }
  }

  // Arrays from which the tag is taken on the members in `ids` and on no others.
  ghost predicate Untags(t: Tables, u: Tables, ids: Uuid -> bool, tag: int)
    requires t.members.Keys == u.members.Keys
  {
    && (forall a :: a in t.members ==>
          u.members[a].tags == if ids(a) then Without(t.members[a].tags, tag) else t.members[a].tags)
    && (forall a, g :: a in t.members ==>
          (g in u.members[a].tags <==> g in t.members[a].tags && !(g == tag && ids(a))))
  }

  lemma {:induction false} UntagsTagged(t: Tables, ids: Uuid -> bool, affected: set<Uuid>, tag: int)
    requires forall a :: a in affected <==> a in t.members && ids(a) && tag in t.members[a].tags
    ensures Untags(t, MapTags(t, affected, tags => Without(tags, tag)), ids, tag)
  {
    forall a | a in t.members
      ensures tag !in t.members[a].tags ==> Without(t.members[a].tags, tag) == t.members[a].tags
      ensures forall g :: g in Without(t.members[a].tags, tag) <==> g in t.members[a].tags && g != tag
    {
      WithoutMeans(t.members[a].tags, tag);
    }
  }

  lemma {:induction false} AddTagStores(t: Tables, e: Bytes, name: string)
    requires TagIds(t)
    ensures Try(t, AddTagOp(e, name)).Some? <==>
            && name != "" && t.nextTag <= 0x7FFF_FFFF && e in t.entities
            && forall g :: g in t.tags ==> t.tags[g] != Tag(e, name)
    ensures Apply(t, AddTagOp(e, name)) ==
            if Try(t, AddTagOp(e, name)).Some? then t.(tags := t.tags[t.nextTag := Tag(e, name)], nextTag := t.nextTag + 1)
            else if name != "" && t.nextTag <= 0x7FFF_FFFF then t.(nextTag := t.nextTag + 1)
            else t
  {
    AddTagShape(t, e, name);
    assert Free(t, TagRow(t.nextTag, Tag(e, name))) <==> forall g :: g in t.tags ==> t.tags[g] != Tag(e, name);
  }

  // The tag itself, and its occurrences on the entity's members: their other tags stay, in their order.
  lemma {:induction false} DeleteTagStores(t: Tables, e: Bytes, tag: int)
    ensures Try(t, DeleteTagOp(e, tag)).Some? <==> e != [] && tag != 0 && tag in t.tags && t.tags[tag].entity == e
    ensures Try(t, DeleteTagOp(e, tag)).Some? ==>
              var u := Apply(t, DeleteTagOp(e, tag));
              u.tags == t.tags - {tag} && TagsOnly(t, u.(tags := t.tags)) && Untags(t, u, (a: Uuid) => Owned(t, e, a), tag)
  {
    UntagsTagged(t, (a: Uuid) => Owned(t, e, a), Tagged(t, e, tag), tag);
  }

  // The tag is appended on the members in `ids` that lack it, and on no others.
  ghost predicate Appends(t: Tables, u: Tables, ids: Uuid -> bool, tag: int)
    requires t.members.Keys == u.members.Keys
  {
    && (forall a :: a in t.members ==>
          u.members[a].tags == t.members[a].tags + if ids(a) && tag !in t.members[a].tags then [tag] else [])
    && (forall a, g :: a in t.members ==>
          (g in u.members[a].tags <==> g in t.members[a].tags || (g == tag && ids(a))))
  }

  lemma {:induction false} TagsLacking(t: Tables, ids: Uuid -> bool, affected: set<Uuid>, tag: int)
    requires forall a :: a in affected <==> a in t.members && ids(a) && tag !in t.members[a].tags
    ensures Appends(t, MapTags(t, affected, tags => tags + [tag]), ids, tag)
  {
  }

  lemma {:induction false} NobodyToTag(t: Tables, ids: Uuid -> bool, tag: int)
    requires forall a :: !ids(a)
    ensures Appends(t, t, ids, tag)
  {
  }

  // The tag is appended to the requested members that lack it, and every other tag stays where it is.
  lemma {:induction false} AddTagToMembersStores(t: Tables, e: Bytes, ids: seq<Uuid>, tag: int)
    ensures Try(t, AddTagToMembersOp(e, ids, tag)).Some? <==>
            e != [] && (ids == [] || (tag != 0 && tag in t.tags && t.tags[tag].entity == e))
    ensures Try(t, AddTagToMembersOp(e, ids, tag)).Some? ==>
              var u := Apply(t, AddTagToMembersOp(e, ids, tag));
              TagsOnly(t, u) && Appends(t, u, (a: Uuid) => a in ids && Owned(t, e, a), tag)
  {
    var picked := (a: Uuid) => a in ids && Owned(t, e, a);
    if ids == [] {
      NobodyToTag(t, picked, tag);
    } else {
      TagsLacking(t, picked, ToTag(t, e, ids, tag), tag);
    }
  }

  // The tag is removed from the requested members, and their other tags stay, in their order.
  lemma {:induction false} RemoveTagFromMembersStores(t: Tables, e: Bytes, ids: seq<Uuid>, tag: int)
    ensures Try(t, RemoveTagFromMembersOp(e, ids, tag)).Some? <==>
            e != [] && (ids == [] || (tag != 0 && tag in t.tags && t.tags[tag].entity == e))
    ensures Try(t, RemoveTagFromMembersOp(e, ids, tag)).Some? ==>
              var u := Apply(t, RemoveTagFromMembersOp(e, ids, tag));
              TagsOnly(t, u) && Untags(t, u, (a: Uuid) => a in ids && Owned(t, e, a), tag)
  {
    UntagsTagged(t, (a: Uuid) => a in ids && Owned(t, e, a), ToUntag(t, e, ids, tag), tag);
  }

  // ---------- Targets and censuses ----------

  lemma {:induction false} AddTargetStores(t: Tables, e: Bytes, owner: Bytes, name: string, id: Uuid)
    ensures Try(t, AddTargetOp(e, owner, name, id)).Some? <==>
            && e != [] && (owner == [] || owner == e) && e in t.entities && id !in t.targets
            && forall g :: g in t.targets ==> t.targets[g].entity != e || t.targets[g].name != name
    ensures Try(t, AddTargetOp(e, owner, name, id)).Some? ==>
              Apply(t, AddTargetOp(e, owner, name, id)) == t.(targets := t.targets[id := Target(e, name)])
  {
  }

  // Without information the census is not ephemeral and everything else is empty.
  predicate CensusColumns(v: Census, e: Bytes, target: Uuid, info: Option<CensusInfo>) {
    && v.entity == e && v.target == target
    && v.name == (if info.Some? then info.value.name else "")
    && v.root == (if info.Some? then info.value.root else [])
    && v.uri == (if info.Some? then info.value.uri else "")
    && v.size == (if info.Some? then info.value.size else 0)
    && v.ephemeral == (info.Some? && info.value.ephemeral)
  }

  lemma {:induction false} AddCensusStores(t: Tables, e: Bytes, c: Bytes, target: Uuid, info: Option<CensusInfo>)
    requires Try(t, AddCensusOp(e, c, target, info)).Some?
    ensures var u := Apply(t, AddCensusOp(e, c, target, info));
            && u == t.(censuses := u.censuses) && u.censuses.Keys == t.censuses.Keys + {c} && c !in t.censuses
            && (forall d :: d in t.censuses ==> u.censuses[d] == t.censuses[d])
            && CensusColumns(u.censuses[c], e, target, info)
  {
  }

  lemma {:induction false} UpdateCensusStores(t: Tables, e: Bytes, c: Bytes, info: Option<CensusInfo>)
    ensures Try(t, UpdateCensusOp(e, c, info)).Some? <==> e != [] && c != [] && info.Some?
    ensures !CensusOf(t, e, c) ==> Apply(t, UpdateCensusOp(e, c, info)) == t
    ensures CensusOf(t, e, c) && info.Some? ==>
              var u, o := Apply(t, UpdateCensusOp(e, c, info)), t.censuses[c];
              && u == t.(censuses := t.censuses[c := u.censuses[c]])
              && u.censuses[c] == o.(root := u.censuses[c].root, uri := u.censuses[c].uri)
              && u.censuses[c].root == (if info.value.root != [] then info.value.root else o.root)
              && u.censuses[c].uri == (if info.value.uri != "" then info.value.uri else o.uri)
  {
  }

  lemma {:induction false} OtherRowsSame(t: Tables, e: Bytes, c: Bytes, keys: Uuid -> KeyPair)
    requires ExpandCensus(t, e, c, keys).Some?
    ensures var u := ExpandCensus(t, e, c, keys).value;
            forall p: (Uuid, Bytes) :: p.1 != c ==> (p in u.rows <==> p in t.rows) && (p in t.rows ==> u.rows[p] == t.rows[p])
  {
    var added := NewRows(t, c, EligibleIds(t, e, t.censuses[c]), keys);
    assert forall p: (Uuid, Bytes) :: p in added ==> p.1 == c;
  }

  lemma {:induction false} CensusEntryColumns(m: Member, pair: KeyPair)
    ensures EntryColumns(CensusEntry(m, pair), m, pair)
  {
  }

  lemma {:induction false} ExpandedRows(t: Tables, e: Bytes, c: Bytes, keys: Uuid -> KeyPair)
    requires Inv(t) && ExpandCensus(t, e, c, keys).Some?
    ensures var u := ExpandCensus(t, e, c, keys).value;
            && (forall a: Uuid :: (a, c) in u.rows <==> Owned(t, e, a) && (t.censuses[c].ephemeral || HasValidKey(t.members[a])))
            && (forall a: Uuid :: (a, c) in u.rows ==> EntryColumns(u.rows[(a, c)], t.members[a], keys(a)))
  {
    ExpandedEntries(t, e, c, keys);
    var u := ExpandCensus(t, e, c, keys).value;
    forall a: Uuid | (a, c) in u.rows ensures EntryColumns(u.rows[(a, c)], t.members[a], keys(a)) {
      CensusEntryColumns(t.members[a], keys(a));
    }
  }

  lemma {:induction false} OnlySizeChanges(t: Tables, e: Bytes, c: Bytes, keys: Uuid -> KeyPair)
    requires ExpandCensus(t, e, c, keys).Some?
    ensures var u := ExpandCensus(t, e, c, keys).value;
            && c in t.censuses && c in u.censuses
            && u == t.(rows := u.rows, censuses := t.censuses[c := t.censuses[c].(size := u.censuses[c].size)])
  {
  }

  // An expansion writes one row for each eligible member and the size of its census.
  lemma {:induction false} ExpandCensusStores(t: Tables, e: Bytes, c: Bytes, keys: Uuid -> KeyPair)
    requires Inv(t) && Try(t, ExpandCensusOp(e, c, keys)).Some?
    ensures var u := Apply(t, ExpandCensusOp(e, c, keys));
            && c in t.censuses && c in u.censuses
            && u == t.(rows := u.rows, censuses := t.censuses[c := t.censuses[c].(size := u.censuses[c].size)])
            && (forall p: (Uuid, Bytes) :: p.1 != c ==>
                  (p in u.rows <==> p in t.rows) && (p in t.rows ==> u.rows[p] == t.rows[p]))
            && (forall a: Uuid :: (a, c) in u.rows <==> Owned(t, e, a) && (t.censuses[c].ephemeral || HasValidKey(t.members[a])))
            && (forall a: Uuid :: (a, c) in u.rows ==> EntryColumns(u.rows[(a, c)], t.members[a], keys(a)))
  {
    OnlySizeChanges(t, e, c, keys);
    ExpandedRows(t, e, c, keys);
    OtherRowsSame(t, e, c, keys);
  }

  // What the voting mail of an expanded census is made from: the members without a valid key, under their own
  // names, with the private keys generated for them.
  lemma {:induction false} EphemeralInfoAfterExpansion(t: Tables, e: Bytes, c: Bytes, keys: Uuid -> KeyPair, a: Uuid)
    requires Inv(t) && Try(t, ExpandCensusOp(e, c, keys)).Some?
    ensures var u := Apply(t, ExpandCensusOp(e, c, keys));
            && (a in EphemeralIds(u, c) <==> Owned(t, e, a) && t.censuses[c].ephemeral && !HasValidKey(t.members[a]))
            && (a in EphemeralIds(u, c) ==>
                  var m := t.members[a];
                  InfoOf(u, c, a) == EphemeralInfo(a, m.first, m.last, if m.email.Some? then m.email.value else "",
                                                   Some(keys(a).private), keys(a).public))
  {
    ExpandCensusStores(t, e, c, keys);
  }

  // ---------- validateToken ----------

  // Every answer but success, which AcceptedIff describes: each is given exactly in these cases.
  lemma {:induction false} RepliesMean(t: Tables, e: Bytes, key: Bytes, token: Option<Uuid>, now: int)
    requires Inv(t)
    ensures var r := ValidateReply(t, e, key, token, now);
            && (r.BadToken? <==> token.None?)
            && (r.UnknownEntity? <==> token.Some? && e !in t.entities)
            && (r.UnknownToken? <==> token.Some? && e in t.entities && !Owned(t, e, token.value))
            && (r.AlreadyRegistered? <==> token.Some? && Owned(t, e, token.value) && KeyBytes(t.members[token.value]) == key)
            && (r.ReusedToken? <==> token.Some? && Owned(t, e, token.value) && KeyBytes(t.members[token.value]) !in {[], key})
            && (r.Rejected? <==>
                  && token.Some? && Owned(t, e, token.value) && KeyBytes(t.members[token.value]) == [] != key
                  && (!ValidPubKey(key) || KeyInUse(t, e, key)))
  {
    AcceptedIff(t, e, key, token, now);
    if token.Some? && Owned(t, e, token.value) {
      assert MemberRefs(t, t.members[token.value]);
    }
  }

  // The tags of a member after the removal of the entity's pending tag, if it has one.
  ghost predicate PendingOff(t: Tables, e: Bytes, tags: seq<int>, left: seq<int>) {
    && (forall g :: e != [] && g in t.tags && t.tags[g] == Tag(e, "PendingValidation") ==> left == Without(tags, g))
    && (e == [] || (forall g :: g in t.tags ==> t.tags[g] != Tag(e, "PendingValidation")) ==> left == tags)
  }

  lemma {:induction false} ClearPendingStores(t: Tables, e: Bytes, id: Uuid)
    requires Inv(t) && Owned(t, e, id)
    ensures var u := ClearPending(t, e, id);
            && u == t.(members := u.members) && u.members.Keys == t.members.Keys
            && (forall a :: a in t.members && a != id ==> u.members[a] == t.members[a])
            && u.members[id] == t.members[id].(tags := u.members[id].tags)
            && PendingOff(t, e, t.members[id].tags, u.members[id].tags)
  {
    if e != [] && HasPending(t, e) {
      var g :| g in t.tags && t.tags[g] == Tag(e, PENDING);
      ClearPendingIs(t, e, id, g);
      UntagOne(t, e, id, g);
      assert forall h :: h in t.tags && t.tags[h] == Tag(e, PENDING) ==> t.tags[h] == t.tags[g];
    }
  }

  // A successful validation writes the key and the times on the member, takes the pending tag off it, and
  // creates the user: nobody else changes.
  lemma {:induction false} ValidateStores(t: Tables, e: Bytes, key: Bytes, id: Uuid, now: int)
    requires Inv(t) && ValidateReply(t, e, key, Some(id), now).Accepted?
    ensures var u := Validate(t, e, key, Some(id), now);
            && u == t.(users := t.users[key := key], members := u.members)
            && u.members.Keys == t.members.Keys && id in t.members
            && (forall a :: a in t.members && a != id ==> u.members[a] == t.members[a])
            && u.members[id] == t.members[id].(key := Some(key), verified := now, updatedAt := now, tags := u.members[id].tags)
            && PendingOff(t, e, t.members[id].tags, u.members[id].tags)
  {
    var t1 := RegisterMember(t, e, key, id, now).value;
    RegisterShape(t, e, key, id, now);
    RegisterMemberInv(t, e, key, id, now);
    EnsureUserInv(t, key);
    ClearPendingStores(t1, e, id);
    assert PendingOff(t1, e, t1.members[id].tags, Validate(t, e, key, Some(id), now).members[id].tags);
  }
}
