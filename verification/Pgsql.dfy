// The database object: its write methods as they run, statement by statement. Each is
// proved to be one atomic step of Store, with the tables untouched when it fails.

module Pgsql {
  import opened Basics
  import opened Schema
  import opened Store
  import opened Invariants
  import opened Transactions
  import opened Claims

  lemma {:induction false} InsertOne(t: Tables, r: Row)
    ensures InsertAll(t, [r]) == InsertRow(t, r)
  {
    assert [r][1..] == [];
  }

  function EntryOf(t: Tables, c: Bytes, a: Uuid, keys: Uuid -> KeyPair): Row
    requires a in t.members
  {
    CensusMemberRow(a, c, CensusEntry(t.members[a], keys(a)))
  }

  // A member with a valid key is listed under it; any other gets the generated pair, the public key in its
  // own column and as the digest, and the private key in its own column.
  predicate EntryColumns(v: CensusMember, m: Member, pair: KeyPair) {
    if m.key.Some? && |m.key.value| == PUB_KEY_LENGTH then
      !v.ephemeral && v.key == None && v.digest == m.key.value && v.privateKey == None
    else
      v.ephemeral && v.key == Some(pair.public) && v.digest == pair.public && v.privateKey == Some(pair.private)
  }

  // `rows` lists one entry for each of `ids`, in any order.
  ghost predicate ListsEntries(rows: seq<Row>, t: Tables, c: Bytes, ids: set<Uuid>, keys: Uuid -> KeyPair) {
    && ids <= t.members.Keys
    && |rows| == |ids|
    && (forall i :: 0 <= i < |rows| ==> rows[i].CensusMemberRow? && rows[i].id in ids && rows[i] == EntryOf(t, c, rows[i].id, keys))
    && (forall i, j :: 0 <= i < j < |rows| ==> rows[i] != rows[j])
    && (forall a :: a in ids ==> EntryOf(t, c, a, keys) in rows)
  }

  // The listed entries have the right columns for their members.
  ghost predicate RightColumns(rows: seq<Row>, t: Tables, c: Bytes, keys: Uuid -> KeyPair) {
    forall i :: 0 <= i < |rows| ==>
      && rows[i].CensusMemberRow? && rows[i].censusId == c && rows[i].id in t.members
      && EntryColumns(rows[i].entry, t.members[rows[i].id], keys(rows[i].id))
  }

  lemma {:induction false} ListedColumns(rows: seq<Row>, t: Tables, c: Bytes, ids: set<Uuid>, keys: Uuid -> KeyPair)
    requires ListsEntries(rows, t, c, ids, keys)
    ensures RightColumns(rows, t, c, keys)
  {
  }

  ghost predicate NoRows(t: Tables, c: Bytes, ids: set<Uuid>) {
    forall a :: a in ids ==> (a, c) !in t.rows
  }

  lemma {:induction false} EntriesFit(t: Tables, c: Bytes, ids: set<Uuid>, keys: Uuid -> KeyPair, rows: seq<Row>)
    requires c in t.censuses && ListsEntries(rows, t, c, ids, keys)
    ensures Fits(t, rows) <==> NoRows(t, c, ids)
  {
    if Fits(t, rows) {
      forall a | a in ids ensures (a, c) !in t.rows {
        var r := EntryOf(t, c, a, keys);
        assert r in rows && Free(t, r);
      }
    }
    if NoRows(t, c, ids) {
      forall i | 0 <= i < |rows| ensures RefsOk(t, rows[i]) && Free(t, rows[i]) {
        assert rows[i].id in ids;
      }
    }
  }

  lemma {:induction false} AddedEntry(t: Tables, c: Bytes, ids: set<Uuid>, keys: Uuid -> KeyPair, rows: seq<Row>, q: Row)
    requires ListsEntries(rows, t, c, ids, keys)
    requires NoRows(t, c, ids)
    ensures Has(t.(rows := t.rows + NewRows(t, c, ids, keys)), q) <==> Has(t, q) || q in rows
  {
    var added := NewRows(t, c, ids, keys);
    if q.CensusMemberRow? {
      assert (q.id, q.censusId) in added <==> q.id in ids && q.censusId == c;
    }
  }

  lemma {:induction false} EntriesAdded(t: Tables, c: Bytes, ids: set<Uuid>, keys: Uuid -> KeyPair, rows: seq<Row>, u: Tables)
    requires ListsEntries(rows, t, c, ids, keys)
    requires NoRows(t, c, ids)
    requires u.nextTag == t.nextTag && forall q :: Has(u, q) <==> Has(t, q) || q in rows
    ensures u == t.(rows := t.rows + NewRows(t, c, ids, keys))
  {
    var v := t.(rows := t.rows + NewRows(t, c, ids, keys));
    forall q ensures Has(u, q) <==> Has(v, q) {
      AddedEntry(t, c, ids, keys, rows, q);
    }
    RowsDetermineTables(u, v);
  }

  // Inserting the list of entries is adding them to the map, and fails exactly on a surviving row.
  lemma {:induction false} EntriesInserted(t: Tables, c: Bytes, ids: set<Uuid>, keys: Uuid -> KeyPair, rows: seq<Row>)
    requires c in t.censuses && ListsEntries(rows, t, c, ids, keys)
    ensures InsertAll(t, rows).Some? <==> NoRows(t, c, ids)
    ensures InsertAll(t, rows).Some? ==> InsertAll(t, rows).value == t.(rows := t.rows + NewRows(t, c, ids, keys))
  {
    InsertAllMeaning(t, rows);
    EntriesFit(t, c, ids, keys, rows);
    if InsertAll(t, rows).Some? {
      var u := InsertAll(t, rows).value;
      EntriesAdded(t, c, ids, keys, rows, u);
    }
  }

  lemma {:induction false} DeleteNobody(t: Tables)
    ensures WithoutMembers(t, {}) == t
  {
    assert WithoutMembers(t, {}).members == t.members && WithoutMembers(t, {}).rows == t.rows;
  }

  // The requested ids that are no members of the entity.
  function NotMembers(t: Tables, e: Bytes, ids: seq<Uuid>): set<Uuid> {
    set a | a in ids && !Owned(t, e, a)
  }

  lemma {:induction false} Unaffected(t: Tables, e: Bytes, ids: seq<Uuid>)
    ensures MembersById(t, e, ids) <= Elements(ids)
    ensures Elements(ids) - MembersById(t, e, ids) == NotMembers(t, e, ids)
    ensures ids == [] ==> MembersById(t, e, ids) == {} && Elements(ids) == {}
  {
  }

  // An empty name or email differs from a stored one and yet keeps it: the row counts as updated.
  predicate EmptyNames(t: Tables, e: Bytes, info: EntityInfo) {
    e in t.entities &&
    ((info.name == "" && t.entities[e].name != "") || (info.email == "" && t.entities[e].email != ""))
  }

  // Drawing from the sequence first and then inserting is the step AddTag.
  lemma {:induction false} AddTagRuns(t: Tables, e: Bytes, name: string)
    requires name != "" && t.nextTag <= MAX_TAG
    ensures var u := t.(nextTag := t.nextTag + 1);
            var r := InsertRow(u, TagRow(t.nextTag, Tag(e, name)));
            AddTagOk(t, e, name) == r.Some? && AddTag(t, e, name) == if r.Some? then r.value else u
  {
  }

  // The entries for a list of members: those who take part, in order.
  function Entries(t: Tables, ids: seq<Uuid>, c: Bytes, census: Census, keys: Uuid -> KeyPair): seq<Row>
    requires forall a :: a in ids ==> a in t.members
  {
    if ids == [] then []
    else
      var id := ids[|ids| - 1];
      Entries(t, ids[..|ids| - 1], c, census, keys) +
      if Eligible(t.members[id], census) then [EntryOf(t, c, id, keys)] else []
  }

  function Chosen(t: Tables, ids: seq<Uuid>, census: Census): set<Uuid> {
    set a | a in ids && a in t.members && Eligible(t.members[a], census)
  }

  lemma {:induction false} EntriesSnoc(rows: seq<Row>, t: Tables, c: Bytes, ids: set<Uuid>, id: Uuid, keys: Uuid -> KeyPair)
    requires ListsEntries(rows, t, c, ids, keys) && id in t.members && id !in ids
    ensures ListsEntries(rows + [EntryOf(t, c, id, keys)], t, c, ids + {id}, keys)
  {
    var r := EntryOf(t, c, id, keys);
    var more := rows + [r];
    assert more[|rows|] == r;
    forall a | a in ids + {id} ensures EntryOf(t, c, a, keys) in more {
      if a in ids { assert EntryOf(t, c, a, keys) in rows; }
    }
  }

  lemma {:induction false} ChosenSnoc(t: Tables, front: seq<Uuid>, id: Uuid, census: Census)
    requires id in t.members && id !in front
    ensures id !in Chosen(t, front, census)
    ensures Chosen(t, front + [id], census) == Chosen(t, front, census) + if Eligible(t.members[id], census) then {id} else {}
  {
  }

  lemma {:induction false} EntriesChosen(t: Tables, ids: seq<Uuid>, c: Bytes, census: Census, keys: Uuid -> KeyPair)
    requires Distinct(ids) && forall a :: a in ids ==> a in t.members
    ensures ListsEntries(Entries(t, ids, c, census, keys), t, c, Chosen(t, ids, census), keys)
    decreases |ids|
  {
    if ids != [] {
      var front, id := ids[..|ids| - 1], ids[|ids| - 1];
      assert ids == front + [id] && id !in front;
      EntriesChosen(t, front, c, census, keys);
      ChosenSnoc(t, front, id, census);
      if Eligible(t.members[id], census) {
        EntriesSnoc(Entries(t, front, c, census, keys), t, c, Chosen(t, front, census), id, keys);
      }
    }
  }

  lemma {:induction false} EntriesListed(t: Tables, ids: seq<Uuid>, e: Bytes, c: Bytes, census: Census, keys: Uuid -> KeyPair)
    requires Distinct(ids) && Elements(ids) == MemberIds(t, e)
    requires forall a :: a in ids ==> a in t.members
    ensures ListsEntries(Entries(t, ids, c, census, keys), t, c, EligibleIds(t, e, census), keys)
  {
    EntriesChosen(t, ids, c, census, keys);
    assert forall a :: a in ids <==> a in Elements(ids);
    assert Chosen(t, ids, census) == EligibleIds(t, e, census);
  }

  ghost predicate KeyInUse(t: Tables, e: Bytes, k: Bytes) {
    exists a :: Owned(t, e, a) && t.members[a].key == Some(k)
  }

  // The requested keys that no member of the entity has.
  ghost function Unused(t: Tables, e: Bytes, keys: seq<Bytes>): set<Bytes> {
    set k | k in keys && !KeyInUse(t, e, k)
  }

  // The keys of some members.
  function KeysIn(t: Tables, ids: set<Uuid>): set<Bytes> {
    set a | a in ids && a in t.members && t.members[a].key.Some? :: t.members[a].key.value
  }

  lemma {:induction false} KeysInjective(t: Tables, e: Bytes, ids: set<Uuid>)
    requires LegalMembers(t)
    requires forall a :: a in ids ==> Owned(t, e, a) && t.members[a].key.Some?
    ensures |KeysIn(t, ids)| == |ids|
  {
    if ids != {} {
      var a :| a in ids;
      var k := t.members[a].key.value;
      KeysInjective(t, e, ids - {a});
      assert KeysIn(t, ids) == KeysIn(t, ids - {a}) + {k};
      assert k !in KeysIn(t, ids - {a}) by {
        forall b | b in ids - {a} ensures t.members[b].key.value != k {
          assert !Collide(t.members[a], t.members[b]);
        }
      }
    }
  }

  // One key per deleted member, and they are the requested keys in use.
  lemma {:induction false} KeysOfMembers(t: Tables, e: Bytes, keys: seq<Bytes>)
    requires LegalMembers(t)
    ensures var gone := MembersByKey(t, e, keys);
            && |KeysIn(t, gone)| == |gone|
            && KeysIn(t, gone) <= Elements(keys)
            && Elements(keys) - KeysIn(t, gone) == Unused(t, e, keys)
            && (keys == [] ==> gone == {} && Elements(keys) == {})
  {
    var gone := MembersByKey(t, e, keys);
    KeysInjective(t, e, gone);
    forall k ensures k in KeysIn(t, gone) <==> k in keys && KeyInUse(t, e, k) {
      if k in keys && KeyInUse(t, e, k) {
        var a :| Owned(t, e, a) && t.members[a].key == Some(k);
        assert a in gone;
      }
    }
  }

  // The rows of ListEphemeralMemberInfo: the private key and the digest of the census row with the
  // names of its member.
  datatype EphemeralInfo = EphemeralInfo(
    id: Uuid,
    first: string,
    last: string,
    email: string,
    privateKey: Option<Bytes>,
    digest: Bytes)

  function EphemeralIds(t: Tables, c: Bytes): set<Uuid> {
    set a | a in t.members && (a, c) in t.rows && t.rows[(a, c)].ephemeral
  }

  function InfoOf(t: Tables, c: Bytes, a: Uuid): EphemeralInfo
    requires a in t.members && (a, c) in t.rows
  {
    var m := t.members[a];
    EphemeralInfo(a, m.first, m.last, if m.email.Some? then m.email.value else "",
                  t.rows[(a, c)].privateKey, t.rows[(a, c)].digest)
  }

  class Database {
    var tables: Tables

    ghost predicate Valid()
      reads this
    {
      Inv(tables)
    }

    constructor ()
      ensures Valid() && tables == EMPTY
    {
      tables := EMPTY;
    }

    // ---------- Entities ----------

    method AddEntity(e: Bytes, info: EntityInfo) returns (ok: bool)
      requires Valid()
      modifies this
      ensures Valid() && ok == Store.AddEntity(old(tables), e, info).Some?
      ensures tables == Apply(old(tables), AddEntityOp(e, info))
    {
      StepInv(tables, AddEntityOp(e, info));
      if info.managers.None? {
        return false;
      }
      var tx := new Tx(tables);
      var row := EntityRow(e, EntityFrom(info, info.managers.value));
      InsertOne(tables, row);
      ok := tx.Exec([row]);
      if !ok {
        return false;  // the open transaction is abandoned
      }
      if API in info.origins {
        tx.Rollback();
        return false;
      }
      ok := tx.Exec(OriginRows(e, info.origins));
      if !ok {
        tx.Rollback();
        return false;
      }
      tables := tx.tables;
    }

    method DeleteEntity(e: Bytes) returns (ok: bool)
      requires Valid()
      modifies this
      ensures Valid() && ok == Store.DeleteEntity(old(tables), e).Some?
      ensures tables == Apply(old(tables), DeleteEntityOp(e))
    {
      StepInv(tables, DeleteEntityOp(e));
      if |e| == 0 {
        return false;
      }
      var result := EntityDeleted(tables, e);
      if result.None? {
        return false;
      }
      tables := result.value;
      return true;
    }

    // rows tells whether anything differed.
    method UpdateEntity(e: Bytes, info: EntityInfo) returns (rows: int)
      requires Valid()
      modifies this
      ensures Valid() && tables == Store.UpdateEntity(old(tables), e, info)
      ensures rows == if tables == old(tables) && !EmptyNames(old(tables), e, info) then 0 else 1
    {
      if e !in tables.entities {
        return 0;
      }
      var o := tables.entities[e];
      EntityRowInv(tables, e, Store.UpdateEntity(tables, e, info).entities[e]);
      if o.name == info.name && o.callbackUrl == info.callbackUrl && o.callbackSecret == info.callbackSecret && o.email == info.email {
        assert o == o.(name := OrElse(info.name, o.name), email := OrElse(info.email, o.email),
                       callbackUrl := info.callbackUrl, callbackSecret := info.callbackSecret);
        assert tables.entities[e := o] == tables.entities;
        return 0;
      }
      tables := tables.(entities := tables.entities[e := o.(
        name := OrElse(info.name, o.name), email := OrElse(info.email, o.email),
        callbackUrl := info.callbackUrl, callbackSecret := info.callbackSecret)]);
      return 1;
    }

    method AuthorizeEntity(e: Bytes) returns (ok: bool)
      requires Valid()
      modifies this
      ensures Valid() && ok == Store.AuthorizeEntity(old(tables), e).Some?
      ensures tables == Apply(old(tables), AuthorizeEntityOp(e))
    {
      StepInv(tables, AuthorizeEntityOp(e));
      if e !in tables.entities || tables.entities[e].authorized {
        return false;
      }
      tables := tables.(entities := tables.entities[e := tables.entities[e].(authorized := true)]);
      return true;
    }

    // ---------- Members ----------

    method AddMember(e: Bytes, key: Option<Bytes>, info: MemberInfo, id: Uuid, now: int) returns (ok: bool)
      requires Valid()
      modifies this
      ensures Valid() && ok == Store.AddMember(old(tables), e, key, info, id, now).Some?
      ensures tables == if ok then Store.AddMember(old(tables), e, key, info, id, now).value else old(tables)
    {
      if Store.AddMember(tables, e, key, info, id, now).Some? {
        AddMemberInv(tables, e, key, info, id, now);
      }
      var tx := new Tx(tables);
      if key.None? {
        return false;  // NULL in users.public_key
      }
      if key.value !in tables.users {
        InsertOne(tables, UserRow(key.value, key.value));
        ok := tx.Exec([UserRow(key.value, key.value)]);
        if !ok {
          tx.Rollback();
          return false;
        }
      }
      var row := MemberRow(id, MemberFrom(e, key, info, now));
      InsertOne(tx.tables, row);
      ok := tx.Exec([row]);
      if !ok {
        tx.Rollback();
        return false;
      }
      tables := tx.tables;
    }

    method CreateMembersWithTokens(e: Bytes, tokens: seq<Uuid>, now: int) returns (ok: bool)
      requires Valid()
      modifies this
      ensures Valid() && ok == Store.CreateMembersWithTokens(old(tables), e, tokens, now).Some?
      ensures tables == Apply(old(tables), CreateMembersWithTokensOp(e, tokens, now))
    {
      StepInv(tables, CreateMembersWithTokensOp(e, tokens, now));
      var members: seq<Row> := [];
      for i := 0 to |tokens|
        invariant NIL_UUID !in tokens[..i]
        invariant members == TokenRows(e, tokens, now)[..i]
      {
        if tokens[i] == NIL_UUID {
          return false;
        }
        members := members + [MemberRow(tokens[i], MemberFrom(e, None, BLANK, now))];
        assert tokens[..i + 1] == tokens[..i] + [tokens[i]];
      }
      assert tokens[..|tokens|] == tokens && members == TokenRows(e, tokens, now);
      var tx := new Tx(tables);
      var done, _ := BulkInsert(tx, members, 12);
      if !done {
        return false;
      }
      tables := tx.tables;
      return true;
    }

    method ImportMembers(e: Bytes, infos: seq<MemberInfo>, gen: nat -> Uuid, now: int) returns (ok: bool)
      requires Valid()
      modifies this
      ensures Valid() && ok == Store.ImportMembers(old(tables), e, infos, gen, now).Some?
      ensures tables == Apply(old(tables), ImportMembersOp(e, infos, gen, now))
    {
      StepInv(tables, ImportMembersOp(e, infos, gen, now));
      if |infos| <= 0 {
        return false;
      }
      var members: seq<Row> := [];
      for i := 0 to |infos|
        invariant members == ImportRows(e, infos, gen, now)[..i]
      {
        members := members + [MemberRow(gen(i), MemberFrom(e, None, infos[i], now))];
      }
      assert members == ImportRows(e, infos, gen, now);
      var tx := new Tx(tables);
      var done, _ := BulkInsert(tx, members, 12);
      if !done {
        return false;
      }
      tables := tx.tables;
      return true;
    }

    method AddMemberBulk(e: Bytes, members: seq<NewMember>, gen: nat -> Uuid, now: int) returns (ok: bool)
      requires Valid()
      modifies this
      ensures Valid() && ok == Store.AddMemberBulk(old(tables), e, members, gen, now).Some?
      ensures tables == if ok then Store.AddMemberBulk(old(tables), e, members, gen, now).value else old(tables)
    {
      if Store.AddMemberBulk(tables, e, members, gen, now).Some? {
        AddMemberBulkInv(tables, e, members, gen, now);
      }
      if |members| <= 0 {
        return false;
      }
      var tx := new Tx(tables);
      var users: seq<Row>, pgMembers: seq<Row> := [], [];
      for i := 0 to |members|
        invariant forall k :: 0 <= k < i ==> Importable(e, members[k])
        invariant users == UserRows(members)[..i]
        invariant pgMembers == BulkRows(e, members, gen, now)[..i]
      {
        var member := members[i];
        if |member.key| == 0 {
          return false;
        }
        users := users + [UserRow(member.key, member.key)];
        if |member.entity| > 0 && member.entity != e {
          return false;
        }
        pgMembers := pgMembers + [MemberRow(gen(i), MemberFrom(e, Some(member.key), member.info, now))];
      }
      assert users == UserRows(members) && pgMembers == BulkRows(e, members, gen, now);
      var done, _ := BulkInsert(tx, users, 4);
      if !done {
        return false;
      }
      var stored, _ := BulkInsert(tx, pgMembers, 12);
      if !stored {
        return false;
      }
      tables := tx.tables;
      return true;
    }

    method RegisterMember(e: Bytes, key: Bytes, id: Uuid, now: int) returns (ok: bool)
      requires Valid()
      modifies this
      ensures Valid() && ok == Store.RegisterMember(old(tables), e, key, id, now).Some?
      ensures tables == Apply(old(tables), RegisterMemberOp(e, key, id, now))
    {
      StepInv(tables, RegisterMemberOp(e, key, id, now));
      var tx := new Tx(tables);
      if !ValidPubKey(key) {
        return false;
      }
      if key !in tables.users {
        InsertOne(tables, UserRow(key, key));
        ok := tx.Exec([UserRow(key, key)]);
        if !ok {
          tx.Rollback();
          return false;
        }
      }
      if !Owned(tx.tables, e, id) {
        tx.Rollback();  // no row to update
        return false;
      }
      var member := tx.tables.members[id];
      var result := ReplaceMember(tx.tables, id, member.(key := Some(key), verified := now, updatedAt := now));
      if result.None? {
        tx.Rollback();
        return false;
      }
      tx.tables := result.value;
      tables := tx.tables;
      return true;
    }

    // rows is -1 when the update fails.
    method UpdateMember(e: Bytes, id: Uuid, info: MemberInfo, now: int) returns (rows: int)
      requires Valid()
      modifies this
      ensures Valid() && tables == Apply(old(tables), UpdateMemberOp(e, id, info, now))
      ensures rows == (if Store.UpdateMember(old(tables), e, id, info, now).None? then -1
                       else if Owned(old(tables), e, id) && Differs(old(tables).members[id], info) then 1 else 0)
    {
      StepInv(tables, UpdateMemberOp(e, id, info, now));
      if !Owned(tables, e, id) || !Differs(tables.members[id], info) {
        return 0;
      }
      var result := ReplaceMember(tables, id, Merge(tables.members[id], info, now));
      if result.None? {
        return -1;
      }
      tables := result.value;
      return 1;
    }

    method DeleteMember(e: Bytes, id: Uuid) returns (ok: bool)
      requires Valid()
      modifies this
      ensures Valid() && ok == Owned(old(tables), e, id)
      ensures tables == Apply(old(tables), DeleteMemberOp(e, id))
    {
      StepInv(tables, DeleteMemberOp(e, id));
      if !Owned(tables, e, id) {
        return false;
      }
      tables := WithoutMembers(tables, {id});
      return true;
    }

    // Every requested id is deleted, reported as invalid, or a repetition.
    method DeleteMembers(e: Bytes, ids: seq<Uuid>) returns (ok: bool, updated: int, invalid: seq<Uuid>)
      requires Valid()
      modifies this
      ensures Valid() && ok == (e != [])
      ensures tables == if ok then Store.DeleteMembers(old(tables), e, ids).value else old(tables)
      ensures ok ==> |ids| == updated + |invalid| + Duplicates(ids)
      ensures ok ==> updated == |MembersById(old(tables), e, ids)|
      ensures ok ==> Distinct(invalid) && Elements(invalid) == NotMembers(old(tables), e, ids)
    {
      WithoutMembersInv(tables, MembersById(tables, e, ids));
      if |e| == 0 {
        return false, 0, [];
      }
      var gone := MembersById(tables, e, ids);
      Unaffected(tables, e, ids);
      if |ids| == 0 {
        DeleteNobody(tables);
        return true, 0, [];
      }
      ghost var rest := NotMembers(tables, e, ids);
      tables := WithoutMembers(tables, gone);
      var result := Fetch(gone);
      updated, invalid := Reconcile(ids, result);
      assert Elements(invalid) == rest;
      ok := true;
    }

    // Needs that no two members of an entity share a key.
    method DeleteMembersByKeys(e: Bytes, keys: seq<Bytes>) returns (ok: bool, updated: int, invalid: seq<Bytes>)
      requires Valid()
      modifies this
      ensures Valid() && ok == (e != [])
      ensures tables == if ok then Store.DeleteMembersByKeys(old(tables), e, keys).value else old(tables)
      ensures ok ==> |keys| == updated + |invalid| + Duplicates(keys)
      ensures ok ==> updated == |MembersByKey(old(tables), e, keys)|
      ensures ok ==> Distinct(invalid) && Elements(invalid) == Unused(old(tables), e, keys)
    {
      var gone := MembersByKey(tables, e, keys);
      WithoutMembersInv(tables, gone);
      KeysOfMembers(tables, e, keys);
      if |e| == 0 {
        return false, 0, [];
      }
      if |keys| == 0 {
        DeleteNobody(tables);
        return true, 0, [];
      }
      var returned := KeysIn(tables, gone);
      ghost var unused := Unused(tables, e, keys);
      tables := WithoutMembers(tables, gone);
      var result := Fetch(returned);
      updated, invalid := Reconcile(keys, result);
      assert Elements(invalid) == unused;
      ok := true;
    }

    // ---------- Tags ----------

    // id is 0 when the insertion fails.
    method AddTag(e: Bytes, name: string) returns (id: int)
      requires Valid()
      modifies this
      ensures Valid() && tables == Store.AddTag(old(tables), e, name)
      ensures id == if AddTagOk(old(tables), e, name) then old(tables).nextTag else 0
    {
      AddTagInv(tables, e, name);
      if name == "" || tables.nextTag > MAX_TAG {
        return 0;
      }
      AddTagRuns(tables, e, name);
      var next := tables.nextTag;
      tables := tables.(nextTag := next + 1);
      var result := InsertRow(tables, TagRow(next, Tag(e, name)));
      if result.None? {
        return 0;
      }
      tables := result.value;
      return next;
    }

    method DeleteTag(e: Bytes, tag: int) returns (ok: bool)
      requires Valid()
      modifies this
      ensures Valid() && ok == TagOf(old(tables), e, tag)
      ensures tables == Apply(old(tables), DeleteTagOp(e, tag))
    {
      StepInv(tables, DeleteTagOp(e, tag));
      if !TagOf(tables, e, tag) {
        return false;
      }
      var tx := new Tx(tables);
      tx.tables := MapTags(tx.tables, Tagged(tx.tables, e, tag), tags => Without(tags, tag));
      tx.tables := tx.tables.(tags := tx.tables.tags - {tag});
      tables := tx.tables;
      return true;
    }

    method AddTagToMembers(e: Bytes, ids: seq<Uuid>, tag: int) returns (ok: bool, updated: int, invalid: seq<Uuid>)
      requires Valid()
      modifies this
      ensures Valid() && ok == Store.AddTagToMembers(old(tables), e, ids, tag).Some?
      ensures tables == if ok then Store.AddTagToMembers(old(tables), e, ids, tag).value else old(tables)
      ensures ok ==> |ids| == updated + |invalid| + Duplicates(ids)
      ensures ok ==> updated == |ToTag(old(tables), e, ids, tag)|
      ensures ok ==> Distinct(invalid) && Elements(invalid) == Elements(ids) - ToTag(old(tables), e, ids, tag)
    {
      if Store.AddTagToMembers(tables, e, ids, tag).Some? {
        AddTagToMembersInv(tables, e, ids, tag);
      }
      if |e| == 0 {
        return false, 0, [];
      }
      if |ids| == 0 {
        assert ToTag(tables, e, ids, tag) == {};
        return true, 0, [];
      }
      if !TagOf(tables, e, tag) {
        return false, 0, [];
      }
      var affected := ToTag(tables, e, ids, tag);
      var result := Fetch(affected);
      tables := MapTags(tables, affected, tags => tags + [tag]);
      updated, invalid := Reconcile(ids, result);
      ok := true;
    }

    method RemoveTagFromMembers(e: Bytes, ids: seq<Uuid>, tag: int) returns (ok: bool, updated: int, invalid: seq<Uuid>)
      requires Valid()
      modifies this
      ensures Valid() && ok == Store.RemoveTagFromMembers(old(tables), e, ids, tag).Some?
      ensures tables == if ok then Store.RemoveTagFromMembers(old(tables), e, ids, tag).value else old(tables)
      ensures ok ==> |ids| == updated + |invalid| + Duplicates(ids)
      ensures ok ==> updated == |ToUntag(old(tables), e, ids, tag)|
      ensures ok ==> Distinct(invalid) && Elements(invalid) == Elements(ids) - ToUntag(old(tables), e, ids, tag)
    {
      if Store.RemoveTagFromMembers(tables, e, ids, tag).Some? {
        RemoveTagFromMembersInv(tables, e, ids, tag);
      }
      if |e| == 0 {
        return false, 0, [];
      }
      if |ids| == 0 {
        assert ToUntag(tables, e, ids, tag) == {};
        return true, 0, [];
      }
      if !TagOf(tables, e, tag) {
        return false, 0, [];
      }
      var affected := ToUntag(tables, e, ids, tag);
      var result := Fetch(affected);
      tables := MapTags(tables, affected, tags => Without(tags, tag));
      updated, invalid := Reconcile(ids, result);
      ok := true;
    }

    // ---------- Targets and censuses ----------

    method AddTarget(e: Bytes, owner: Bytes, name: string, id: Uuid) returns (ok: bool)
      requires Valid()
      modifies this
      ensures Valid() && ok == Store.AddTarget(old(tables), e, owner, name, id).Some?
      ensures tables == Apply(old(tables), AddTargetOp(e, owner, name, id))
    {
      StepInv(tables, AddTargetOp(e, owner, name, id));
      if |e| == 0 {
        return false;
      }
      var targetOwner := if |owner| == 0 then e else owner;
      if targetOwner != e {
        return false;
      }
      var result := InsertRow(tables, TargetRow(id, Target(targetOwner, name)));
      if result.None? {
        return false;
      }
      tables := result.value;
      return true;
    }

    method AddCensus(e: Bytes, c: Bytes, target: Uuid, info: Option<CensusInfo>) returns (ok: bool)
      requires Valid()
      modifies this
      ensures Valid() && ok == Store.AddCensus(old(tables), e, c, target, info).Some?
      ensures tables == Apply(old(tables), AddCensusOp(e, c, target, info))
    {
      StepInv(tables, AddCensusOp(e, c, target, info));
      if |e| == 0 || |c| == 0 || target == NIL_UUID {
        return false;
      }
      var i := if info.None? then CensusInfo("", [], "", 0, false) else info.value;
      var census := Census(e, target, i.name, i.root, i.uri, i.size, i.ephemeral);
      var result := InsertRow(tables, CensusRow(c, census));
      if result.None? {
        return false;
      }
      tables := result.value;
      return true;
    }

    method UpdateCensus(e: Bytes, c: Bytes, info: Option<CensusInfo>) returns (rows: int)
      requires Valid()
      modifies this
      ensures Valid() && tables == Apply(old(tables), UpdateCensusOp(e, c, info))
      ensures rows == (if Store.UpdateCensus(old(tables), e, c, info).None? then -1 else if CensusOf(old(tables), e, c) then 1 else 0)
    {
      StepInv(tables, UpdateCensusOp(e, c, info));
      if |e| == 0 || |c| == 0 || info.None? {
        return -1;
      }
      if c !in tables.censuses || tables.censuses[c].entity != e {
        return 0;
      }
      var o, i := tables.censuses[c], info.value;
      tables := tables.(censuses := tables.censuses[c :=
        o.(root := if i.root == [] then o.root else i.root, uri := OrElse(i.uri, o.uri))]);
      return 1;
    }

    method DeleteCensus(e: Bytes, c: Bytes) returns (ok: bool)
      requires Valid()
      modifies this
      ensures Valid() && ok == CensusOf(old(tables), e, c)
      ensures tables == Apply(old(tables), DeleteCensusOp(e, c))
    {
      StepInv(tables, DeleteCensusOp(e, c));
      if |c| == 0 || |e| == 0 {
        return false;
      }
      if c !in tables.censuses || tables.censuses[c].entity != e {
        return false;
      }
      tables := WithoutCensus(tables, c);
      return true;
    }

    // The entries of the eligible members, in the order in which the members are listed.
    method BuildEntries(e: Bytes, c: Bytes, census: Census, keys: Uuid -> KeyPair) returns (entries: seq<Row>)
      ensures ListsEntries(entries, tables, c, EligibleIds(tables, e, census), keys)
      ensures RightColumns(entries, tables, c, keys)
    {
      entries := [];
      var members := Fetch(MemberIds(tables, e));
      forall a | a in members ensures a in tables.members { assert a in Elements(members); }
      for i := 0 to |members|
        invariant entries == Entries(tables, members[..i], c, census, keys)
      {
        var id := members[i];
        assert id in members;
        var member := tables.members[id];
        assert members[..i + 1][..i] == members[..i];
        if HasValidKey(member) {
          entries := entries + [CensusMemberRow(id, c, CensusMember(false, None, member.key.value, None))];
        } else if census.ephemeral {
          var pair := keys(id);
          entries := entries + [CensusMemberRow(id, c, CensusMember(true, Some(pair.public), pair.public, Some(pair.private)))];
        }
      }
      assert members[..|members|] == members;
      EntriesListed(tables, members, e, c, census, keys);
      ListedColumns(entries, tables, c, EligibleIds(tables, e, census), keys);
    }

    // Gives each eligible member an entry, stores the entries in batches and then their
    // number, in one transaction.
    method ExpandCensusMembers(e: Bytes, c: Bytes, keys: Uuid -> KeyPair) returns (ok: bool, entries: seq<Row>)
      requires Valid()
      modifies this
      ensures Valid() && ok == Store.ExpandCensus(old(tables), e, c, keys).Some?
      ensures tables == if ok then Store.ExpandCensus(old(tables), e, c, keys).value else old(tables)
      ensures ok ==> ListsEntries(entries, old(tables), c, EligibleIds(old(tables), e, old(tables).censuses[c]), keys)
      ensures ok ==> RightColumns(entries, old(tables), c, keys)
    {
      if Store.ExpandCensus(tables, e, c, keys).Some? {
        ExpandCensusInv(tables, e, c, keys);
      }
      if !CensusOf(tables, e, c) {
        return false, [];
      }
      var census := tables.censuses[c];
      entries := BuildEntries(e, c, census, keys);
      ghost var ids := EligibleIds(tables, e, census);
      EntriesInserted(tables, c, ids, keys, entries);
      var tx := new Tx(tables);
      var done, _ := BulkInsert(tx, entries, 6);
      if !done {
        return false, [];
      }
      tx.tables := tx.tables.(censuses := tx.tables.censuses[c := tx.tables.censuses[c].(size := |entries|)]);
      tables := tx.tables;
      return true, entries;
    }

    // ---------- Exports ----------

    method DumpClaims(e: Bytes) returns (claims: seq<Bytes>)
      requires Valid()
      ensures |claims| == |Joined(tables, e)| == |MemberIds(tables, e)| - |Keyless(tables, e)|
      ensures Distinct(claims)
      ensures forall k :: k in claims <==> exists a :: Owned(tables, e, a) && tables.members[a].key == Some(k)
    {
      var pairs := Fetch(Joined(tables, e));
      claims := [];
      for i := 0 to |pairs|
        invariant |claims| == i && forall k :: 0 <= k < i ==> claims[k] == pairs[k].0
      {
        assert pairs[i] in Elements(pairs);
        claims := claims + [tables.users[pairs[i].0]];
      }
      MembersSplit(tables, e);
      JoinOncePerKey(tables, e);
      forall i | 0 <= i < |pairs| ensures pairs[i] in Joined(tables, e) && claims[i] == pairs[i].0 {
        assert pairs[i] in Elements(pairs);
      }
      forall k ensures k in claims <==> exists a :: Owned(tables, e, a) && tables.members[a].key == Some(k) {
        if a :| Owned(tables, e, a) && tables.members[a].key == Some(k) {
          assert (k, a) in Elements(pairs);
          var i :| 0 <= i < |pairs| && pairs[i] == (k, a);
          assert claims[i] == k;
        }
      }
    }

    // `ids` are the members of the rows, in the order of the claims.
    method DumpCensusClaims(e: Bytes, c: Bytes) returns (ok: bool, claims: seq<Bytes>, ghost ids: seq<Uuid>)
      ensures ok == CensusOf(tables, e, c)
      ensures ok ==> Distinct(ids) && (forall a :: a in ids <==> (a, c) in tables.rows)
      ensures ok ==> |claims| == |ids| && forall i :: 0 <= i < |ids| ==>
                (ids[i], c) in tables.rows && claims[i] == tables.rows[(ids[i], c)].digest
    {
      claims, ids := [], [];
      if !CensusOf(tables, e, c) {
        return false, claims, ids;
      }
      var rows := Fetch(RowIds(tables.rows, c));
      forall a ensures a in rows <==> (a, c) in tables.rows {
        assert a in rows <==> a in Elements(rows);
        assert a in RowIds(tables.rows, c) <==> (a, c) in tables.rows;
      }
      for i := 0 to |rows|
        invariant |claims| == i
        invariant forall k :: 0 <= k < i ==> (rows[k], c) in tables.rows && claims[k] == tables.rows[(rows[k], c)].digest
      {
        assert rows[i] in rows;
        claims := claims + [tables.rows[(rows[i], c)].digest];
      }
      return true, claims, rows;
    }

    method ListEphemeralMemberInfo(e: Bytes, c: Bytes) returns (ok: bool, info: seq<EphemeralInfo>)
      ensures ok == CensusOf(tables, e, c)
      ensures ok ==> forall a :: a in EphemeralIds(tables, c) <==> exists i :: 0 <= i < |info| && info[i].id == a
      ensures ok ==> forall i :: 0 <= i < |info| ==>
                info[i].id in EphemeralIds(tables, c) && info[i] == InfoOf(tables, c, info[i].id)
      ensures ok ==> |info| == |EphemeralIds(tables, c)|
    {
      info := [];
      if !CensusOf(tables, e, c) {
        return false, info;
      }
      var rows := Fetch(EphemeralIds(tables, c));
      forall a ensures a in rows <==> a in EphemeralIds(tables, c) {
        assert a in rows <==> a in Elements(rows);
      }
      for i := 0 to |rows|
        invariant |info| == i
        invariant forall k :: 0 <= k < i ==>
                    rows[k] in EphemeralIds(tables, c) && info[k].id == rows[k] && info[k] == InfoOf(tables, c, rows[k])
      {
        assert rows[i] in rows;
        var m, r := tables.members[rows[i]], tables.rows[(rows[i], c)];
        info := info + [EphemeralInfo(rows[i], m.first, m.last, if m.email.Some? then m.email.value else "", r.privateKey, r.digest)];
      }
      return true, info;
    }

    method MembersTokensEmails(e: Bytes) returns (tokens: seq<Uuid>)
      requires Valid()
      ensures Distinct(tokens) && forall a :: a in tokens <==> Owned(tables, e, a) && tables.members[a].key.None?
      ensures |tokens| + |Joined(tables, e)| == |MemberIds(tables, e)|
    {
      tokens := Fetch(Keyless(tables, e));
      MembersSplit(tables, e);
      assert forall a :: a in tokens <==> a in Elements(tokens);
    }
  }
}
