// The two exports of an entity's members: claims of those with a key, tokens of those without.

module Claims {
  import opened Basics
  import opened Schema
  import opened Store
  import opened Invariants

  function MemberIds(t: Tables, e: Bytes): set<Uuid> {
    set a | a in t.members && t.members[a].entity == e
  }

  // The rows of MembersTokensEmails.
  function Keyless(t: Tables, e: Bytes): set<Uuid> {
    set a | a in t.members && t.members[a].entity == e && t.members[a].key.None?
  }

  // The rows of DumpClaims: pairs of a user and a member with the user's key.
  function Joined(t: Tables, e: Bytes): set<(Bytes, Uuid)> {
    set k, a | k in t.users && a in t.members && t.members[a].entity == e && t.members[a].key == Some(k) :: (k, a)
  }

  // The join neither drops nor repeats a member that has a key.
  lemma {:induction false} JoinOncePerKey(t: Tables, e: Bytes)
    requires Legal(t)
    ensures forall a :: Owned(t, e, a) && t.members[a].key.Some? ==> (t.members[a].key.value, a) in Joined(t, e)
    ensures forall p, q :: p in Joined(t, e) && q in Joined(t, e) && (p.0 == q.0 || p.1 == q.1) ==> p == q
  {
    forall p, q | p in Joined(t, e) && q in Joined(t, e) && (p.0 == q.0 || p.1 == q.1) ensures p == q {
      assert p.1 == q.1 || !Collide(t.members[p.1], t.members[q.1]);
    }
    assert forall a :: Owned(t, e, a) ==> MemberRefs(t, t.members[a]);
  }

  lemma {:induction false} JoinedMembers(t: Tables, e: Bytes)
    requires LegalMembers(t)
    ensures (set p | p in Joined(t, e) :: p.1) == MemberIds(t, e) - Keyless(t, e)
  {
    var ids := set p | p in Joined(t, e) :: p.1;
    forall a | a in MemberIds(t, e) - Keyless(t, e) ensures a in ids {
      assert MemberRefs(t, t.members[a]);
      assert (t.members[a].key.value, a) in Joined(t, e);
    }
  }

  // A set of pairs without a repeated second component is as large as the set of those components.
  lemma {:induction false} SecondInjective(pairs: set<(Bytes, Uuid)>, ids: set<Uuid>)
    requires forall p, q :: p in pairs && q in pairs && p.1 == q.1 ==> p == q
    requires ids == set p | p in pairs :: p.1
    ensures |pairs| == |ids|
    decreases |pairs|
  {
    if pairs != {} {
      var p :| p in pairs;
      SecondInjective(pairs - {p}, set q | q in pairs - {p} :: q.1);
      assert ids == (set q | q in pairs - {p} :: q.1) + {p.1};
    }
  }

  // Claims and tokens split the members of an entity exactly.
  lemma {:induction false} MembersSplit(t: Tables, e: Bytes)
    requires Legal(t)
    ensures |Joined(t, e)| + |Keyless(t, e)| == |MemberIds(t, e)|
  {
    JoinOncePerKey(t, e);
    JoinedMembers(t, e);
    SecondInjective(Joined(t, e), MemberIds(t, e) - Keyless(t, e));
    assert MemberIds(t, e) == (MemberIds(t, e) - Keyless(t, e)) + Keyless(t, e);
  }

  // ---------- Importing keys and deleting them ----------

  function KeyList(members: seq<NewMember>): seq<Bytes> {
    seq(|members|, i requires 0 <= i < |members| => members[i].key)
  }

  // A key can be imported only when no member has it: its user must be new.
  lemma {:induction false} ImportedKeysNew(t: Tables, members: seq<NewMember>)
    requires LegalMembers(t) && InsertAll(t, UserRows(members)).Some?
    ensures forall a :: a in t.members && t.members[a].key.Some? ==> t.members[a].key.value !in KeyList(members)
  {
    var users := UserRows(members);
    InsertAllMeaning(t, users);
    forall a | a in t.members && t.members[a].key.Some? ensures t.members[a].key.value !in KeyList(members) {
      assert MemberRefs(t, t.members[a]);
      forall i | 0 <= i < |members| ensures members[i].key != t.members[a].key.value {
        assert users[i] == UserRow(members[i].key, members[i].key) && Free(t, users[i]);
      }
    }
  }

  lemma {:induction false} ImportedMembers(t: Tables, e: Bytes, members: seq<NewMember>, gen: nat -> Uuid, now: int)
    requires InsertAll(t, BulkRows(e, members, gen, now)).Some?
    ensures var u := InsertAll(t, BulkRows(e, members, gen, now)).value;
            forall a :: a in u.members && a !in t.members ==>
              u.members[a].entity == e && u.members[a].key.Some? && u.members[a].key.value in KeyList(members)
  {
    var rows := BulkRows(e, members, gen, now);
    var u := InsertAll(t, rows).value;
    InsertAllMeaning(t, rows);
    forall a | a in u.members && a !in t.members
      ensures u.members[a].entity == e && u.members[a].key.Some? && u.members[a].key.value in KeyList(members)
    {
      assert Has(u, MemberRow(a, u.members[a]));
      var i :| 0 <= i < |rows| && rows[i] == MemberRow(a, u.members[a]);
      assert rows[i] == MemberRow(gen(i), MemberFrom(e, Some(members[i].key), members[i].info, now));
      assert KeyList(members)[i] == members[i].key;
    }
  }

  lemma {:induction false} MembersOnly(t: Tables, rows: seq<Row>)
    requires InsertAll(t, rows).Some? && forall i :: 0 <= i < |rows| ==> rows[i].MemberRow?
    ensures InsertAll(t, rows).value == t.(members := InsertAll(t, rows).value.members)
    decreases |rows|
  {
    if rows != [] {
      MembersOnly(InsertRow(t, rows[0]).value, rows[1..]);
    }
  }

  lemma {:induction false} UsersOnly(t: Tables, rows: seq<Row>)
    requires InsertAll(t, rows).Some? && forall i :: 0 <= i < |rows| ==> rows[i].UserRow?
    ensures InsertAll(t, rows).value == t.(users := InsertAll(t, rows).value.users)
    decreases |rows|
  {
    if rows != [] {
      UsersOnly(InsertRow(t, rows[0]).value, rows[1..]);
    }
  }

  // What a bulk import stores: the members there were, and one new member for each given key,
  // none of which any member had.
  lemma {:induction false} BulkStored(t: Tables, e: Bytes, members: seq<NewMember>, gen: nat -> Uuid, now: int)
    requires Inv(t) && AddMemberBulk(t, e, members, gen, now).Some?
    ensures var u := AddMemberBulk(t, e, members, gen, now).value;
            && u == t.(users := u.users, members := u.members)
            && (forall a :: a in t.members ==> a in u.members && u.members[a] == t.members[a])
            && (forall a :: a in u.members && a !in t.members ==>
                  u.members[a].entity == e && u.members[a].key.Some? && u.members[a].key.value in KeyList(members))
            && (forall a :: a in t.members && t.members[a].key.Some? ==> t.members[a].key.value !in KeyList(members))
  {
    var users, rows := UserRows(members), BulkRows(e, members, gen, now);
    var t1 := InsertAll(t, users).value;
    ImportedKeysNew(t, members);
    UsersOnly(t, users);
    ImportedMembers(t1, e, members, gen, now);
    InsertFrame(t1, rows);
    MembersOnly(t1, rows);
  }

  // Each entry of the list becomes a member with its key, under the id generated for it.
  lemma {:induction false} EachImported(t: Tables, e: Bytes, members: seq<NewMember>, gen: nat -> Uuid, now: int)
    requires AddMemberBulk(t, e, members, gen, now).Some?
    ensures var u := AddMemberBulk(t, e, members, gen, now).value;
            forall i :: 0 <= i < |members| ==> gen(i) in u.members && u.members[gen(i)].key == Some(members[i].key)
  {
    var t1, rows := InsertAll(t, UserRows(members)).value, BulkRows(e, members, gen, now);
    var u := InsertAll(t1, rows).value;
    InsertAllMeaning(t1, rows);
    forall i | 0 <= i < |members| ensures gen(i) in u.members && u.members[gen(i)].key == Some(members[i].key) {
      assert rows[i] == MemberRow(gen(i), MemberFrom(e, Some(members[i].key), members[i].info, now));
      assert rows[i] in rows && Has(u, rows[i]);
    }
  }

  lemma {:induction false} NewMembersGone(t: Tables, u: Tables, e: Bytes, keys: seq<Bytes>)
    requires LegalRows(t) && u == t.(users := u.users, members := u.members)
    requires forall a :: a in t.members ==> a in u.members && u.members[a] == t.members[a]
    requires forall a :: a in u.members && a !in t.members ==>
      u.members[a].entity == e && u.members[a].key.Some? && u.members[a].key.value in keys
    requires forall a :: a in t.members && t.members[a].key.Some? ==> t.members[a].key.value !in keys
    ensures WithoutMembers(u, MembersByKey(u, e, keys)) == t.(users := u.users)
  {
    var v := WithoutMembers(u, MembersByKey(u, e, keys));
    assert v.members == t.members;
    assert v.rows == t.rows;
  }

  // Deleting by key everything that was imported undoes the import, except for the user rows.
  lemma {:induction false} ImportThenDelete(t: Tables, e: Bytes, members: seq<NewMember>, gen: nat -> Uuid, now: int)
    requires Inv(t) && e != [] && AddMemberBulk(t, e, members, gen, now).Some?
    ensures var u := AddMemberBulk(t, e, members, gen, now).value;
            DeleteMembersByKeys(u, e, KeyList(members)) == Some(t.(users := u.users))
  {
    BulkStored(t, e, members, gen, now);
    var u := AddMemberBulk(t, e, members, gen, now).value;
    NewMembersGone(t, u, e, KeyList(members));
  }
}
