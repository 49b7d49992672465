// UpdateMember as a merge: sequences of updates collapse into one.

module Updates {
  import opened Basics
  import opened Schema
  import opened Store
  import opened Invariants

  // What two consecutive updates amount to: the later one wins wherever it says something.
  function Combine(a: MemberInfo, b: MemberInfo): MemberInfo {
    MemberInfo(OrElse(b.street, a.street), OrElse(b.first, a.first), OrElse(b.last, a.last), b.phone,
               OrElse(b.email, a.email), b.birth, b.verified, if b.tags.Some? then b.tags else a.tags)
  }

  function CombineAll(infos: seq<MemberInfo>): MemberInfo
    requires infos != []
    decreases |infos|
  {
    if |infos| == 1 then infos[0] else Combine(infos[0], CombineAll(infos[1..]))
  }

  // A member row without its updated_at column.
  function Untimed(m: Member): Member {
    m.(updatedAt := 0)
  }

  // The same tables except for updated_at.
  ghost predicate SameButTime(t: Tables, u: Tables) {
    && u == t.(members := u.members)
    && t.members.Keys == u.members.Keys
    && forall a :: a in t.members ==> Untimed(t.members[a]) == Untimed(u.members[a])
  }

  lemma {:induction false} MergeMerge(m: Member, a: MemberInfo, b: MemberInfo, now: int, later: int)
    ensures Merge(Merge(m, a, now), b, later) == Merge(m, Combine(a, b), later)
  {
  }

  // The WHERE conditions suppress no change but that of updated_at.
  lemma {:induction false} GateHidesNothing(t: Tables, e: Bytes, id: Uuid, info: MemberInfo, now: int)
    requires Owned(t, e, id) && UpdateMember(t, e, id, info, now).Some?
    ensures SameButTime(UpdateMember(t, e, id, info, now).value, t.(members := t.members[id := Merge(t.members[id], info, now)]))
  {
    if !Differs(t.members[id], info) {
      assert Untimed(Merge(t.members[id], info, now)) == Untimed(t.members[id]);
    }
  }

  // Updates one after the other; None when one of them fails.
  function UpdateAll(t: Tables, e: Bytes, id: Uuid, infos: seq<MemberInfo>, now: int): Option<Tables>
    decreases |infos|
  {
    if infos == [] then Some(t)
    else match UpdateMember(t, e, id, infos[0], now)
      case None => None
      case Some(t1) => UpdateAll(t1, e, id, infos[1..], now + 1)
  }

  lemma {:induction false} AcceptsUntimed(t: Tables, u: Tables, id: Uuid, m: Member, n: Member)
    requires u == t.(members := u.members) && t.members.Keys == u.members.Keys
    requires forall a :: a in t.members && a != id ==> t.members[a] == u.members[a]
    requires Untimed(m) == Untimed(n)
    ensures Accepts(t, id, m) == Accepts(u, id, n)
  {
    assert m.entity == n.entity && m.key == n.key && m.email == n.email by {
      assert Untimed(m).entity == Untimed(n).entity && Untimed(m).key == Untimed(n).key
        && Untimed(m).email == Untimed(n).email;
    }
    assert MemberRefs(t, m) == MemberRefs(u, n);
    assert forall a :: a in t.members && a != id ==> Collide(t.members[a], m) == Collide(u.members[a], n);
  }

  lemma {:induction false} MergeUntimed(m: Member, n: Member, info: MemberInfo, now: int, later: int)
    requires Untimed(m) == Untimed(n)
    ensures Untimed(Merge(m, info, now)) == Untimed(Merge(n, info, later))
  {
    assert n == m.(updatedAt := n.updatedAt) by {
      assert n == Untimed(n).(updatedAt := n.updatedAt);
      assert m == Untimed(m).(updatedAt := m.updatedAt);
    }
  }

  // One merged row after the other is the row merged with the combined information.
  lemma {:induction false} ThenMerge(t: Tables, t1: Tables, id: Uuid, info: MemberInfo, rest: MemberInfo, now: int)
    requires id in t.members && t1 == t.(members := t1.members) && t.members.Keys == t1.members.Keys
    requires forall a :: a in t.members && a != id ==> t.members[a] == t1.members[a]
    requires Untimed(t1.members[id]) == Untimed(Merge(t.members[id], info, now))
    ensures var m, n := Merge(t.members[id], Combine(info, rest), now), Merge(t1.members[id], rest, now + 1);
            Untimed(m) == Untimed(n) && Accepts(t, id, m) == Accepts(t1, id, n)
  {
    MergeMerge(t.members[id], info, rest, now, now);
    MergeUntimed(t1.members[id], Merge(t.members[id], info, now), rest, now + 1, now);
    AcceptsUntimed(t, t1, id, Merge(t.members[id], Combine(info, rest), now), Merge(t1.members[id], rest, now + 1));
  }

  lemma {:induction false} FirstUpdate(t: Tables, e: Bytes, id: Uuid, info: MemberInfo, now: int)
    requires LegalMembers(t) && Owned(t, e, id) && UpdateMember(t, e, id, info, now).Some?
    ensures var u := UpdateMember(t, e, id, info, now).value;
            && u == t.(members := u.members) && t.members.Keys == u.members.Keys
            && (forall a :: a in t.members && a != id ==> t.members[a] == u.members[a])
            && Owned(u, e, id) && LegalMembers(u)
            && Untimed(u.members[id]) == Untimed(Merge(t.members[id], info, now))
            && Accepts(t, id, Merge(t.members[id], info, now))
  {
    var u := UpdateMember(t, e, id, info, now).value;
    GateHidesNothing(t, e, id, info, now);
    if Differs(t.members[id], info) {
      forall a, b | a in u.members && b in u.members && a != b ensures !Collide(u.members[a], u.members[b]) {
        assert Collide(u.members[a], u.members[b]) == Collide(u.members[b], u.members[a]);
        if a != id && b != id { assert !Collide(t.members[a], t.members[b]); }
      }
    } else {
      assert Accepts(t, id, t.members[id]);
      AcceptsUntimed(t, t, id, t.members[id], Merge(t.members[id], info, now));
    }
  }

  // Accepted updates in a row leave only row `id` changed, to the merge of everything said.
  lemma {:induction false} UpdateAllEffect(t: Tables, e: Bytes, id: Uuid, infos: seq<MemberInfo>, now: int)
    requires LegalMembers(t) && Owned(t, e, id) && infos != [] && UpdateAll(t, e, id, infos, now).Some?
    ensures var u := UpdateAll(t, e, id, infos, now).value;
            var m := Merge(t.members[id], CombineAll(infos), now);
            && u == t.(members := u.members) && t.members.Keys == u.members.Keys
            && (forall a :: a in t.members && a != id ==> t.members[a] == u.members[a])
            && Untimed(u.members[id]) == Untimed(m)
            && Accepts(t, id, m)
    decreases |infos|
  {
    FirstUpdate(t, e, id, infos[0], now);
    if |infos| == 1 {
      assert infos[1..] == [];
    } else {
      var t1 := UpdateMember(t, e, id, infos[0], now).value;
      UpdateAllEffect(t1, e, id, infos[1..], now + 1);
      ThenMerge(t, t1, id, infos[0], CombineAll(infos[1..]), now);
    }
  }

  lemma {:induction false} NotOwned(t: Tables, e: Bytes, id: Uuid, infos: seq<MemberInfo>, now: int)
    requires !Owned(t, e, id)
    ensures UpdateAll(t, e, id, infos, now) == Some(t)
    decreases |infos|
  {
    if infos != [] {
      NotOwned(t, e, id, infos[1..], now + 1);
    }
  }

  // An update that is accepted leaves the same tables, but for updated_at, as any that differ
  // from the old ones in the merged row only.
  lemma {:induction false} OneUpdate(t: Tables, e: Bytes, id: Uuid, info: MemberInfo, now: int, u: Tables)
    requires Owned(t, e, id) && Accepts(t, id, Merge(t.members[id], info, now))
    requires u == t.(members := u.members) && t.members.Keys == u.members.Keys
    requires forall a :: a in t.members && a != id ==> t.members[a] == u.members[a]
    requires Untimed(u.members[id]) == Untimed(Merge(t.members[id], info, now))
    ensures UpdateMember(t, e, id, info, now).Some?
    ensures SameButTime(u, UpdateMember(t, e, id, info, now).value)
  {
    var one := UpdateMember(t, e, id, info, now).value;
    GateHidesNothing(t, e, id, info, now);
    assert one.members.Keys == t.members.Keys;
    assert one == t.(members := one.members);
  }

  // Any sequence of successful updates is one successful update with the merged information.
  lemma {:induction false} UpdatesCollapse(t: Tables, e: Bytes, id: Uuid, infos: seq<MemberInfo>, now: int)
    requires LegalMembers(t) && infos != [] && UpdateAll(t, e, id, infos, now).Some?
    ensures var one := UpdateMember(t, e, id, CombineAll(infos), now);
            one.Some? && SameButTime(UpdateAll(t, e, id, infos, now).value, one.value)
  {
    if Owned(t, e, id) {
      UpdateAllEffect(t, e, id, infos, now);
      OneUpdate(t, e, id, CombineAll(infos), now, UpdateAll(t, e, id, infos, now).value);
    } else {
      NotOwned(t, e, id, infos, now);
    }
  }

  lemma {:induction false} MergeTwice(m: Member, info: MemberInfo, now: int, later: int)
    ensures Merge(Merge(m, info, now), info, later) == Merge(m, info, now).(updatedAt := later)
    ensures !Differs(m, info) ==> Merge(m, info, later) == m.(updatedAt := later)
  {
  }

  // Repeating a successful update succeeds and changes nothing but updated_at.
  lemma {:induction false} UpdateIdempotent(t: Tables, e: Bytes, id: Uuid, info: MemberInfo, now: int, later: int)
    requires LegalMembers(t) && UpdateMember(t, e, id, info, now).Some?
    ensures var u := UpdateMember(t, e, id, info, now).value;
            var again := UpdateMember(u, e, id, info, later);
            again.Some? && SameButTime(u, again.value)
  {
    if Owned(t, e, id) && Differs(t.members[id], info) {
      var m := Merge(t.members[id], info, now);
      MergeTwice(t.members[id], info, now, later);
      var u := t.(members := t.members[id := m]);
      assert UpdateMember(t, e, id, info, now) == Some(u);
      var n := m.(updatedAt := later);
      assert Accepts(u, id, n);
      assert UpdateMember(u, e, id, info, later) == Some(if Differs(m, info) then u.(members := u.members[id := n]) else u);
    }
  }

  // An update that leaves the columns with constraints as they are succeeds with the merged row.
  lemma {:induction false} UpdatedRow(t: Tables, e: Bytes, id: Uuid, info: MemberInfo, now: int)
    requires LegalMembers(t) && Owned(t, e, id)
    requires var n := Merge(t.members[id], info, now); n.key == t.members[id].key && n.email == t.members[id].email
    ensures UpdateMember(t, e, id, info, now).Some?
    ensures var n, u := Merge(t.members[id], info, now), UpdateMember(t, e, id, info, now).value;
            SameButTime(t, u) <==> Untimed(n) == Untimed(t.members[id])
  {
    var m, n := t.members[id], Merge(t.members[id], info, now);
    forall a | a in t.members && a != id ensures !Collide(t.members[a], n) {
      assert !Collide(t.members[a], m);
    }
    assert MemberRefs(t, m);
    GateHidesNothing(t, e, id, info, now);
    var u := UpdateMember(t, e, id, info, now).value;
    assert Untimed(u.members[id]) == Untimed(n);
    assert u == t.(members := u.members);
  }

  // Updating a member with the data it was added with succeeds, and changes nothing but updated_at
  // exactly when that data names no tags: an insertion drops them and an update stores them.
  lemma {:induction false} AddedIsUpToDate(t: Tables, e: Bytes, key: Option<Bytes>, info: MemberInfo, id: Uuid, now: int, later: int)
    requires Inv(t) && AddMember(t, e, key, info, id, now).Some?
    ensures var u := AddMember(t, e, key, info, id, now).value;
            var again := UpdateMember(u, e, id, info, later);
            again.Some? && (SameButTime(u, again.value) <==> info.tags.None? || info.tags.value == [])
  {
    EnsureUserInv(t, key.value);
    var t1, m := EnsureUser(t, key.value).value, MemberFrom(e, key, info, now);
    var u, n := AddMember(t, e, key, info, id, now).value, Merge(m, info, later);
    AddMemberInv(t, e, key, info, id, now);
    assert n == m.(tags := n.tags, updatedAt := later);
    UpdatedRow(u, e, id, info, later);
    assert Untimed(m).tags == [] && Untimed(n).tags == n.tags;
  }

  // The same for an entity.
  lemma {:induction false} AddedEntityIsUpToDate(t: Tables, e: Bytes, info: EntityInfo)
    requires AddEntity(t, e, info).Some?
    ensures UpdateEntity(AddEntity(t, e, info).value, e, info) == AddEntity(t, e, info).value
  {
    var t1, u := Put(t, EntityRow(e, EntityFrom(info, info.managers.value))), AddEntity(t, e, info).value;
    InsertFrame(t1, OriginRows(e, info.origins));
    assert u.entities[e := u.entities[e]] == u.entities;
  }

  // What two consecutive updates of a census amount to.
  function CombineCensus(a: CensusInfo, b: CensusInfo): CensusInfo {
    b.(root := if b.root == [] then a.root else b.root, uri := OrElse(b.uri, a.uri))
  }

  // Two updates of a census are one, repeating an update changes nothing, and none changes its size,
  // target, name or flag.
  lemma {:induction false} CensusUpdatesCollapse(t: Tables, e: Bytes, c: Bytes, a: CensusInfo, b: CensusInfo)
    requires e != [] && c != []
    ensures UpdateCensus(t, e, c, Some(a)).Some?
    ensures var u := UpdateCensus(t, e, c, Some(a)).value;
            && UpdateCensus(u, e, c, Some(b)) == UpdateCensus(t, e, c, Some(CombineCensus(a, b)))
            && UpdateCensus(u, e, c, Some(a)) == Some(u)
    ensures var u := UpdateCensus(t, e, c, Some(a)).value;
            CensusOf(t, e, c) ==>
              && CensusOf(u, e, c)
              && u.censuses[c] == t.censuses[c].(root := u.censuses[c].root, uri := u.censuses[c].uri)
  {
    if CensusOf(t, e, c) {
      var u := UpdateCensus(t, e, c, Some(a)).value;
      assert u.censuses[c := UpdateCensus(u, e, c, Some(b)).value.censuses[c]] ==
             t.censuses[c := UpdateCensus(u, e, c, Some(b)).value.censuses[c]];
      assert u.censuses[c := u.censuses[c]] == u.censuses;
    }
  }
}
