// The life of a census: when it can be expanded, what an expansion leaves, and
// what later steps may do to its rows.

module Expansion {
  import opened Basics
  import opened Schema
  import opened Store
  import opened Invariants

  // The census is the entity's and none of its rows survives.
  ghost predicate Expandable(t: Tables, e: Bytes, c: Bytes) {
    CensusOf(t, e, c) && RowIds(t.rows, c) == {}
  }

  // In every reachable state a census can be expanded exactly when none of its rows survives.
  lemma {:induction false} ExpandableIffNoRows(t: Tables, e: Bytes, c: Bytes, keys: Uuid -> KeyPair)
    requires Inv(t)
    ensures ExpandCensus(t, e, c, keys).Some? <==> Expandable(t, e, c)
  {
    if CensusOf(t, e, c) {
      var ids := EligibleIds(t, e, t.censuses[c]);
      assert forall a :: a in RowIds(t.rows, c) <==> (a, c) in t.rows;
      assert RowIds(t.rows, c) <= ids;
    }
  }

  // Right after an expansion: one row for each eligible member, and the size column counts them.
  lemma {:induction false} ExpansionCounts(t: Tables, e: Bytes, c: Bytes, keys: Uuid -> KeyPair)
    requires Inv(t) && Expandable(t, e, c)
    ensures ExpandCensus(t, e, c, keys).Some?
    ensures var u := ExpandCensus(t, e, c, keys).value;
            && c in u.censuses && u.censuses[c].size == |RowIds(u.rows, c)| == |EligibleIds(t, e, t.censuses[c])|
            && (forall a :: (a, c) in u.rows <==> Owned(t, e, a) && Eligible(t.members[a], t.censuses[c]))
            && (forall a :: (a, c) in u.rows ==>
                  u.rows[(a, c)].ephemeral == !HasValidKey(t.members[a]))
  {
    ExpandableIffNoRows(t, e, c, keys);
    ExpandCensusRows(t, e, c, keys);
    var u := ExpandCensus(t, e, c, keys).value;
    assert forall a :: (a, c) in u.rows <==> a in RowIds(u.rows, c);
  }

  lemma {:induction false} AddedThenDeleted(t: Tables, c: Bytes, v: Census)
    requires LegalRows(t) && c !in t.censuses
    ensures RowIds(t.rows, c) == {}
    ensures WithoutCensus(Put(t, CensusRow(c, v)), c) == t
  {
    var u := WithoutCensus(Put(t, CensusRow(c, v)), c);
    assert u.censuses == t.censuses;
    assert u.rows == t.rows;
  }

  // A census can be added exactly when its id is new and entity and target exist, whoever owns the
  // target. It can then be expanded, no entity can take its id, and deleting it restores the tables.
  lemma {:induction false} AddedCensus(t: Tables, e: Bytes, c: Bytes, target: Uuid, info: Option<CensusInfo>)
    requires Inv(t)
    ensures AddCensus(t, e, c, target, info).Some? <==>
            e != [] && c != [] && target != NIL_UUID && e in t.entities && target in t.targets && c !in t.censuses
    ensures AddCensus(t, e, c, target, info).Some? ==>
              var u := AddCensus(t, e, c, target, info).value;
              && Expandable(u, e, c)
              && DeleteCensus(u, e, c) == Some(t)
              && forall f, other, more :: AddCensus(u, f, c, other, more).None?
  {
    if AddCensus(t, e, c, target, info).Some? {
      AddedThenDeleted(t, c, CensusFrom(e, target, info));
    }
  }

  predicate Expands(t: Tables, op: Op, c: Bytes) {
    op.ExpandCensusOp? && op.census == c && Try(t, op).Some?
  }

  predicate TouchesCensuses(op: Op) {
    Deleting(op) || op.AddCensusOp? || op.UpdateCensusOp? || op.ExpandCensusOp?
  }

  lemma {:induction false} OtherStepsKeepCensuses(t: Tables, op: Op)
    requires !TouchesCensuses(op)
    ensures var u := Apply(t, op); u.censuses == t.censuses && u.rows == t.rows && t.members.Keys <= u.members.Keys
  {
    if Try(t, op).Some? && InsertsLists(op) {
      InsertionAdds(t, op);
    }
  }

  // `u` has the same census c as t, and its rows are the rows of t whose member is in u.
  ghost predicate KeepsRows(t: Tables, u: Tables, c: Bytes)
    requires c in t.censuses
  {
    && c in u.censuses
    && u.censuses[c].size == t.censuses[c].size
    && u.censuses[c].entity == t.censuses[c].entity
    && u.censuses[c].ephemeral == t.censuses[c].ephemeral
    && (forall a :: (a, c) in u.rows <==> (a, c) in t.rows && a in u.members)
    && (forall a :: (a, c) in u.rows ==> u.rows[(a, c)] == t.rows[(a, c)])
  }

  lemma {:induction false} OtherExpansionKeepsRows(t: Tables, e: Bytes, d: Bytes, keys: Uuid -> KeyPair, c: Bytes)
    requires LegalRows(t) && c in t.censuses && c != d && ExpandCensus(t, e, d, keys).Some?
    ensures KeepsRows(t, ExpandCensus(t, e, d, keys).value, c)
  {
    var ids := EligibleIds(t, e, t.censuses[d]);
    assert forall a :: (a, c) !in NewRows(t, d, ids, keys);
  }

  lemma {:induction false} MembersGoneKeepRows(t: Tables, gone: set<Uuid>, c: Bytes)
    requires LegalRows(t) && c in t.censuses
    ensures KeepsRows(t, WithoutMembers(t, gone), c)
  {
  }

  lemma {:induction false} CensusGoneKeepsRows(t: Tables, d: Bytes, c: Bytes)
    requires LegalRows(t) && c in t.censuses && c != d
    ensures KeepsRows(t, WithoutCensus(t, d), c)
  {
  }

  lemma {:induction false} EntityGoneKeepsRows(t: Tables, e: Bytes, c: Bytes)
    requires LegalRows(t) && RowsEligible(t) && c in t.censuses && t.censuses[c].entity != e
    ensures KeepsRows(t, CascadeEntity(t, e), c)
  {
  }

  lemma {:induction false} ColumnsKeepRows(t: Tables, d: Bytes, v: Census, c: Bytes)
    requires LegalRows(t) && c in t.censuses
    requires c == d ==> v.size == t.censuses[c].size && v.entity == t.censuses[c].entity && v.ephemeral == t.censuses[c].ephemeral
    ensures KeepsRows(t, t.(censuses := t.censuses[d := v]), c)
  {
  }

  lemma {:induction false} DeletionStepKeepsRows(t: Tables, op: Op, c: Bytes)
    requires LegalRows(t) && RowsEligible(t) && c in t.censuses && Try(t, op).Some? && c in Try(t, op).value.censuses
    requires Deleting(op)
    ensures KeepsRows(t, Try(t, op).value, c)
  {
    match op
    case DeleteEntityOp(e) => EntityGoneKeepsRows(t, e, c);
    case DeleteMemberOp(_, id) => MembersGoneKeepRows(t, {id}, c);
    case DeleteMembersOp(e, ids) => MembersGoneKeepRows(t, MembersById(t, e, ids), c);
    case DeleteMembersByKeysOp(e, keys) => MembersGoneKeepRows(t, MembersByKey(t, e, keys), c);
    case DeleteCensusOp(_, d) => CensusGoneKeepsRows(t, d, c);
  }

  lemma {:induction false} CensusStepKeepsRows(t: Tables, op: Op, c: Bytes)
    requires LegalRows(t) && c in t.censuses && Try(t, op).Some? && !Expands(t, op, c)
    requires op.AddCensusOp? || op.UpdateCensusOp? || op.ExpandCensusOp?
    ensures KeepsRows(t, Try(t, op).value, c)
  {
    match op
    case AddCensusOp(e, d, target, info) => ColumnsKeepRows(t, d, CensusFrom(e, target, info), c);
    case UpdateCensusOp(e, d, info) =>
      if CensusOf(t, e, d) { ColumnsKeepRows(t, d, UpdateCensus(t, e, d, info).value.censuses[d], c); }
    case ExpandCensusOp(e, d, keys) => OtherExpansionKeepsRows(t, e, d, keys, c);
  }

  lemma {:induction false} KeepsRowsItself(t: Tables, c: Bytes)
    requires LegalRows(t) && c in t.censuses
    ensures KeepsRows(t, t, c)
  {
  }

  lemma {:induction false} RowsKept(t: Tables, op: Op, c: Bytes)
    requires LegalRows(t) && RowsEligible(t) && c in t.censuses && c in Apply(t, op).censuses && !Expands(t, op, c)
    ensures KeepsRows(t, Apply(t, op), c)
  {
    if !TouchesCensuses(op) {
      OtherStepsKeepCensuses(t, op);
    } else if Try(t, op).None? {
      KeepsRowsItself(t, c);
    } else if op.AddCensusOp? || op.UpdateCensusOp? || op.ExpandCensusOp? {
      CensusStepKeepsRows(t, op, c);
    } else {
      DeletionStepKeepsRows(t, op, c);
    }
  }

  // Between expansions a step that keeps the census keeps its size, entity and flag, and
  // its rows disappear with their members and in no other way.
  lemma {:induction false} StepKeepsRows(t: Tables, op: Op, c: Bytes)
    requires Inv(t) && c in t.censuses && c in Apply(t, op).censuses && !Expands(t, op, c)
    ensures KeepsRows(t, Apply(t, op), c)
  {
    RowsKept(t, op, c);
  }

  // The census stays, and is not expanded again.
  ghost predicate Quiet(t: Tables, ops: seq<Op>, c: Bytes)
    decreases |ops|
  {
    && c in t.censuses
    && (ops != [] ==> !Expands(t, ops[0], c) && Quiet(Apply(t, ops[0]), ops[1..], c))
  }

  // The member exists before, between and after all steps of the run.
  ghost predicate Stays(t: Tables, ops: seq<Op>, a: Uuid)
    decreases |ops|
  {
    a in t.members && (ops != [] ==> Stays(Apply(t, ops[0]), ops[1..], a))
  }

  // Over any run between expansions: the size does not change, and a row is still there
  // exactly when it was there and its member was never deleted.
  lemma {:induction false} RunKeepsRows(t: Tables, ops: seq<Op>, c: Bytes)
    requires Inv(t) && Quiet(t, ops, c)
    ensures var u := Run(t, ops);
            && c in u.censuses
            && u.censuses[c].size == t.censuses[c].size
            && u.censuses[c].entity == t.censuses[c].entity
            && u.censuses[c].ephemeral == t.censuses[c].ephemeral
            && (forall a :: (a, c) in u.rows <==> (a, c) in t.rows && Stays(t, ops, a))
            && (forall a :: (a, c) in u.rows ==> u.rows[(a, c)] == t.rows[(a, c)])
    decreases |ops|
  {
    if ops != [] {
      var t1 := Apply(t, ops[0]);
      StepInv(t, ops[0]);
      StepKeepsRows(t, ops[0], c);
      RunKeepsRows(t1, ops[1..], c);
      var u := Run(t1, ops[1..]);
      forall a ensures (a, c) in u.rows <==> (a, c) in t.rows && Stays(t, ops, a) {
        assert (a, c) in t.rows ==> a in t.members;
        if Stays(t1, ops[1..], a) { assert a in t1.members; }
      }
    }
  }

  // A census expanded once can be expanded again exactly when every member of the first
  // expansion has been deleted since.
  lemma {:induction false} SecondExpansion(t: Tables, e: Bytes, c: Bytes, first: Uuid -> KeyPair, ops: seq<Op>, second: Uuid -> KeyPair)
    requires Inv(t) && Expandable(t, e, c)
    requires ExpandCensus(t, e, c, first).Some? ==> Quiet(ExpandCensus(t, e, c, first).value, ops, c)
    ensures ExpandCensus(t, e, c, first).Some?
    ensures var t1 := ExpandCensus(t, e, c, first).value;
            var u := Run(t1, ops);
            && c in u.censuses
            && (ExpandCensus(u, e, c, second).Some? <==>
                forall a :: a in EligibleIds(t, e, t.censuses[c]) ==> !Stays(t1, ops, a))
            && u.censuses[c].size == |EligibleIds(t, e, t.censuses[c])| >= |RowIds(u.rows, c)|
  {
    ExpandableIffNoRows(t, e, c, first);
    var t1 := ExpandCensus(t, e, c, first).value;
    var u := Run(t1, ops);
    ExpandCensusInv(t, e, c, first);
    ExpandCensusRows(t, e, c, first);
    RunInv(t1, ops);
    RunKeepsRows(t1, ops, c);
    ExpandableIffNoRows(u, e, c, second);
    assert forall a :: a in RowIds(u.rows, c) <==> (a, c) in u.rows;
    assert forall a :: a in RowIds(t1.rows, c) <==> (a, c) in t1.rows;
    SubsetCardinality(RowIds(u.rows, c), RowIds(t1.rows, c));
  }

  // ---------- Claims ----------

  // The generated keys that an expansion uses differ from each other and from the valid
  // keys of the entity's members.
  ghost predicate FreshKeys(t: Tables, e: Bytes, c: Census, keys: Uuid -> KeyPair) {
    forall a, b :: a in EligibleIds(t, e, c) && b in EligibleIds(t, e, c) && a != b && !HasValidKey(t.members[a]) ==>
      keys(a).public != (if HasValidKey(t.members[b]) then t.members[b].key.value else keys(b).public)
  }

  lemma {:induction false} ValidKeysDiffer(t: Tables, e: Bytes)
    requires LegalMembers(t)
    ensures forall a, b | Owned(t, e, a) && Owned(t, e, b) && HasValidKey(t.members[a]) && HasValidKey(t.members[b]) ::
              a != b ==> t.members[a].key.value != t.members[b].key.value
  {
    forall a, b | Owned(t, e, a) && Owned(t, e, b) && a != b && HasValidKey(t.members[a]) && HasValidKey(t.members[b])
      ensures t.members[a].key.value != t.members[b].key.value
    {
      assert !Collide(t.members[a], t.members[b]);
    }
  }

  lemma {:induction false} ExpandedEntries(t: Tables, e: Bytes, c: Bytes, keys: Uuid -> KeyPair)
    requires Inv(t) && ExpandCensus(t, e, c, keys).Some?
    ensures var u := ExpandCensus(t, e, c, keys).value;
            var ids := EligibleIds(t, e, t.censuses[c]);
            && (forall a :: (a, c) in u.rows <==> a in ids)
            && (forall a :: a in ids ==> (a, c) in u.rows && u.rows[(a, c)] == CensusEntry(t.members[a], keys(a)))
  {
    ExpandCensusRows(t, e, c, keys);
    var u := ExpandCensus(t, e, c, keys).value;
    var ids := EligibleIds(t, e, t.censuses[c]);
    assert forall a :: (a, c) in u.rows <==> a in RowIds(u.rows, c);
    forall a | a in ids ensures u.rows[(a, c)] == CensusEntry(t.members[a], keys(a)) {
      assert (a, c) in NewRows(t, c, ids, keys);
    }
  }

  // The digests of an expansion are pairwise distinct exactly when its generated keys are fresh:
  // the valid keys of one entity's members never repeat.
  lemma {:induction false} ClaimsDistinct(t: Tables, e: Bytes, c: Bytes, keys: Uuid -> KeyPair)
    requires Inv(t) && Expandable(t, e, c)
    ensures ExpandCensus(t, e, c, keys).Some?
    ensures var u := ExpandCensus(t, e, c, keys).value;
            FreshKeys(t, e, t.censuses[c], keys) <==>
            forall a, b :: (a, c) in u.rows && (b, c) in u.rows && a != b ==> u.rows[(a, c)].digest != u.rows[(b, c)].digest
  {
    ExpandableIffNoRows(t, e, c, keys);
    ExpandedEntries(t, e, c, keys);
    var u := ExpandCensus(t, e, c, keys).value;
    var ids := EligibleIds(t, e, t.censuses[c]);
    ValidKeysDiffer(t, e);
    if FreshKeys(t, e, t.censuses[c], keys) {
      forall a, b | a in ids && b in ids && a != b ensures u.rows[(a, c)].digest != u.rows[(b, c)].digest {
        assert HasValidKey(t.members[a]) || HasValidKey(t.members[b]) || keys(a).public != keys(b).public;
      }
    }
  }
}
