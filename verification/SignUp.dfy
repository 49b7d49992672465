// Signing up an entity: two insertions that are not one transaction, repeatable at will.

module SignUp {
  import opened Basics
  import opened Schema
  import opened Store
  import opened Invariants

  const ALL := "all"

  const NO_INFO := EntityInfo("", "", "", 0, false, "", "", None, [])

  // The caller controls five fields only; the entity manages its own censuses and gets the Token origin.
  function SignUpInfo(e: Bytes, given: Option<EntityInfo>): EntityInfo {
    var g := if given.Some? then given.value else NO_INFO;
    EntityInfo(g.name, g.email, g.kind, g.size, g.consented, "", "", Some([e]), [Token])
  }

  // The first half; an entity that exists already is no error.
  function Enter(t: Tables, e: Bytes, given: Option<EntityInfo>): Tables {
    match AddEntity(t, e, SignUpInfo(e, given)) case Some(u) => u case None => t
  }

  // The second half; a target that cannot be inserted is no error.
  function EnterTarget(t: Tables, e: Bytes, id: Uuid): Tables {
    match AddTarget(t, e, e, ALL, id) case Some(u) => u case None => t
  }

  function SignUpStep(t: Tables, e: Bytes, given: Option<EntityInfo>, id: Uuid): Tables {
    EnterTarget(Enter(t, e, given), e, id)
  }

  predicate IsAll(t: Tables, e: Bytes, g: Uuid) {
    g in t.targets && t.targets[g] == Target(e, "all")
  }

  // The entity is there with its Token origin and its target.
  ghost predicate SignedUp(t: Tables, e: Bytes) {
    e in t.entities && (e, Token) in t.origins && exists g :: IsAll(t, e, g)
  }

  lemma {:induction false} EnterEffect(t: Tables, e: Bytes, given: Option<EntityInfo>)
    requires Legal(t)
    ensures var i := SignUpInfo(e, given);
            Enter(t, e, given) ==
            if e in t.entities then t
            else t.(entities := t.entities[e := EntityFrom(i, [e])], origins := t.origins + {(e, Token)})
  {
    if e !in t.entities {
      var i := SignUpInfo(e, given);
      var t1 := Put(t, EntityRow(e, EntityFrom(i, [e])));
      var rows := OriginRows(e, [Token]);
      assert rows == [OriginRow(e, Token)] && rows[1..] == [];
      assert (e, Token) !in t.origins;
      assert InsertAll(t1, rows) == InsertRow(t1, rows[0]);
    }
  }

  lemma {:induction false} SignUpInv(t: Tables, e: Bytes, given: Option<EntityInfo>, id: Uuid)
    requires Inv(t)
    ensures Inv(Enter(t, e, given)) && Inv(SignUpStep(t, e, given, id))
  {
    if AddEntity(t, e, SignUpInfo(e, given)).Some? {
      AddEntityInv(t, e, SignUpInfo(e, given));
    }
    var t1 := Enter(t, e, given);
    if AddTarget(t1, e, e, ALL, id).Some? {
      InsertRowInv(t1, TargetRow(id, Target(e, ALL)));
    }
  }

  // Signing up again changes nothing, whatever data the repetition brings.
  lemma {:induction false} SignedUpStays(t: Tables, e: Bytes, given: Option<EntityInfo>, id: Uuid)
    requires Legal(t) && SignedUp(t, e)
    ensures SignUpStep(t, e, given, id) == t
  {
    EnterEffect(t, e, given);
    var g :| IsAll(t, e, g);
    assert !Free(t, TargetRow(id, Target(e, ALL)));
  }

  // A call for a new entity, or for one that was cut off between the two insertions, signs it up.
  lemma {:induction false} SignUpCompletes(t: Tables, e: Bytes, given: Option<EntityInfo>, id: Uuid)
    requires Inv(t) && e != [] && id !in t.targets
    requires e in t.entities ==> (e, Token) in t.origins
    ensures SignedUp(SignUpStep(t, e, given, id), e)
  {
    EnterEffect(t, e, given);
    var t1 := Enter(t, e, given);
    if g :| IsAll(t1, e, g) {
      assert IsAll(SignUpStep(t, e, given, id), e, g);
    } else {
      assert forall a :: a in t1.targets ==> !IsAll(t1, e, a);
      assert InsertRow(t1, TargetRow(id, Target(e, ALL))).Some?;
      assert IsAll(SignUpStep(t, e, given, id), e, id);
    }
  }

  datatype Call = Call(given: Option<EntityInfo>, id: Uuid)

  function SignUps(t: Tables, e: Bytes, calls: seq<Call>): Tables
    decreases |calls|
  {
    if calls == [] then t else SignUps(SignUpStep(t, e, calls[0].given, calls[0].id), e, calls[1..])
  }

  lemma {:induction false} SignedUpStaysForever(t: Tables, e: Bytes, calls: seq<Call>)
    requires Legal(t) && SignedUp(t, e)
    ensures SignUps(t, e, calls) == t
    decreases |calls|
  {
    if calls != [] {
      SignedUpStays(t, e, calls[0].given, calls[0].id);
      SignedUpStaysForever(t, e, calls[1..]);
    }
  }

  lemma {:induction false} OneAll(t: Tables, e: Bytes)
    requires Legal(t) && SignedUp(t, e)
    ensures exists g :: IsAll(t, e, g) && forall h :: IsAll(t, e, h) ==> h == g
  {
    var g :| IsAll(t, e, g);
    assert forall h :: IsAll(t, e, h) ==> t.targets[h] == t.targets[g];
  }

  // One entity row with the first data, the Token origin and exactly one "all" target.
  ghost predicate OneSignUp(t: Tables, e: Bytes, given: Option<EntityInfo>) {
    && var g := if given.Some? then given.value else NO_INFO;
    && e in t.entities
    && t.entities[e] == Entity(g.name, g.email, g.kind, g.size, g.consented, "", "", [e], false)
    && (e, Token) in t.origins
    && (exists g :: IsAll(t, e, g) && forall h :: IsAll(t, e, h) ==> h == g)
  }

  // Any number of calls ends in the state of the first.
  lemma {:induction false} SignUpIdempotent(t: Tables, e: Bytes, calls: seq<Call>)
    requires Inv(t) && e != [] && e !in t.entities
    requires calls != [] && calls[0].id !in t.targets
    ensures SignUps(t, e, calls) == SignUpStep(t, e, calls[0].given, calls[0].id)
    ensures OneSignUp(SignUps(t, e, calls), e, calls[0].given)
  {
    SignUpInv(t, e, calls[0].given, calls[0].id);
    SignUpCompletes(t, e, calls[0].given, calls[0].id);
    var u := SignUpStep(t, e, calls[0].given, calls[0].id);
    SignedUpStaysForever(u, e, calls[1..]);
    EnterEffect(t, e, calls[0].given);
    OneAll(u, e);
  }

  // A call cut off after its first insertion and then any number of retries end in the state of
  // one call with the data of the first and the target of the first retry.
  lemma {:induction false} CutOffThenRetried(t: Tables, e: Bytes, first: Option<EntityInfo>, retries: seq<Call>)
    requires Inv(t) && e != [] && e !in t.entities
    requires retries != [] && retries[0].id !in t.targets
    ensures SignUps(Enter(t, e, first), e, retries) == SignUpStep(t, e, first, retries[0].id)
  {
    SignUpInv(t, e, first, retries[0].id);
    SignUpCompletes(t, e, first, retries[0].id);
    EnterEffect(t, e, first);
    EnterEffect(Enter(t, e, first), e, retries[0].given);
    SignedUpStaysForever(SignUpStep(t, e, first, retries[0].id), e, retries[1..]);
  }

  // Members without keys can be created exactly when the entity has the Token origin
  // and the ids are new and differ.
  lemma {:induction false} TokensNeedOrigin(t: Tables, e: Bytes, tokens: seq<Uuid>, now: int)
    requires Inv(t) && tokens != []
    ensures CreateMembersWithTokens(t, e, tokens, now).Some? <==>
            && NIL_UUID !in tokens && Distinct(tokens)
            && (forall id :: id in tokens ==> id !in t.members)
            && (e, Token) in t.origins
  {
    var rows := TokenRows(e, tokens, now);
    assert forall i :: 0 <= i < |rows| ==> rows[i] == MemberRow(tokens[i], MemberFrom(e, None, BLANK, now));
    InsertAllMeaning(t, rows);
    if Fits(t, rows) {
      assert RefsOk(t, rows[0]);
      forall i, j | 0 <= i < j < |tokens| ensures tokens[i] != tokens[j] { assert !Clash(rows[i], rows[j]); }
      forall i | 0 <= i < |tokens| ensures tokens[i] !in t.members { assert Free(t, rows[i]); }
    }
    if Distinct(tokens) && (forall id :: id in tokens ==> id !in t.members) && (e, Token) in t.origins {
      forall i | 0 <= i < |rows| ensures RefsOk(t, rows[i]) && Free(t, rows[i]) {
        assert tokens[i] in tokens;
      }
    }
  }
}
