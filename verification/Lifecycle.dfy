// The life of a token: requests as steps over the store, the binding of a key to a
// member, and what the status request tells about it.

module Lifecycle {
  import opened Basics
  import opened Schema
  import opened Store
  import opened Invariants
  import opened Claims
  import opened Pgsql
  import opened Tags
  import opened Tenancy

  const PENDING := "PendingValidation"

  // A missing key and an empty one read back as the same byte string.
  function KeyBytes(m: Member): Bytes {
    if m.key.Some? then m.key.value else []
  }

  // ---------- Requests ----------

  datatype Reply = Accepted | BadToken | UnknownEntity | UnknownToken | AlreadyRegistered | ReusedToken | Rejected

  ghost predicate HasPending(t: Tables, e: Bytes) {
    exists g :: g in t.tags && t.tags[g] == Tag(e, PENDING)
  }

  // Removes the pending tag from a member; a failure to do so is only logged.
  ghost function ClearPending(t: Tables, e: Bytes, id: Uuid): Tables {
    if e != [] && HasPending(t, e) then
      var g :| g in t.tags && t.tags[g] == Tag(e, PENDING);
      (match RemoveTagFromMembers(t, e, [id], g) case Some(u) => u case None => t)
    else t
  }

  // The answer to validateToken; token is None when it is empty or does not parse.
  function ValidateReply(t: Tables, e: Bytes, key: Bytes, token: Option<Uuid>, now: int): Reply {
    if token.None? then BadToken
    else if e !in t.entities then UnknownEntity
    else if !Owned(t, e, token.value) then UnknownToken
    else if KeyBytes(t.members[token.value]) == key then AlreadyRegistered
    else if KeyBytes(t.members[token.value]) != [] then ReusedToken
    else if RegisterMember(t, e, key, token.value, now).None? then Rejected
    else Accepted
  }

  ghost function Validate(t: Tables, e: Bytes, key: Bytes, token: Option<Uuid>, now: int): Tables {
    if ValidateReply(t, e, key, token, now).Accepted?
    then ClearPending(RegisterMember(t, e, key, token.value, now).value, e, token.value)
    else t
  }

  // RegisterMember is reached through validateToken only; the other steps are requests themselves.
  datatype Request =
    | ValidateRequest(entity: Bytes, key: Bytes, token: Option<Uuid>, now: int)
    | StoreRequest(op: Op)

  predicate Reachable(req: Request) {
    req.StoreRequest? ==> !req.op.RegisterMemberOp?
  }

  ghost function Handle(t: Tables, req: Request): Tables {
    match req
    case ValidateRequest(e, key, token, now) => Validate(t, e, key, token, now)
    case StoreRequest(op) => Apply(t, op)
  }

  ghost function HandleAll(t: Tables, reqs: seq<Request>): Tables
    decreases |reqs|
  {
    if reqs == [] then t else HandleAll(Handle(t, reqs[0]), reqs[1..])
  }

  lemma {:induction false} ClearPendingInv(t: Tables, e: Bytes, id: Uuid)
    requires Inv(t)
    ensures Inv(ClearPending(t, e, id))
    ensures TagsOnly(t, ClearPending(t, e, id))
  {
    if e != [] && HasPending(t, e) {
      var g :| g in t.tags && t.tags[g] == Tag(e, PENDING)
        && ClearPending(t, e, id) == match RemoveTagFromMembers(t, e, [id], g) case Some(u) => u case None => t;
      if RemoveTagFromMembers(t, e, [id], g).Some? {
        MapTagsInv(t, ToUntag(t, e, [id], g), tags => Without(tags, g));
      }
    }
  }

  lemma {:induction false} HandleInv(t: Tables, req: Request)
    requires Inv(t)
    ensures Inv(Handle(t, req))
  {
    match req
    case ValidateRequest(e, key, token, now) =>
      if ValidateReply(t, e, key, token, now).Accepted? {
        RegisterMemberInv(t, e, key, token.value, now);
        ClearPendingInv(RegisterMember(t, e, key, token.value, now).value, e, token.value);
      }
    case StoreRequest(op) => StepInv(t, op);
  }

  lemma {:induction false} HandleAllInv(t: Tables, reqs: seq<Request>)
    requires Inv(t)
    ensures Inv(HandleAll(t, reqs))
    decreases |reqs|
  {
    if reqs != [] {
      HandleInv(t, reqs[0]);
      HandleAllInv(Handle(t, reqs[0]), reqs[1..]);
    }
  }

  // ---------- Key binding ----------

  // Members that are still there keep their entity and, if they have one, their key.
  ghost predicate KeysKept(t: Tables, u: Tables) {
    forall a :: a in t.members && a in u.members ==>
      && u.members[a].entity == t.members[a].entity
      && (KeyBytes(t.members[a]) != [] ==> u.members[a].key == t.members[a].key)
  }

  predicate Inserts(op: Op) {
    op.AddMemberOp? || InsertsLists(op)
  }

  lemma {:induction false} InsertionKeepsMembers(t: Tables, op: Op)
    requires Inserts(op) && Try(t, op).Some?
    ensures t.members.Keys <= Try(t, op).value.members.Keys
    ensures forall a :: a in t.members ==> Try(t, op).value.members[a] == t.members[a]
  {
    if InsertsLists(op) {
      InsertionAdds(t, op);
    }
  }

  // No new members, and the old ones keep entity and key.
  ghost predicate OldKeys(t: Tables, u: Tables) {
    forall a :: a in u.members ==>
      a in t.members && u.members[a].key == t.members[a].key && u.members[a].entity == t.members[a].entity
  }

  lemma {:induction false} DeletionsKeepKeys(t: Tables, op: Op)
    requires Deleting(op) && Try(t, op).Some?
    ensures OldKeys(t, Try(t, op).value)
  {
  }

  lemma {:induction false} MapTagsKeepsKeys(t: Tables, ids: set<Uuid>, f: seq<int> -> seq<int>)
    ensures OldKeys(t, MapTags(t, ids, f))
  {
  }

  lemma {:induction false} TaggingKeepsKeys(t: Tables, op: Op)
    requires Tagging(op) && Try(t, op).Some?
    ensures OldKeys(t, Try(t, op).value)
  {
    match op
    case DeleteTagOp(e, tag) => MapTagsKeepsKeys(t, Tagged(t, e, tag), tags => Without(tags, tag));
    case AddTagToMembersOp(e, ids, tag) => MapTagsKeepsKeys(t, ToTag(t, e, ids, tag), tags => tags + [tag]);
    case RemoveTagFromMembersOp(e, ids, tag) => MapTagsKeepsKeys(t, ToUntag(t, e, ids, tag), tags => Without(tags, tag));
  }

  lemma {:induction false} ChangesKeepKeys(t: Tables, op: Op)
    requires Changing(op) && !op.RegisterMemberOp? && Try(t, op).Some?
    ensures OldKeys(t, Try(t, op).value)
  {
  }

  lemma {:induction false} OtherStepsKeepKeys(t: Tables, op: Op)
    requires !op.RegisterMemberOp? && (Inserts(op) ==> Try(t, op).None?)
    ensures OldKeys(t, Apply(t, op))
  {
    if Try(t, op).Some? {
      if Changing(op) {
        ChangesKeepKeys(t, op);
      } else if Deleting(op) {
        DeletionsKeepKeys(t, op);
      } else if Tagging(op) {
        TaggingKeepsKeys(t, op);
      }
    }
  }

  lemma {:induction false} StepKeepsKeys(t: Tables, op: Op)
    requires !op.RegisterMemberOp?
    ensures KeysKept(t, Apply(t, op))
  {
    if Try(t, op).Some? && Inserts(op) {
      InsertionKeepsMembers(t, op);
    } else {
      OtherStepsKeepKeys(t, op);
    }
  }

  lemma {:induction false} RegisterShape(t: Tables, e: Bytes, key: Bytes, id: Uuid, now: int)
    requires Inv(t) && RegisterMember(t, e, key, id, now).Some?
    ensures var u := RegisterMember(t, e, key, id, now).value;
            && Owned(t, e, id) && u == t.(users := u.users, members := u.members)
            && u.members == t.members[id := t.members[id].(key := Some(key), verified := now, updatedAt := now)]
  {
    EnsureUserInv(t, key);
  }

  // A successful validation gives the member the key; other members change in tags at most.
  lemma {:induction false} ValidateShape(t: Tables, e: Bytes, key: Bytes, id: Uuid, now: int)
    requires Inv(t) && ValidateReply(t, e, key, Some(id), now).Accepted?
    ensures var u := Validate(t, e, key, Some(id), now);
            && Inv(u) && u.entities == t.entities
            && u.members.Keys == t.members.Keys && id in t.members
            && u.members[id].key == Some(key) && u.members[id].entity == e
            && forall a :: a in t.members && a != id ==> u.members[a] == t.members[a].(tags := u.members[a].tags)
  {
    var t1 := RegisterMember(t, e, key, id, now).value;
    RegisterShape(t, e, key, id, now);
    RegisterMemberInv(t, e, key, id, now);
    ClearPendingInv(t1, e, id);
  }

  lemma {:induction false} HandleKeepsKeys(t: Tables, req: Request)
    requires Inv(t) && Reachable(req)
    ensures KeysKept(t, Handle(t, req))
  {
    match req
    case ValidateRequest(e, key, token, now) =>
      if ValidateReply(t, e, key, token, now).Accepted? {
        ValidateShape(t, e, key, token.value, now);
      }
    case StoreRequest(op) => StepKeepsKeys(t, op);
  }

  // The member exists before, between and after all requests of the run.
  ghost predicate Persists(t: Tables, reqs: seq<Request>, a: Uuid)
    decreases |reqs|
  {
    a in t.members && (reqs != [] ==> Persists(Handle(t, reqs[0]), reqs[1..], a))
  }

  // Over any run of requests a member's non-empty key is never changed or cleared until the
  // member is deleted, and no key is held by two members of one entity.
  lemma {:induction false} KeyNeverChanges(t: Tables, reqs: seq<Request>, a: Uuid)
    requires Inv(t) && Persists(t, reqs, a) && KeyBytes(t.members[a]) != []
    requires forall i :: 0 <= i < |reqs| ==> Reachable(reqs[i])
    ensures var u := HandleAll(t, reqs);
            && a in u.members && u.members[a].key == t.members[a].key && u.members[a].entity == t.members[a].entity
            && forall b :: b in u.members && b != a && u.members[b].entity == u.members[a].entity ==>
                 u.members[b].key != u.members[a].key
    decreases |reqs|
  {
    if reqs == [] {
      forall b | b in t.members && b != a && t.members[b].entity == t.members[a].entity
        ensures t.members[b].key != t.members[a].key
      {
        assert !Collide(t.members[b], t.members[a]);
      }
    } else {
      HandleInv(t, reqs[0]);
      HandleKeepsKeys(t, reqs[0]);
      assert Persists(Handle(t, reqs[0]), reqs[1..], a);
      assert forall i :: 0 <= i < |reqs[1..]| ==> reqs[1..][i] == reqs[i + 1];
      assert a in Handle(t, reqs[0]).members;
      KeyNeverChanges(Handle(t, reqs[0]), reqs[1..], a);
    }
  }

  // ---------- Status ----------

  datatype Status = Invalid | Available | Registered

  function TokenStatus(t: Tables, e: Bytes, id: Uuid): Status {
    if !Owned(t, e, id) then Invalid
    else if |KeyBytes(t.members[id])| != PUB_KEY_LENGTH then Available
    else Registered
  }

  lemma {:induction false} KeylessRows(t: Tables, rows: seq<Row>)
    requires InsertAll(t, rows).Some?
    requires forall i :: 0 <= i < |rows| ==> rows[i].OriginRow? || (rows[i].MemberRow? && rows[i].member.key == None)
    ensures forall a :: a in InsertAll(t, rows).value.members && a !in t.members ==>
              InsertAll(t, rows).value.members[a].key == None
    decreases |rows|
  {
    if rows != [] {
      var t1 := InsertRow(t, rows[0]).value;
      assert forall i :: 0 <= i < |rows[1..]| ==> rows[1..][i] == rows[i + 1];
      KeylessRows(t1, rows[1..]);
      InsertFrame(t1, rows[1..]);
    }
  }

  lemma {:induction false} KeylessInsertion(t: Tables, op: Op)
    requires Try(t, op).Some? && (op.CreateMembersWithTokensOp? || op.ImportMembersOp? || op.AddEntityOp?)
    ensures forall a :: a in Try(t, op).value.members && a !in t.members ==> Try(t, op).value.members[a].key == None
  {
    match op
    case AddEntityOp(e, info) =>
      KeylessRows(Put(t, EntityRow(e, EntityFrom(info, info.managers.value))), OriginRows(e, info.origins));
    case CreateMembersWithTokensOp(e, tokens, now) =>
      var rows := TokenRows(e, tokens, now);
      assert forall i :: 0 <= i < |rows| ==> rows[i] == MemberRow(tokens[i], MemberFrom(e, None, BLANK, now));
      KeylessRows(t, rows);
    case ImportMembersOp(e, infos, gen, now) =>
      var rows := ImportRows(e, infos, gen, now);
      assert forall i :: 0 <= i < |rows| ==> rows[i] == MemberRow(gen(i), MemberFrom(e, None, infos[i], now));
      KeylessRows(t, rows);
  }

  lemma {:induction false} StoreStepStatus(t: Tables, op: Op, e: Bytes, id: Uuid)
    requires !op.RegisterMemberOp?
    ensures var u := Apply(t, op);
            && (TokenStatus(t, e, id).Available? ==> !TokenStatus(u, e, id).Registered?)
            && (TokenStatus(t, e, id).Invalid? && TokenStatus(u, e, id).Registered? ==> op.AddMemberOp? || op.AddMemberBulkOp?)
  {
    if Try(t, op).Some? && Inserts(op) {
      InsertionKeepsMembers(t, op);
      if op.CreateMembersWithTokensOp? || op.ImportMembersOp? || op.AddEntityOp? {
        KeylessInsertion(t, op);
      }
    } else {
      OtherStepsKeepKeys(t, op);
    }
  }

  lemma {:induction false} ValidateStatus(t: Tables, f: Bytes, key: Bytes, token: Option<Uuid>, now: int, e: Bytes, id: Uuid)
    requires Inv(t)
    ensures var u := Validate(t, f, key, token, now);
            && (TokenStatus(t, e, id).Invalid? <==> TokenStatus(u, e, id).Invalid?)
            && (TokenStatus(t, e, id).Available? && TokenStatus(u, e, id).Registered? ==>
                  f == e && token == Some(id) && u.members[id].key == Some(key))
  {
    if ValidateReply(t, f, key, token, now).Accepted? {
      ValidateShape(t, f, key, token.value, now);
    }
  }

  // A registered token never becomes available again; it stays registered with the same key or becomes invalid.
  // A token made without a key starts as available.
  lemma {:induction false} StatusMoves(t: Tables, req: Request, e: Bytes, id: Uuid)
    requires Inv(t) && Reachable(req)
    ensures var u := Handle(t, req);
            && (TokenStatus(t, e, id).Registered? ==>
                  TokenStatus(u, e, id).Invalid? ||
                  (TokenStatus(u, e, id).Registered? && u.members[id].key == t.members[id].key))
            && (TokenStatus(t, e, id).Available? && TokenStatus(u, e, id).Registered? ==>
                  req.ValidateRequest? && req.entity == e && req.token == Some(id) && u.members[id].key == Some(req.key))
            && (TokenStatus(t, e, id).Invalid? && TokenStatus(u, e, id).Registered? ==>
                  req.StoreRequest? && (req.op.AddMemberOp? || req.op.AddMemberBulkOp?))
  {
    HandleKeepsKeys(t, req);
    match req
    case ValidateRequest(f, key, token, now) => ValidateStatus(t, f, key, token, now, e, id);
    case StoreRequest(op) => StoreStepStatus(t, op, e, id);
  }

  function Rank(s: Status): int {
    match s case Available => 0 case Registered => 1 case Invalid => 2
  }

  // No request brings a deleted id back: generated ids are never reused.
  ghost predicate NeverReused(t: Tables, reqs: seq<Request>, id: Uuid)
    decreases |reqs|
  {
    reqs != [] ==>
      (id in Handle(t, reqs[0]).members ==> id in t.members) && NeverReused(Handle(t, reqs[0]), reqs[1..], id)
  }

  // Over any run from a state in which the token exists, its status only moves along
  // available, registered, invalid.
  lemma {:induction false} StatusOnlyMovesForward(t: Tables, reqs: seq<Request>, e: Bytes, id: Uuid)
    requires Inv(t) && NeverReused(t, reqs, id)
    requires forall i :: 0 <= i < |reqs| ==> Reachable(reqs[i])
    ensures Rank(TokenStatus(t, e, id)) <= Rank(TokenStatus(HandleAll(t, reqs), e, id))
    decreases |reqs|
  {
    if reqs != [] {
      var t1 := Handle(t, reqs[0]);
      HandleInv(t, reqs[0]);
      HandleKeepsKeys(t, reqs[0]);
      StatusMoves(t, reqs[0], e, id);
      assert forall i :: 0 <= i < |reqs[1..]| ==> reqs[1..][i] == reqs[i + 1];
      StatusOnlyMovesForward(t1, reqs[1..], e, id);
    }
  }

  // Generated tokens are available.
  lemma {:induction false} GeneratedTokensAvailable(t: Tables, e: Bytes, tokens: seq<Uuid>, now: int)
    requires Inv(t) && CreateMembersWithTokens(t, e, tokens, now).Some?
    ensures forall id :: id in tokens ==>
              TokenStatus(t, e, id).Invalid? && TokenStatus(CreateMembersWithTokens(t, e, tokens, now).value, e, id).Available?
  {
    var rows, u := TokenRows(e, tokens, now), CreateMembersWithTokens(t, e, tokens, now).value;
    InsertAllMeaning(t, rows);
    forall id | id in tokens ensures TokenStatus(t, e, id).Invalid? && TokenStatus(u, e, id).Available? {
      var i :| 0 <= i < |tokens| && tokens[i] == id;
      assert rows[i] == MemberRow(id, MemberFrom(e, None, BLANK, now));
      assert Free(t, rows[i]);
      assert rows[i] in rows && Has(u, rows[i]);
    }
  }

  // ---------- validateToken ----------

  predicate RefusesKey(r: Reply) {
    r.AlreadyRegistered? || r.ReusedToken?
  }

  // The keys that status and validateToken read in the same way: none, and one of valid length.
  predicate KeyFits(key: Bytes) {
    key == [] || ValidPubKey(key)
  }

  // `registered` is answered exactly when validateToken refuses the token for its key, if and only if the
  // member's key is of valid length or there is no key at all on the member but one on the request (the
  // key that signed a request is never empty). A stored key of another length is answered as available and refused.
  lemma {:induction false} StatusTellsRefusal(t: Tables, e: Bytes, id: Uuid, key: Bytes, now: int)
    requires Inv(t) && Owned(t, e, id)
    ensures (TokenStatus(t, e, id).Registered? <==> RefusesKey(ValidateReply(t, e, key, Some(id), now))) <==>
            KeyFits(KeyBytes(t.members[id])) && (KeyBytes(t.members[id]) == [] ==> key != [])
    ensures !KeyFits(KeyBytes(t.members[id])) ==>
              TokenStatus(t, e, id).Available? && RefusesKey(ValidateReply(t, e, key, Some(id), now))
  {
    assert MemberRefs(t, t.members[id]);
  }

  // Status and validateToken agree on every token and every signing key.
  ghost predicate Agree(t: Tables) {
    forall e, id, key, now: int :: Owned(t, e, id) && key != [] ==>
      (TokenStatus(t, e, id).Registered? <==> RefusesKey(ValidateReply(t, e, key, Some(id), now)))
  }

  ghost predicate AllKeysFit(t: Tables) {
    forall a :: a in t.members ==> KeyFits(KeyBytes(t.members[a]))
  }

  lemma {:induction false} AgreeIffKeysFit(t: Tables)
    requires Inv(t)
    ensures Agree(t) <==> AllKeysFit(t)
  {
    if Agree(t) {
      forall a | a in t.members ensures KeyFits(KeyBytes(t.members[a])) {
        var e, key, now: int := t.members[a].entity, [1], 0;
        assert Owned(t, e, a);
        StatusTellsRefusal(t, e, a, key, now);
        assert TokenStatus(t, e, a).Registered? <==> RefusesKey(ValidateReply(t, e, key, Some(a), now));
      }
    }
    if AllKeysFit(t) {
      forall e, id, key, now: int | Owned(t, e, id) && key != []
        ensures TokenStatus(t, e, id).Registered? <==> RefusesKey(ValidateReply(t, e, key, Some(id), now))
      {
        StatusTellsRefusal(t, e, id, key, now);
      }
    }
  }

  // The keys that a request itself brings into the tables: that of register, and those of a bulk import.
  predicate BringsFitting(req: Request) {
    req.StoreRequest? ==>
      && (req.op.AddMemberOp? && req.op.memberKey.Some? ==> KeyFits(req.op.memberKey.value))
      && (req.op.AddMemberBulkOp? ==> forall i :: 0 <= i < |req.op.members| ==> KeyFits(req.op.members[i].key))
  }

  predicate Fails(t: Tables, req: Request) {
    req.StoreRequest? && Try(t, req.op).None?
  }

  lemma {:induction false} AddMemberKeysFit(t: Tables, e: Bytes, key: Option<Bytes>, info: MemberInfo, id: Uuid, now: int)
    requires Inv(t) && AllKeysFit(t) && AddMember(t, e, key, info, id, now).Some?
    ensures AllKeysFit(AddMember(t, e, key, info, id, now).value) <==> KeyFits(key.value)
  {
    var u := AddMember(t, e, key, info, id, now).value;
    EnsureUserInv(t, key.value);
    assert u.members == t.members[id := MemberFrom(e, key, info, now)];
    assert KeyBytes(u.members[id]) == key.value;
  }

  lemma {:induction false} BulkKeysFit(t: Tables, e: Bytes, members: seq<NewMember>, gen: nat -> Uuid, now: int)
    requires Inv(t) && AllKeysFit(t) && AddMemberBulk(t, e, members, gen, now).Some?
    ensures AllKeysFit(AddMemberBulk(t, e, members, gen, now).value) <==>
            forall i :: 0 <= i < |members| ==> KeyFits(members[i].key)
  {
    var u := AddMemberBulk(t, e, members, gen, now).value;
    BulkStored(t, e, members, gen, now);
    EachImported(t, e, members, gen, now);
    if AllKeysFit(u) {
      forall i | 0 <= i < |members| ensures KeyFits(members[i].key) {
        assert KeyBytes(u.members[gen(i)]) == members[i].key;
      }
    }
    if forall i :: 0 <= i < |members| ==> KeyFits(members[i].key) {
      forall a | a in u.members ensures KeyFits(KeyBytes(u.members[a])) {
        if a !in t.members {
          var i :| 0 <= i < |members| && KeyList(members)[i] == u.members[a].key.value;
          assert KeyFits(members[i].key);
        }
      }
    }
  }

  lemma {:induction false} StoreStepKeysFit(t: Tables, op: Op)
    requires Inv(t) && AllKeysFit(t) && !op.RegisterMemberOp?
    ensures AllKeysFit(Apply(t, op)) <==> Try(t, op).None? || BringsFitting(StoreRequest(op))
  {
    if Try(t, op).None? || !Inserts(op) {
      OtherStepsKeepKeys(t, op);
    } else if op.AddMemberOp? {
      AddMemberKeysFit(t, op.entity, op.memberKey, op.info, op.id, op.now);
    } else if op.AddMemberBulkOp? {
      BulkKeysFit(t, op.entity, op.members, op.gen, op.now);
    } else {
      InsertionKeepsMembers(t, op);
      KeylessInsertion(t, op);
    }
  }

  lemma {:induction false} HandleKeysFit(t: Tables, req: Request)
    requires Inv(t) && AllKeysFit(t) && Reachable(req)
    ensures AllKeysFit(Handle(t, req)) <==> Fails(t, req) || BringsFitting(req)
  {
    match req
    case ValidateRequest(e, key, token, now) =>
      if ValidateReply(t, e, key, token, now).Accepted? {
        ValidateShape(t, e, key, token.value, now);
      }
    case StoreRequest(op) => StoreStepKeysFit(t, op);
  }

  // From a state in which status and validateToken agree, they agree after a request exactly when
  // the request fails or every key that it brings is empty or of valid length.
  lemma {:induction false} AgreementKept(t: Tables, req: Request)
    requires Inv(t) && Agree(t) && Reachable(req)
    ensures Agree(Handle(t, req)) <==> Fails(t, req) || BringsFitting(req)
  {
    AgreeIffKeysFit(t);
    HandleInv(t, req);
    HandleKeysFit(t, req);
    AgreeIffKeysFit(Handle(t, req));
  }

  // Over every run of requests whose keys are empty or of valid length, `registered` is answered
  // exactly when validateToken refuses the token for its key.
  lemma {:induction false} AlwaysAgree(t: Tables, reqs: seq<Request>)
    requires Inv(t) && Agree(t)
    requires forall i :: 0 <= i < |reqs| ==> Reachable(reqs[i]) && BringsFitting(reqs[i])
    ensures Agree(HandleAll(t, reqs))
    decreases |reqs|
  {
    if reqs != [] {
      HandleInv(t, reqs[0]);
      AgreementKept(t, reqs[0]);
      assert forall i :: 0 <= i < |reqs[1..]| ==> reqs[1..][i] == reqs[i + 1];
      AlwaysAgree(Handle(t, reqs[0]), reqs[1..]);
    }
  }

  // Adding an entity and importing a key of one byte for it.
  const SHORT_KEY: seq<NewMember> := [NewMember([], [2], BLANK)]

  const SHORT_KEY_RUN: seq<Request> := [
    StoreRequest(AddEntityOp([1], SomeInfo([1]))),
    StoreRequest(AddMemberBulkOp([1], SHORT_KEY, _ => 7, 0))]

  lemma {:induction false} ShortKeyImported(gen: nat -> Uuid)
    requires gen(0) == 7
    ensures AddMemberBulk(WithEntity(EMPTY, [1]), [1], SHORT_KEY, gen, 0) ==
            Some(WithEntity(EMPTY, [1]).(users := map[[2] := [2]], members := map[7 := MemberFrom([1], Some([2]), BLANK, 0)]))
  {
    var t := WithEntity(EMPTY, [1]);
    assert t.entities.Keys == {[1]} && t.origins == {([1], Token)};
    var users, rows := UserRows(SHORT_KEY), BulkRows([1], SHORT_KEY, gen, 0);
    assert users == [UserRow([2], [2])];
    InsertOne(t, users[0]);
    var t1 := t.(users := map[[2] := [2]]);
    assert InsertAll(t, users) == Some(t1);
    assert rows == [MemberRow(7, MemberFrom([1], Some([2]), BLANK, 0))];
    InsertOne(t1, rows[0]);
  }

  lemma {:induction false} ShortKeyRun()
    ensures var u := HandleAll(EMPTY, SHORT_KEY_RUN); Owned(u, [1], 7) && u.members[7].key == Some([2])
  {
    var reqs := SHORT_KEY_RUN;
    var t := WithEntity(EMPTY, [1]);
    NewEntity(EMPTY, [1]);
    ShortKeyImported(reqs[1].op.gen);
    assert reqs[1..][1..] == [];
    assert Handle(EMPTY, reqs[0]) == t;
    assert HandleAll(EMPTY, reqs) == HandleAll(t, reqs[1..]) == Handle(t, reqs[1]);
  }

  // It leaves a token that is answered as available and that validateToken refuses for every key.
  lemma {:induction false} ShortKeyDisagrees(key: Bytes, now: int)
    ensures var u := HandleAll(EMPTY, SHORT_KEY_RUN);
            && TokenStatus(u, [1], 7).Available?
            && RefusesKey(ValidateReply(u, [1], key, Some(7), now))
            && !Agree(u)
  {
    ShortKeyRun();
    var u := HandleAll(EMPTY, SHORT_KEY_RUN);
    HandleAllInv(EMPTY, SHORT_KEY_RUN);
    StatusTellsRefusal(u, [1], 7, key, now);
    AgreeIffKeysFit(u);
  }

  // validateToken succeeds exactly for an unused token of an existing entity and a valid key
  // that nobody in the entity has.
  lemma {:induction false} AcceptedIff(t: Tables, e: Bytes, key: Bytes, token: Option<Uuid>, now: int)
    requires Inv(t)
    ensures ValidateReply(t, e, key, token, now).Accepted? <==>
            && token.Some? && Owned(t, e, token.value) && KeyBytes(t.members[token.value]) == []
            && ValidPubKey(key) && !KeyInUse(t, e, key)
  {
    if token.Some? && Owned(t, e, token.value) && ValidPubKey(key) {
      var id := token.value;
      assert MemberRefs(t, t.members[id]);
      EnsureUserInv(t, key);
      var t1 := EnsureUser(t, key).value;
      var m := t.members[id].(key := Some(key), verified := now, updatedAt := now);
      if KeyBytes(t.members[id]) == [] {
        assert t1.members == t.members;
        if !KeyInUse(t, e, key) {
          forall a | a in t1.members && a != id ensures !Collide(t1.members[a], m) {
            assert !Collide(t.members[a], t.members[id]);
          }
        } else {
          var a :| Owned(t, e, a) && t.members[a].key == Some(key);
          assert Collide(t1.members[a], m);
        }
      }
    }
  }

  // After success: the token is registered, the key is reported as registered, the same key is
  // answered as a duplicate and every other key is refused.
  lemma {:induction false} ValidateBinds(t: Tables, e: Bytes, key: Bytes, id: Uuid, now: int, other: Bytes, later: int)
    requires Inv(t) && ValidateReply(t, e, key, Some(id), now).Accepted?
    ensures var u := Validate(t, e, key, Some(id), now);
            && TokenStatus(u, e, id).Registered?
            && KeyInUse(u, e, key)
            && ValidateReply(u, e, other, Some(id), later) == (if other == key then AlreadyRegistered else ReusedToken)
            && Validate(u, e, other, Some(id), later) == u
  {
    ValidateShape(t, e, key, id, now);
    assert MemberRefs(t, t.members[id]);
    assert Owned(Validate(t, e, key, Some(id), now), e, id);
  }

  lemma {:induction false} UntagOne(t: Tables, e: Bytes, id: Uuid, g: int)
    requires Inv(t) && Owned(t, e, id) && TagOf(t, e, g)
    ensures var u := RemoveTagFromMembers(t, e, [id], g).value;
            u.members.Keys == t.members.Keys && u.members[id].tags == Without(t.members[id].tags, g)
  {
    if g !in t.members[id].tags {
      WithoutAbsent(t.members[id].tags, g);
    }
  }

  // The pending tag of an entity is unique, so that whichever is found is the one.
  lemma {:induction false} ClearPendingIs(t: Tables, e: Bytes, id: Uuid, g: int)
    requires Inv(t) && e != [] && g in t.tags && t.tags[g] == Tag(e, PENDING)
    ensures RemoveTagFromMembers(t, e, [id], g) == Some(ClearPending(t, e, id))
  {
    assert HasPending(t, e) && TagOf(t, e, g);
    forall h | h in t.tags && t.tags[h] == Tag(e, PENDING) ensures h == g {
      assert t.tags[h] == t.tags[g];
    }
  }

  // The pending tag is off the member after a successful validation; its other tags stay.
  lemma {:induction false} PendingCleared(t: Tables, e: Bytes, key: Bytes, id: Uuid, now: int, g: int)
    requires Inv(t) && ValidateReply(t, e, key, Some(id), now).Accepted? && e != []
    ensures var u := Validate(t, e, key, Some(id), now);
            && id in u.members
            && (g in u.members[id].tags <==>
                  g in t.members[id].tags && !(g in t.tags && t.tags[g] == Tag(e, PENDING)))
  {
    var t1 := RegisterMember(t, e, key, id, now).value;
    RegisterShape(t, e, key, id, now);
    RegisterMemberInv(t, e, key, id, now);
    if h :| h in t1.tags && t1.tags[h] == Tag(e, PENDING) {
      ClearPendingIs(t1, e, id, h);
      WithoutElements(t1.members[id].tags, h);
      UntagOne(t1, e, id, h);
      assert g in t1.tags && t1.tags[g] == Tag(e, PENDING) ==> t1.tags[g] == t1.tags[h];
    }
  }

  // ---------- register ----------

  ghost predicate EmailInUse(t: Tables, e: Bytes, email: string) {
    exists a :: Owned(t, e, a) && t.members[a].email == Some(email)
  }

  // A new row of an entity collides exactly on a key or an email that is in use there.
  lemma {:induction false} CollideMeans(t: Tables, m: Member)
    ensures (exists a :: a in t.members && Collide(t.members[a], m)) <==>
            || (m.key.Some? && KeyInUse(t, m.entity, m.key.value))
            || (m.email.Some? && EmailInUse(t, m.entity, m.email.value))
  {
    if a :| a in t.members && Collide(t.members[a], m) {
      assert Owned(t, m.entity, a);
    }
    if m.key.Some? && KeyInUse(t, m.entity, m.key.value) {
      var a :| Owned(t, m.entity, a) && t.members[a].key == Some(m.key.value);
      assert Collide(t.members[a], m);
    }
    if m.email.Some? && EmailInUse(t, m.entity, m.email.value) {
      var a :| Owned(t, m.entity, a) && t.members[a].email == Some(m.email.value);
      assert Collide(t.members[a], m);
    }
  }

  // A member can be added exactly when the entity has the Token origin, the id is new, and
  // neither the key nor the email, if there is one, is taken within the entity.
  lemma {:induction false} AddMemberIff(t: Tables, e: Bytes, key: Option<Bytes>, info: MemberInfo, id: Uuid, now: int)
    requires Inv(t)
    ensures AddMember(t, e, key, info, id, now).Some? <==>
            && key.Some? && (e, Token) in t.origins && id !in t.members
            && !KeyInUse(t, e, key.value)
            && (info.email != "" ==> !EmailInUse(t, e, info.email))
  {
    if key.Some? {
      EnsureUserInv(t, key.value);
      CollideMeans(t, MemberFrom(e, key, info, now));
    }
  }

  // A list of members fits: no key has a user yet, and neither keys nor ids nor emails repeat or are taken.
  ghost predicate ListFits(t: Tables, e: Bytes, members: seq<NewMember>, gen: nat -> Uuid) {
    && (forall i :: 0 <= i < |members| ==> members[i].key !in t.users && gen(i) !in t.members)
    && (forall i :: 0 <= i < |members| && members[i].info.email != "" ==> !EmailInUse(t, e, members[i].info.email))
    && (forall i, j :: 0 <= i < j < |members| ==>
          && members[i].key != members[j].key && gen(i) != gen(j)
          && (members[i].info.email != "" ==> members[i].info.email != members[j].info.email))
  }

  lemma {:induction false} UsersFit(t: Tables, members: seq<NewMember>)
    requires UsersSelf(t)
    ensures Fits(t, UserRows(members)) <==>
            && (forall i :: 0 <= i < |members| ==> members[i].key !in t.users)
            && (forall i, j :: 0 <= i < j < |members| ==> members[i].key != members[j].key)
  {
    var rows := UserRows(members);
    assert forall i :: 0 <= i < |rows| ==> rows[i] == UserRow(members[i].key, members[i].key);
    if Fits(t, rows) {
      forall i | 0 <= i < |members| ensures members[i].key !in t.users { assert Free(t, rows[i]); }
      forall i, j | 0 <= i < j < |members| ensures members[i].key != members[j].key { assert !Clash(rows[i], rows[j]); }
    }
  }

  // One row of the second insertion, after all users are there.
  lemma {:induction false} BulkRowFree(t: Tables, u: Tables, e: Bytes, m: NewMember, id: Uuid, now: int)
    requires Inv(t) && u == t.(users := u.users) && m.key in u.users && m.key !in t.users
    ensures var r := MemberRow(id, MemberFrom(e, Some(m.key), m.info, now));
            RefsOk(u, r) && Free(u, r) <==>
            (e, Token) in t.origins && id !in t.members && (m.info.email != "" ==> !EmailInUse(t, e, m.info.email))
  {
    CollideMeans(t, MemberFrom(e, Some(m.key), m.info, now));
    forall a | Owned(t, e, a) ensures t.members[a].key != Some(m.key) {
      assert MemberRefs(t, t.members[a]);
    }
  }

  lemma {:induction false} MembersFit(t: Tables, u: Tables, e: Bytes, members: seq<NewMember>, gen: nat -> Uuid, now: int)
    requires Inv(t) && u == t.(users := u.users) && members != []
    requires forall i :: 0 <= i < |members| ==> members[i].key in u.users && members[i].key !in t.users
    requires forall i, j :: 0 <= i < j < |members| ==> members[i].key != members[j].key
    ensures Fits(u, BulkRows(e, members, gen, now)) <==> (e, Token) in t.origins && ListFits(t, e, members, gen)
  {
    var rows := BulkRows(e, members, gen, now);
    forall i | 0 <= i < |rows|
      ensures rows[i] == MemberRow(gen(i), MemberFrom(e, Some(members[i].key), members[i].info, now))
      ensures RefsOk(u, rows[i]) && Free(u, rows[i]) <==>
              && (e, Token) in t.origins && gen(i) !in t.members
              && (members[i].info.email != "" ==> !EmailInUse(t, e, members[i].info.email))
    {
      BulkRowFree(t, u, e, members[i], gen(i), now);
    }
    if Fits(u, rows) {
      assert RefsOk(u, rows[0]);
      forall i, j | 0 <= i < j < |members|
        ensures gen(i) != gen(j) && (members[i].info.email != "" ==> members[i].info.email != members[j].info.email)
      {
        assert !Clash(rows[i], rows[j]);
      }
    }
  }

  lemma {:induction false} AfterUsers(t: Tables, e: Bytes, members: seq<NewMember>, gen: nat -> Uuid, now: int)
    requires Inv(t) && members != [] && InsertAll(t, UserRows(members)).Some?
    ensures InsertAll(InsertAll(t, UserRows(members)).value, BulkRows(e, members, gen, now)).Some? <==>
            (e, Token) in t.origins && ListFits(t, e, members, gen)
  {
    var users, rows := UserRows(members), BulkRows(e, members, gen, now);
    var t1 := InsertAll(t, users).value;
    InsertAllMeaning(t, users);
    UsersFit(t, members);
    UsersOnly(t, users);
    forall i | 0 <= i < |members| ensures members[i].key in t1.users {
      assert users[i] in users && Has(t1, users[i]);
    }
    InsertAllMeaning(t1, rows);
    MembersFit(t, t1, e, members, gen, now);
  }

  // A bulk import succeeds exactly when the list is not empty, every entry has a key and names no other
  // entity, the entity has the Token origin, and the list fits.
  lemma {:induction false} BulkIff(t: Tables, e: Bytes, members: seq<NewMember>, gen: nat -> Uuid, now: int)
    requires Inv(t)
    ensures AddMemberBulk(t, e, members, gen, now).Some? <==>
            && members != []
            && (forall i :: 0 <= i < |members| ==> members[i].key != [] && (members[i].entity == [] || members[i].entity == e))
            && (e, Token) in t.origins && ListFits(t, e, members, gen)
  {
    var users := UserRows(members);
    InsertAllMeaning(t, users);
    UsersFit(t, members);
    if members != [] && InsertAll(t, users).Some? {
      AfterUsers(t, e, members, gen, now);
    }
  }

  // After registering, the key is reported as registered and the member's token cannot be validated.
  lemma {:induction false} RegisterBinds(t: Tables, e: Bytes, key: Bytes, info: MemberInfo, id: Uuid, now: int, other: Bytes, later: int)
    requires Inv(t) && AddMember(t, e, Some(key), info, id, now).Some? && key != []
    ensures var u := AddMember(t, e, Some(key), info, id, now).value;
            && KeyInUse(u, e, key)
            && (TokenStatus(u, e, id).Registered? <==> ValidPubKey(key))
            && RefusesKey(ValidateReply(u, e, other, Some(id), later))
  {
    EnsureUserInv(t, key);
    var u := AddMember(t, e, Some(key), info, id, now).value;
    assert Owned(u, e, id) && u.members[id].key == Some(key);
  }
}
