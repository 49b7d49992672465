// Runs of requests are runs of write steps, so that what holds over all runs of steps holds over
// all runs of requests, with validateToken and its removal of the pending tag among them.

module Requests {
  import opened Basics
  import opened Schema
  import opened Store
  import opened Invariants
  import opened Expansion
  import opened Tenancy
  import opened Tags
  import opened Lifecycle

  // ---------- The steps of a request ----------

  // The removal of the pending tag, if the entity has one.
  ghost function Untagging(t: Tables, e: Bytes, id: Uuid): seq<Op> {
    if e != [] && HasPending(t, e) then
      var g :| g in t.tags && t.tags[g] == Tag(e, PENDING);
      [RemoveTagFromMembersOp(e, [id], g)]
    else []
  }

  ghost function StepsOf(t: Tables, req: Request): seq<Op> {
    match req
    case StoreRequest(op) => [op]
    case ValidateRequest(e, key, token, now) =>
      if !ValidateReply(t, e, key, token, now).Accepted? then []
      else [RegisterMemberOp(e, key, token.value, now)] + Untagging(t, e, token.value)
  }

  ghost function AllSteps(t: Tables, reqs: seq<Request>): seq<Op>
    decreases |reqs|
  {
    if reqs == [] then [] else StepsOf(t, reqs[0]) + AllSteps(Handle(t, reqs[0]), reqs[1..])
  }

  lemma {:induction false} RunAppend(t: Tables, a: seq<Op>, b: seq<Op>)
    ensures Run(t, a + b) == Run(Run(t, a), b)
    decreases |a|
  {
    if a == [] {
      assert a + b == b;
    } else {
      assert (a + b)[1..] == a[1..] + b;
      RunAppend(Apply(t, a[0]), a[1..], b);
    }
  }

  lemma {:induction false} RunSingle(t: Tables, op: Op)
    ensures Run(t, [op]) == Apply(t, op)
  {
    assert [op][1..] == [];
  }

  lemma {:induction false} UntaggingRuns(t: Tables, u: Tables, e: Bytes, id: Uuid)
    requires Inv(u) && u.tags == t.tags
    ensures Run(u, Untagging(t, e, id)) == ClearPending(u, e, id)
  {
    if e != [] && HasPending(t, e) {
      var op := Untagging(t, e, id)[0];
      assert HasPending(u, e);
      ClearPendingIs(u, e, id, op.tag);
      RunSingle(u, op);
    }
  }

  lemma {:induction false} ValidateIsRun(t: Tables, e: Bytes, key: Bytes, id: Uuid, now: int)
    requires Inv(t) && ValidateReply(t, e, key, Some(id), now).Accepted?
    ensures Validate(t, e, key, Some(id), now) == Run(t, [RegisterMemberOp(e, key, id, now)] + Untagging(t, e, id))
  {
    var op, t1 := RegisterMemberOp(e, key, id, now), RegisterMember(t, e, key, id, now).value;
    RegisterShape(t, e, key, id, now);
    RegisterMemberInv(t, e, key, id, now);
    RunSingle(t, op);
    RunAppend(t, [op], Untagging(t, e, id));
    UntaggingRuns(t, t1, e, id);
  }

  lemma {:induction false} HandleIsRun(t: Tables, req: Request)
    requires Inv(t)
    ensures Handle(t, req) == Run(t, StepsOf(t, req))
  {
    match req
    case StoreRequest(op) => RunSingle(t, op);
    case ValidateRequest(e, key, token, now) =>
      if ValidateReply(t, e, key, token, now).Accepted? {
        ValidateIsRun(t, e, key, token.value, now);
      }
  }

  // Any run of requests is the run of its write steps.
  lemma {:induction false} RequestsAreRuns(t: Tables, reqs: seq<Request>)
    requires Inv(t)
    ensures HandleAll(t, reqs) == Run(t, AllSteps(t, reqs))
    decreases |reqs|
  {
    if reqs != [] {
      HandleIsRun(t, reqs[0]);
      HandleInv(t, reqs[0]);
      RequestsAreRuns(Handle(t, reqs[0]), reqs[1..]);
      RunAppend(t, StepsOf(t, reqs[0]), AllSteps(Handle(t, reqs[0]), reqs[1..]));
    }
  }

  // ---------- Other entities ----------

  function EntityOf(req: Request): Bytes {
    match req case ValidateRequest(e, _, _, _) => e case StoreRequest(op) => op.entity
  }

  lemma {:induction false} StepsForOthers(t: Tables, reqs: seq<Request>, f: Bytes)
    requires forall i :: 0 <= i < |reqs| ==> EntityOf(reqs[i]) != f
    ensures forall i :: 0 <= i < |AllSteps(t, reqs)| ==> AllSteps(t, reqs)[i].entity != f
    decreases |reqs|
  {
    if reqs != [] {
      assert forall i :: 0 <= i < |reqs[1..]| ==> reqs[1..][i] == reqs[i + 1];
      StepsForOthers(Handle(t, reqs[0]), reqs[1..], f);
      assert EntityOf(reqs[0]) != f;
    }
  }

  // Over any run of requests for other entities, everything that belongs to an entity stays as it was.
  lemma {:induction false} RequestsFrame(t: Tables, reqs: seq<Request>, f: Bytes)
    requires Inv(t)
    requires forall i :: 0 <= i < |reqs| ==> EntityOf(reqs[i]) != f
    ensures SameTenant(t, HandleAll(t, reqs), f)
  {
    RequestsAreRuns(t, reqs);
    StepsForOthers(t, reqs, f);
    RunFrame(t, AllSteps(t, reqs), f);
  }

  // ---------- Tags ----------

  // UpdateMember is only given distinct live tags of its entity, or none.
  ghost predicate GoodRequests(t: Tables, reqs: seq<Request>)
    decreases |reqs|
  {
    reqs != [] ==>
      (reqs[0].StoreRequest? ==> GoodStep(t, reqs[0].op)) && GoodRequests(Handle(t, reqs[0]), reqs[1..])
  }

  lemma {:induction false} GoodAppend(t: Tables, a: seq<Op>, b: seq<Op>)
    requires GoodRun(t, a) && GoodRun(Run(t, a), b)
    ensures GoodRun(t, a + b)
    decreases |a|
  {
    if a == [] {
      assert a + b == b;
    } else {
      assert (a + b)[1..] == a[1..] + b;
      GoodAppend(Apply(t, a[0]), a[1..], b);
    }
  }

  lemma {:induction false} NoUpdatesAreGood(t: Tables, ops: seq<Op>)
    requires forall i :: 0 <= i < |ops| ==> GoodStep(t, ops[i]) && (|ops| > 1 ==> !ops[i].UpdateMemberOp?)
    ensures GoodRun(t, ops)
    decreases |ops|
  {
    if |ops| > 1 {
      assert forall i :: 0 <= i < |ops[1..]| ==> ops[1..][i] == ops[i + 1];
      NoUpdatesAreGood(Apply(t, ops[0]), ops[1..]);
    }
  }

  lemma {:induction false} GoodSteps(t: Tables, reqs: seq<Request>)
    requires Inv(t) && GoodRequests(t, reqs)
    ensures GoodRun(t, AllSteps(t, reqs))
    decreases |reqs|
  {
    if reqs != [] {
      HandleInv(t, reqs[0]);
      HandleIsRun(t, reqs[0]);
      NoUpdatesAreGood(t, StepsOf(t, reqs[0]));
      GoodSteps(Handle(t, reqs[0]), reqs[1..]);
      GoodAppend(t, StepsOf(t, reqs[0]), AllSteps(Handle(t, reqs[0]), reqs[1..]));
    }
  }

  lemma {:induction false} RequestsTags(t: Tables, reqs: seq<Request>)
    requires Inv(t) && TagsOk(t) && GoodRequests(t, reqs)
    ensures TagsOk(HandleAll(t, reqs))
  {
    RequestsAreRuns(t, reqs);
    GoodSteps(t, reqs);
    RunTags(t, AllSteps(t, reqs));
  }

  // After DeleteTag the id is on no member and names no tag, after any later run of requests.
  lemma {:induction false} RequestsNeverReviveTag(t: Tables, e: Bytes, tag: int, reqs: seq<Request>)
    requires Inv(t) && TagsOk(t) && DeleteTag(t, e, tag).Some?
    requires GoodRequests(DeleteTag(t, e, tag).value, reqs)
    ensures var u := HandleAll(DeleteTag(t, e, tag).value, reqs);
            tag !in u.tags && forall a :: a in u.members ==> tag !in u.members[a].tags
  {
    var t1 := DeleteTag(t, e, tag).value;
    DeleteTagInv(t, e, tag);
    RequestsAreRuns(t1, reqs);
    GoodSteps(t1, reqs);
    DeletedTagNeverReturns(t, e, tag, AllSteps(t1, reqs));
  }

  // ---------- Census rows ----------

  // The census stays, and is not expanded again.
  ghost predicate QuietRequests(t: Tables, reqs: seq<Request>, c: Bytes)
    decreases |reqs|
  {
    && c in t.censuses
    && (reqs != [] ==>
          && (reqs[0].StoreRequest? ==> !Expands(t, reqs[0].op, c))
          && QuietRequests(Handle(t, reqs[0]), reqs[1..], c))
  }

  lemma {:induction false} QuietAppend(t: Tables, a: seq<Op>, b: seq<Op>, c: Bytes)
    requires Quiet(t, a, c) && Quiet(Run(t, a), b, c)
    ensures Quiet(t, a + b, c)
    decreases |a|
  {
    if a == [] {
      assert a + b == b;
    } else {
      assert (a + b)[1..] == a[1..] + b;
      QuietAppend(Apply(t, a[0]), a[1..], b, c);
    }
  }

  lemma {:induction false} StaysAppend(t: Tables, a: seq<Op>, b: seq<Op>, id: Uuid)
    ensures Stays(t, a + b, id) <==> Stays(t, a, id) && Stays(Run(t, a), b, id)
    decreases |a|
  {
    if a == [] {
      assert a + b == b;
    } else {
      assert (a + b)[1..] == a[1..] + b;
      StaysAppend(Apply(t, a[0]), a[1..], b, id);
    }
  }

  // Registering a key and untagging touch neither censuses nor the existence of members.
  predicate Gentle(op: Op) {
    op.RegisterMemberOp? || op.RemoveTagFromMembersOp?
  }

  lemma {:induction false} GentleStep(t: Tables, op: Op)
    requires Gentle(op)
    ensures Apply(t, op).members.Keys == t.members.Keys && Apply(t, op).censuses == t.censuses
  {
  }

  lemma {:induction false} GentleRun(t: Tables, ops: seq<Op>, c: Bytes, id: Uuid)
    requires forall i :: 0 <= i < |ops| ==> Gentle(ops[i])
    ensures c in t.censuses ==> Quiet(t, ops, c)
    ensures Stays(t, ops, id) <==> id in t.members
    ensures Run(t, ops).members.Keys == t.members.Keys
    decreases |ops|
  {
    if ops != [] {
      GentleStep(t, ops[0]);
      assert forall i :: 0 <= i < |ops[1..]| ==> ops[1..][i] == ops[i + 1];
      GentleRun(Apply(t, ops[0]), ops[1..], c, id);
    }
  }

  lemma {:induction false} OneStep(t: Tables, op: Op, c: Bytes, id: Uuid)
    ensures Quiet(t, [op], c) <==> c in t.censuses && !Expands(t, op, c) && c in Apply(t, op).censuses
    ensures Stays(t, [op], id) <==> id in t.members && id in Apply(t, op).members
  {
    assert [op][1..] == [];
  }

  lemma {:induction false} StepsQuiet(t: Tables, req: Request, c: Bytes, id: Uuid)
    requires Inv(t)
    ensures c in t.censuses && c in Handle(t, req).censuses && (req.StoreRequest? ==> !Expands(t, req.op, c)) ==>
              Quiet(t, StepsOf(t, req), c)
    ensures Stays(t, StepsOf(t, req), id) <==> id in t.members && id in Handle(t, req).members
  {
    HandleIsRun(t, req);
    match req
    case StoreRequest(op) => OneStep(t, op, c, id);
    case ValidateRequest(_, _, _, _) => GentleRun(t, StepsOf(t, req), c, id);
  }

  lemma {:induction false} StepsStay(t: Tables, reqs: seq<Request>, id: Uuid)
    requires Inv(t)
    ensures Stays(t, AllSteps(t, reqs), id) <==> Persists(t, reqs, id)
    decreases |reqs|
  {
    if reqs != [] {
      var t1 := Handle(t, reqs[0]);
      HandleInv(t, reqs[0]);
      HandleIsRun(t, reqs[0]);
      StepsQuiet(t, reqs[0], [], id);
      StepsStay(t1, reqs[1..], id);
      StaysAppend(t, StepsOf(t, reqs[0]), AllSteps(t1, reqs[1..]), id);
      if Persists(t1, reqs[1..], id) { assert id in t1.members; }
    }
  }

  lemma {:induction false} StepsStayQuiet(t: Tables, reqs: seq<Request>, c: Bytes)
    requires Inv(t) && QuietRequests(t, reqs, c)
    ensures Quiet(t, AllSteps(t, reqs), c)
    decreases |reqs|
  {
    if reqs != [] {
      var t1 := Handle(t, reqs[0]);
      HandleInv(t, reqs[0]);
      HandleIsRun(t, reqs[0]);
      assert QuietRequests(t1, reqs[1..], c);
      StepsQuiet(t, reqs[0], c, 0);
      StepsStayQuiet(t1, reqs[1..], c);
      QuietAppend(t, StepsOf(t, reqs[0]), AllSteps(t1, reqs[1..]), c);
    }
  }

  // Over any run of requests between expansions the size does not change, and a row is still there,
  // unchanged, exactly when it was there and its member was never deleted.
  lemma {:induction false} RequestsKeepRows(t: Tables, reqs: seq<Request>, c: Bytes)
    requires Inv(t) && QuietRequests(t, reqs, c)
    ensures var u := HandleAll(t, reqs);
            && c in u.censuses
            && u.censuses[c].size == t.censuses[c].size
            && (forall a :: (a, c) in u.rows <==> (a, c) in t.rows && Persists(t, reqs, a))
            && (forall a :: (a, c) in u.rows ==> u.rows[(a, c)] == t.rows[(a, c)])
  {
    RequestsAreRuns(t, reqs);
    StepsStayQuiet(t, reqs, c);
    RunKeepsRows(t, AllSteps(t, reqs), c);
    forall a ensures Stays(t, AllSteps(t, reqs), a) <==> Persists(t, reqs, a) {
      StepsStay(t, reqs, a);
    }
  }

  // A census expanded once can be expanded again after any run of requests exactly when every member
  // of the first expansion has been deleted since.
  lemma {:induction false} SecondExpansionAfterRequests(t: Tables, e: Bytes, c: Bytes, first: Uuid -> KeyPair,
                                                        reqs: seq<Request>, second: Uuid -> KeyPair)
    requires Inv(t) && Expandable(t, e, c)
    requires ExpandCensus(t, e, c, first).Some? ==> QuietRequests(ExpandCensus(t, e, c, first).value, reqs, c)
    ensures ExpandCensus(t, e, c, first).Some?
    ensures var t1 := ExpandCensus(t, e, c, first).value;
            ExpandCensus(HandleAll(t1, reqs), e, c, second).Some? <==>
            forall a :: a in EligibleIds(t, e, t.censuses[c]) ==> !Persists(t1, reqs, a)
  {
    ExpandableIffNoRows(t, e, c, first);
    var t1 := ExpandCensus(t, e, c, first).value;
    ExpandCensusInv(t, e, c, first);
    RequestsAreRuns(t1, reqs);
    StepsStayQuiet(t1, reqs, c);
    SecondExpansion(t, e, c, first, AllSteps(t1, reqs), second);
    forall a ensures Stays(t1, AllSteps(t1, reqs), a) <==> Persists(t1, reqs, a) {
      StepsStay(t1, reqs, a);
    }
  }
}
