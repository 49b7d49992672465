// The faucet's signer pool: any number of SendTokens callers and waitForTx goroutines,
// interleaved step by step. A signer's capacity-1 channel is a flag that is full or
// empty; a caller tries to fill it, and whoever owns the signer drains it once.

module Faucet {
  import opened Basics

  // The addresses of the pool entries, the nonces the accounts start from, and the
  // default faucet amount.
  datatype Config = Config(addresses: seq<Bytes>, start: Bytes -> nat, defaultAmount: nat)

  // Where a SendTokens call stands; i is the pool entry it looks at.
  datatype Pc =
    | Scanning(i: nat)
    | Checking(i: nat)
    | Pricing(i: nat, funds: nat)
    | Sending(i: nat, funds: nat, nonce: nat)
    | Handing(i: nat)
    | Releasing(i: nat)
    | Sleeping
    | Returned
    | Refused

  datatype Caller = Caller(to: Bytes, amount: int, pc: Pc)

  datatype Waiter = Polling(i: nat) | Ending(i: nat)

  // A transaction the node accepted: from `address`, with `nonce`, `value` for `to`. The rest is about the
  // sender: the amount it was asked for, the balance it had read, and whether it was told of the acceptance.
  datatype Tx = Tx(
    address: Bytes,
    nonce: nat,
    to: Bytes,
    value: int,
    sender: nat,
    amount: int,
    funds: nat,
    reported: bool)

  datatype State = State(
    taken: seq<bool>,
    callers: map<nat, Caller>,
    waiters: map<nat, Waiter>,
    handed: map<nat, nat>,
    accepted: seq<Tx>)

  datatype SendAnswer = Accepted | Lost | Rejected

  // One step of one thread, with the node's answer where there is one.
  datatype Action =
    | Call(caller: nat, to: Bytes, amount: int, refused: bool)
    | TryLock(caller: nat)
    | Balance(caller: nat, funds: Option<nat>)
    | Nonce(caller: nat, answered: bool)
    | Send(caller: nat, answer: SendAnswer)
    | Start(caller: nat, waiter: nat)
    | Release(caller: nat)
    | Wake(caller: nat)
    | Poll(waiter: nat, settled: bool)
    | Finish(waiter: nat)

  function Init(cfg: Config): State {
    State(seq(|cfg.addresses|, _ => false), map[], map[], map[], [])
  }

  function Count(txs: seq<Tx>, address: Bytes): nat {
    if txs == [] then 0
    else Count(txs[..|txs| - 1], address) + if txs[|txs| - 1].address == address then 1 else 0
  }

  // The node counts accepted transactions.
  function PendingNonce(cfg: Config, s: State, address: Bytes): nat {
    cfg.start(address) + Count(s.accepted, address)
  }

  // Zero asks for the default amount.
  function Value(cfg: Config, amount: int): int {
    if amount == 0 then cfg.defaultAmount else amount
  }

  // The check compares with the default amount, whatever the call asks for.
  predicate EnoughBalance(cfg: Config, funds: nat) {
    funds >= cfg.defaultAmount
  }

  function Move(s: State, c: nat, pc: Pc): State
    requires c in s.callers
  {
    s.(callers := s.callers[c := s.callers[c].(pc := pc)])
  }

  // The state after a step; None when the thread cannot take it now.
  function Step(cfg: Config, s: State, a: Action): Option<State>
    requires |s.taken| == |cfg.addresses|
  {
    match a
    case Call(c, to, amount, refused) =>
      if c in s.callers then None
      else Some(s.(callers := s.callers[c := Caller(to, amount, if refused then Refused else Scanning(0))]))
    case TryLock(c) =>
      if c !in s.callers || !s.callers[c].pc.Scanning? then None
      else
        var i := s.callers[c].pc.i;
        if i >= |s.taken| then Some(Move(s, c, Sleeping))
        else if s.taken[i] then Some(Move(s, c, Scanning(i + 1)))
        else Some(Move(s, c, Checking(i)).(taken := s.taken[i := true]))
    case Balance(c, funds) =>
      if c !in s.callers || !s.callers[c].pc.Checking? then None
      else
        var i := s.callers[c].pc.i;
        if funds.Some? && EnoughBalance(cfg, funds.value) then Some(Move(s, c, Pricing(i, funds.value)))
        else Some(Move(s, c, Releasing(i)))
    case Nonce(c, answered) =>
      if c !in s.callers || !s.callers[c].pc.Pricing? || s.callers[c].pc.i >= |cfg.addresses| then None
      else
        var pc := s.callers[c].pc;
        if answered then Some(Move(s, c, Sending(pc.i, pc.funds, PendingNonce(cfg, s, cfg.addresses[pc.i]))))
        else Some(Move(s, c, Releasing(pc.i)))
    case Send(c, answer) =>
      if c !in s.callers || !s.callers[c].pc.Sending? || s.callers[c].pc.i >= |cfg.addresses| then None
      else
        var pc := s.callers[c].pc;
        var caller := s.callers[c];
        var tx := Tx(cfg.addresses[pc.i], pc.nonce, caller.to, Value(cfg, caller.amount), c, caller.amount, pc.funds, answer.Accepted?);
        if answer.Accepted? then Some(Move(s, c, Handing(pc.i)).(accepted := s.accepted + [tx]))
        else if answer.Lost? then Some(Move(s, c, Releasing(pc.i)).(accepted := s.accepted + [tx]))
        else Some(Move(s, c, Releasing(pc.i)))
    case Start(c, w) =>
      if c !in s.callers || !s.callers[c].pc.Handing? || w in s.handed.Values then None
      else Some(Move(s, c, Returned).(waiters := s.waiters[w := Polling(s.callers[c].pc.i)], handed := s.handed[c := w]))
    case Release(c) =>
      if c !in s.callers || !s.callers[c].pc.Releasing? then None
      else
        var i := s.callers[c].pc.i;
        if i >= |s.taken| || !s.taken[i] then None  // draining an empty channel blocks
        else Some(Move(s, c, Scanning(i + 1)).(taken := s.taken[i := false]))
    case Wake(c) =>
      if c !in s.callers || !s.callers[c].pc.Sleeping? then None else Some(Move(s, c, Scanning(0)))
    case Poll(w, settled) =>
      if w !in s.waiters || !s.waiters[w].Polling? then None
      else Some(if settled then s.(waiters := s.waiters[w := Ending(s.waiters[w].i)]) else s)
    case Finish(w) =>
      if w !in s.waiters || !s.waiters[w].Ending? then None
      else
        var i := s.waiters[w].i;
        if i >= |s.taken| || !s.taken[i] then None
        else Some(s.(waiters := s.waiters - {w}, taken := s.taken[i := false]))
  }

  // A schedule: the steps that can be taken are, the others have no effect.
  function Run(cfg: Config, s: State, schedule: seq<Action>): State
    requires |s.taken| == |cfg.addresses|
    decreases |schedule|
  {
    if schedule == [] then s
    else match Step(cfg, s, schedule[0])
      case None => Run(cfg, s, schedule[1..])
      case Some(u) => Run(cfg, u, schedule[1..])
  }

  lemma {:induction false} StepLength(cfg: Config, s: State, a: Action)
    requires |s.taken| == |cfg.addresses| && Step(cfg, s, a).Some?
    ensures |Step(cfg, s, a).value.taken| == |cfg.addresses|
  {
  }

  lemma {:induction false} RunConcat(cfg: Config, s: State, a: seq<Action>, b: seq<Action>)
    requires |s.taken| == |cfg.addresses|
    ensures |Run(cfg, s, a).taken| == |cfg.addresses|
    ensures Run(cfg, s, a + b) == Run(cfg, Run(cfg, s, a), b)
    decreases |a|
  {
    if a == [] {
      assert a + b == b;
    } else {
      assert (a + b)[1..] == a[1..] + b;
      var r := Step(cfg, s, a[0]);
      if r.Some? { StepLength(cfg, s, a[0]); }
      RunConcat(cfg, if r.Some? then r.value else s, a[1..], b);
    }
  }

  lemma {:induction false} RunOne(cfg: Config, s: State, a: Action)
    requires |s.taken| == |cfg.addresses|
    ensures Run(cfg, s, [a]) == match Step(cfg, s, a) case None => s case Some(u) => u
  {
    assert [a][1..] == [];
  }

  lemma {:induction false} Unroll(cfg: Config, s: State, r: seq<Action>)
    requires |s.taken| == |cfg.addresses| && r != [] && Step(cfg, s, r[0]).Some?
    ensures Run(cfg, s, r) == Run(cfg, Step(cfg, s, r[0]).value, r[1..])
  {
  }

  // ---------- Ownership ----------

  datatype Owner = ByCaller(caller: nat) | ByWaiter(waiter: nat)

  predicate Holds(pc: Pc, i: nat) {
    match pc
    case Checking(j) => i == j
    case Pricing(j, _) => i == j
    case Sending(j, _, _) => i == j
    case Handing(j) => i == j
    case Releasing(j) => i == j
    case _ => false
  }

  predicate Owns(s: State, o: Owner, i: nat) {
    match o
    case ByCaller(c) => c in s.callers && Holds(s.callers[c].pc, i)
    case ByWaiter(w) => w in s.waiters && s.waiters[w].i == i
  }

  // A slot is full exactly when it has an owner, and it has one owner at most.
  ghost predicate Exclusive(cfg: Config, s: State) {
    && |s.taken| == |cfg.addresses|
    && (forall o, i: nat :: Owns(s, o, i) ==> i < |s.taken| && s.taken[i])
    && (forall o, p, i: nat :: Owns(s, o, i) && Owns(s, p, i) ==> o == p)
    && (forall i: nat :: i < |s.taken| && s.taken[i] ==> exists o :: Owns(s, o, i))
  }

  // Each call that returned handed its signer to a waiter of its own, and there are no other waiters.
  ghost predicate HandedOver(s: State) {
    && (forall c :: c in s.handed <==> c in s.callers && s.callers[c].pc.Returned?)
    && (forall c, d :: c in s.handed && d in s.handed && c != d ==> s.handed[c] != s.handed[d])
    && (forall w :: w in s.waiters ==> w in s.handed.Values)
  }

  // How a step may change the owners.
  ghost predicate SameOwners(s: State, u: State) {
    forall o, j: nat :: Owns(u, o, j) <==> Owns(s, o, j)
  }

  ghost predicate Gains(s: State, u: State, x: Owner, i: nat) {
    forall o, j: nat :: Owns(u, o, j) <==> Owns(s, o, j) || (o == x && j == i)
  }

  ghost predicate Loses(s: State, u: State, x: Owner) {
    forall o, j: nat :: Owns(u, o, j) <==> Owns(s, o, j) && o != x
  }

  lemma {:induction false} KeepOwners(cfg: Config, s: State, u: State)
    requires Exclusive(cfg, s) && SameOwners(s, u) && u.taken == s.taken
    ensures Exclusive(cfg, u)
  {
    forall i: nat | i < |u.taken| && u.taken[i] ensures exists o :: Owns(u, o, i) {
      var o :| Owns(s, o, i);
      assert Owns(u, o, i);
    }
  }

  lemma {:induction false} Acquire(cfg: Config, s: State, u: State, x: Owner, i: nat)
    requires Exclusive(cfg, s) && Gains(s, u, x, i)
    requires i < |s.taken| && !s.taken[i] && u.taken == s.taken[i := true]
    ensures Exclusive(cfg, u)
  {
    forall j: nat | j < |u.taken| && u.taken[j] ensures exists o :: Owns(u, o, j) {
      if j == i {
        assert Owns(u, x, i);
      } else {
        var o :| Owns(s, o, j);
        assert Owns(u, o, j);
      }
    }
  }

  lemma {:induction false} Drain(cfg: Config, s: State, u: State, x: Owner, i: nat)
    requires Exclusive(cfg, s) && Owns(s, x, i) && Loses(s, u, x)
    requires i < |s.taken| && u.taken == s.taken[i := false]
    requires forall j: nat :: Owns(s, x, j) ==> j == i
    ensures Exclusive(cfg, u)
  {
    forall j: nat | j < |u.taken| && u.taken[j] ensures exists o :: Owns(u, o, j) {
      var o :| Owns(s, o, j);
      assert Owns(u, o, j);
    }
  }

  // The hand-over: the slot stays full and changes its owner.
  lemma {:induction false} HandOver(cfg: Config, s: State, u: State, x: Owner, y: Owner, i: nat)
    requires Exclusive(cfg, s) && Owns(s, x, i) && u.taken == s.taken
    requires forall o, j: nat :: Owns(u, o, j) <==> (Owns(s, o, j) && o != x) || (o == y && j == i)
    requires forall j: nat :: Owns(s, x, j) ==> j == i
    ensures Exclusive(cfg, u)
  {
    forall j: nat | j < |u.taken| && u.taken[j] ensures exists o :: Owns(u, o, j) {
      if j == i {
        assert Owns(u, y, i);
      } else {
        var o :| Owns(s, o, j);
        assert Owns(u, o, j);
      }
    }
  }

  lemma {:induction false} LockExclusive(cfg: Config, s: State, c: nat)
    requires Exclusive(cfg, s) && Step(cfg, s, TryLock(c)).Some?
    ensures Exclusive(cfg, Step(cfg, s, TryLock(c)).value)
  {
    var i, u := s.callers[c].pc.i, Step(cfg, s, TryLock(c)).value;
    if i < |s.taken| && !s.taken[i] {
      Acquire(cfg, s, u, ByCaller(c), i);
    } else {
      KeepOwners(cfg, s, u);
    }
  }

  lemma {:induction false} StartExclusive(cfg: Config, s: State, c: nat, w: nat)
    requires Exclusive(cfg, s) && HandedOver(s) && Step(cfg, s, Start(c, w)).Some?
    ensures Exclusive(cfg, Step(cfg, s, Start(c, w)).value)
  {
    assert w !in s.waiters;
    HandOver(cfg, s, Step(cfg, s, Start(c, w)).value, ByCaller(c), ByWaiter(w), s.callers[c].pc.i);
  }

  lemma {:induction false} ReleaseExclusive(cfg: Config, s: State, c: nat)
    requires Exclusive(cfg, s) && Step(cfg, s, Release(c)).Some?
    ensures Exclusive(cfg, Step(cfg, s, Release(c)).value)
  {
    Drain(cfg, s, Step(cfg, s, Release(c)).value, ByCaller(c), s.callers[c].pc.i);
  }

  lemma {:induction false} FinishExclusive(cfg: Config, s: State, w: nat)
    requires Exclusive(cfg, s) && Step(cfg, s, Finish(w)).Some?
    ensures Exclusive(cfg, Step(cfg, s, Finish(w)).value)
  {
    Drain(cfg, s, Step(cfg, s, Finish(w)).value, ByWaiter(w), s.waiters[w].i);
  }

  lemma {:induction false} MoveKeepsOwners(cfg: Config, s: State, c: nat, pc: Pc, accepted: seq<Tx>)
    requires Exclusive(cfg, s) && c in s.callers
    requires forall i: nat :: Holds(pc, i) == Holds(s.callers[c].pc, i)
    ensures Exclusive(cfg, Move(s, c, pc).(accepted := accepted))
  {
    KeepOwners(cfg, s, Move(s, c, pc).(accepted := accepted));
  }

  lemma {:induction false} StepExclusive(cfg: Config, s: State, a: Action)
    requires Exclusive(cfg, s) && HandedOver(s) && Step(cfg, s, a).Some?
    ensures Exclusive(cfg, Step(cfg, s, a).value)
  {
    var u := Step(cfg, s, a).value;
    match a
    case TryLock(c) => LockExclusive(cfg, s, c);
    case Start(c, w) => StartExclusive(cfg, s, c, w);
    case Release(c) => ReleaseExclusive(cfg, s, c);
    case Finish(w) => FinishExclusive(cfg, s, w);
    case Call(_, _, _, _) => KeepOwners(cfg, s, u);
    case Poll(_, _) => KeepOwners(cfg, s, u);
    case Balance(c, _) => MoveKeepsOwners(cfg, s, c, u.callers[c].pc, u.accepted);
    case Nonce(c, _) => MoveKeepsOwners(cfg, s, c, u.callers[c].pc, u.accepted);
    case Send(c, _) => MoveKeepsOwners(cfg, s, c, u.callers[c].pc, u.accepted);
    case Wake(c) => MoveKeepsOwners(cfg, s, c, u.callers[c].pc, u.accepted);
  }

  lemma {:induction false} StartHandedOver(cfg: Config, s: State, c: nat, w: nat)
    requires |s.taken| == |cfg.addresses| && HandedOver(s) && Step(cfg, s, Start(c, w)).Some?
    ensures HandedOver(Step(cfg, s, Start(c, w)).value)
  {
    var u := Step(cfg, s, Start(c, w)).value;
    assert u.handed[c] == w && c !in s.handed;
    forall d | d in s.handed ensures s.handed[d] != w && u.handed[d] == s.handed[d] {
      assert s.handed[d] in s.handed.Values;
    }
    forall v | v in u.waiters && v != w ensures v in u.handed.Values {
      var d :| d in s.handed && s.handed[d] == v;
      assert u.handed[d] == v;
    }
  }

  lemma {:induction false} OtherStepsHandNothing(cfg: Config, s: State, a: Action)
    requires |s.taken| == |cfg.addresses| && Step(cfg, s, a).Some? && !a.Start?
    ensures var u := Step(cfg, s, a).value;
            && u.handed == s.handed
            && u.waiters.Keys <= s.waiters.Keys
            && forall c :: (c in u.callers && u.callers[c].pc.Returned?) <==> (c in s.callers && s.callers[c].pc.Returned?)
  {
  }

  lemma {:induction false} StepHandedOver(cfg: Config, s: State, a: Action)
    requires |s.taken| == |cfg.addresses| && HandedOver(s) && Step(cfg, s, a).Some?
    ensures HandedOver(Step(cfg, s, a).value)
  {
    if a.Start? {
      StartHandedOver(cfg, s, a.caller, a.waiter);
    } else {
      OtherStepsHandNothing(cfg, s, a);
      assert forall w :: w in Step(cfg, s, a).value.waiters ==> w in s.waiters;
    }
  }

  // Releasing never blocks: whoever is about to drain a channel finds it full.
  lemma {:induction false} ReleaseNeverBlocks(cfg: Config, s: State, c: nat, w: nat)
    requires Exclusive(cfg, s)
    ensures c in s.callers && s.callers[c].pc.Releasing? ==> Step(cfg, s, Release(c)).Some?
    ensures w in s.waiters && s.waiters[w].Ending? ==> Step(cfg, s, Finish(w)).Some?
  {
    if c in s.callers && s.callers[c].pc.Releasing? { assert Owns(s, ByCaller(c), s.callers[c].pc.i); }
    if w in s.waiters { assert Owns(s, ByWaiter(w), s.waiters[w].i); }
  }

  // When every call has ended and no waiter is left, every channel is empty.
  lemma {:induction false} QuietMeansFree(cfg: Config, s: State)
    requires Exclusive(cfg, s)
    requires forall c :: c in s.callers ==> s.callers[c].pc.Returned? || s.callers[c].pc.Refused?
    requires s.waiters == map[]
    ensures forall i :: 0 <= i < |s.taken| ==> !s.taken[i]
  {
    assert forall o, i :: !Owns(s, o, i);
  }

  // ---------- Nonces ----------

  // A nonce about to be used is still the account's next one.
  ghost predicate NoncesCurrent(cfg: Config, s: State) {
    forall c :: c in s.callers && s.callers[c].pc.Sending? ==>
      && s.callers[c].pc.i < |cfg.addresses|
      && s.callers[c].pc.nonce == PendingNonce(cfg, s, cfg.addresses[s.callers[c].pc.i])
  }

  // The k-th accepted transaction carries the next nonce of its account at that time.
  ghost predicate NoncesCounted(cfg: Config, txs: seq<Tx>) {
    forall k :: 0 <= k < |txs| ==> txs[k].nonce == cfg.start(txs[k].address) + Count(txs[..k], txs[k].address)
  }

  ghost predicate NoncesUnique(txs: seq<Tx>) {
    forall k, l :: 0 <= k < l < |txs| && txs[k].address == txs[l].address ==> txs[k].nonce != txs[l].nonce
  }

  lemma {:induction false} CountSnoc(txs: seq<Tx>, tx: Tx, address: Bytes)
    ensures Count(txs + [tx], address) == Count(txs, address) + if tx.address == address then 1 else 0
  {
    assert (txs + [tx])[..|txs|] == txs;
  }

  lemma {:induction false} CountGrows(txs: seq<Tx>, k: nat, l: nat, address: Bytes)
    requires k < l <= |txs| && txs[k].address == address
    ensures Count(txs[..k], address) < Count(txs[..l], address)
    decreases l
  {
    assert txs[..l][..l - 1] == txs[..l - 1];
    if k < l - 1 {
      CountGrows(txs, k, l - 1, address);
    }
  }

  lemma {:induction false} CountedMeansUnique(cfg: Config, txs: seq<Tx>)
    requires NoncesCounted(cfg, txs)
    ensures NoncesUnique(txs)
  {
    forall k, l | 0 <= k < l < |txs| && txs[k].address == txs[l].address ensures txs[k].nonce != txs[l].nonce {
      CountGrows(txs, k, l, txs[k].address);
    }
  }

  // Two callers that hold signers hold signers with different addresses.
  lemma {:induction false} HoldersDiffer(cfg: Config, s: State, c: nat, d: nat)
    requires Distinct(cfg.addresses) && Exclusive(cfg, s) && c != d
    requires c in s.callers && s.callers[c].pc.Sending? && d in s.callers && s.callers[d].pc.Sending?
    ensures s.callers[c].pc.i < |cfg.addresses| && s.callers[d].pc.i < |cfg.addresses|
    ensures cfg.addresses[s.callers[c].pc.i] != cfg.addresses[s.callers[d].pc.i]
  {
    assert Owns(s, ByCaller(c), s.callers[c].pc.i) && Owns(s, ByCaller(d), s.callers[d].pc.i);
    assert s.callers[c].pc.i != s.callers[d].pc.i;
  }

  lemma {:induction false} SendNonces(cfg: Config, s: State, c: nat, answer: SendAnswer)
    requires Distinct(cfg.addresses) && Exclusive(cfg, s) && NoncesCurrent(cfg, s) && NoncesCounted(cfg, s.accepted)
    requires Step(cfg, s, Send(c, answer)).Some? && !answer.Rejected?
    ensures var u := Step(cfg, s, Send(c, answer)).value; NoncesCurrent(cfg, u) && NoncesCounted(cfg, u.accepted)
  {
    var u := Step(cfg, s, Send(c, answer)).value;
    var tx := u.accepted[|s.accepted|];
    assert u.accepted == s.accepted + [tx];
    assert forall k :: 0 <= k <= |s.accepted| ==> u.accepted[..k] == s.accepted[..k];
    assert s.accepted[..|s.accepted|] == s.accepted;
    forall d | d in u.callers && u.callers[d].pc.Sending?
      ensures u.callers[d].pc.i < |cfg.addresses|
      ensures u.callers[d].pc.nonce == PendingNonce(cfg, u, cfg.addresses[u.callers[d].pc.i])
    {
      HoldersDiffer(cfg, s, c, d);
      CountSnoc(s.accepted, tx, cfg.addresses[s.callers[d].pc.i]);
    }
  }

  // A nonce about to be used was there before the step or has just been read.
  lemma {:induction false} OtherStepsReadNonces(cfg: Config, s: State, a: Action, d: nat)
    requires |s.taken| == |cfg.addresses| && Step(cfg, s, a).Some? && (a.Send? ==> a.answer.Rejected?)
    requires d in Step(cfg, s, a).value.callers && Step(cfg, s, a).value.callers[d].pc.Sending?
    ensures var pc := Step(cfg, s, a).value.callers[d].pc;
            || (d in s.callers && s.callers[d].pc == pc)
            || (pc.i < |cfg.addresses| && pc.nonce == PendingNonce(cfg, s, cfg.addresses[pc.i]))
  {
  }

  predicate Succeeded(s: State, c: nat) {
    c in s.callers && (s.callers[c].pc.Handing? || s.callers[c].pc.Returned?)
  }

  // Nothing but a send accepts a transaction or makes a call succeed.
  lemma {:induction false} OtherStepsSendNothing(cfg: Config, s: State, a: Action)
    requires |s.taken| == |cfg.addresses| && Step(cfg, s, a).Some? && (a.Send? ==> a.answer.Rejected?)
    ensures Step(cfg, s, a).value.accepted == s.accepted
    ensures forall c :: Succeeded(Step(cfg, s, a).value, c) == Succeeded(s, c)
  {
  }

  lemma {:induction false} StepNonces(cfg: Config, s: State, a: Action)
    requires Distinct(cfg.addresses)
    requires Exclusive(cfg, s) && NoncesCurrent(cfg, s) && NoncesCounted(cfg, s.accepted)
    requires Step(cfg, s, a).Some?
    ensures NoncesCurrent(cfg, Step(cfg, s, a).value) && NoncesCounted(cfg, Step(cfg, s, a).value.accepted)
  {
    if a.Send? && !a.answer.Rejected? {
      SendNonces(cfg, s, a.caller, a.answer);
    } else {
      var u := Step(cfg, s, a).value;
      OtherStepsSendNothing(cfg, s, a);
      forall d | d in u.callers && u.callers[d].pc.Sending?
        ensures u.callers[d].pc.i < |cfg.addresses|
        ensures u.callers[d].pc.nonce == PendingNonce(cfg, u, cfg.addresses[u.callers[d].pc.i])
      {
        OtherStepsReadNonces(cfg, s, a, d);
      }
    }
  }

  // ---------- What a call has sent ----------

  function CountBy(txs: seq<Tx>, c: nat, reported: bool): nat {
    if txs == [] then 0
    else CountBy(txs[..|txs| - 1], c, reported) +
         if txs[|txs| - 1].sender == c && txs[|txs| - 1].reported == reported then 1 else 0
  }

  // A call was told of one accepted transaction when it succeeds and of none before.
  ghost predicate OneEach(s: State) {
    forall c :: CountBy(s.accepted, c, true) == if Succeeded(s, c) then 1 else 0
  }

  // A transaction is worth the amount its call asks for, zero standing for the default one, and the
  // sender had read at least the default amount.
  ghost predicate Funded(cfg: Config, s: State) {
    && (forall c :: c in s.callers ==>
          && (s.callers[c].pc.Pricing? ==> EnoughBalance(cfg, s.callers[c].pc.funds))
          && (s.callers[c].pc.Sending? ==> EnoughBalance(cfg, s.callers[c].pc.funds)))
    && (forall tx :: tx in s.accepted ==>
          EnoughBalance(cfg, tx.funds) && tx.sender in s.callers && tx.value == if tx.amount == 0 then cfg.defaultAmount else tx.amount)
  }

  lemma {:induction false} CountBySnoc(txs: seq<Tx>, tx: Tx, c: nat, reported: bool)
    ensures CountBy(txs + [tx], c, reported) == CountBy(txs, c, reported) + if tx.sender == c && tx.reported == reported then 1 else 0
  {
    assert (txs + [tx])[..|txs|] == txs;
  }

  lemma {:induction false} SendOneEach(cfg: Config, s: State, c: nat, answer: SendAnswer)
    requires |s.taken| == |cfg.addresses| && OneEach(s) && Step(cfg, s, Send(c, answer)).Some? && !answer.Rejected?
    ensures OneEach(Step(cfg, s, Send(c, answer)).value)
  {
    var u := Step(cfg, s, Send(c, answer)).value;
    var tx := u.accepted[|s.accepted|];
    assert u.accepted == s.accepted + [tx];
    forall d ensures CountBy(u.accepted, d, true) == if Succeeded(u, d) then 1 else 0 {
      CountBySnoc(s.accepted, tx, d, true);
      assert d != c ==> Succeeded(u, d) == Succeeded(s, d);
    }
  }

  lemma {:induction false} StepOneEach(cfg: Config, s: State, a: Action)
    requires |s.taken| == |cfg.addresses| && OneEach(s) && Step(cfg, s, a).Some?
    ensures OneEach(Step(cfg, s, a).value)
  {
    if a.Send? && !a.answer.Rejected? {
      SendOneEach(cfg, s, a.caller, a.answer);
    } else {
      OtherStepsSendNothing(cfg, s, a);
    }
  }

  // A step changes nothing that a call asks for.
  lemma {:induction false} StepCallers(cfg: Config, s: State, a: Action)
    requires |s.taken| == |cfg.addresses| && Step(cfg, s, a).Some?
    ensures var u := Step(cfg, s, a).value;
            forall c :: c in s.callers ==>
              c in u.callers && u.callers[c].amount == s.callers[c].amount && u.callers[c].to == s.callers[c].to
  {
  }

  lemma {:induction false} SendFunded(cfg: Config, s: State, c: nat, answer: SendAnswer)
    requires |s.taken| == |cfg.addresses| && Funded(cfg, s) && Step(cfg, s, Send(c, answer)).Some? && !answer.Rejected?
    ensures Funded(cfg, Step(cfg, s, Send(c, answer)).value)
  {
    var u := Step(cfg, s, Send(c, answer)).value;
    assert forall tx :: tx in u.accepted ==> tx in s.accepted || tx == u.accepted[|s.accepted|];
  }

  lemma {:induction false} StepFunded(cfg: Config, s: State, a: Action)
    requires |s.taken| == |cfg.addresses| && Funded(cfg, s) && Step(cfg, s, a).Some?
    ensures Funded(cfg, Step(cfg, s, a).value)
  {
    if a.Send? && !a.answer.Rejected? {
      SendFunded(cfg, s, a.caller, a.answer);
    } else {
      OtherStepsSendNothing(cfg, s, a);
      StepCallers(cfg, s, a);
    }
  }

  // ---------- All schedules ----------

  ghost predicate Good(cfg: Config, s: State) {
    Exclusive(cfg, s) && HandedOver(s) && OneEach(s) && Funded(cfg, s)
  }

  lemma {:induction false} StepGood(cfg: Config, s: State, a: Action)
    requires Good(cfg, s) && Step(cfg, s, a).Some?
    ensures Good(cfg, Step(cfg, s, a).value)
  {
    StepExclusive(cfg, s, a);
    StepHandedOver(cfg, s, a);
    StepOneEach(cfg, s, a);
    StepFunded(cfg, s, a);
  }

  lemma {:induction false} RunGood(cfg: Config, s: State, schedule: seq<Action>)
    requires Good(cfg, s)
    ensures Good(cfg, Run(cfg, s, schedule))
    decreases |schedule|
  {
    if schedule != [] {
      if Step(cfg, s, schedule[0]).Some? {
        StepGood(cfg, s, schedule[0]);
        RunGood(cfg, Step(cfg, s, schedule[0]).value, schedule[1..]);
      } else {
        RunGood(cfg, s, schedule[1..]);
      }
    }
  }

  lemma {:induction false} RunNonces(cfg: Config, s: State, schedule: seq<Action>)
    requires Distinct(cfg.addresses)
    requires Good(cfg, s) && NoncesCurrent(cfg, s) && NoncesCounted(cfg, s.accepted)
    ensures NoncesCounted(cfg, Run(cfg, s, schedule).accepted)
    decreases |schedule|
  {
    if schedule != [] {
      if Step(cfg, s, schedule[0]).Some? {
        StepGood(cfg, s, schedule[0]);
        StepNonces(cfg, s, schedule[0]);
        RunNonces(cfg, Step(cfg, s, schedule[0]).value, schedule[1..]);
      } else {
        RunNonces(cfg, s, schedule[1..]);
      }
    }
  }

  lemma {:induction false} InitGood(cfg: Config)
    ensures Good(cfg, Init(cfg)) && NoncesCurrent(cfg, Init(cfg)) && NoncesCounted(cfg, Init(cfg).accepted)
  {
    assert forall o, i :: !Owns(Init(cfg), o, i);
  }

  // In every interleaving a slot is full exactly when one caller or one waiter owns it, each
  // successful call has its own waiter, and each returned call was told of exactly one transaction.
  lemma {:induction false} EveryScheduleGood(cfg: Config, schedule: seq<Action>)
    ensures Good(cfg, Run(cfg, Init(cfg), schedule))
  {
    InitGood(cfg);
    RunGood(cfg, Init(cfg), schedule);
  }

  // With distinct addresses no two accepted transactions of one signer share a nonce, in any interleaving:
  // they carry consecutive ones, in the order of acceptance.
  lemma {:induction false} EveryScheduleUnique(cfg: Config, schedule: seq<Action>)
    requires Distinct(cfg.addresses)
    ensures NoncesUnique(Run(cfg, Init(cfg), schedule).accepted)
    ensures NoncesCounted(cfg, Run(cfg, Init(cfg), schedule).accepted)
  {
    InitGood(cfg);
    RunNonces(cfg, Init(cfg), schedule);
    CountedMeansUnique(cfg, Run(cfg, Init(cfg), schedule).accepted);
  }

  // ---------- One sweep over the pool ----------

  function Tries(c: nat, n: nat): seq<Action> {
    if n == 0 then [] else [TryLock(c)] + Tries(c, n - 1)
  }

  // A sweep passes over the taken signers and takes the first free one; past the last it sleeps.
  lemma {:induction false} Sweep(cfg: Config, s: State, c: nat, i: nat, j: nat)
    requires |s.taken| == |cfg.addresses| && c in s.callers && s.callers[c].pc == Scanning(i)
    requires i <= j <= |s.taken| && (forall k :: i <= k < j ==> s.taken[k]) && (j < |s.taken| ==> !s.taken[j])
    ensures Run(cfg, s, Tries(c, j - i + 1)) ==
            if j < |s.taken| then Move(s, c, Checking(j)).(taken := s.taken[j := true]) else Move(s, c, Sleeping)
    decreases j - i
  {
    if i == j {
      assert Tries(c, 1) == [TryLock(c)];
      RunOne(cfg, s, TryLock(c));
    } else {
      var s1 := Move(s, c, Scanning(i + 1));
      RunConcat(cfg, s, [TryLock(c)], Tries(c, j - i));
      RunOne(cfg, s, TryLock(c));
      Sweep(cfg, s1, c, i + 1, j);
      assert Move(s1, c, Sleeping) == Move(s, c, Sleeping) && Move(s1, c, Checking(j)) == Move(s, c, Checking(j));
    }
  }

  // ---------- A waiter keeps its signer ----------

  lemma {:induction false} StepKeepsWaiter(cfg: Config, s: State, a: Action, w: nat)
    requires Good(cfg, s) && w in s.waiters && s.waiters[w].Polling? && a != Poll(w, true) && Step(cfg, s, a).Some?
    ensures var u := Step(cfg, s, a).value; w in u.waiters && u.waiters[w] == s.waiters[w]
  {
  }

  // Until the node says that the transaction is settled, its waiter polls on and the signer stays taken,
  // whatever the other threads do.
  lemma {:induction false} TakenUntilSettled(cfg: Config, s: State, schedule: seq<Action>, w: nat)
    requires Good(cfg, s) && w in s.waiters && s.waiters[w].Polling?
    requires Poll(w, true) !in schedule
    ensures var u := Run(cfg, s, schedule);
            && w in u.waiters && u.waiters[w] == s.waiters[w]
            && s.waiters[w].i < |u.taken| && u.taken[s.waiters[w].i]
    decreases |schedule|
  {
    if schedule == [] {
      assert Owns(s, ByWaiter(w), s.waiters[w].i);
    } else {
      assert schedule[0] in schedule && forall a :: a in schedule[1..] ==> a in schedule;
      if Step(cfg, s, schedule[0]).Some? {
        StepKeepsWaiter(cfg, s, schedule[0], w);
        StepGood(cfg, s, schedule[0]);
        TakenUntilSettled(cfg, Step(cfg, s, schedule[0]).value, schedule[1..], w);
      } else {
        TakenUntilSettled(cfg, s, schedule[1..], w);
      }
    }
  }

  lemma {:induction false} HandedStays(cfg: Config, s: State, schedule: seq<Action>, c: nat)
    requires Good(cfg, s) && c in s.handed
    ensures var u := Run(cfg, s, schedule); c in u.handed && u.handed[c] == s.handed[c]
    decreases |schedule|
  {
    if schedule != [] {
      if Step(cfg, s, schedule[0]).Some? {
        StepGood(cfg, s, schedule[0]);
        HandedStays(cfg, Step(cfg, s, schedule[0]).value, schedule[1..], c);
      } else {
        HandedStays(cfg, s, schedule[1..], c);
      }
    }
  }

  // A caller that has sent leaves its signer to a polling waiter and to nobody else.
  lemma {:induction false} StepKeepsHanding(cfg: Config, s: State, a: Action, c: nat, i: nat)
    requires Good(cfg, s) && c in s.callers && s.callers[c].pc == Handing(i) && Step(cfg, s, a).Some?
    ensures var u := Step(cfg, s, a).value;
            && c in u.callers
            && if a.Start? && a.caller == c then c in u.handed && u.handed[c] in u.waiters && u.waiters[u.handed[c]] == Polling(i)
               else u.callers[c].pc == Handing(i)
  {
  }

  // From an accepted transaction that was reported on, the signer stays taken until the waiter of that very
  // call is told that the transaction is settled.
  lemma {:induction false} HeldUntilSettled(cfg: Config, s: State, schedule: seq<Action>, c: nat, i: nat)
    requires Good(cfg, s) && c in s.callers && s.callers[c].pc == Handing(i)
    ensures var u := Run(cfg, s, schedule);
            (c in u.handed ==> Poll(u.handed[c], true) !in schedule) ==> i < |u.taken| && u.taken[i]
    decreases |schedule|
  {
    if schedule == [] {
      assert Owns(s, ByCaller(c), i);
    } else {
      var a, rest := schedule[0], schedule[1..];
      assert forall b :: b in rest ==> b in schedule;
      if Step(cfg, s, a).Some? {
        var s1 := Step(cfg, s, a).value;
        StepGood(cfg, s, a);
        StepKeepsHanding(cfg, s, a, c, i);
        if a.Start? && a.caller == c {
          HandedStays(cfg, s1, rest, c);
          if Poll(s1.handed[c], true) !in rest {
            TakenUntilSettled(cfg, s1, rest, s1.handed[c]);
          }
        } else {
          HeldUntilSettled(cfg, s1, rest, c, i);
        }
      } else {
        HeldUntilSettled(cfg, s, rest, c, i);
      }
    }
  }

  // ---------- What is sent is what was asked for ----------

  // The calls that run, and the transactions accepted, go back to steps that were taken.
  ghost predicate Asked(cfg: Config, s: State, past: seq<Action>) {
    && (forall c :: c in s.callers && !s.callers[c].pc.Refused? ==>
          Call(c, s.callers[c].to, s.callers[c].amount, false) in past)
    && (forall tx :: tx in s.accepted ==>
          && tx.address in cfg.addresses
          && Call(tx.sender, tx.to, tx.amount, false) in past
          && tx.value == if tx.amount == 0 then cfg.defaultAmount else tx.amount)
  }

  lemma {:induction false} SendAsked(cfg: Config, s: State, c: nat, answer: SendAnswer, past: seq<Action>)
    requires |s.taken| == |cfg.addresses| && Asked(cfg, s, past) && Step(cfg, s, Send(c, answer)).Some? && !answer.Rejected?
    ensures Asked(cfg, Step(cfg, s, Send(c, answer)).value, past)
  {
    var u := Step(cfg, s, Send(c, answer)).value;
    assert forall tx :: tx in u.accepted ==> tx in s.accepted || tx == u.accepted[|s.accepted|];
  }

  lemma {:induction false} OthersStayRefused(cfg: Config, s: State, a: Action)
    requires |s.taken| == |cfg.addresses| && Step(cfg, s, a).Some?
    ensures var u := Step(cfg, s, a).value;
            && (forall c :: c in s.callers ==> u.callers[c].pc.Refused? == s.callers[c].pc.Refused?)
            && (forall c :: c in u.callers && c !in s.callers ==>
                  a.Call? && a == Call(c, u.callers[c].to, u.callers[c].amount, u.callers[c].pc.Refused?))
  {
  }

  lemma {:induction false} StepAsked(cfg: Config, s: State, a: Action, past: seq<Action>)
    requires |s.taken| == |cfg.addresses| && Asked(cfg, s, past) && Step(cfg, s, a).Some?
    ensures Asked(cfg, Step(cfg, s, a).value, past + [a])
  {
    var u := Step(cfg, s, a).value;
    assert forall b :: b in past ==> b in past + [a];
    if a.Send? && !a.answer.Rejected? {
      SendAsked(cfg, s, a.caller, a.answer, past);
    } else {
      OtherStepsSendNothing(cfg, s, a);
      StepCallers(cfg, s, a);
      OthersStayRefused(cfg, s, a);
    }
  }

  lemma {:induction false} RunAsked(cfg: Config, s: State, past: seq<Action>, schedule: seq<Action>)
    requires |s.taken| == |cfg.addresses| && Asked(cfg, s, past)
    ensures Asked(cfg, Run(cfg, s, schedule), past + schedule)
    decreases |schedule|
  {
    if schedule == [] {
      assert past + schedule == past;
    } else {
      var a := schedule[0];
      assert (past + [a]) + schedule[1..] == past + schedule;
      if Step(cfg, s, a).Some? {
        StepAsked(cfg, s, a, past);
        StepLength(cfg, s, a);
        RunAsked(cfg, Step(cfg, s, a).value, past + [a], schedule[1..]);
      } else {
        assert forall b :: b in past ==> b in past + [a];
        RunAsked(cfg, s, past + [a], schedule[1..]);
      }
    }
  }

  // In every interleaving every accepted transaction comes from an account of the pool and goes to the address,
  // with the amount, of a call that was made and not refused; zero asks for the default amount.
  lemma {:induction false} SentAsAsked(cfg: Config, schedule: seq<Action>, tx: Tx)
    requires tx in Run(cfg, Init(cfg), schedule).accepted
    ensures Call(tx.sender, tx.to, tx.amount, false) in schedule
    ensures tx.value == if tx.amount == 0 then cfg.defaultAmount else tx.amount
    ensures tx.address in cfg.addresses
  {
    RunAsked(cfg, Init(cfg), [], schedule);
    assert [] + schedule == schedule;
  }

  lemma {:induction false} RefusedForEver(cfg: Config, s: State, schedule: seq<Action>, c: nat)
    requires |s.taken| == |cfg.addresses|
    requires c in s.callers && s.callers[c].pc.Refused? && forall tx :: tx in s.accepted ==> tx.sender != c
    ensures forall tx :: tx in Run(cfg, s, schedule).accepted ==> tx.sender != c
    decreases |schedule|
  {
    if schedule != [] {
      var a := schedule[0];
      if Step(cfg, s, a).Some? {
        var u := Step(cfg, s, a).value;
        StepLength(cfg, s, a);
        StepCallers(cfg, s, a);
        OthersStayRefused(cfg, s, a);
        assert forall tx :: tx in u.accepted ==> tx in s.accepted || (a.Send? && a.caller == tx.sender);
        RefusedForEver(cfg, u, schedule[1..], c);
      } else {
        RefusedForEver(cfg, s, schedule[1..], c);
      }
    }
  }

  // A call that is refused, for the balance of its recipient, never sends anything.
  lemma {:induction false} RefusedSendsNothing(cfg: Config, past: seq<Action>, c: nat, to: Bytes, amount: int, more: seq<Action>)
    requires c !in Run(cfg, Init(cfg), past).callers
    ensures forall tx :: tx in Run(cfg, Init(cfg), past + ([Call(c, to, amount, true)] + more)).accepted ==> tx.sender != c
  {
    var call := Call(c, to, amount, true);
    EveryScheduleGood(cfg, past);
    var s := Run(cfg, Init(cfg), past);
    RunConcat(cfg, Init(cfg), past, [call] + more);
    RunConcat(cfg, s, [call], more);
    RunOne(cfg, s, call);
    RefusedForEver(cfg, Run(cfg, s, [call]), more, c);
  }

  // ---------- What the balance check protects ----------

  // Every accepted transfer of the amount was covered by the balance its sender had read.
  ghost predicate Covered(txs: seq<Tx>, amount: int) {
    forall tx :: tx in txs && tx.amount == amount ==> tx.funds >= tx.value
  }

  lemma {:induction false} EmptyPoolSendsNothing(cfg: Config, s: State, schedule: seq<Action>)
    requires |s.taken| == |cfg.addresses| == 0 && s.accepted == []
    ensures Run(cfg, s, schedule).accepted == []
    decreases |schedule|
  {
    if schedule != [] {
      if Step(cfg, s, schedule[0]).Some? {
        StepLength(cfg, s, schedule[0]);
        EmptyPoolSendsNothing(cfg, Step(cfg, s, schedule[0]).value, schedule[1..]);
      } else {
        EmptyPoolSendsNothing(cfg, s, schedule[1..]);
      }
    }
  }

  // One call that finds exactly the default amount.
  function Uncovered(cfg: Config, amount: int): seq<Action> {
    [Call(0, [], amount, false), TryLock(0), Balance(0, Some(cfg.defaultAmount)), Nonce(0, true), Send(0, Accepted)]
  }

  lemma {:induction false} LargeAmountUncovered(cfg: Config, amount: int)
    requires cfg.addresses != [] && amount > cfg.defaultAmount
    ensures !Covered(Run(cfg, Init(cfg), Uncovered(cfg, amount)).accepted, amount)
  {
    var s, r := Init(cfg), Uncovered(cfg, amount);
    var s1 := Step(cfg, s, r[0]).value;
    var s2 := Step(cfg, s1, r[1]).value;
    var s3 := Step(cfg, s2, r[2]).value;
    var s4 := Step(cfg, s3, r[3]).value;
    var s5 := Step(cfg, s4, r[4]).value;
    Unroll(cfg, s, r);
    Unroll(cfg, s1, r[1..]);
    Unroll(cfg, s2, r[2..]);
    Unroll(cfg, s3, r[3..]);
    Unroll(cfg, s4, r[4..]);
    assert s5.accepted == [Tx(cfg.addresses[0], s4.callers[0].pc.nonce, [], amount, 0, amount, cfg.defaultAmount, true)];
    assert s5.accepted[0] in s5.accepted;
  }

  // In every interleaving the accepted transfers of an amount were covered by the balances read before
  // them, exactly when the amount is no more than the default one (or the pool is empty and sends nothing).
  lemma {:induction false} CheckCovers(cfg: Config, amount: int)
    ensures (forall schedule :: Covered(Run(cfg, Init(cfg), schedule).accepted, amount)) <==>
            cfg.addresses == [] || amount <= cfg.defaultAmount
  {
    if cfg.addresses == [] {
      forall schedule ensures Covered(Run(cfg, Init(cfg), schedule).accepted, amount) {
        EmptyPoolSendsNothing(cfg, Init(cfg), schedule);
      }
    } else if amount <= cfg.defaultAmount {
      forall schedule ensures Covered(Run(cfg, Init(cfg), schedule).accepted, amount) {
        EveryScheduleGood(cfg, schedule);
      }
    } else {
      LargeAmountUncovered(cfg, amount);
    }
  }

  // ---------- One transaction per call ----------

  ghost predicate SentAt(txs: seq<Tx>, c: nat, k: int) {
    forall l :: 0 <= l < |txs| && txs[l].sender == c ==> l == k
  }

  // Exactly one transaction of the list was sent by the call.
  ghost predicate SentOnce(txs: seq<Tx>, c: nat) {
    exists k :: 0 <= k < |txs| && txs[k].sender == c && SentAt(txs, c, k)
  }

  lemma {:induction false} OthersCountNone(txs: seq<Tx>, c: nat)
    requires forall l :: 0 <= l < |txs| ==> txs[l].sender != c
    ensures CountBy(txs, c, true) == 0 && CountBy(txs, c, false) == 0
  {
    if txs != [] {
      OthersCountNone(txs[..|txs| - 1], c);
    }
  }

  lemma {:induction false} OnlyOneCounts(txs: seq<Tx>, c: nat)
    requires SentOnce(txs, c)
    ensures CountBy(txs, c, true) + CountBy(txs, c, false) == 1
  {
    var k :| 0 <= k < |txs| && txs[k].sender == c && SentAt(txs, c, k);
    var n := |txs| - 1;
    assert forall l :: 0 <= l < n ==> txs[l] == txs[..n][l];
    if k == n {
      OthersCountNone(txs[..n], c);
    } else {
      assert SentAt(txs[..n], c, k) && txs[..n][k].sender == c;
      OnlyOneCounts(txs[..n], c);
      assert txs[n].sender != c;
    }
  }

  lemma {:induction false} NoneBy(txs: seq<Tx>, c: nat)
    requires CountBy(txs, c, true) == 0 && CountBy(txs, c, false) == 0
    ensures forall l :: 0 <= l < |txs| ==> txs[l].sender != c
  {
    if txs != [] {
      NoneBy(txs[..|txs| - 1], c);
    }
  }

  lemma {:induction false} TheOnlyOne(txs: seq<Tx>, c: nat)
    requires CountBy(txs, c, true) == 1 && CountBy(txs, c, false) == 0
    ensures SentOnce(txs, c)
  {
    var n := |txs| - 1;
    assert forall l :: 0 <= l < n ==> txs[l] == txs[..n][l];
    if txs[n].sender == c {
      NoneBy(txs[..n], c);
      assert SentAt(txs, c, n);
    } else {
      TheOnlyOne(txs[..n], c);
      var k :| 0 <= k < n && txs[..n][k].sender == c && SentAt(txs[..n], c, k);
      assert txs[k].sender == c && SentAt(txs, c, k);
    }
  }

  // A call that returns without error was told of one accepted transaction, and that is the only
  // one it sent if no acceptance was reported to it as a failure.
  lemma {:induction false} ReturnedSentOnce(cfg: Config, schedule: seq<Action>, c: nat)
    requires c in Run(cfg, Init(cfg), schedule).callers && Run(cfg, Init(cfg), schedule).callers[c].pc.Returned?
    ensures var txs := Run(cfg, Init(cfg), schedule).accepted;
            CountBy(txs, c, true) == 1 && (CountBy(txs, c, false) == 0 <==> SentOnce(txs, c))
  {
    EveryScheduleGood(cfg, schedule);
    var s := Run(cfg, Init(cfg), schedule);
    assert Succeeded(s, c) && CountBy(s.accepted, c, true) == 1;
    if CountBy(s.accepted, c, false) == 0 {
      TheOnlyOne(s.accepted, c);
    }
    if SentOnce(s.accepted, c) {
      OnlyOneCounts(s.accepted, c);
    }
  }
}
