// The signer pool cannot get stuck: whatever has happened, some continuation ends every call
// and empties every channel, unless there is no signer at all.

module FaucetProgress {
  import opened Basics
  import opened Faucet

  predicate Ended(pc: Pc) {
    pc.Returned? || pc.Refused?
  }

  ghost predicate AllFree(s: State) {
    s.waiters == map[] && forall i :: 0 <= i < |s.taken| ==> !s.taken[i]
  }

  // Every call has ended, no waiter is left, and every channel is empty.
  ghost predicate Finished(s: State) {
    AllFree(s) && forall c :: c in s.callers ==> Ended(s.callers[c].pc)
  }

  // ---------- Freeing the slots ----------

  lemma {:induction false} FreshWaiter(used: set<nat>) returns (w: nat)
    ensures w !in used
  {
    w := 0;
    var below: set<nat> := {};
    while w in used
      invariant below == set v: nat | v < w && v in used
      invariant |below| == w && below <= used
      decreases |used| - w
    {
      SubsetCardinality(below + {w}, used);
      below := below + {w};
      w := w + 1;
    }
  }

  lemma {:induction false} WaiterFrees(cfg: Config, s: State, w: nat) returns (schedule: seq<Action>)
    requires Exclusive(cfg, s) && w in s.waiters
    ensures s.waiters[w].i < |s.taken|
    ensures Run(cfg, s, schedule) == s.(waiters := s.waiters - {w}, taken := s.taken[s.waiters[w].i := false])
  {
    assert Owns(s, ByWaiter(w), s.waiters[w].i);
    if s.waiters[w].Ending? {
      schedule := [Finish(w)];
      RunOne(cfg, s, Finish(w));
    } else {
      schedule := [Poll(w, true)] + [Finish(w)];
      var s1 := s.(waiters := s.waiters[w := Ending(s.waiters[w].i)]);
      RunConcat(cfg, s, [Poll(w, true)], [Finish(w)]);
      RunOne(cfg, s, Poll(w, true));
      RunOne(cfg, s1, Finish(w));
      assert s1.waiters - {w} == s.waiters - {w};
    }
  }

  // A caller that has sent hands its signer over, and the waiter sees the transaction through.
  lemma {:induction false} HandingFrees(cfg: Config, s: State, c: nat) returns (schedule: seq<Action>)
    requires Good(cfg, s) && c in s.callers && s.callers[c].pc.Handing?
    ensures var i, u := s.callers[c].pc.i, Run(cfg, s, schedule);
            && i < |s.taken| && u.taken == s.taken[i := false]
            && u.waiters == s.waiters && u.callers == Move(s, c, Returned).callers
  {
    var w := FreshWaiter(s.handed.Values);
    var i := s.callers[c].pc.i;
    assert Owns(s, ByCaller(c), i);
    assert w !in s.waiters;
    var s1 := Step(cfg, s, Start(c, w)).value;
    StartExclusive(cfg, s, c, w);
    var rest := WaiterFrees(cfg, s1, w);
    schedule := [Start(c, w)] + rest;
    RunConcat(cfg, s, [Start(c, w)], rest);
    RunOne(cfg, s, Start(c, w));
    assert s1.waiters - {w} == s.waiters;
  }

  // The step that makes a caller give up its signer.
  function GiveUp(c: nat, pc: Pc): seq<Action> {
    match pc
    case Checking(_) => [Balance(c, None)]
    case Pricing(_, _) => [Nonce(c, false)]
    case Sending(_, _, _) => [Send(c, Rejected)]
    case _ => []
  }

  lemma {:induction false} CallerFrees(cfg: Config, s: State, c: nat, i: nat) returns (schedule: seq<Action>)
    requires Good(cfg, s) && Owns(s, ByCaller(c), i)
    ensures Run(cfg, s, schedule).taken == s.taken[i := false]
  {
    var pc := s.callers[c].pc;
    if pc.Handing? {
      schedule := HandingFrees(cfg, s, c);
    } else {
      var s1 := Run(cfg, s, GiveUp(c, pc));
      if !pc.Releasing? { RunOne(cfg, s, GiveUp(c, pc)[0]); }
      assert s1.taken == s.taken && c in s1.callers && s1.callers[c].pc == Releasing(i);
      schedule := GiveUp(c, pc) + [Release(c)];
      RunConcat(cfg, s, GiveUp(c, pc), [Release(c)]);
      RunOne(cfg, s1, Release(c));
    }
  }

  function FullSlots(s: State): set<nat> {
    set i: nat | i < |s.taken| && s.taken[i]
  }

  // From every state of a run some continuation empties every channel.
  lemma {:induction false} CanFree(cfg: Config, s: State) returns (schedule: seq<Action>)
    requires Good(cfg, s)
    ensures Good(cfg, Run(cfg, s, schedule)) && AllFree(Run(cfg, s, schedule))
    decreases |FullSlots(s)|
  {
    if i: nat :| i < |s.taken| && s.taken[i] {
      var o :| Owns(s, o, i);
      var first: seq<Action>;
      match o {
        case ByCaller(c) => first := CallerFrees(cfg, s, c, i);
        case ByWaiter(w) => first := WaiterFrees(cfg, s, w);
      }
      var s1 := Run(cfg, s, first);
      RunGood(cfg, s, first);
      assert FullSlots(s1) == FullSlots(s) - {i};
      assert i in FullSlots(s);
      var rest := CanFree(cfg, s1);
      schedule := first + rest;
      RunConcat(cfg, s, first, rest);
    } else {
      schedule := [];
      assert forall w :: w in s.waiters ==> Owns(s, ByWaiter(w), s.waiters[w].i);
    }
  }

  // ---------- Ending the calls ----------

  lemma {:induction false} SleeperScans(cfg: Config, s: State, c: nat) returns (schedule: seq<Action>, i: nat)
    requires Good(cfg, s) && AllFree(s) && cfg.addresses != []
    requires c in s.callers && !Ended(s.callers[c].pc)
    ensures i < |s.taken| && Run(cfg, s, schedule) == Move(s, c, Scanning(i))
  {
    var pc := s.callers[c].pc;
    assert forall k :: !Owns(s, ByCaller(c), k);
    if pc.Scanning? && pc.i < |s.taken| {
      schedule, i := [], pc.i;
      assert s.callers[c := s.callers[c].(pc := pc)] == s.callers;
    } else {
      assert pc.Checking? || pc.Pricing? || pc.Sending? || pc.Handing? || pc.Releasing? ==> Owns(s, ByCaller(c), pc.i);
      var s1 := Move(s, c, Sleeping);
      var first := if pc.Scanning? then [TryLock(c)] else [];
      if pc.Scanning? {
        RunOne(cfg, s, TryLock(c));
      } else {
        assert s1.callers == s.callers;
      }
      schedule, i := first + [Wake(c)], 0;
      RunConcat(cfg, s, first, [Wake(c)]);
      RunOne(cfg, s1, Wake(c));
      assert Move(s1, c, Scanning(0)) == Move(s, c, Scanning(0));
    }
  }

  // The node and the account let the call through.
  function Success(cfg: Config, c: nat): seq<Action> {
    [TryLock(c), Balance(c, Some(cfg.defaultAmount)), Nonce(c, true), Send(c, Accepted)]
  }

  lemma {:induction false} ScannerSends(cfg: Config, s: State, c: nat, i: nat)
    requires |s.taken| == |cfg.addresses| && i < |s.taken| && !s.taken[i]
    requires c in s.callers && s.callers[c].pc == Scanning(i)
    ensures var u := Run(cfg, s, Success(cfg, c));
            u.callers == Move(s, c, Handing(i)).callers && u.taken == s.taken[i := true] && u.waiters == s.waiters
  {
    var r := Success(cfg, c);
    var s1 := Step(cfg, s, r[0]).value;
    var s2 := Step(cfg, s1, r[1]).value;
    var s3 := Step(cfg, s2, r[2]).value;
    Unroll(cfg, s, r);
    Unroll(cfg, s1, r[1..]);
    Unroll(cfg, s2, r[2..]);
    Unroll(cfg, s3, r[3..]);
  }

  lemma {:induction false} ScannerReturns(cfg: Config, s: State, c: nat, i: nat) returns (schedule: seq<Action>)
    requires Good(cfg, s) && AllFree(s) && i < |s.taken|
    requires c in s.callers && s.callers[c].pc == Scanning(i)
    ensures var u := Run(cfg, s, schedule); AllFree(u) && u.callers == Move(s, c, Returned).callers
  {
    ScannerSends(cfg, s, c, i);
    var s1 := Run(cfg, s, Success(cfg, c));
    RunGood(cfg, s, Success(cfg, c));
    var last := HandingFrees(cfg, s1, c);
    schedule := Success(cfg, c) + last;
    RunConcat(cfg, s, Success(cfg, c), last);
    assert Move(s1, c, Returned).callers == Move(s, c, Returned).callers;
  }

  // While every signer is free, any call can return.
  lemma {:induction false} CanReturn(cfg: Config, s: State, c: nat) returns (schedule: seq<Action>)
    requires Good(cfg, s) && AllFree(s) && cfg.addresses != []
    requires c in s.callers && !Ended(s.callers[c].pc)
    ensures var u := Run(cfg, s, schedule);
            Good(cfg, u) && AllFree(u) && u.callers == Move(s, c, Returned).callers
  {
    var first, i := SleeperScans(cfg, s, c);
    var s1 := Run(cfg, s, first);
    RunGood(cfg, s, first);
    var rest := ScannerReturns(cfg, s1, c, i);
    schedule := first + rest;
    RunConcat(cfg, s, first, rest);
    RunGood(cfg, s, schedule);
    assert Move(s1, c, Returned).callers == Move(s, c, Returned).callers;
  }

  function Running(s: State): set<nat> {
    set c | c in s.callers && !Ended(s.callers[c].pc)
  }

  lemma {:induction false} CanReturnAll(cfg: Config, s: State) returns (schedule: seq<Action>)
    requires Good(cfg, s) && AllFree(s) && cfg.addresses != []
    ensures Finished(Run(cfg, s, schedule))
    decreases |Running(s)|
  {
    if c :| c in s.callers && !Ended(s.callers[c].pc) {
      var first := CanReturn(cfg, s, c);
      var s1 := Run(cfg, s, first);
      assert Running(s1) == Running(s) - {c};
      assert c in Running(s);
      var rest := CanReturnAll(cfg, s1);
      schedule := first + rest;
      RunConcat(cfg, s, first, rest);
    } else {
      schedule := [];
    }
  }

  // Without signers a running call scans and sleeps for ever.
  lemma {:induction false} StuckForEver(cfg: Config, s: State, c: nat, schedule: seq<Action>)
    requires |s.taken| == |cfg.addresses| == 0
    requires c in s.callers && (s.callers[c].pc.Scanning? || s.callers[c].pc.Sleeping?)
    ensures !Finished(Run(cfg, s, schedule))
    decreases |schedule|
  {
    if schedule != [] {
      if Step(cfg, s, schedule[0]).Some? {
        StepLength(cfg, s, schedule[0]);
        StuckForEver(cfg, Step(cfg, s, schedule[0]).value, c, schedule[1..]);
      } else {
        StuckForEver(cfg, s, c, schedule[1..]);
      }
    }
  }

  lemma {:induction false} NoSigners(cfg: Config, s: State)
    requires Good(cfg, s) && cfg.addresses == [] && !Finished(s)
    ensures exists c :: c in s.callers && (s.callers[c].pc.Scanning? || s.callers[c].pc.Sleeping?)
  {
    assert forall w :: w in s.waiters ==> Owns(s, ByWaiter(w), s.waiters[w].i);
    var c :| c in s.callers && !Ended(s.callers[c].pc);
    var pc := s.callers[c].pc;
    assert pc.Checking? || pc.Pricing? || pc.Sending? || pc.Handing? || pc.Releasing? ==> Owns(s, ByCaller(c), pc.i);
  }

  ghost predicate CanFinish(cfg: Config, s: State)
    requires |s.taken| == |cfg.addresses|
  {
    exists schedule :: Finished(Run(cfg, s, schedule))
  }

  lemma {:induction false} GoodCanFinish(cfg: Config, s: State)
    requires Good(cfg, s) && (cfg.addresses != [] || Finished(s))
    ensures CanFinish(cfg, s)
  {
    if cfg.addresses != [] {
      var first := CanFree(cfg, s);
      var rest := CanReturnAll(cfg, Run(cfg, s, first));
      RunConcat(cfg, s, first, rest);
      assert Finished(Run(cfg, s, first + rest));
    } else {
      assert Finished(Run(cfg, s, []));
    }
  }

  // In every state of every run some continuation ends all calls and leaves every channel empty,
  // exactly when the pool has a signer or there is nothing left to do.
  lemma {:induction false} NeverStuck(cfg: Config, past: seq<Action>)
    ensures var s := Run(cfg, Init(cfg), past);
            && |s.taken| == |cfg.addresses|
            && (CanFinish(cfg, s) <==> cfg.addresses != [] || Finished(s))
  {
    EveryScheduleGood(cfg, past);
    var s := Run(cfg, Init(cfg), past);
    if cfg.addresses != [] || Finished(s) {
      GoodCanFinish(cfg, s);
    } else {
      NoSigners(cfg, s);
      var c :| c in s.callers && (s.callers[c].pc.Scanning? || s.callers[c].pc.Sleeping?);
      forall schedule ensures !Finished(Run(cfg, s, schedule)) {
        StuckForEver(cfg, s, c, schedule);
      }
    }
  }

  // ---------- A lost answer ----------

  lemma {:induction false} AcceptedStay(cfg: Config, s: State, schedule: seq<Action>)
    requires |s.taken| == |cfg.addresses|
    ensures s.accepted <= Run(cfg, s, schedule).accepted
    decreases |schedule|
  {
    if schedule != [] {
      if Step(cfg, s, schedule[0]).Some? {
        StepLength(cfg, s, schedule[0]);
        assert s.accepted <= Step(cfg, s, schedule[0]).value.accepted;
        AcceptedStay(cfg, Step(cfg, s, schedule[0]).value, schedule[1..]);
      } else {
        AcceptedStay(cfg, s, schedule[1..]);
      }
    }
  }

  lemma {:induction false} CountsGrow(txs: seq<Tx>, more: seq<Tx>, c: nat, reported: bool)
    requires txs <= more
    ensures CountBy(txs, c, reported) <= CountBy(more, c, reported)
    decreases |more|
  {
    if txs != more {
      assert txs <= more[..|more| - 1];
      CountsGrow(txs, more[..|more| - 1], c, reported);
    }
  }

  // The node accepts the transaction of a call whose answer gets lost.
  function LoseOne(cfg: Config): seq<Action> {
    [Call(0, [], 0, false), TryLock(0), Balance(0, Some(cfg.defaultAmount)), Nonce(0, true), Send(0, Lost), Release(0)]
  }

  lemma {:induction false} OneLost(cfg: Config)
    requires cfg.addresses != []
    ensures var s := Run(cfg, Init(cfg), LoseOne(cfg));
            AllFree(s) && 0 in s.callers && s.callers[0].pc == Scanning(1) && CountBy(s.accepted, 0, false) == 1
  {
    var s, r := Init(cfg), LoseOne(cfg);
    var s1 := Step(cfg, s, r[0]).value;
    var s2 := Step(cfg, s1, r[1]).value;
    var s3 := Step(cfg, s2, r[2]).value;
    var s4 := Step(cfg, s3, r[3]).value;
    var s5 := Step(cfg, s4, r[4]).value;
    Unroll(cfg, s, r);
    Unroll(cfg, s1, r[1..]);
    Unroll(cfg, s2, r[2..]);
    Unroll(cfg, s3, r[3..]);
    Unroll(cfg, s4, r[4..]);
    Unroll(cfg, s5, r[5..]);
    assert s5.accepted[..0] == [];
  }

  // With signers to spare, a call can return after two accepted transactions: that no acceptance is reported
  // to it as a failure is needed for it to have sent only one.
  lemma {:induction false} LostSendsTwice(cfg: Config) returns (schedule: seq<Action>)
    requires cfg.addresses != []
    ensures var u := Run(cfg, Init(cfg), schedule);
            0 in u.callers && u.callers[0].pc.Returned? && CountBy(u.accepted, 0, true) == 1 && !SentOnce(u.accepted, 0)
  {
    var first := LoseOne(cfg);
    OneLost(cfg);
    EveryScheduleGood(cfg, first);
    var s := Run(cfg, Init(cfg), first);
    var rest := CanReturn(cfg, s, 0);
    schedule := first + rest;
    RunConcat(cfg, Init(cfg), first, rest);
    AcceptedStay(cfg, s, rest);
    CountsGrow(s.accepted, Run(cfg, s, rest).accepted, 0, false);
    ReturnedSentOnce(cfg, schedule, 0);
  }
}
