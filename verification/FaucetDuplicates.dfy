// Why the pool entries must have different addresses: with a repeated address some
// interleaving makes the node accept two transactions with the same nonce.

module FaucetDuplicates {
  import opened Basics
  import opened Faucet

  // A caller tries one entry, cannot read its balance and moves on.
  function Skip(c: nat): seq<Action> {
    [TryLock(c)] + ([Balance(c, None)] + [Release(c)])
  }

  function SkipAll(c: nat, n: nat): seq<Action> {
    if n == 0 then [] else Skip(c) + SkipAll(c, n - 1)
  }

  lemma {:induction false} SkipOne(cfg: Config, s: State, c: nat, k: nat)
    requires |s.taken| == |cfg.addresses| && c in s.callers && s.callers[c].pc == Scanning(k) && k < |s.taken|
    ensures Run(cfg, s, Skip(c)) == Move(s, c, Scanning(k + 1))
  {
    var s1 := Run(cfg, s, [TryLock(c)]);
    RunOne(cfg, s, TryLock(c));
    RunConcat(cfg, s, [TryLock(c)], [Balance(c, None)] + [Release(c)]);
    RunConcat(cfg, s1, [Balance(c, None)], [Release(c)]);
    RunOne(cfg, s1, Balance(c, None));
    var s2 := Run(cfg, s1, [Balance(c, None)]);
    RunOne(cfg, s2, Release(c));
    if !s.taken[k] {
      assert s.taken[k := true][k := false] == s.taken;
      assert s2 == Move(s, c, Releasing(k)).(taken := s.taken[k := true]);
    }
  }

  lemma {:induction false} SkipMany(cfg: Config, s: State, c: nat, k: nat, n: nat)
    requires |s.taken| == |cfg.addresses| && c in s.callers && s.callers[c].pc == Scanning(k) && k + n <= |s.taken|
    ensures Run(cfg, s, SkipAll(c, n)) == Move(s, c, Scanning(k + n))
    decreases n
  {
    if n == 0 {
      assert s.callers[c := s.callers[c].(pc := Scanning(k))] == s.callers;
    } else {
      SkipOne(cfg, s, c, k);
      RunConcat(cfg, s, Skip(c), SkipAll(c, n - 1));
      SkipMany(cfg, Move(s, c, Scanning(k + 1)), c, k + 1, n - 1);
    }
  }

  lemma {:induction false} WalkAndTake(cfg: Config, s: State, c: nat, i: nat)
    requires |s.taken| == |cfg.addresses| && i < |s.taken| && !s.taken[i]
    requires c in s.callers && s.callers[c] == Caller([], 0, Scanning(0))
    ensures Run(cfg, s, SkipAll(c, i) + [TryLock(c)]) ==
            s.(callers := s.callers[c := Caller([], 0, Checking(i))], taken := s.taken[i := true])
  {
    RunConcat(cfg, s, SkipAll(c, i), [TryLock(c)]);
    SkipMany(cfg, s, c, 0, i);
    RunOne(cfg, Move(s, c, Scanning(i)), TryLock(c));
  }

  function Approach(c: nat, i: nat): seq<Action> {
    [Call(c, [], 0, false)] + (SkipAll(c, i) + [TryLock(c)])
  }

  // A caller that starts takes the free entry i.
  lemma {:induction false} Reach(cfg: Config, s: State, c: nat, i: nat)
    requires |s.taken| == |cfg.addresses| && c !in s.callers && i < |s.taken| && !s.taken[i]
    ensures Run(cfg, s, Approach(c, i)) ==
            s.(callers := s.callers[c := Caller([], 0, Checking(i))], taken := s.taken[i := true])
  {
    var s1 := s.(callers := s.callers[c := Caller([], 0, Scanning(0))]);
    RunConcat(cfg, s, [Call(c, [], 0, false)], SkipAll(c, i) + [TryLock(c)]);
    RunOne(cfg, s, Call(c, [], 0, false));
    WalkAndTake(cfg, s1, c, i);
    assert s1.callers[c := Caller([], 0, Checking(i))] == s.callers[c := Caller([], 0, Checking(i))];
  }

  // Both read the nonce before either sends.
  function BothRead(cfg: Config): seq<Action> {
    [Balance(0, Some(cfg.defaultAmount)), Balance(1, Some(cfg.defaultAmount)), Nonce(0, true), Nonce(1, true)]
  }

  const BOTH_SEND: seq<Action> := [Send(0, Accepted), Send(1, Accepted)]

  lemma {:induction false} BothReadSame(cfg: Config, s: State, i: nat, j: nat)
    requires |s.taken| == |cfg.addresses| && s.accepted == []
    requires i < |cfg.addresses| && j < |cfg.addresses| && cfg.addresses[i] == cfg.addresses[j]
    requires s.callers == map[0 := Caller([], 0, Checking(i)), 1 := Caller([], 0, Checking(j))]
    ensures var u, n := Run(cfg, s, BothRead(cfg)), cfg.start(cfg.addresses[i]);
            && |u.taken| == |cfg.addresses| && u.accepted == []
            && 0 in u.callers && u.callers[0] == Caller([], 0, Sending(i, cfg.defaultAmount, n))
            && 1 in u.callers && u.callers[1] == Caller([], 0, Sending(j, cfg.defaultAmount, n))
  {
    var r := BothRead(cfg);
    var s1 := Step(cfg, s, r[0]).value;
    var s2 := Step(cfg, s1, r[1]).value;
    var s3 := Step(cfg, s2, r[2]).value;
    Unroll(cfg, s, r);
    Unroll(cfg, s1, r[1..]);
    Unroll(cfg, s2, r[2..]);
    Unroll(cfg, s3, r[3..]);
  }

  lemma {:induction false} BothSendClash(cfg: Config, s: State, i: nat, j: nat, n: nat)
    requires |s.taken| == |cfg.addresses| && s.accepted == []
    requires i < |cfg.addresses| && j < |cfg.addresses| && cfg.addresses[i] == cfg.addresses[j]
    requires 0 in s.callers && s.callers[0] == Caller([], 0, Sending(i, cfg.defaultAmount, n))
    requires 1 in s.callers && s.callers[1] == Caller([], 0, Sending(j, cfg.defaultAmount, n))
    ensures !NoncesUnique(Run(cfg, s, BOTH_SEND).accepted)
  {
    var r := BOTH_SEND;
    var s1 := Step(cfg, s, r[0]).value;
    var s2 := Step(cfg, s1, r[1]).value;
    Unroll(cfg, s, r);
    Unroll(cfg, s1, r[1..]);
    assert s2.accepted[0].nonce == n && s2.accepted[1].nonce == n;
  }

  function Race(cfg: Config): seq<Action> {
    BothRead(cfg) + BOTH_SEND
  }

  lemma {:induction false} RaceClashes(cfg: Config, s: State, i: nat, j: nat)
    requires |s.taken| == |cfg.addresses| && s.accepted == []
    requires i < |cfg.addresses| && j < |cfg.addresses| && cfg.addresses[i] == cfg.addresses[j]
    requires s.callers == map[0 := Caller([], 0, Checking(i)), 1 := Caller([], 0, Checking(j))]
    ensures !NoncesUnique(Run(cfg, s, Race(cfg)).accepted)
  {
    BothReadSame(cfg, s, i, j);
    BothSendClash(cfg, Run(cfg, s, BothRead(cfg)), i, j, cfg.start(cfg.addresses[i]));
    RunConcat(cfg, s, BothRead(cfg), BOTH_SEND);
  }

  // Two callers reach the two entries with one address, and race.
  lemma {:induction false} SameAddressClashes(cfg: Config, i: nat, j: nat)
    requires i < j < |cfg.addresses| && cfg.addresses[i] == cfg.addresses[j]
    ensures exists schedule :: !NoncesUnique(Run(cfg, Init(cfg), schedule).accepted)
  {
    var s := Init(cfg);
    var first, second := Approach(0, i), Approach(1, j);
    Reach(cfg, s, 0, i);
    var s1 := Run(cfg, s, first);
    Reach(cfg, s1, 1, j);
    var s2 := Run(cfg, s1, second);
    RunConcat(cfg, s, first, second);
    RunConcat(cfg, s, first + second, Race(cfg));
    RaceClashes(cfg, s2, i, j);
    assert !NoncesUnique(Run(cfg, s, first + second + Race(cfg)).accepted);
  }

  // Nonces are unique in every interleaving exactly when the addresses of the pool are distinct.
  lemma {:induction false} UniqueIffDistinct(cfg: Config)
    ensures Distinct(cfg.addresses) <==>
            forall schedule :: NoncesUnique(Run(cfg, Init(cfg), schedule).accepted)
  {
    if Distinct(cfg.addresses) {
      forall schedule ensures NoncesUnique(Run(cfg, Init(cfg), schedule).accepted) {
        EveryScheduleUnique(cfg, schedule);
      }
    } else {
      var i, j :| 0 <= i < j < |cfg.addresses| && cfg.addresses[i] == cfg.addresses[j];
      SameAddressClashes(cfg, i, j);
    }
  }
}
