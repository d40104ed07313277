/** Projects do not influence each other, and what may remove a key. */
module Isolation {
  import opened Model
  import opened Protocol
  import opened Linearizability
  import opened Race
  import opened Reduction

  /* ----- per-project decomposition ----- */

  /** The part of the system that concerns one key. */
  function Only(s: State, p: string): State {
    State(s.now,
          Part(s.dmap, p),
          map c | c in s.clients && s.clients[c].req.key == p :: s.clients[c])
  }

  function Part(dmap: map<string, Entry>, p: string): map<string, Entry> {
    map k | k in dmap && k == p :: dmap[k]
  }

  lemma PartOfSet(dmap: map<string, Entry>, p: string, key: string, cell: Cell)
    ensures Part(Set(dmap, key, cell), p) == if key == p then Set(Part(dmap, p), p, cell) else Part(dmap, p)
  {
  }

  predicate Concerns(s: State, a: Action, p: string)
    requires Enabled(s, a)
  {
    match a
    case Invoke(_, req) => req.key == p
    case Tick(_) => true
    case _ => s.clients[a.c].req.key == p
  }

  function Keep(mode: Mode, s: State, run: seq<Action>, p: string): seq<Action>
    requires Valid(mode, s, run)
    decreases |run|
  {
    if run == [] then [] else
      (if Concerns(s, run[0], p) then [run[0]] else []) + Keep(mode, Apply(mode, s, run[0]), run[1..], p)
  }

  function OnKey(h: seq<Event>, p: string): seq<Event> {
    if h == [] then [] else (if h[0].req.key == p then [h[0]] else []) + OnKey(h[1..], p)
  }

  lemma {:induction false} OnKeyConcat(h: seq<Event>, h': seq<Event>, p: string)
    ensures OnKey(h + h', p) == OnKey(h, p) + OnKey(h', p)
    decreases |h|
  {
    if h == [] {
      assert h + h' == h';
    } else {
      assert (h + h')[0] == h[0] && (h + h')[1..] == h[1..] + h';
      OnKeyConcat(h[1..], h', p);
      var first := if h[0].req.key == p then [h[0]] else [];
      assert OnKey(h + h', p) == first + (OnKey(h[1..], p) + OnKey(h', p));
    }
  }

  lemma ProjectOwn(mode: Mode, s: State, a: Action, p: string)
    requires Enabled(s, a) && Concerns(s, a, p)
    ensures Enabled(Only(s, p), a)
    ensures Apply(mode, Only(s, p), a) == Only(Apply(mode, s, a), p)
    ensures Emit(mode, Only(s, p), a) == Emit(mode, s, a)
  {
    var s', t := Apply(mode, s, a), Apply(mode, Only(s, p), a);
    if a.Step? {
      assert Look(Part(s.dmap, p), p) == Look(s.dmap, p);
      var (pc, cell) := Effect(mode, s, a.c, a.stamp);
      assert Effect(mode, Only(s, p), a.c, a.stamp) == (pc, cell);
      PartOfSet(s.dmap, p, p, cell);
      assert s'.dmap == Set(s.dmap, p, cell) && t.dmap == Set(Part(s.dmap, p), p, cell);
    } else {
      assert t.dmap == Part(s'.dmap, p);
    }
    assert t.clients == Only(s', p).clients;
  }

  lemma ProjectOther(mode: Mode, s: State, a: Action, p: string)
    requires Enabled(s, a) && !Concerns(s, a, p)
    ensures Only(Apply(mode, s, a), p) == Only(s, p)
  {
    var s' := Apply(mode, s, a);
    if a.Step? {
      var (pc, cell) := Effect(mode, s, a.c, a.stamp);
      PartOfSet(s.dmap, p, s.clients[a.c].req.key, cell);
      assert s'.dmap == Set(s.dmap, s.clients[a.c].req.key, cell);
    }
    assert Only(s', p).clients == Only(s, p).clients;
  }

  lemma EmitOnKey(mode: Mode, s: State, a: Action, p: string)
    requires Enabled(s, a)
    ensures OnKey(Emit(mode, s, a), p) == if Concerns(s, a, p) then Emit(mode, s, a) else []
  {
  }

  /** Leaving out everything that concerns other keys yields a run of one key alone: the same
      clients with the same answers, the same events, the same entry in the store. */
  lemma {:induction false} Projects(mode: Mode, s: State, run: seq<Action>, p: string)
    requires Valid(mode, s, run)
    ensures Valid(mode, Only(s, p), Keep(mode, s, run, p))
    ensures Exec(mode, Only(s, p), Keep(mode, s, run, p)) == Only(Exec(mode, s, run), p)
    ensures Events(mode, Only(s, p), Keep(mode, s, run, p)) == OnKey(Events(mode, s, run), p)
    decreases |run|
  {
    if run != [] {
      var s' := Apply(mode, s, run[0]);
      EmitOnKey(mode, s, run[0], p);
      Projects(mode, s', run[1..], p);
      var rest := Keep(mode, s', run[1..], p);
      OnKeyConcat(Emit(mode, s, run[0]), Events(mode, s', run[1..]), p);
      if Concerns(s, run[0], p) {
        ProjectOwn(mode, s, run[0], p);
        assert Keep(mode, s, run, p)[0] == run[0] && Keep(mode, s, run, p)[1..] == rest;
      } else {
        ProjectOther(mode, s, run[0], p);
        assert Keep(mode, s, run, p) == rest;
      }
    }
  }

  /** For a project that no health check uses as its test key, that run is a run of lock
      clients only. */
  lemma ProjectRunsAlone(mode: Mode, s: State, run: seq<Action>, tests: set<string>, p: string)
    requires Valid(mode, s, run) && Separated(s, tests) && KeepsApart(run, tests) && p !in tests
    ensures Valid(mode, Only(s, p), Keep(mode, s, run, p))
    ensures var end, alone := Exec(mode, s, run), Exec(mode, Only(s, p), Keep(mode, s, run, p));
      && Look(alone.dmap, p) == Look(end.dmap, p)
      && (forall c :: c in alone.clients <==> c in end.clients && end.clients[c].req.key == p)
      && (forall c :: c in alone.clients ==> alone.clients[c] == end.clients[c] && !alone.clients[c].req.HealthCheck?)
  {
    Projects(mode, s, run, p);
    Linearizable(mode, s, run, tests);
  }

  /* ----- what removes a key ----- */

  /** A lock being stored without a time to live, a project is unlocked only by a release of it,
      or by a health check that uses its name as the test key: through any run without either,
      with any amount of time passing, the project stays locked, though perhaps by another lock. */
  lemma {:induction false} OnlyReleaseUnlocks(mode: Mode, s: State, run: seq<Action>, p: string)
    requires Valid(mode, s, run) && LocksOnly(s, p) && NoChecksOn(run, p) && p in s.dmap
    requires Unreleased(Events(mode, s, run), p)
    ensures p in Exec(mode, s, run).dmap
    decreases |run|
  {
    if run != [] {
      var a, s' := run[0], Apply(mode, s, run[0]);
      assert forall e :: e in Events(mode, s', run[1..]) ==> e in Events(mode, s, run);
      assert forall i :: 0 <= i < |run[1..]| ==> run[1..][i] == run[i + 1];
      LocksOnlyStep(mode, s, a, p);
      if a.Step? && s.clients[a.c].req.key == p {
        CellAfter(mode, s.clients[a.c], Look(s.dmap, p), s.now, a.stamp);
        assert forall e :: e in Emit(mode, s, a) ==> e in Events(mode, s, run);
        var pc := Effect(mode, s, a.c, a.stamp).0;
        if pc.Decided? && !pc.outcome.Failed? {
          assert Event(a.c, s.clients[a.c].req, pc.outcome) in Emit(mode, s, a);
        }
      }
      OnlyReleaseUnlocks(mode, s', run[1..], p);
    }
  }

  predicate CheckUnderWay(s: State, c: ClientId, p: string) {
    IsLive(s, c) && s.clients[c].req == HealthCheck(p)
  }

  /** No health check, under way or to come, uses `p` as its test key. */
  ghost predicate NoCheckUses(s: State, tests: set<string>, p: string) {
    p !in tests && forall c: ClientId :: !CheckUnderWay(s, c, p)
  }

  lemma UnusedLocksOnly(s: State, tests: set<string>, p: string)
    requires WellTyped(s) && (p in s.dmap ==> IsLock(s.dmap[p], p)) && NoCheckUses(s, tests, p)
    ensures LocksOnly(s, p)
  {
    assert forall c :: c in s.clients && s.clients[c].req == HealthCheck(p) ==> !CheckUnderWay(s, c, p);
  }

  /** A health check whose test key is a locked project's name removes the lock, by going on to
      its end undisturbed. */
  lemma {:induction false} CheckUnlocks(mode: Mode, s: State, c: ClientId, p: string, stamp: Timestamp)
    returns (run: seq<Action>)
    requires WellTyped(s) && CheckUnderWay(s, c, p)
    ensures Valid(mode, s, run) && NoNewCalls(run)
    ensures Events(mode, s, run) == [] && p !in Exec(mode, s, run).dmap
    decreases if s.clients[c].pc.Start? then 2 else if s.clients[c].pc.Fetching? then 1 else 0
  {
    assert Typed(s.clients[c]);
    var a := Step(c, stamp);
    var s' := Apply(mode, s, a);
    var rest: seq<Action> := [];
    if !s.clients[c].pc.Cleaning? {
      rest := CheckUnlocks(mode, s', c, p, stamp);
    }
    run := [a] + rest;
    assert run[1..] == rest;
  }

  lemma {:induction false} FreshId(ids: set<ClientId>) returns (c: ClientId)
    ensures forall d :: d in ids ==> d < c
  {
    c := 0;
    if ids != {} {
      var d :| d in ids;
      var c' := FreshId(ids - {d});
      c := if d < c' then c' else d + 1;
      assert forall e :: e in ids ==> e == d || e in ids - {d};
    }
  }

  lemma SomeCheckUnlocks(mode: Mode, s: State, tests: set<string>, p: string, t: Timestamp)
    requires WellTyped(s) && !NoCheckUses(s, tests, p)
    ensures exists run :: Valid(mode, s, run) && KeepsApart(run, tests) && Unreleased(Events(mode, s, run), p)
                          && p !in Exec(mode, s, run).dmap
  {
    if c: ClientId :| CheckUnderWay(s, c, p) {
      var run := CheckUnlocks(mode, s, c, p, t);
      assert KeepsApart(run, tests) && Unreleased(Events(mode, s, run), p);
    } else {
      var c := FreshId(s.clients.Keys);
      var a := Invoke(c, HealthCheck(p));
      assert c !in s.clients.Keys;
      var rest := CheckUnlocks(mode, Apply(mode, s, a), c, p, t);
      var run := [a] + rest;
      assert run[1..] == rest;
      assert Valid(mode, s, run) && KeepsApart(run, tests) && Unreleased(Events(mode, s, run), p);
    }
  }

  /** When a project stays locked, exactly. Nothing keeps a health check from using a project's
      name as its test key, since `health-check-` and digits make a name the handlers accept
      (`Names.TestKeysAreNames`). With the checks of a run confined to the keys in `tests`, a
      locked project stays locked, by whatever lock, through every run without a release of it
      if and only if its name is not in `tests` and no check under way uses it. */
  lemma ProjectStaysLockedExactly(mode: Mode, s: State, tests: set<string>, p: string)
    requires WellTyped(s) && p in s.dmap && IsLock(s.dmap[p], p)
    ensures (forall run :: Valid(mode, s, run) && KeepsApart(run, tests) && Unreleased(Events(mode, s, run), p) ==>
               p in Exec(mode, s, run).dmap)
       <==> NoCheckUses(s, tests, p)
  {
    if NoCheckUses(s, tests, p) {
      UnusedLocksOnly(s, tests, p);
      forall run | Valid(mode, s, run) && KeepsApart(run, tests) && Unreleased(Events(mode, s, run), p)
        ensures p in Exec(mode, s, run).dmap
      {
        OnlyReleaseUnlocks(mode, s, run, p);
      }
    } else {
      SomeCheckUnlocks(mode, s, tests, p, s.dmap[p].value.lock.createdAt);
    }
  }

  /** When the lock itself survives, exactly. A stored lock stays, the same lock, through every
      run without a release of its project if and only if, besides, no client stands between
      its check and its Put with another lock: this is the race of check and Put. */
  lemma LockSurvivesExactly(mode: Mode, s: State, tests: set<string>, p: string)
    requires WellTyped(s) && p in s.dmap && IsLock(s.dmap[p], p)
    ensures (forall run :: Valid(mode, s, run) && KeepsApart(run, tests) && Unreleased(Events(mode, s, run), p) ==>
               Look(Exec(mode, s, run).dmap, p) == Look(s.dmap, p))
       <==> (NoCheckUses(s, tests, p) && Harmless(s, p))
  {
    if !NoCheckUses(s, tests, p) {
      SomeCheckUnlocks(mode, s, tests, p, s.dmap[p].value.lock.createdAt);
    } else if !Harmless(s, p) {
      var c: ClientId :| c in InWindow(s, p) && LockData(s.clients[c].pc.lock) != s.dmap[p].value;
      var run := NextPutReplaces(mode, s, c, p, s.dmap[p].value.lock.createdAt);
      assert KeepsApart(run, tests);
    } else {
      UnusedLocksOnly(s, tests, p);
      forall run | Valid(mode, s, run) && KeepsApart(run, tests) && Unreleased(Events(mode, s, run), p)
        ensures Look(Exec(mode, s, run).dmap, p) == Look(s.dmap, p)
      {
        HolderIsStable(mode, s, run, p);
      }
    }
  }

  /** No Put on `key`, by a lock client or a health check. */
  predicate NeverStored(mode: Mode, s: State, run: seq<Action>, key: string)
    requires Valid(mode, s, run)
    decreases |run|
  {
    run == [] || (!StoresUnder(mode, s, run[0], key) && NeverStored(mode, Apply(mode, s, run[0]), run[1..], key))
  }

  predicate StoresUnder(mode: Mode, s: State, a: Action, key: string)
    requires Enabled(s, a)
  {
    a.Step? && s.clients[a.c].req.key == key
    && (Stores(s, a) || (mode.Atomic? && s.clients[a.c].pc.Checking? && key !in s.dmap))
  }

  lemma {:induction false} ExpiresAt(mode: Mode, s: State, run: seq<Action>, key: string, deadline: nat)
    requires Valid(mode, s, run) && NeverStored(mode, s, run, key)
    requires key in s.dmap ==> s.dmap[key].deadline == Some(deadline) && s.now < deadline
    ensures key in Exec(mode, s, run).dmap ==> Exec(mode, s, run).now < deadline
    decreases |run|
  {
    if run != [] {
      var a, s' := run[0], Apply(mode, s, run[0]);
      if a.Step? && s.clients[a.c].req.key != key {
        StepIsLocal(mode, s, a, key);
        assert Look(s'.dmap, key) == Look(s.dmap, key);
      }
      ExpiresAt(mode, s', run[1..], key, deadline);
    }
  }

  /** Five seconds after a health check's Put its test key is gone, however the check went on
      and even if it never got to clean up. */
  lemma TestKeyExpires(mode: Mode, s: State, run: seq<Action>, c: ClientId, key: string)
    requires Valid(mode, s, run) && run != [] && run[0].Step? && run[0].c == c
    requires s.clients[c] == Client(HealthCheck(key), Start)
    requires NeverStored(mode, Apply(mode, s, run[0]), run[1..], key)
    requires Exec(mode, s, run).now >= s.now + 5_000_000_000
    ensures key !in Exec(mode, s, run).dmap
  {
    ExpiresAt(mode, Apply(mode, s, run[0]), run[1..], key, s.now + TEST_TTL);
  }

  /** Whatever a health check does, at whatever point of a run, and whichever of its accesses
      fail: none of its actions changes any key but its own. */
  lemma HealthCheckIsInvisible(mode: Mode, s: State, run: seq<Action>, i: nat, c: ClientId, key: string, other: string)
    requires Valid(mode, s, run) && i < |run| && !run[i].Tick? && run[i].c == c && other != key
    requires c in Exec(mode, s, run).clients && Exec(mode, s, run).clients[c].req == HealthCheck(key)
    ensures Look(At(mode, s, run, i + 1).dmap, other) == Look(At(mode, s, run, i).dmap, other)
  {
    AtStep(mode, s, run, i);
    AtEnd(mode, s, run);
    if !run[i].Invoke? {
      RequestIsFixed(mode, s, run, i, |run|, c);
    }
    StepIsLocal(mode, At(mode, s, run, i), run[i], other);
  }
}
