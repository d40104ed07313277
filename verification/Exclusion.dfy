/** Mutual exclusion: when exactly it holds. */
module Exclusion {
  import opened Model
  import opened Protocol
  import opened Linearizability

  /* ----- over histories ----- */

  predicate Wins(e: Event, p: string) {
    e.req.Acquire? && e.req.key == p && e.outcome.Success?
  }

  /** Two wins of one project by different branches or owners. */
  predicate Rivals(e: Event, e': Event, p: string) {
    Wins(e, p) && Wins(e', p) && (e.req.branch, e.req.owner) != (e'.req.branch, e'.req.owner)
  }

  /** A win of a project that somebody else holds. */
  predicate Takes(held: Option<Lock>, e: Event, p: string) {
    Wins(e, p) && held.Some? && !held.value.HeldBy(e.req.branch, e.req.owner)
  }

  ghost predicate ReleasedIn(h: seq<Event>, lo: nat, hi: nat, p: string)
    requires hi <= |h|
  {
    exists k :: lo <= k < hi && Releases(h[k], p)
  }

  /** Mutual exclusion on `p`, held at the outset as `held` says: rivals have a release strictly
      between them, and so have a first holder and whoever wins after it. */
  ghost predicate Excludes(held: Option<Lock>, h: seq<Event>, p: string) {
    && (forall i, j :: 0 <= i < j < |h| && Rivals(h[i], h[j], p) ==> ReleasedIn(h, i + 1, j, p))
    && (forall j :: 0 <= j < |h| && Takes(held, h[j], p) ==> ReleasedIn(h, 0, j, p))
  }

  /** Every success names a lock of the branch and owner that asked. */
  predicate Sound(h: seq<Event>) {
    forall i :: 0 <= i < |h| && h[i].req.Acquire? && h[i].outcome.Success? ==>
      h[i].outcome.lock.HeldBy(h[i].req.branch, h[i].req.owner)
  }

  function HolderAfter(held: Option<Lock>, e: Event, p: string): Option<Lock> {
    if Wins(e, p) then Some(e.outcome.lock) else if Releases(e, p) then None else held
  }

  predicate NeverTakes(held: Option<Lock>, h: seq<Event>, p: string)
    decreases |h|
  {
    h == [] || (!Takes(held, h[0], p) && NeverTakes(HolderAfter(held, h[0], p), h[1..], p))
  }

  lemma {:induction false} NeverTakesConcat(held: Option<Lock>, e: Event, h: seq<Event>, p: string)
    ensures NeverTakes(held, [e] + h, p) <==> !Takes(held, e, p) && NeverTakes(HolderAfter(held, e, p), h, p)
  {
    assert ([e] + h)[1..] == h;
  }

  lemma ExcludesTail(held: Option<Lock>, h: seq<Event>, p: string)
    requires h != [] && Sound(h) && Excludes(held, h, p)
    ensures !Takes(held, h[0], p) && Excludes(HolderAfter(held, h[0], p), h[1..], p)
  {
    var t, held' := h[1..], HolderAfter(held, h[0], p);
    assert forall k :: 0 <= k < |t| ==> t[k] == h[k + 1];
    forall i, j | 0 <= i < j < |t| && Rivals(t[i], t[j], p) ensures ReleasedIn(t, i + 1, j, p) {
      assert Rivals(h[i + 1], h[j + 1], p);
      var k :| i + 2 <= k < j + 1 && Releases(h[k], p);
      assert Releases(t[k - 1], p);
    }
    forall j | 0 <= j < |t| && Takes(held', t[j], p) ensures ReleasedIn(t, 0, j, p) {
      assert Rivals(h[0], h[j + 1], p) || Takes(held, h[j + 1], p);
      var k :| 0 < k < j + 1 && Releases(h[k], p);
      assert Releases(t[k - 1], p);
    }
  }

  lemma ExcludesLonger(held: Option<Lock>, h: seq<Event>, p: string)
    requires h != [] && Sound(h)
    requires !Takes(held, h[0], p) && Excludes(HolderAfter(held, h[0], p), h[1..], p)
    ensures Excludes(held, h, p)
  {
    var t, held' := h[1..], HolderAfter(held, h[0], p);
    assert forall k :: 0 <= k < |t| ==> t[k] == h[k + 1];
    forall i, j | 0 <= i < j < |h| && Rivals(h[i], h[j], p) ensures ReleasedIn(h, i + 1, j, p) {
      assert if i == 0 then Takes(held', t[j - 1], p) else Rivals(t[i - 1], t[j - 1], p);
      var k :| i <= k < j - 1 && Releases(t[k], p);
      assert Releases(h[k + 1], p);
    }
    forall j | 0 <= j < |h| && Takes(held, h[j], p) ensures ReleasedIn(h, 0, j, p) {
      if !Releases(h[0], p) {
        assert Takes(held', t[j - 1], p);
        var k :| 0 <= k < j - 1 && Releases(t[k], p);
        assert Releases(h[k + 1], p);
      }
    }
  }

  /** Exclusion, read off pairs of events, is that no win ever takes a held project. */
  lemma {:induction false} ExcludesMeansNeverTakes(held: Option<Lock>, h: seq<Event>, p: string)
    requires Sound(h)
    ensures Excludes(held, h, p) <==> NeverTakes(held, h, p)
    decreases |h|
  {
    if h != [] {
      assert Sound(h[1..]) by { assert forall i :: 0 <= i < |h[1..]| ==> h[1..][i] == h[i + 1]; }
      ExcludesMeansNeverTakes(HolderAfter(held, h[0], p), h[1..], p);
      if Excludes(held, h, p) {
        ExcludesTail(held, h, p);
      }
      if NeverTakes(held, h, p) {
        ExcludesLonger(held, h, p);
      }
    }
  }

  function HolderIn(locks: Locks, p: string): Option<Lock> { if p in locks then Some(locks[p]) else None }

  lemma {:induction false} LegalNeverTakes(locks: Locks, h: seq<Event>, p: string)
    requires LegalHistory(locks, h)
    ensures Sound(h) && NeverTakes(HolderIn(locks, p), h, p)
    decreases |h|
  {
    if h != [] {
      LegalNeverTakes(After(locks, h[0]), h[1..], p);
      assert forall i :: 1 <= i < |h| ==> h[i] == h[1..][i - 1];
      assert HolderIn(After(locks, h[0]), p) == HolderAfter(HolderIn(locks, p), h[0], p);
    }
  }

  /** The sequential map excludes: its histories have a release between any two rivals. */
  lemma LegalHistoriesExclude(locks: Locks, h: seq<Event>, p: string)
    requires LegalHistory(locks, h)
    ensures Excludes(HolderIn(locks, p), h, p)
  {
    LegalNeverTakes(locks, h, p);
    ExcludesMeansNeverTakes(HolderIn(locks, p), h, p);
  }

  /* ----- over runs ----- */

  function Holder(s: State, p: string): Option<Lock> {
    if p in s.dmap && s.dmap[p].value.LockData? then Some(s.dmap[p].value.lock) else None
  }

  /** A Put that replaces the lock of another branch or owner. */
  predicate Usurps(s: State, a: Action, p: string) {
    a.Step? && IsLive(s, a.c) && s.clients[a.c].pc.Putting? && s.clients[a.c].req.key == p
    && var lock := s.clients[a.c].pc.lock;
       Holder(s, p).Some? && !Holder(s, p).value.HeldBy(lock.branch, lock.owner)
  }

  predicate NoUsurp(mode: Mode, s: State, run: seq<Action>, p: string)
    requires Valid(mode, s, run)
    decreases |run|
  {
    run == [] || (!Usurps(s, run[0], p) && NoUsurp(mode, Apply(mode, s, run[0]), run[1..], p))
  }

  lemma UsurpingIsTaking(mode: Mode, s: State, a: Action, p: string)
    requires Enabled(s, a) && LocksOnly(s, p)
    ensures Sound(Emit(mode, s, a))
    ensures Usurps(s, a, p) <==> Emit(mode, s, a) != [] && Takes(Holder(s, p), Emit(mode, s, a)[0], p)
  {
  }

  lemma HolderStep(mode: Mode, s: State, a: Action, p: string)
    requires Enabled(s, a) && LocksOnly(s, p)
    ensures Holder(Apply(mode, s, a), p) ==
      if Emit(mode, s, a) == [] then Holder(s, p) else HolderAfter(Holder(s, p), Emit(mode, s, a)[0], p)
  {
    if a.Step? && s.clients[a.c].req.key == p {
      CellAfter(mode, s.clients[a.c], Look(s.dmap, p), s.now, a.stamp);
    } else if a.Step? {
      StepIsLocal(mode, s, a, p);
      assert Look(Apply(mode, s, a).dmap, p) == Look(s.dmap, p);
    }
  }

  lemma {:induction false} TakingIsUsurping(mode: Mode, s: State, run: seq<Action>, p: string)
    requires Valid(mode, s, run) && LocksOnly(s, p) && NoChecksOn(run, p)
    ensures Sound(Events(mode, s, run))
    ensures NeverTakes(Holder(s, p), Events(mode, s, run), p) <==> NoUsurp(mode, s, run, p)
    decreases |run|
  {
    if run != [] {
      var s', e := Apply(mode, s, run[0]), Emit(mode, s, run[0]);
      var rest := Events(mode, s', run[1..]);
      LocksOnlyStep(mode, s, run[0], p);
      UsurpingIsTaking(mode, s, run[0], p);
      HolderStep(mode, s, run[0], p);
      assert forall i :: 0 <= i < |run[1..]| ==> run[1..][i] == run[i + 1];
      TakingIsUsurping(mode, s', run[1..], p);
      if e == [] {
        assert e + rest == rest;
      } else {
        assert e == [e[0]];
        NeverTakesConcat(Holder(s, p), e[0], rest, p);
      }
    }
  }

  /** Mutual exclusion, exactly: on a project that no health check uses, any two wins of
      different holders, the first holder included, have a release strictly between them if and
      only if no Put of the run replaces the lock of another branch or owner. This is for
      either version of PutIfAbsent, from any state. */
  lemma ExclusionIsExact(mode: Mode, s: State, run: seq<Action>, p: string)
    requires Valid(mode, s, run) && LocksOnly(s, p) && NoChecksOn(run, p)
    ensures Excludes(Holder(s, p), Events(mode, s, run), p) <==> NoUsurp(mode, s, run, p)
  {
    TakingIsUsurping(mode, s, run, p);
    ExcludesMeansNeverTakes(Holder(s, p), Events(mode, s, run), p);
  }

  lemma {:induction false} AtomicNeverUsurps(s: State, run: seq<Action>, p: string)
    requires Valid(Atomic, s, run) && NobodyPutting(s)
    ensures NoUsurp(Atomic, s, run, p)
    decreases |run|
  {
    if run != [] {
      AtomicNeverUsurps(Apply(Atomic, s, run[0]), run[1..], p);
    }
  }

  /** With PutIfAbsent atomic, every run excludes. */
  lemma MutualExclusion(s: State, run: seq<Action>, p: string)
    requires Valid(Atomic, s, run) && NobodyPutting(s) && LocksOnly(s, p) && NoChecksOn(run, p)
    ensures Excludes(Holder(s, p), Events(Atomic, s, run), p)
  {
    AtomicNeverUsurps(s, run, p);
    ExclusionIsExact(Atomic, s, run, p);
  }

  /** Exclusion asks for less than linearizability: a Put may replace a lock of its own branch
      and owner. */
  lemma {:induction false} NoClashNeverUsurps(mode: Mode, s: State, run: seq<Action>, tests: set<string>, p: string)
    requires Valid(mode, s, run) && NoClash(mode, s, run, tests) && p !in tests
    ensures NoUsurp(mode, s, run, p)
    decreases |run|
  {
    if run != [] {
      NoClashNeverUsurps(mode, Apply(mode, s, run[0]), run[1..], tests, p);
    }
  }

  /* ----- as the callers see it ----- */

  /** The event of a call that a run has answered. */
  lemma EventOf(mode: Mode, s: State, run: seq<Action>, c: ClientId, req: Request, outcome: Outcome) returns (i: nat)
    requires Valid(mode, s, run) && WellTyped(s) && c !in s.clients
    requires Told(Exec(mode, s, run), c, req, outcome) && !req.HealthCheck? && !outcome.Failed?
    ensures i < |Events(mode, s, run)| && Events(mode, s, run)[i] == Event(c, req, outcome)
  {
    OneEventPerCall(mode, s, run, c);
    OfMembers(Events(mode, s, run), c);
    assert Event(c, req, outcome) in Of(Events(mode, s, run), c);
    i :| 0 <= i < |Events(mode, s, run)| && Events(mode, s, run)[i] == Event(c, req, outcome);
  }

  /** The answer that an event gives. */
  lemma ToldOf(mode: Mode, s: State, run: seq<Action>, k: nat)
    requires Valid(mode, s, run) && WellTyped(s) && k < |Events(mode, s, run)|
    ensures var e := Events(mode, s, run)[k];
            Told(Exec(mode, s, run), e.c, e.req, e.outcome) && Fits(e.req, e.outcome) && !e.outcome.Failed?
  {
    var h := Events(mode, s, run);
    AnswersAreEvents(mode, s, run, h[k].c);
    OfMembers(h, h[k].c);
    WellTypedRun(mode, s, run);
    assert h[k] in Of(h, h[k].c) && h[k] in Answer(Exec(mode, s, run), h[k].c);
  }

  /** If two callers were told that they hold one project, for different branches or owners,
      then a third was told that it released the project, and that release took effect strictly
      between the two wins. */
  lemma TwoHoldersNeedARelease(mode: Mode, s: State, run: seq<Action>, c: ClientId, c': ClientId,
                               a: Request, a': Request, lock: Lock, lock': Lock)
    returns (i: nat, j: nat, k: nat)
    requires Valid(mode, s, run) && c !in s.clients && c' !in s.clients
    requires a.Acquire? && a'.Acquire? && a.key == a'.key && (a.branch, a.owner) != (a'.branch, a'.owner)
    requires LocksOnly(s, a.key) && NoChecksOn(run, a.key) && NoUsurp(mode, s, run, a.key)
    requires Told(Exec(mode, s, run), c, a, Success(lock)) && Told(Exec(mode, s, run), c', a', Success(lock'))
    ensures i < |Events(mode, s, run)| && Events(mode, s, run)[i] == Event(c, a, Success(lock))
    ensures j < |Events(mode, s, run)| && Events(mode, s, run)[j] == Event(c', a', Success(lock'))
    ensures (i < k < j || j < k < i) && Releases(Events(mode, s, run)[k], a.key)
    ensures Told(Exec(mode, s, run), Events(mode, s, run)[k].c, Events(mode, s, run)[k].req, Released)
  {
    var h := Events(mode, s, run);
    i := EventOf(mode, s, run, c, a, Success(lock));
    j := EventOf(mode, s, run, c', a', Success(lock'));
    ExclusionIsExact(mode, s, run, a.key);
    if i < j {
      assert Rivals(h[i], h[j], a.key) && ReleasedIn(h, i + 1, j, a.key);
      k :| i < k < j && Releases(h[k], a.key);
    } else {
      assert Rivals(h[j], h[i], a.key) && ReleasedIn(h, j + 1, i, a.key);
      k :| j < k < i && Releases(h[k], a.key);
    }
    ToldOf(mode, s, run, k);
  }

  /** Conversely, two such callers without any release show a Put that usurps. */
  lemma RivalsWithoutRelease(mode: Mode, s: State, run: seq<Action>, c: ClientId, c': ClientId,
                             a: Request, a': Request, lock: Lock, lock': Lock)
    requires Valid(mode, s, run) && c !in s.clients && c' !in s.clients
    requires a.Acquire? && a'.Acquire? && a.key == a'.key && (a.branch, a.owner) != (a'.branch, a'.owner)
    requires LocksOnly(s, a.key) && NoChecksOn(run, a.key)
    requires Told(Exec(mode, s, run), c, a, Success(lock)) && Told(Exec(mode, s, run), c', a', Success(lock'))
    requires forall d :: d in Exec(mode, s, run).clients ==> !Exec(mode, s, run).clients[d].req.Release?
    ensures !NoUsurp(mode, s, run, a.key) && !Excludes(Holder(s, a.key), Events(mode, s, run), a.key)
  {
    if NoUsurp(mode, s, run, a.key) {
      var i, j, k := TwoHoldersNeedARelease(mode, s, run, c, c', a, a', lock, lock');
    }
    ExclusionIsExact(mode, s, run, a.key);
  }
}
