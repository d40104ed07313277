/** Linearizability over every order of the calls, not only the order of their deciding steps. */
module Reordering {
  import opened Model
  import opened Protocol
  import opened Linearizability
  import opened Exclusion
  import opened Race

  /* ----- over histories ----- */

  /** Two answers that no order can reconcile without a release of `p`: the project is said to
      hold two different locks, or another than the one it held at the outset. */
  ghost predicate Conflicting(locks: Locks, h: seq<Event>, p: string) {
    exists e :: e in h && Wins(e, p) && Contradicted(locks, h, p, e.outcome.lock)
  }

  ghost predicate Contradicted(locks: Locks, h: seq<Event>, p: string, lock: Lock) {
    (p in locks && locks[p] != lock) || exists e :: e in h && Wins(e, p) && e.outcome.lock != lock
  }

  /** Without a release all wins of a project in a legal history name one lock, the one held
      at the outset if there is one. */
  lemma {:induction false} LegalNamesOneLock(locks: Locks, h: seq<Event>, p: string)
    requires LegalHistory(locks, h) && Unreleased(h, p)
    ensures p in locks ==> p in Final(locks, h) && Final(locks, h)[p] == locks[p]
    ensures forall e :: e in h && Wins(e, p) ==> p in Final(locks, h) && Final(locks, h)[p] == e.outcome.lock
    decreases |h|
  {
    if h != [] {
      assert h[0] in h && forall e :: e in h ==> e == h[0] || e in h[1..];
      assert forall e :: e in h[1..] ==> e in h;
      LegalNamesOneLock(After(locks, h[0]), h[1..], p);
    }
  }

  lemma ConflictNeedsARelease(locks: Locks, h: seq<Event>, h': seq<Event>, p: string)
    requires Conflicting(locks, h, p) && multiset(h') == multiset(h) && LegalHistory(locks, h')
    ensures !Unreleased(h', p)
  {
    if Unreleased(h', p) {
      LegalNamesOneLock(locks, h', p);
      forall e | e in h ensures e in h' {
        assert e in multiset(h) && e in multiset(h');
      }
    }
  }

  /* ----- over runs ----- */

  /** A clashing Put contradicts an answer, or the lock held at the outset. */
  lemma {:induction false} ClashesConflict(mode: Mode, s: State, run: seq<Action>, tests: set<string>)
    returns (p: string)
    requires Valid(mode, s, run) && Separated(s, tests) && KeepsApart(run, tests)
    requires !NoClash(mode, s, run, tests)
    ensures Conflicting(View(s, tests), Outside(Events(mode, s, run), tests), p)
    decreases |run|
  {
    var s', e := Apply(mode, s, run[0]), Outside(Emit(mode, s, run[0]), tests);
    var rest := Outside(Events(mode, s', run[1..]), tests);
    OutsideConcat(Emit(mode, s, run[0]), Events(mode, s', run[1..]), tests);
    if Clashes(s, run[0], tests) {
      p := s.clients[run[0].c].req.key;
      ClashNow(mode, s, run[0], tests);
      assert e[0] in e + rest;
    } else {
      SeparatedStep(mode, s, run[0], tests);
      StepChangesView(mode, s, run[0], tests);
      assert forall i :: 0 <= i < |run[1..]| ==> run[1..][i] == run[i + 1];
      p := ClashesConflict(mode, s', run[1..], tests);
      AtMostOne(mode, s, run[0], tests);
      ConflictLater(View(s, tests), e, rest, p);
    }
  }

  lemma ClashNow(mode: Mode, s: State, a: Action, tests: set<string>)
    requires Enabled(s, a) && Separated(s, tests) && Clashes(s, a, tests)
    ensures var p := s.clients[a.c].req.key;
      && Outside(Emit(mode, s, a), tests) == Emit(mode, s, a) && |Emit(mode, s, a)| == 1
      && Wins(Emit(mode, s, a)[0], p)
      && p in View(s, tests) && View(s, tests)[p] != Emit(mode, s, a)[0].outcome.lock
  {
    assert Typed(s.clients[a.c]);
  }

  lemma AtMostOne(mode: Mode, s: State, a: Action, tests: set<string>)
    requires Enabled(s, a)
    ensures |Outside(Emit(mode, s, a), tests)| <= 1
  {
  }

  lemma ConflictLater(locks: Locks, e: seq<Event>, rest: seq<Event>, p: string)
    requires |e| <= 1 && Conflicting(Final(locks, e), rest, p)
    ensures Conflicting(locks, e + rest, p)
  {
    if e == [] {
      assert e + rest == rest;
    } else {
      var first :| first in rest && Wins(first, p) && Contradicted(Final(locks, e), rest, p, first.outcome.lock);
      assert e[1..] == [] && Final(locks, e) == After(locks, e[0]);
      assert first in e + rest && e[0] in e + rest;
      if other :| other in rest && Wins(other, p) && other.outcome.lock != first.outcome.lock {
        assert other in e + rest;
      }
    }
  }

  /** Some order of a run's answers, off the keys of its health checks, is legal. */
  ghost predicate LegalInSomeOrder(locks: Locks, h: seq<Event>) {
    exists h' :: multiset(h') == multiset(h) && LegalHistory(locks, h')
  }

  /** A run with a clashing Put has a project that needs a release: whatever order the answers
      are put in, it is legal only if that project is released. */
  lemma ClashNeedsARelease(mode: Mode, s: State, run: seq<Action>, tests: set<string>) returns (p: string)
    requires Valid(mode, s, run) && Separated(s, tests) && KeepsApart(run, tests)
    requires !NoClash(mode, s, run, tests)
    ensures LegalInSomeOrder(View(s, tests), Outside(Events(mode, s, run), tests)) ==>
              !Unreleased(Outside(Events(mode, s, run), tests), p)
  {
    p := ClashesConflict(mode, s, run, tests);
    var locks, h := View(s, tests), Outside(Events(mode, s, run), tests);
    if h' :| multiset(h') == multiset(h) && LegalHistory(locks, h') {
      ConflictNeedsARelease(locks, h, h', p);
      var e :| e in h' && Releases(e, p);
      assert e in multiset(h);
    }
  }

  /** For runs without releases the order of the deciding steps is as good as any: whenever some
      order of the answers is legal, even one that disregards real time, that order is, and it
      is so exactly when no Put clashes. */
  lemma NoOrderIsBetter(mode: Mode, s: State, run: seq<Action>, tests: set<string>)
    requires Valid(mode, s, run) && Separated(s, tests) && KeepsApart(run, tests)
    requires forall e :: e in Outside(Events(mode, s, run), tests) ==> !e.req.Release?
    ensures LegalInSomeOrder(View(s, tests), Outside(Events(mode, s, run), tests)) <==> NoClash(mode, s, run, tests)
    ensures LegalInSomeOrder(View(s, tests), Outside(Events(mode, s, run), tests)) <==>
            LegalHistory(View(s, tests), Outside(Events(mode, s, run), tests))
  {
    Linearizable(mode, s, run, tests);
    if !NoClash(mode, s, run, tests) {
      var p := ClashNeedsARelease(mode, s, run, tests);
    }
  }

  lemma {:induction false} OutsideMembers(h: seq<Event>, tests: set<string>)
    ensures forall e :: e in Outside(h, tests) ==> e in h
    decreases |h|
  {
    if h != [] {
      OutsideMembers(h[1..], tests);
    }
  }

  /** Two callers told that they hold one project, with no call to release anything: then the
      answers fit no order. */
  lemma RivalsFitNoOrder(mode: Mode, s: State, run: seq<Action>, tests: set<string>, c: ClientId, c': ClientId,
                         a: Request, a': Request, lock: Lock, lock': Lock)
    requires Valid(mode, s, run) && Separated(s, tests) && KeepsApart(run, tests)
    requires c !in s.clients && c' !in s.clients
    requires a.Acquire? && a'.Acquire? && a.key == a'.key && (a.branch, a.owner) != (a'.branch, a'.owner)
    requires a.key !in tests
    requires Told(Exec(mode, s, run), c, a, Success(lock)) && Told(Exec(mode, s, run), c', a', Success(lock'))
    requires forall d :: d in Exec(mode, s, run).clients ==> !Exec(mode, s, run).clients[d].req.Release?
    ensures !LegalInSomeOrder(View(s, tests), Outside(Events(mode, s, run), tests))
  {
    var h := Events(mode, s, run);
    RivalsWithoutRelease(mode, s, run, c, c', a, a', lock, lock');
    if NoClash(mode, s, run, tests) {
      NoClashNeverUsurps(mode, s, run, tests, a.key);
    }
    OutsideMembers(h, tests);
    forall e | e in h ensures !e.req.Release? {
      var k :| 0 <= k < |h| && h[k] == e;
      ToldOf(mode, s, run, k);
    }
    NoOrderIsBetter(mode, s, run, tests);
  }

  /** The race of `Race.BothWin` is linearizable in no order. */
  lemma TheRaceHasNoOrder(a: Lock, b: Lock)
    requires Contenders(a, b)
    ensures Valid(Split, EMPTY, Racing(a, b))
    ensures !LegalInSomeOrder(View(EMPTY, {}), Outside(Events(Split, EMPTY, Racing(a, b)), {}))
  {
    BothWin(a, b);
    RivalsFitNoOrder(Split, EMPTY, Racing(a, b), {}, 0, 1, Wanting(a), Wanting(b), a, b);
  }

  /* ----- with releases ----- */

  lemma LegalCons(locks: Locks, e: Event, h: seq<Event>)
    requires Legal(locks, e) && LegalHistory(After(locks, e), h)
    ensures LegalHistory(locks, [e] + h)
  {
    assert ([e] + h)[1..] == h;
  }

  lemma EventsCons(mode: Mode, s: State, a: Action, rest: seq<Action>, e: Event)
    requires Enabled(s, a) && Valid(mode, Apply(mode, s, a), rest) && Emit(mode, s, a) == [e]
    ensures Valid(mode, s, [a] + rest)
    ensures Events(mode, s, [a] + rest) == [e] + Events(mode, Apply(mode, s, a), rest)
  {
    assert ([a] + rest)[1..] == rest;
  }

  /** Two acquires of one project about to Put, with two releases of it open beside them. */
  predicate Crowded(s: State, a: Lock, b: Lock) {
    && Contenders(a, b) && s.dmap == map[]
    && s.clients == Two(Putting(a), a, Putting(b), b)[2 := Client(Undoing(a), Start)][3 := Client(Undoing(b), Start)]
  }

  function Undoing(lock: Lock): Request { Release(lock.project, lock.branch, lock.owner) }

  function CrowdedRun(a: Lock, b: Lock): seq<Action> {
    [Step(0, a.createdAt)] + ([Step(1, b.createdAt)] + ([Step(2, a.createdAt)] + ([Step(3, b.createdAt)] + [])))
  }

  /** The answers of that run, in the order of its steps and in one that fits the sequential
      map. */
  function CrowdedAnswers(a: Lock, b: Lock): seq<Event> {
    [Event(0, Wanting(a), Success(a))] + ([Event(1, Wanting(b), Success(b))]
    + ([Event(2, Undoing(a), Released)] + ([Event(3, Undoing(b), Released)] + [])))
  }

  function InTurn(a: Lock, b: Lock): seq<Event> {
    [Event(0, Wanting(a), Success(a))] + ([Event(2, Undoing(a), Released)]
    + ([Event(1, Wanting(b), Success(b))] + ([Event(3, Undoing(b), Released)] + [])))
  }

  /** Releases cannot be left out of account: here all four calls overlap, the second Put
      clashes, and yet the answers fit an order in which a release comes between the wins. */
  lemma AReleaseCanReconcile(s: State, a: Lock, b: Lock)
    requires Crowded(s, a, b)
    ensures Valid(Split, s, CrowdedRun(a, b)) && Separated(s, {}) && KeepsApart(CrowdedRun(a, b), {})
    ensures !NoClash(Split, s, CrowdedRun(a, b), {})
    ensures LegalInSomeOrder(View(s, {}), Outside(Events(Split, s, CrowdedRun(a, b)), {}))
  {
    CrowdedEvents(s, a, b);
    CrowdedIsSeparated(s, a, b);
    OutsideAll(CrowdedAnswers(a, b));
    InTurnIsLegal(a, b);
  }

  lemma CrowdedIsSeparated(s: State, a: Lock, b: Lock)
    requires Crowded(s, a, b)
    ensures Separated(s, {}) && View(s, {}) == map[] && KeepsApart(CrowdedRun(a, b), {})
  {
  }

  lemma {:induction false} OutsideAll(h: seq<Event>)
    ensures Outside(h, {}) == h
    decreases |h|
  {
    if h != [] {
      OutsideAll(h[1..]);
    }
  }

  lemma InTurnIsLegal(a: Lock, b: Lock)
    requires Contenders(a, b)
    ensures multiset(InTurn(a, b)) == multiset(CrowdedAnswers(a, b)) && LegalHistory(map[], InTurn(a, b))
  {
    var e0, e1 := Event(0, Wanting(a), Success(a)), Event(1, Wanting(b), Success(b));
    var r2, r3 := Event(2, Undoing(a), Released), Event(3, Undoing(b), Released);
    LegalCons(map[a.project := b], r3, []);
    LegalCons(map[], e1, [r3] + []);
    assert After(map[a.project := a], r2) == map[];
    LegalCons(map[a.project := a], r2, [e1] + ([r3] + []));
    LegalCons(map[], e0, [r2] + ([e1] + ([r3] + [])));
  }

  lemma CrowdedEvents(s: State, a: Lock, b: Lock)
    requires Crowded(s, a, b)
    ensures Valid(Split, s, CrowdedRun(a, b)) && Events(Split, s, CrowdedRun(a, b)) == CrowdedAnswers(a, b)
    ensures !NoClash(Split, s, CrowdedRun(a, b), {})
  {
    var t, t' := a.createdAt, b.createdAt;
    var s1 := Apply(Split, s, Step(0, t));
    var s2 := Apply(Split, s1, Step(1, t'));
    var rest := [Step(2, t)] + ([Step(3, t')] + []);
    ReleaseEvents(s2, a, b);
    EventsCons(Split, s1, Step(1, t'), rest, Event(1, Wanting(b), Success(b)));
    EventsCons(Split, s, Step(0, t), [Step(1, t')] + rest, Event(0, Wanting(a), Success(a)));
    assert CrowdedRun(a, b)[1..] == [Step(1, t')] + rest;
    assert Clashes(s1, Step(1, t'), {});
  }

  lemma ReleaseEvents(s: State, a: Lock, b: Lock)
    requires a.project == b.project != "" && 2 in s.clients && 3 in s.clients
    requires s.clients[2] == Client(Undoing(a), Start) && s.clients[3] == Client(Undoing(b), Start)
    ensures var run := [Step(2, a.createdAt)] + ([Step(3, b.createdAt)] + []);
      && Valid(Split, s, run)
      && Events(Split, s, run) == [Event(2, Undoing(a), Released)] + ([Event(3, Undoing(b), Released)] + [])
  {
    var s' := Apply(Split, s, Step(2, a.createdAt));
    EventsCons(Split, s', Step(3, b.createdAt), [], Event(3, Undoing(b), Released));
    EventsCons(Split, s, Step(2, a.createdAt), [Step(3, b.createdAt)] + [], Event(2, Undoing(a), Released));
  }
}
