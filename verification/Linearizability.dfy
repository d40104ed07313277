/** The protocol against a sequential map from project to lock. */
module Linearizability {
  import opened Model
  import opened Protocol

  /** One completed call as the sequential map sees it. */
  datatype Event = Event(c: ClientId, req: Request, outcome: Outcome)

  type Locks = map<string, Lock>

  /* ----- the sequential specification ----- */

  /** What a lock service without concurrency may answer when it holds `locks`. */
  predicate Legal(locks: Locks, e: Event) {
    var p := e.req.key;
    match e.req
    case Acquire(_, branch, owner) =>
      if p !in locks then
        e.outcome.Success? && e.outcome.lock.project == p && e.outcome.lock.HeldBy(branch, owner)
      else if locks[p].HeldBy(branch, owner) then e.outcome == Success(locks[p])
      else e.outcome == Conflict(locks[p])
    case Release(_, _, _) => e.outcome == Released
    case Get(_) => e.outcome == if p in locks then Found(locks[p]) else NotFound
    case HealthCheck(_) => false
  }

  function After(locks: Locks, e: Event): Locks {
    match e.req
    case Acquire(p, _, _) => if e.outcome.Success? then locks[p := e.outcome.lock] else locks
    case Release(p, _, _) => locks - {p}
    case _ => locks
  }

  predicate LegalHistory(locks: Locks, h: seq<Event>)
    decreases |h|
  {
    h == [] || (Legal(locks, h[0]) && LegalHistory(After(locks, h[0]), h[1..]))
  }

  function Final(locks: Locks, h: seq<Event>): Locks
    decreases |h|
  {
    if h == [] then locks else Final(After(locks, h[0]), h[1..])
  }

  lemma {:induction false} HistoryCut(locks: Locks, xs: seq<Event>, ys: seq<Event>)
    ensures LegalHistory(locks, xs + ys) <==> LegalHistory(locks, xs) && LegalHistory(Final(locks, xs), ys)
    ensures Final(locks, xs + ys) == Final(Final(locks, xs), ys)
    decreases |xs|
  {
    if xs == [] {
      assert xs + ys == ys;
    } else {
      assert (xs + ys)[0] == xs[0] && (xs + ys)[1..] == xs[1..] + ys;
      HistoryCut(After(locks, xs[0]), xs[1..], ys);
    }
  }

  predicate Releases(e: Event, p: string) { e.req.Release? && e.req.key == p }

  ghost predicate Unreleased(h: seq<Event>, p: string) {
    forall e :: e in h ==> !Releases(e, p)
  }

  /* ----- the protocol's events ----- */

  /** The step that settles a client's answer is its linearization point. */
  function Emit(mode: Mode, s: State, a: Action): seq<Event>
    requires Enabled(s, a)
  {
    if !a.Step? then [] else
      var req := s.clients[a.c].req;
      var pc := Effect(mode, s, a.c, a.stamp).0;
      if pc.Decided? && !pc.outcome.Failed? && !req.HealthCheck? then [Event(a.c, req, pc.outcome)] else []
  }

  function Events(mode: Mode, s: State, run: seq<Action>): seq<Event>
    requires Valid(mode, s, run)
    decreases |run|
  {
    if run == [] then [] else Emit(mode, s, run[0]) + Events(mode, Apply(mode, s, run[0]), run[1..])
  }

  lemma {:induction false} EventsCut(mode: Mode, s: State, xs: seq<Action>, ys: seq<Action>)
    requires Valid(mode, s, xs + ys)
    ensures Valid(mode, s, xs) && Valid(mode, Exec(mode, s, xs), ys)
    ensures Events(mode, s, xs + ys) == Events(mode, s, xs) + Events(mode, Exec(mode, s, xs), ys)
    decreases |xs|
  {
    Cut(mode, s, xs, ys);
    if xs == [] {
      assert xs + ys == ys;
    } else {
      assert (xs + ys)[0] == xs[0] && (xs + ys)[1..] == xs[1..] + ys;
      var s', e := Apply(mode, s, xs[0]), Emit(mode, s, xs[0]);
      EventsCut(mode, s', xs[1..], ys);
      assert Events(mode, s, xs + ys) == e + Events(mode, s', xs[1..] + ys);
      Reassociate(e, Events(mode, s', xs[1..]), Events(mode, Exec(mode, s, xs), ys));
    }
  }

  /** The events of one client. */
  function Of(h: seq<Event>, c: ClientId): seq<Event> {
    if h == [] then [] else (if h[0].c == c then [h[0]] else []) + Of(h[1..], c)
  }

  lemma {:induction false} OfConcat(h: seq<Event>, h': seq<Event>, c: ClientId)
    ensures Of(h + h', c) == Of(h, c) + Of(h', c)
    decreases |h|
  {
    if h == [] {
      assert h + h' == h';
    } else {
      assert (h + h')[0] == h[0] && (h + h')[1..] == h[1..] + h';
      OfConcat(h[1..], h', c);
      var first := if h[0].c == c then [h[0]] else [];
      assert Of(h + h', c) == first + (Of(h[1..], c) + Of(h', c));
    }
  }

  /** The answer a lock client has been given, unless it is an error or still open. */
  function Answer(s: State, c: ClientId): seq<Event> {
    if c in s.clients && !s.clients[c].req.HealthCheck? && !s.clients[c].pc.Live()
       && !s.clients[c].pc.outcome.Failed?
    then [Event(c, s.clients[c].req, s.clients[c].pc.outcome)]
    else []
  }

  lemma AnswerStep(mode: Mode, s: State, a: Action, c: ClientId)
    requires Enabled(s, a) && WellTyped(s)
    ensures Answer(Apply(mode, s, a), c) == Answer(s, c) + Of(Emit(mode, s, a), c)
  {
  }

  lemma {:induction false} AnswersAreEvents(mode: Mode, s: State, run: seq<Action>, c: ClientId)
    requires Valid(mode, s, run) && WellTyped(s)
    ensures Answer(Exec(mode, s, run), c) == Answer(s, c) + Of(Events(mode, s, run), c)
    decreases |run|
  {
    if run != [] {
      AnswerStep(mode, s, run[0], c);
      WellTypedRun(mode, s, [run[0]]);
      assert Exec(mode, s, [run[0]]) == Apply(mode, s, run[0]);
      AnswersAreEvents(mode, Apply(mode, s, run[0]), run[1..], c);
      OfConcat(Emit(mode, s, run[0]), Events(mode, Apply(mode, s, run[0]), run[1..]), c);
    }
  }

  /** A client that starts and ends within a run has exactly one event in it if it is
      answered, carrying its own request and that answer, and none otherwise. */
  lemma OneEventPerCall(mode: Mode, s: State, run: seq<Action>, c: ClientId)
    requires Valid(mode, s, run) && WellTyped(s) && c !in s.clients
    ensures Of(Events(mode, s, run), c) == Answer(Exec(mode, s, run), c)
    ensures |Of(Events(mode, s, run), c)| <= 1
  {
    AnswersAreEvents(mode, s, run, c);
  }

  /** Events respect real time: when `early` is answered in `xs` and `late` is invoked only
      after it, every event of `early` lies before every event of `late`. */
  lemma RealTimeOrder(mode: Mode, s: State, xs: seq<Action>, ys: seq<Action>, early: ClientId, late: ClientId)
    requires WellTyped(s) && s.clients == map[] && Valid(mode, s, xs + ys) && Valid(mode, s, xs)
    requires early in Exec(mode, s, xs).clients && !Exec(mode, s, xs).clients[early].pc.Live()
    requires late !in Exec(mode, s, xs).clients
    ensures Valid(mode, Exec(mode, s, xs), ys)
    ensures Events(mode, s, xs + ys) == Events(mode, s, xs) + Events(mode, Exec(mode, s, xs), ys)
    ensures Of(Events(mode, Exec(mode, s, xs), ys), early) == []
    ensures Of(Events(mode, s, xs), late) == []
  {
    EventsCut(mode, s, xs, ys);
    AnswersAreEvents(mode, s, xs, late);
    WellTypedRun(mode, s, xs);
    Settled(mode, Exec(mode, s, xs), ys, early);
  }

  lemma {:induction false} Settled(mode: Mode, s: State, run: seq<Action>, c: ClientId)
    requires Valid(mode, s, run) && c in s.clients && !s.clients[c].pc.Live()
    ensures Of(Events(mode, s, run), c) == []
    decreases |run|
  {
    if run != [] {
      var e := Emit(mode, s, run[0]);
      if e != [] {
        assert e[1..] == [];
      }
      Settled(mode, Apply(mode, s, run[0]), run[1..], c);
      OfConcat(e, Events(mode, Apply(mode, s, run[0]), run[1..]), c);
    }
  }

  lemma {:induction false} OfMembers(h: seq<Event>, c: ClientId)
    ensures forall e :: e in Of(h, c) <==> e in h && e.c == c
  {
    if h != [] {
      OfMembers(h[1..], c);
      assert forall e :: e in h <==> e == h[0] || e in h[1..];
    }
  }

  predicate Told(s: State, c: ClientId, req: Request, outcome: Outcome) {
    c in s.clients && s.clients[c].req == req && !s.clients[c].pc.Live() && s.clients[c].pc.outcome == outcome
  }

  /* ----- the simulation ----- */

  /** Health checks use keys in `tests` only, and what is stored elsewhere are locks that never
      expire. Lock clients may use any key. */
  ghost predicate Separated(s: State, tests: set<string>) {
    && WellTyped(s)
    && (forall c :: c in s.clients && s.clients[c].req.HealthCheck? ==> s.clients[c].req.key in tests)
    && (forall k :: k in s.dmap && k !in tests ==> IsLock(s.dmap[k], k))
  }

  predicate IsLock(entry: Entry, key: string) {
    entry.value.LockData? && entry.value.lock.project == key && entry.deadline == None
  }

  /** So do the run's new health checks. */
  predicate KeepsApart(run: seq<Action>, tests: set<string>) {
    forall i :: 0 <= i < |run| && run[i].Invoke? && run[i].req.HealthCheck? ==> run[i].req.key in tests
  }

  function TestKeys(run: seq<Action>): set<string> {
    set i | 0 <= i < |run| && run[i].Invoke? && run[i].req.HealthCheck? :: run[i].req.key
  }

  /** That is no restriction on the runs from the empty store: the keys their health checks use
      will do. */
  lemma EveryRunKeepsApart(run: seq<Action>)
    ensures Separated(EMPTY, TestKeys(run)) && KeepsApart(run, TestKeys(run))
  {
  }

  /** The events on other keys than the health checks'. */
  function Outside(h: seq<Event>, tests: set<string>): seq<Event> {
    if h == [] then [] else (if h[0].req.key in tests then [] else [h[0]]) + Outside(h[1..], tests)
  }

  lemma {:induction false} OutsideConcat(h: seq<Event>, h': seq<Event>, tests: set<string>)
    ensures Outside(h + h', tests) == Outside(h, tests) + Outside(h', tests)
    decreases |h|
  {
    if h == [] {
      assert h + h' == h';
    } else {
      assert (h + h')[0] == h[0] && (h + h')[1..] == h[1..] + h';
      OutsideConcat(h[1..], h', tests);
      var first := if h[0].req.key in tests then [] else [h[0]];
      assert Outside(h + h', tests) == first + (Outside(h[1..], tests) + Outside(h', tests));
    }
  }

  ghost function View(s: State, tests: set<string>): Locks
    requires Separated(s, tests)
  {
    map k | k in s.dmap && k !in tests :: s.dmap[k].value.lock
  }

  /** The Put of a client whose key has meanwhile been given to another lock. */
  predicate Clashes(s: State, a: Action, tests: set<string>) {
    a.Step? && IsLive(s, a.c) && s.clients[a.c].pc.Putting?
    && var key := s.clients[a.c].req.key;
       key !in tests && key in s.dmap && s.dmap[key].value != LockData(s.clients[a.c].pc.lock)
  }

  predicate NoClash(mode: Mode, s: State, run: seq<Action>, tests: set<string>)
    requires Valid(mode, s, run)
    decreases |run|
  {
    run == [] || (!Clashes(s, run[0], tests) && NoClash(mode, Apply(mode, s, run[0]), run[1..], tests))
  }

  lemma SeparatedStep(mode: Mode, s: State, a: Action, tests: set<string>)
    requires Enabled(s, a) && Separated(s, tests)
    requires a.Invoke? && a.req.HealthCheck? ==> a.req.key in tests
    ensures Separated(Apply(mode, s, a), tests)
  {
  }

  /** The event of a step is one the sequential map allows, exactly when the step is not a
      clashing Put. */
  lemma StepIsLegal(mode: Mode, s: State, a: Action, tests: set<string>)
    requires Enabled(s, a) && Separated(s, tests)
    ensures LegalHistory(View(s, tests), Outside(Emit(mode, s, a), tests)) <==> !Clashes(s, a, tests)
  {
  }

  /** What a lock client's access leaves under its key. */
  lemma CellAfter(mode: Mode, client: Client, cell: Cell, now: nat, stamp: Timestamp)
    requires Typed(client) && client.pc.Live() && !client.req.HealthCheck?
    requires cell.Some? ==> IsLock(cell.value, client.req.key)
    ensures var (pc, cell') := Access(mode, client.req, client.pc, cell, now, stamp);
            cell' == if !pc.Decided? || pc.outcome.Failed? then cell
                     else if client.req.Release? then None
                     else if pc.outcome.Success? then Stored(pc.outcome.lock)
                     else cell
  {
  }

  /** No health check under way uses `p` as its test key, and what `p` holds, if anything, is a
      lock. */
  ghost predicate LocksOnly(s: State, p: string) {
    && WellTyped(s)
    && (forall c :: c in s.clients && s.clients[c].req == HealthCheck(p) ==> !s.clients[c].pc.Live())
    && (p in s.dmap ==> IsLock(s.dmap[p], p))
  }

  predicate NoChecksOn(run: seq<Action>, p: string) {
    forall i :: 0 <= i < |run| && run[i].Invoke? ==> run[i].req != HealthCheck(p)
  }

  lemma LocksOnlyStep(mode: Mode, s: State, a: Action, p: string)
    requires Enabled(s, a) && LocksOnly(s, p) && (a.Invoke? ==> a.req != HealthCheck(p))
    ensures LocksOnly(Apply(mode, s, a), p)
  {
    if a.Step? && s.clients[a.c].req.key == p {
      CellAfter(mode, s.clients[a.c], Look(s.dmap, p), s.now, a.stamp);
    }
  }

  /** A step changes the stored locks as its event does, and not at all without an event. */
  lemma StepChangesView(mode: Mode, s: State, a: Action, tests: set<string>)
    requires Enabled(s, a) && Separated(s, tests) && Separated(Apply(mode, s, a), tests)
    ensures View(Apply(mode, s, a), tests) == Final(View(s, tests), Outside(Emit(mode, s, a), tests))
  {
    if a.Step? && s.clients[a.c].req.key !in tests {
      var client := s.clients[a.c];
      var key := client.req.key;
      CellAfter(mode, client, Look(s.dmap, key), s.now, a.stamp);
      var (pc, cell) := Effect(mode, s, a.c, a.stamp);
      ViewOfSet(s, Apply(mode, s, a), tests, key, cell);
      EmitOf(mode, s, a, View(s, tests), tests);
    } else {
      assert View(s, tests) == View(Apply(mode, s, a), tests);
    }
  }

  lemma ViewOfSet(s: State, s': State, tests: set<string>, key: string, cell: Cell)
    requires Separated(s, tests) && Separated(s', tests) && key !in tests
    requires s'.dmap == Set(s.dmap, key, cell)
    ensures View(s', tests) == match cell case None => View(s, tests) - {key}
                                          case Some(entry) => View(s, tests)[key := entry.value.lock]
  {
  }

  lemma EmitOf(mode: Mode, s: State, a: Action, locks: Locks, tests: set<string>)
    requires Enabled(s, a) && a.Step? && s.clients[a.c].req.key !in tests
    ensures Outside(Emit(mode, s, a), tests) == Emit(mode, s, a)
    ensures Emit(mode, s, a) == [] ==> Final(locks, Emit(mode, s, a)) == locks
    ensures Emit(mode, s, a) != [] ==> Final(locks, Emit(mode, s, a)) == After(locks, Emit(mode, s, a)[0])
  {
  }

  /** The history of a run, off the keys of its health checks, is one that the sequential map
      can produce, exactly when no Put in it clashes. Its effect on the stored locks is the
      run's effect in any case. */
  lemma {:induction false} Linearizable(mode: Mode, s: State, run: seq<Action>, tests: set<string>)
    requires Valid(mode, s, run) && Separated(s, tests) && KeepsApart(run, tests)
    ensures Separated(Exec(mode, s, run), tests)
    ensures LegalHistory(View(s, tests), Outside(Events(mode, s, run), tests)) <==> NoClash(mode, s, run, tests)
    ensures View(Exec(mode, s, run), tests) == Final(View(s, tests), Outside(Events(mode, s, run), tests))
    decreases |run|
  {
    if run != [] {
      var s' := Apply(mode, s, run[0]);
      SeparatedStep(mode, s, run[0], tests);
      StepIsLegal(mode, s, run[0], tests);
      StepChangesView(mode, s, run[0], tests);
      assert forall i :: 0 <= i < |run[1..]| ==> run[1..][i] == run[i + 1];
      Linearizable(mode, s', run[1..], tests);
      var e, rest := Emit(mode, s, run[0]), Events(mode, s', run[1..]);
      OutsideConcat(e, rest, tests);
      HistoryCut(View(s, tests), Outside(e, tests), Outside(rest, tests));
    }
  }

  ghost predicate NobodyPutting(s: State) {
    forall c :: c in s.clients ==> !s.clients[c].pc.Putting?
  }

  lemma {:induction false} AtomicNeverClashes(s: State, run: seq<Action>, tests: set<string>)
    requires Valid(Atomic, s, run) && NobodyPutting(s)
    ensures NoClash(Atomic, s, run, tests)
    decreases |run|
  {
    if run != [] {
      AtomicNeverClashes(Apply(Atomic, s, run[0]), run[1..], tests);
    }
  }

  /** With PutIfAbsent atomic, as the store's interface promises, every run is linearizable:
      the answers are those of a sequential map from project to lock, in an order in which
      each answered call takes effect at one of its own steps (`OneEventPerCall`,
      `RealTimeOrder`), and the locks left in the store are that map. Only projects that a
      health check uses as its test key are outside the claim. */
  lemma AtomicLinearizable(s: State, run: seq<Action>, tests: set<string>)
    requires Valid(Atomic, s, run) && Separated(s, tests) && KeepsApart(run, tests) && NobodyPutting(s)
    ensures Separated(Exec(Atomic, s, run), tests)
    ensures LegalHistory(View(s, tests), Outside(Events(Atomic, s, run), tests))
    ensures View(Exec(Atomic, s, run), tests) == Final(View(s, tests), Outside(Events(Atomic, s, run), tests))
  {
    AtomicNeverClashes(s, run, tests);
    Linearizable(Atomic, s, run, tests);
  }
}
