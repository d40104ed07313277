/** Concurrent health checks over the shared result cache.
 *
 * A call of runCheck looks its name up in the cache, runs the check if nothing fresh is
 * there, and stores the result with an expiry. These steps of different calls interleave,
 * with each other, with the passing of time and with the setting of the flags that the
 * server and readiness checks read.
 */
module HealthCache {
  import FanIn
  import opened Health

  type CallId = nat

  /** `looked` is the time of the call's lookup. */
  datatype Pc =
    | Looking
    | Missed(looked: nat)
    | Produced(looked: nat, result: CheckResult)
    | Answered(looked: nat, result: CheckResult, hit: bool)

  datatype Call = Call(name: string, pc: Pc)

  /** The server and the readiness checker have a flag each that says that the servers run. */
  datatype State = State(now: nat, shuttingDown: bool, serversRun: bool, readinessRun: bool,
                         cache: map<string, Cached>, calls: map<CallId, Call>)

  datatype Action =
    | Invoke(c: CallId, name: string)
    | Lookup(c: CallId)
    | Check(c: CallId, found: Status)  // `found` is what a check of something outside finds
    | Store(c: CallId)
    | SetServersRun    // the two halves of setting the servers running
    | SetReadinessRun
    | ShutDown
    | Tick(d: nat)

  predicate Enabled(s: State, a: Action) {
    match a
    case Invoke(c, _) => c !in s.calls
    case Lookup(c) => c in s.calls && s.calls[c].pc.Looking?
    case Check(c, _) => c in s.calls && s.calls[c].pc.Missed?
    case Store(c) => c in s.calls && s.calls[c].pc.Produced?
    case _ => true
  }

  function To(s: State, c: CallId, pc: Pc): State
    requires c in s.calls
  {
    s.(calls := s.calls[c := s.calls[c].(pc := pc)])
  }

  function StatusOf(s: State, name: string, found: Status): Status {
    if name == READINESS then ReadinessStatus(s.shuttingDown, s.readinessRun)
    else if name == SERVERS then ServerStatus(s.serversRun)
    else found
  }

  function Apply(duration: nat, s: State, a: Action): State
    requires Enabled(s, a)
  {
    match a
    case Invoke(c, name) => s.(calls := s.calls[c := Call(name, Looking)])
    case Lookup(c) =>
      (match Fresh(s.cache, s.calls[c].name, s.now)
       case Some(result) => To(s, c, Answered(s.now, result, true))
       case None => To(s, c, Missed(s.now)))
    case Check(c, found) =>
      var name := s.calls[c].name;
      To(s, c, Produced(s.calls[c].pc.looked, CheckResult(name, StatusOf(s, name, found), s.now)))
    case Store(c) =>
      var pc := s.calls[c].pc;
      To(s, c, Answered(pc.looked, pc.result, false)).(cache := Caching(s.cache, pc.result, s.now, duration))
    case SetServersRun => s.(serversRun := true)
    case SetReadinessRun => s.(readinessRun := true)
    case ShutDown => s.(shuttingDown := true)
    case Tick(d) => s.(now := s.now + d)
  }

  predicate Valid(duration: nat, s: State, run: seq<Action>)
    decreases |run|
  {
    run == [] || (Enabled(s, run[0]) && Valid(duration, Apply(duration, s, run[0]), run[1..]))
  }

  function Exec(duration: nat, s: State, run: seq<Action>): State
    requires Valid(duration, s, run)
    decreases |run|
  {
    if run == [] then s else Exec(duration, Apply(duration, s, run[0]), run[1..])
  }

  const INITIAL := State(0, false, false, false, map[], map[])

  /** An undisturbed call does what `Health.Manager.RunCheck` does: it answers from the cache if
      that has a fresh result, and otherwise checks, stores and answers what it found. */
  lemma UndisturbedCall(duration: nat, s: State, c: CallId, found: Status)
    requires c in s.calls && s.calls[c].pc.Looking?
    ensures var name := s.calls[c].name;
      if name in s.cache && s.now < s.cache[name].expiresAt then
        && Valid(duration, s, [Lookup(c)])
        && Exec(duration, s, [Lookup(c)])
           == s.(calls := s.calls[c := Call(name, Answered(s.now, s.cache[name].result, true))])
      else
        var run := [Lookup(c), Check(c, found), Store(c)];
        var r := CheckResult(name, StatusOf(s, name, found), s.now);
        && Valid(duration, s, run)
        && Exec(duration, s, run)
           == s.(calls := s.calls[c := Call(name, Answered(s.now, r, false))],
                 cache := s.cache[name := Cached(r, s.now + duration)])
  {
    if Fresh(s.cache, s.calls[c].name, s.now).None? {
      UndisturbedMiss(duration, s, c, found);
    } else {
      Unroll(duration, s, Lookup(c), []);
      assert [Lookup(c)] + [] == [Lookup(c)];
    }
  }

  lemma UndisturbedMiss(duration: nat, s: State, c: CallId, found: Status)
    requires c in s.calls && s.calls[c].pc.Looking? && Fresh(s.cache, s.calls[c].name, s.now).None?
    ensures var name, run := s.calls[c].name, [Lookup(c), Check(c, found), Store(c)];
      var r := CheckResult(name, StatusOf(s, name, found), s.now);
      && Valid(duration, s, run)
      && Exec(duration, s, run) == s.(calls := s.calls[c := Call(name, Answered(s.now, r, false))],
                                      cache := s.cache[name := Cached(r, s.now + duration)])
  {
    var name := s.calls[c].name;
    var r := CheckResult(name, StatusOf(s, name, found), s.now);
    var s1, s2 := To(s, c, Missed(s.now)), To(s, c, Produced(s.now, r));
    assert Apply(duration, s, Lookup(c)) == s1;
    assert s1.calls[c := Call(name, Produced(s.now, r))] == s2.calls;
    assert Apply(duration, s1, Check(c, found)) == s2;
    var s3 := Apply(duration, s2, Store(c));
    assert s3.calls == s.calls[c := Call(name, Answered(s.now, r, false))];
    Unroll(duration, s2, Store(c), []);
    Unroll(duration, s1, Check(c, found), [Store(c)]);
    Unroll(duration, s, Lookup(c), [Check(c, found), Store(c)]);
    assert [Store(c)] + [] == [Store(c)] && [Check(c, found)] + [Store(c)] == [Check(c, found), Store(c)];
    assert [Lookup(c)] + [Check(c, found), Store(c)] == [Lookup(c), Check(c, found), Store(c)];
  }

  /* ----- names ----- */

  predicate CallNamed(call: Call) {
    match call.pc
    case Produced(_, result) => result.name == call.name
    case Answered(_, result, _) => result.name == call.name
    case _ => true
  }

  ghost predicate Named(s: State) {
    && (forall k :: k in s.cache ==> s.cache[k].result.name == k)
    && (forall c :: c in s.calls ==> CallNamed(s.calls[c]))
  }

  lemma NamedStep(duration: nat, s: State, a: Action)
    requires Enabled(s, a) && Named(s)
    ensures Named(Apply(duration, s, a))
  {
  }

  lemma {:induction false} NamedRun(duration: nat, s: State, run: seq<Action>)
    requires Named(s) && Valid(duration, s, run)
    ensures Named(Exec(duration, s, run))
    decreases |run|
  {
    if run != [] {
      NamedStep(duration, s, run[0]);
      NamedRun(duration, Apply(duration, s, run[0]), run[1..]);
    }
  }

  /* ----- what a check finds ----- */

  /** A check in progress finds what the flags say at that moment: the service is ready exactly
      if its servers run and it is not shutting down. */
  lemma CheckFinds(duration: nat, s: State, c: CallId, found: Status)
    requires c in s.calls && s.calls[c].pc.Missed?
    ensures var s', call := Apply(duration, s, Check(c, found)), s.calls[c];
      s'.calls[c].pc == Produced(call.pc.looked, CheckResult(call.name,
        if call.name == "readiness" then (if s.readinessRun && !s.shuttingDown then StatusOK else StatusNotReady)
        else if call.name == "servers" then (if s.serversRun then StatusOK else StatusStarting)
        else found, s.now))
  {
  }

  /** The result a call has come to, if it has. */
  predicate Comes(call: Call, name: string, status: Status) {
    call.name == name
    && match call.pc
       case Produced(_, result) => result.status == status
       case Answered(_, result, _) => result.status == status
       case _ => false
  }

  /** Any OK of the two special checks dates from when the servers ran. */
  ghost predicate OKWhenRunning(s: State) {
    && (!s.readinessRun ==>
          (READINESS in s.cache ==> s.cache[READINESS].result.status != StatusOK)
          && forall c :: c in s.calls ==> !Comes(s.calls[c], READINESS, StatusOK))
    && (!s.serversRun ==>
          (SERVERS in s.cache ==> s.cache[SERVERS].result.status != StatusOK)
          && forall c :: c in s.calls ==> !Comes(s.calls[c], SERVERS, StatusOK))
  }

  lemma {:induction false} OKWhenRunningRun(duration: nat, s: State, run: seq<Action>)
    requires Valid(duration, s, run) && Named(s) && OKWhenRunning(s)
    ensures OKWhenRunning(Exec(duration, s, run))
    decreases |run|
  {
    if run != [] {
      OKWhenRunningStep(duration, s, run[0]);
      NamedStep(duration, s, run[0]);
      OKWhenRunningRun(duration, Apply(duration, s, run[0]), run[1..]);
    }
  }

  lemma OKWhenRunningStep(duration: nat, s: State, a: Action)
    requires Enabled(s, a) && Named(s) && OKWhenRunning(s)
    ensures OKWhenRunning(Apply(duration, s, a))
  {
  }

  lemma {:induction false} FlagNeedsSetting(duration: nat, s: State, run: seq<Action>)
    requires Valid(duration, s, run)
    ensures Exec(duration, s, run).readinessRun ==> s.readinessRun || SetReadinessRun in run
    ensures Exec(duration, s, run).serversRun ==> s.serversRun || SetServersRun in run
    decreases |run|
  {
    if run != [] {
      FlagNeedsSetting(duration, Apply(duration, s, run[0]), run[1..]);
      assert run[0] in run && forall a :: a in run[1..] ==> a in run;
    }
  }

  /** Before the servers have been set running, no readiness call is answered OK, and no call of
      the server check, whatever else happens and whatever is cached. */
  lemma NotReadyBeforeRunning(duration: nat, run: seq<Action>, c: CallId)
    requires Valid(duration, INITIAL, run)
    requires c in Exec(duration, INITIAL, run).calls && Exec(duration, INITIAL, run).calls[c].pc.Answered?
    ensures var call := Exec(duration, INITIAL, run).calls[c];
      && (call.name == "readiness" && call.pc.result.status == StatusOK ==> SetReadinessRun in run)
      && (call.name == "servers" && call.pc.result.status == StatusOK ==> SetServersRun in run)
  {
    OKWhenRunningRun(duration, INITIAL, run);
    FlagNeedsSetting(duration, INITIAL, run);
    var call := Exec(duration, INITIAL, run).calls[c];
    assert !Comes(call, READINESS, StatusOK) || Exec(duration, INITIAL, run).readinessRun;
    assert !Comes(call, SERVERS, StatusOK) || Exec(duration, INITIAL, run).serversRun;
  }

  /* ----- what the cache answers ----- */

  /** No call stores a result under `name`. */
  predicate NoStoreOf(duration: nat, s: State, run: seq<Action>, name: string)
    requires Valid(duration, s, run)
    decreases |run|
  {
    run == [] ||
    (!(run[0].Store? && s.calls[run[0].c].name == name)
     && NoStoreOf(duration, Apply(duration, s, run[0]), run[1..], name))
  }

  lemma {:induction false} EntryStays(duration: nat, s: State, run: seq<Action>, name: string)
    requires Valid(duration, s, run) && Named(s) && NoStoreOf(duration, s, run, name) && name in s.cache
    ensures name in Exec(duration, s, run).cache && Exec(duration, s, run).cache[name] == s.cache[name]
    decreases |run|
  {
    if run != [] {
      NamedStep(duration, s, run[0]);
      assert run[0].Store? ==> CallNamed(s.calls[run[0].c]);
      EntryStays(duration, Apply(duration, s, run[0]), run[1..], name);
    }
  }

  /** A stored result is served exactly until it expires: in any run in which a call stores its
      result, and in which no other result of that name is stored after it, a lookup of the name
      is answered with it if less than a cache duration has passed, and otherwise the check is
      run again. */
  lemma StoredIsServedExactly(duration: nat, before: seq<Action>, c: CallId, after: seq<Action>, d: CallId)
    requires Valid(duration, INITIAL, before)
    requires var s := Exec(duration, INITIAL, before);
      && Enabled(s, Store(c)) && Valid(duration, Apply(duration, s, Store(c)), after)
      && NoStoreOf(duration, Apply(duration, s, Store(c)), after, s.calls[c].name)
    requires var s := Exec(duration, INITIAL, before);
      var end := Exec(duration, Apply(duration, s, Store(c)), after);
      d in end.calls && end.calls[d] == Call(s.calls[c].name, Looking)
    ensures var s := Exec(duration, INITIAL, before);
      var end := Exec(duration, Apply(duration, s, Store(c)), after);
      Apply(duration, end, Lookup(d)) == end.(calls := end.calls[d := Call(s.calls[c].name,
        if end.now < s.now + duration then Answered(end.now, s.calls[c].pc.result, true) else Missed(end.now))])
  {
    var s := Exec(duration, INITIAL, before);
    var s' := Apply(duration, s, Store(c));
    NamedRun(duration, INITIAL, before);
    assert CallNamed(s.calls[c]);
    assert Named(s');
    EntryStays(duration, s', after, s.calls[c].name);
  }

  /* ----- staleness after shutdown ----- */

  /** From a moment `u` on: the service shuts down, no check in progress holds an OK readiness
      result that it has yet to store, and a cached one expires by `bound`. */
  ghost predicate Draining(s: State, bound: nat) {
    && s.shuttingDown
    && (forall c :: c in s.calls && s.calls[c].name == READINESS && s.calls[c].pc.Produced? ==>
          s.calls[c].pc.result.status != StatusOK)
    && (READINESS in s.cache && s.cache[READINESS].result.status == StatusOK ==> s.cache[READINESS].expiresAt <= bound)
  }

  /** A call that looked the cache up at `bound` or later, and was answered Ready. */
  predicate LateReady(s: State, c: CallId, bound: nat) {
    c in s.calls && s.calls[c].name == READINESS && s.calls[c].pc.Answered?
    && s.calls[c].pc.looked >= bound && s.calls[c].pc.result.status == StatusOK
  }

  /** No call but those in `settled` was answered so. */
  ghost predicate NoneLate(s: State, bound: nat, settled: set<CallId>) {
    forall c :: LateReady(s, c, bound) ==> c in settled
  }

  lemma DrainingStep(duration: nat, s: State, a: Action, bound: nat, settled: set<CallId>)
    requires Enabled(s, a) && Named(s) && Draining(s, bound) && NoneLate(s, bound, settled)
    ensures Draining(Apply(duration, s, a), bound) && NoneLate(Apply(duration, s, a), bound, settled)
  {
  }

  lemma {:induction false} DrainingRun(duration: nat, s: State, run: seq<Action>, bound: nat, settled: set<CallId>)
    requires Valid(duration, s, run) && Named(s) && Draining(s, bound) && NoneLate(s, bound, settled)
    ensures NoneLate(Exec(duration, s, run), bound, settled)
    decreases |run|
  {
    if run != [] {
      DrainingStep(duration, s, run[0], bound, settled);
      NamedStep(duration, s, run[0]);
      DrainingRun(duration, Apply(duration, s, run[0]), run[1..], bound, settled);
    }
  }

  /** No entry outlives the cache duration, and no call looked up in the future. */
  ghost predicate Timed(duration: nat, s: State) {
    && (forall k :: k in s.cache ==> s.cache[k].expiresAt <= s.now + duration)
    && (forall c :: c in s.calls && s.calls[c].pc.Answered? ==> s.calls[c].pc.looked <= s.now)
    && (forall c :: c in s.calls && (s.calls[c].pc.Missed? || s.calls[c].pc.Produced?) ==>
          s.calls[c].pc.looked <= s.now)
  }

  lemma TimedStep(duration: nat, s: State, a: Action)
    requires Timed(duration, s) && Enabled(s, a)
    ensures Timed(duration, Apply(duration, s, a))
  {
  }

  lemma {:induction false} TimedRun(duration: nat, s: State, run: seq<Action>)
    requires Timed(duration, s) && Valid(duration, s, run)
    ensures Timed(duration, Exec(duration, s, run))
    decreases |run|
  {
    if run != [] {
      TimedStep(duration, s, run[0]);
      TimedRun(duration, Apply(duration, s, run[0]), run[1..]);
    }
  }

  /** Bounded staleness: take the moment, in any run, when the service has begun to shut down
      and every readiness check that found it ready before has stored its result. One cache
      duration later, no lookup leads to the answer Ready any more. */
  lemma ReadyEndsInTime(duration: nat, before: seq<Action>, after: seq<Action>, c: CallId)
    requires Valid(duration, INITIAL, before)
    requires var s := Exec(duration, INITIAL, before);
      && Valid(duration, s, after) && s.shuttingDown
      && (forall d :: d in s.calls && s.calls[d].name == READINESS && s.calls[d].pc.Produced? ==>
            s.calls[d].pc.result.status != StatusOK)
      && (c in s.calls ==> !s.calls[c].pc.Answered?)
    ensures var s := Exec(duration, INITIAL, before);
      !LateReady(Exec(duration, s, after), c, s.now + duration)
  {
    var s := Exec(duration, INITIAL, before);
    var settled := set d | d in s.calls && s.calls[d].pc.Answered?;
    NamedRun(duration, INITIAL, before);
    TimedRun(duration, INITIAL, before);
    DrainingRun(duration, s, after, s.now + duration, settled);
  }

  lemma Unroll(duration: nat, s: State, a: Action, rest: seq<Action>)
    requires Enabled(s, a)
    ensures Valid(duration, s, [a] + rest) <==> Valid(duration, Apply(duration, s, a), rest)
    ensures Valid(duration, s, [a] + rest) ==>
              Exec(duration, s, [a] + rest) == Exec(duration, Apply(duration, s, a), rest)
  {
  }

  /** A readiness check that finds the service ready and is stored; then the shutdown begins. */
  function ReadyBefore(c: CallId): seq<Action> {
    [SetServersRun] + ([SetReadinessRun] + ([Invoke(c, READINESS)] + ReadyStored(c)))
  }

  function ReadyStored(c: CallId): seq<Action> {
    [Lookup(c)] + ([Check(c, StatusOK)] + ([Store(c)] + ([ShutDown] + [])))
  }

  function ReadyAfter(duration: nat, c: CallId): seq<Action>
    requires duration > 0
  {
    [Tick(duration - 1)] + ([Invoke(c, READINESS)] + ([Lookup(c)] + []))
  }

  /** The bound is tight: at one tick less than a cache duration after the shutdown began, a
      probe can still be answered Ready, out of the cache. */
  lemma ReadyCanLinger(duration: nat, c: CallId, probe: CallId)
    requires duration > 0 && probe != c
    ensures Valid(duration, INITIAL, ReadyBefore(c))
    ensures var s := Exec(duration, INITIAL, ReadyBefore(c));
      && s.shuttingDown && s.now == 0 && Valid(duration, s, ReadyAfter(duration, probe))
      && LateReady(Exec(duration, s, ReadyAfter(duration, probe)), probe, duration - 1)
  {
    var s1 := INITIAL.(serversRun := true);
    var s2 := s1.(readinessRun := true);
    var s3 := s2.(calls := map[c := Call(READINESS, Looking)]);
    assert Apply(duration, s2, Invoke(c, READINESS)) == s3;
    ReadyIsStored(duration, s3, c);
    Unroll(duration, s2, Invoke(c, READINESS), ReadyStored(c));
    Unroll(duration, s1, SetReadinessRun, [Invoke(c, READINESS)] + ReadyStored(c));
    Unroll(duration, INITIAL, SetServersRun, [SetReadinessRun] + ([Invoke(c, READINESS)] + ReadyStored(c)));
    ProbeHits(duration, Exec(duration, s3, ReadyStored(c)), probe);
  }

  lemma ReadyIsStored(duration: nat, s: State, c: CallId)
    requires duration > 0 && s == State(0, false, true, true, map[], map[c := Call(READINESS, Looking)])
    ensures Valid(duration, s, ReadyStored(c))
    ensures var ok := CheckResult(READINESS, StatusOK, 0);
      Exec(duration, s, ReadyStored(c))
      == State(0, true, true, true, map[READINESS := Cached(ok, duration)],
               map[c := Call(READINESS, Answered(0, ok, false))])
  {
    var ok := CheckResult(READINESS, StatusOK, 0);
    var s1 := To(s, c, Missed(0));
    var s2 := To(s, c, Produced(0, ok));
    var s3 := To(s, c, Answered(0, ok, false)).(cache := map[READINESS := Cached(ok, duration)]);
    assert Apply(duration, s, Lookup(c)) == s1;
    assert Apply(duration, s1, Check(c, StatusOK)) == s2;
    assert Apply(duration, s2, Store(c)) == s3;
    Unroll(duration, s3, ShutDown, []);
    Unroll(duration, s2, Store(c), [ShutDown] + []);
    Unroll(duration, s1, Check(c, StatusOK), [Store(c)] + ([ShutDown] + []));
    Unroll(duration, s, Lookup(c), [Check(c, StatusOK)] + ([Store(c)] + ([ShutDown] + [])));
  }

  lemma ProbeHits(duration: nat, s: State, c: CallId)
    requires duration > 0 && c !in s.calls && s.now == 0
    requires READINESS in s.cache && s.cache[READINESS].expiresAt == duration
    requires s.cache[READINESS].result.status == StatusOK
    ensures Valid(duration, s, ReadyAfter(duration, c))
    ensures LateReady(Exec(duration, s, ReadyAfter(duration, c)), c, duration - 1)
  {
    var s1 := Apply(duration, s, Tick(duration - 1));
    var s2 := Apply(duration, s1, Invoke(c, READINESS));
    Unroll(duration, s2, Lookup(c), []);
    Unroll(duration, s1, Invoke(c, READINESS), [Lookup(c)] + []);
    Unroll(duration, s, Tick(duration - 1), [Invoke(c, READINESS)] + ([Lookup(c)] + []));
  }

  /* ----- where answers come from ----- */

  /** Every store of a run: the call, the time and the result. */
  function Stores(duration: nat, s: State, run: seq<Action>): set<(CallId, nat, CheckResult)>
    requires Valid(duration, s, run)
    decreases |run|
  {
    if run == [] then {} else
      Storing(s, run[0]) + Stores(duration, Apply(duration, s, run[0]), run[1..])
  }

  function Storing(s: State, a: Action): set<(CallId, nat, CheckResult)>
    requires Enabled(s, a)
  {
    if a.Store? then {(a.c, s.now, s.calls[a.c].pc.result)} else {}
  }

  ghost predicate Sourced(duration: nat, s: State, stored: set<(CallId, nat, CheckResult)>) {
    && (forall k :: k in s.cache ==>
          s.cache[k].expiresAt >= duration && StoredAt(s.cache[k].expiresAt - duration, s.cache[k].result, stored))
    && (forall c :: c in s.calls && s.calls[c].pc.Answered? ==> SourceOf(duration, s, c, stored))
  }

  ghost predicate SourceOf(duration: nat, s: State, c: CallId, stored: set<(CallId, nat, CheckResult)>)
    requires c in s.calls && s.calls[c].pc.Answered?
  {
    var Answered(looked, result, hit) := s.calls[c].pc;
    if hit then FromCache(duration, looked, result, stored) else OwnStore(c, looked, result, stored)
  }

  ghost predicate StoredAt(t: nat, result: CheckResult, stored: set<(CallId, nat, CheckResult)>) {
    exists d: CallId :: (d, t, result) in stored
  }

  /** The result was stored, by some call, less than a cache duration before the lookup. */
  ghost predicate FromCache(duration: nat, looked: nat, result: CheckResult, stored: set<(CallId, nat, CheckResult)>) {
    exists d: CallId, t: nat :: (d, t, result) in stored && t <= looked < t + duration
  }

  /** The result was stored by this very call, after its lookup. */
  ghost predicate OwnStore(c: CallId, looked: nat, result: CheckResult, stored: set<(CallId, nat, CheckResult)>) {
    exists t: nat :: (c, t, result) in stored && looked <= t
  }

  lemma SourcedStep(duration: nat, s: State, a: Action, stored: set<(CallId, nat, CheckResult)>)
    requires Enabled(s, a) && Sourced(duration, s, stored) && Timed(duration, s)
    ensures Sourced(duration, Apply(duration, s, a), stored + Storing(s, a))
  {
  }

  lemma {:induction false} SourcedRun(duration: nat, s: State, run: seq<Action>,
                                      stored: set<(CallId, nat, CheckResult)>)
    requires Valid(duration, s, run) && Sourced(duration, s, stored) && Timed(duration, s)
    ensures Sourced(duration, Exec(duration, s, run), stored + Stores(duration, s, run))
    decreases |run|
  {
    if run == [] {
      assert stored + Stores(duration, s, run) == stored;
    } else {
      var s', now := Apply(duration, s, run[0]), Storing(s, run[0]);
      SourcedStep(duration, s, run[0], stored);
      TimedStep(duration, s, run[0]);
      SourcedRun(duration, s', run[1..], stored + now);
      assert stored + now + Stores(duration, s', run[1..]) == stored + Stores(duration, s, run);
    }
  }

  /** In every run, an answer carries its checker's name, and either its own call stored it,
      after the lookup, or some call stored it less than a cache duration before the lookup. So
      a cache duration of zero switches the cache off. */
  lemma AnswersAreRecent(duration: nat, run: seq<Action>, c: CallId)
    requires Valid(duration, INITIAL, run)
    requires c in Exec(duration, INITIAL, run).calls && Exec(duration, INITIAL, run).calls[c].pc.Answered?
    ensures var Call(name, pc) := Exec(duration, INITIAL, run).calls[c];
      && pc.result.name == name
      && (pc.hit ==> FromCache(duration, pc.looked, pc.result, Stores(duration, INITIAL, run)))
      && (!pc.hit ==> OwnStore(c, pc.looked, pc.result, Stores(duration, INITIAL, run)))
      && (duration == 0 ==> !pc.hit)
  {
    NamedRun(duration, INITIAL, run);
    SourcedRun(duration, INITIAL, run, {});
    var end := Exec(duration, INITIAL, run);
    assert {} + Stores(duration, INITIAL, run) == Stores(duration, INITIAL, run);
    assert CallNamed(end.calls[c]) && SourceOf(duration, end, c, Stores(duration, INITIAL, run));
  }

  /* ----- the startup probe ----- */

  /** A worker of CheckAll sends what its call of runCheck answered. */
  predicate Runs(s: State, c: CallId, name: string, w: FanIn.Worker<CheckResult>) {
    w.Finished? ==>
      c in s.calls && s.calls[c].name == name && s.calls[c].pc.Answered? && w.value == s.calls[c].pc.result
  }

  /** The startup probe as a whole: CheckAll over checkers of distinct names, worker `i` running
      call `cs[i]` of runCheck under `names[i]`, beside any other calls, in any interleaving. When
      it has ended, the response has exactly the registered names; and each status in it was
      either found by the probe's own check of that name or stored, by some call, less than a
      cache duration before the probe looked the name up. */
  lemma ProbeIsRecent(duration: nat, run: seq<Action>, fan: seq<FanIn.Action<CheckResult>>,
                      names: seq<string>, cs: seq<CallId>)
    requires Valid(duration, INITIAL, run)
    requires FanIn.Valid(FanIn.Initial(|names|), fan) && FanIn.Exec(FanIn.Initial(|names|), fan).ended
    requires |cs| == |names| && forall i, j :: 0 <= i < j < |names| ==> names[i] != names[j]
    requires var ws := FanIn.Exec(FanIn.Initial(|names|), fan).workers;
      |ws| == |names| ==> forall i :: 0 <= i < |names| ==> Runs(Exec(duration, INITIAL, run), cs[i], names[i], ws[i])
    ensures var checks := Checks(FanIn.Exec(FanIn.Initial(|names|), fan).collected);
      && (forall name :: name in checks <==> name in names)
      && forall i :: 0 <= i < |names| ==> names[i] in checks && Reported(duration, run, cs[i], checks[names[i]])
  {
    FanIn.CollectsEachOnce(|names|, fan);
    var end, ws := Exec(duration, INITIAL, run), FanIn.Exec(FanIn.Initial(|names|), fan).workers;
    var checks := Checks(FanIn.Exec(FanIn.Initial(|names|), fan).collected);
    forall i | 0 <= i < |names|
      ensures ws[i].value.name == names[i] && Reported(duration, run, cs[i], ws[i].value.status)
    {
      assert Runs(end, cs[i], names[i], ws[i]);
      AnswersAreRecent(duration, run, cs[i]);
    }
    forall i | 0 <= i < |names| ensures names[i] in checks && checks[names[i]] == ws[i].value.status {
      ProbeReportsEveryCheck(names, fan, names[i], ws[i].value.status);
    }
    forall name | name in checks ensures name in names {
      ProbeReportsEveryCheck(names, fan, name, checks[name]);
    }
  }

  /** `status` is that of an answer of call `c`, found by it or recent when it looked. */
  ghost predicate Reported(duration: nat, run: seq<Action>, c: CallId, status: Status)
    requires Valid(duration, INITIAL, run)
  {
    var s, stored := Exec(duration, INITIAL, run), Stores(duration, INITIAL, run);
    c in s.calls && s.calls[c].pc.Answered? && s.calls[c].pc.result.status == status
    && var pc := s.calls[c].pc;
       if pc.hit then FromCache(duration, pc.looked, pc.result, stored) else OwnStore(c, pc.looked, pc.result, stored)
  }
}
