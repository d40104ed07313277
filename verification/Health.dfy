/** Health checks: the flags they read, the result cache, and the startup probe. */
module Health {
  import opened Model
  import FanIn

  datatype Status = StatusOK | StatusStarting | StatusNotReady | StatusError

  datatype CheckResult = CheckResult(name: string, status: Status, timestamp: nat)

  datatype Cached = Cached(result: CheckResult, expiresAt: nat)

  const SERVERS := "servers"
  const READINESS := "readiness"

  function ServerStatus(running: bool): Status { if running then StatusOK else StatusStarting }

  function ReadinessStatus(shuttingDown: bool, running: bool): Status {
    if shuttingDown || !running then StatusNotReady else StatusOK
  }

  /** The cached result of `name`, if it has not expired at `now`. */
  function Fresh(cache: map<string, Cached>, name: string, now: nat): Option<CheckResult> {
    if name in cache && now < cache[name].expiresAt then Some(cache[name].result) else None
  }

  function Caching(cache: map<string, Cached>, r: CheckResult, now: nat, duration: nat): map<string, Cached> {
    cache[r.name := Cached(r, now + duration)]
  }

  /* ----- the code ----- */

  class ServerChecker {
    var serversRunning: bool

    constructor ()
      ensures !serversRunning
    {
      serversRunning := false;
    }

    method SetRunning(running: bool)
      modifies this
      ensures serversRunning == running
    {
      serversRunning := running;
    }

    method Check(now: nat) returns (r: CheckResult)
      ensures r == CheckResult("servers", if serversRunning then StatusOK else StatusStarting, now)
    {
      r := CheckResult(SERVERS, StatusOK, now);
      if !serversRunning {
        r := r.(status := StatusStarting);
      }
    }
  }

  class ReadinessChecker {
    var shuttingDown: bool
    var serversRunning: bool

    constructor ()
      ensures !shuttingDown && !serversRunning
    {
      shuttingDown, serversRunning := false, false;
    }

    method SetRunning(running: bool)
      modifies this`serversRunning
      ensures serversRunning == running
    {
      serversRunning := running;
    }

    method SetShuttingDown(shutDown: bool)
      modifies this`shuttingDown
      ensures shuttingDown == shutDown
    {
      shuttingDown := shutDown;
    }

    method Check(now: nat) returns (r: CheckResult)
      ensures r == CheckResult("readiness", if serversRunning && !shuttingDown then StatusOK else StatusNotReady, now)
    {
      r := CheckResult(READINESS, StatusOK, now);
      if shuttingDown {
        r := r.(status := StatusNotReady);
      } else if !serversRunning {
        r := r.(status := StatusNotReady);
      }
    }
  }

  /** A registered checker. Those outside this package report what they find at the moment. */
  datatype Checker =
    | Servers(servers: ServerChecker)
    | Readiness(readiness: ReadinessChecker)
    | External(name: string, status: Status)

  class Manager {
    const cacheDuration: nat
    var checkers: map<string, Checker>
    var cache: map<string, Cached>
    var serverChecker: ServerChecker?
    var readinessChecker: ReadinessChecker?

    constructor (cacheDuration: nat)
      ensures this.cacheDuration == cacheDuration && checkers == map[] && cache == map[]
      ensures serverChecker == null && readinessChecker == null
    {
      this.cacheDuration := cacheDuration;
      checkers, cache, serverChecker, readinessChecker := map[], map[], null, null;
    }

    static function Name(checker: Checker): string {
      match checker
      case Servers(_) => SERVERS
      case Readiness(_) => READINESS
      case External(name, _) => name
    }

    /** The special checkers are remembered, so that the flags can be set later. */
    method RegisterChecker(checker: Checker)
      modifies this`checkers, this`serverChecker, this`readinessChecker
      ensures checkers == match checker
                          case Servers(_) => old(checkers)["servers" := checker]
                          case Readiness(_) => old(checkers)["readiness" := checker]
                          case External(name, _) => old(checkers)[name := checker]
      ensures serverChecker == if checker.Servers? then checker.servers else old(serverChecker)
      ensures readinessChecker == if checker.Readiness? then checker.readiness else old(readinessChecker)
    {
      checkers := checkers[Name(checker) := checker];
      match checker {
        case Servers(c) => serverChecker := c;
        case Readiness(c) => readinessChecker := c;
        case External(_, _) =>
      }
    }

    method SetServersRunning(running: bool)
      modifies serverChecker, readinessChecker
      ensures serverChecker != null ==> serverChecker.serversRunning == running
      ensures readinessChecker != null ==> readinessChecker.serversRunning == running
      ensures readinessChecker != null ==> readinessChecker.shuttingDown == old(readinessChecker.shuttingDown)
    {
      if serverChecker != null {
        serverChecker.SetRunning(running);
      }
      if readinessChecker != null {
        readinessChecker.SetRunning(running);
      }
    }

    method SetShuttingDown(shutDown: bool)
      modifies readinessChecker
      ensures readinessChecker != null ==> readinessChecker.shuttingDown == shutDown
      ensures readinessChecker != null ==> readinessChecker.serversRunning == old(readinessChecker.serversRunning)
    {
      if readinessChecker != null {
        readinessChecker.SetShuttingDown(shutDown);
      }
    }

    method GetCachedResult(name: string, now: nat) returns (r: Option<CheckResult>)
      ensures r == if name in cache && now < cache[name].expiresAt then Some(cache[name].result) else None
    {
      r := None;
      if name in cache {
        if now < cache[name].expiresAt {
          r := Some(cache[name].result);
        }
      }
    }

    method CacheResult(name: string, result: CheckResult, now: nat)
      modifies this`cache
      ensures cache == old(cache)[name := Cached(result, now + cacheDuration)]
    {
      cache := cache[name := Cached(result, now + cacheDuration)];
    }

    /** The clock is read three times: for the lookup, by the check, and for the new entry. */
    method RunCheck(checker: Checker, looked: nat, checked: nat, stored: nat) returns (r: CheckResult)
      modifies this`cache
      ensures var name := match checker
                          case Servers(_) => "servers"
                          case Readiness(_) => "readiness"
                          case External(n, _) => n;
        if name in old(cache) && looked < old(cache)[name].expiresAt then
          r == old(cache)[name].result && cache == old(cache)
        else
          && r.name == name && r.timestamp == checked
          && cache == old(cache)[name := Cached(r, stored + cacheDuration)]
          && r.status == match checker
                         case Servers(c) => if c.serversRunning then StatusOK else StatusStarting
                         case Readiness(c) => if c.serversRunning && !c.shuttingDown then StatusOK else StatusNotReady
                         case External(_, status) => status
    {
      var name := Name(checker);
      var cached := GetCachedResult(name, looked);
      if cached.Some? {
        return cached.value;
      }
      match checker {
        case Servers(c) => r := c.Check(checked);
        case Readiness(c) => r := c.Check(checked);
        case External(n, status) => r := CheckResult(n, status, checked);
      }
      CacheResult(name, r, stored);
    }

    /** The readiness probe: ready exactly on an OK result, fresh from the cache or else from
        the flags. */
    method GetReadinessStatus(looked: nat, checked: nat, stored: nat) returns (ready: bool, status: Status)
      modifies this`cache
      ensures ready <==> status == StatusOK
      ensures readinessChecker == null ==> ready && cache == old(cache)
      ensures readinessChecker != null ==>
        if "readiness" in old(cache) && looked < old(cache)["readiness"].expiresAt then
          status == old(cache)["readiness"].result.status && cache == old(cache)
        else
          && status == (if readinessChecker.serversRunning && !readinessChecker.shuttingDown then StatusOK
                        else StatusNotReady)
          && cache == old(cache)["readiness" :=
                                 Cached(CheckResult("readiness", status, checked), stored + cacheDuration)]
    {
      var r := CheckResult(READINESS, StatusOK, checked);
      if readinessChecker != null {
        r := RunCheck(Readiness(readinessChecker), looked, checked, stored);
      }
      ready, status := r.status == StatusOK, r.status;
    }
  }

  /* ----- the startup probe ----- */

  datatype StartupResponse = StartupResponse(status: Status, checks: map<string, Status>)

  predicate Has(results: seq<CheckResult>, status: Status) {
    exists i :: 0 <= i < |results| && results[i].status == status
  }

  /** The status of the last check that is starting or in error, if there is one. */
  function LastAlarm(results: seq<CheckResult>): Status {
    if results == [] then StatusOK else
      var last := results[|results| - 1].status;
      if last == StatusStarting || last == StatusError then last else LastAlarm(results[..|results| - 1])
  }

  function Checks(results: seq<CheckResult>): map<string, Status> {
    if results == [] then map[] else
      var last := results[|results| - 1];
      Checks(results[..|results| - 1])[last.name := last.status]
  }

  function Startup(results: seq<CheckResult>): StartupResponse {
    StartupResponse(LastAlarm(results), Checks(results))
  }

  method GetStartupStatus(results: seq<CheckResult>) returns (response: StartupResponse)
    ensures response == Startup(results)
  {
    response := StartupResponse(StatusOK, map[]);
    var allOK := true;
    for i := 0 to |results|
      invariant response == Startup(results[..i])
      invariant allOK <==> forall j :: 0 <= j < i ==> results[j].status == StatusOK
    {
      assert results[..i + 1][..i] == results[..i];
      var result := results[i];
      response := response.(checks := response.checks[result.name := result.status]);
      if result.status != StatusOK {
        allOK := false;
      }
      if result.status == StatusStarting {
        response := response.(status := StatusStarting);
      }
      if result.status == StatusError {
        response := response.(status := StatusError);
      }
    }
    assert results[..|results|] == results;
    if allOK {
      AlarmIsSomeCheck(results);
      response := response.(status := StatusOK);
    }
  }

  /** The status in the response is that of the last check, the `k`-th, that is starting or in
      error; it is OK if there is none, -1 standing for that. */
  lemma {:induction false} AlarmIsLast(results: seq<CheckResult>) returns (k: int)
    ensures -1 <= k < |results|
    ensures forall j :: k < j < |results| ==> results[j].status != StatusStarting && results[j].status != StatusError
    ensures if k == -1 then Startup(results).status == StatusOK
            else Startup(results).status == results[k].status
                 && (results[k].status == StatusStarting || results[k].status == StatusError)
  {
    k := |results| - 1;
    if results != [] && results[k].status != StatusStarting && results[k].status != StatusError {
      k := AlarmIsLast(results[..k]);
    }
  }

  /** Its entry under `name` is the status of the last check of that name, the `k`-th; there is
      none if there is no such check. */
  lemma {:induction false} LastUnderName(results: seq<CheckResult>, name: string) returns (k: int)
    ensures -1 <= k < |results|
    ensures forall j :: k < j < |results| ==> results[j].name != name
    ensures if k == -1 then name !in Startup(results).checks
            else results[k].name == name && name in Startup(results).checks
                 && Startup(results).checks[name] == results[k].status
  {
    k := |results| - 1;
    if results != [] && results[k].name != name {
      k := LastUnderName(results[..k], name);
    }
  }

  function StartupCode(results: seq<CheckResult>): nat {
    if Startup(results).status == StatusOK then 200 else 503
  }

  lemma {:induction false} AlarmIsSomeCheck(results: seq<CheckResult>)
    ensures LastAlarm(results) == StatusOK <==> !Has(results, StatusStarting) && !Has(results, StatusError)
    ensures LastAlarm(results) == StatusStarting ==> Has(results, StatusStarting)
    ensures LastAlarm(results) == StatusError ==> Has(results, StatusError)
    ensures LastAlarm(results) != StatusNotReady
  {
    if results != [] {
      var front := results[..|results| - 1];
      AlarmIsSomeCheck(front);
      assert forall i :: 0 <= i < |front| ==> results[i] == front[i];
      assert results[|results| - 1] == results[|results| - 1];
      assert forall st :: Has(results, st) <==> results[|results| - 1].status == st || Has(front, st) by {
        forall st ensures Has(results, st) <==> results[|results| - 1].status == st || Has(front, st) {
          if i :| 0 <= i < |results| && results[i].status == st {
            if i < |front| {
              assert front[i].status == st;
            }
          }
        }
      }
    }
  }

  lemma SameElementsSameHas(a: seq<CheckResult>, b: seq<CheckResult>, status: Status)
    requires multiset(a) == multiset(b)
    ensures Has(a, status) <==> Has(b, status)
  {
    if i :| 0 <= i < |a| && a[i].status == status {
      assert a[i] in multiset(b);
      assert a[i] in b;
    }
    if i :| 0 <= i < |b| && b[i].status == status {
      assert b[i] in multiset(a);
      assert b[i] in a;
    }
  }

  /** The probe's HTTP code does not depend on the order in which results arrive: it is 200
      exactly when no check is starting or in error. A check that is merely not ready, as the
      readiness check is during start and shutdown, does not count. */
  lemma CodeIgnoresOrder(a: seq<CheckResult>, b: seq<CheckResult>)
    requires multiset(a) == multiset(b)
    ensures StartupCode(a) == StartupCode(b)
    ensures StartupCode(a) == 200 || StartupCode(a) == 503
    ensures StartupCode(a) == 200 <==>
              forall i :: 0 <= i < |a| ==> a[i].status != StatusStarting && a[i].status != StatusError
  {
    AlarmIsSomeCheck(a);
    AlarmIsSomeCheck(b);
    SameElementsSameHas(a, b, StatusStarting);
    SameElementsSameHas(a, b, StatusError);
  }

  /** The status in the body depends on the order exactly when one check is starting and
      another is in error. */
  lemma BodyDependsOnOrder(a: seq<CheckResult>)
    ensures (forall b :: multiset(b) == multiset(a) ==> Startup(b).status == Startup(a).status)
            <==> !(Has(a, StatusStarting) && Has(a, StatusError))
  {
    AlarmIsSomeCheck(a);
    if Has(a, StatusStarting) && Has(a, StatusError) {
      var b := MoveToEnd(a, StatusStarting);
      var b' := MoveToEnd(a, StatusError);
      assert Startup(b).status != Startup(b').status;
    } else {
      forall b | multiset(b) == multiset(a) ensures Startup(b).status == Startup(a).status {
        AlarmIsSomeCheck(b);
        SameElementsSameHas(a, b, StatusStarting);
        SameElementsSameHas(a, b, StatusError);
      }
    }
  }

  lemma MoveToEnd(a: seq<CheckResult>, status: Status) returns (b: seq<CheckResult>)
    requires Has(a, status) && (status == StatusStarting || status == StatusError)
    ensures multiset(b) == multiset(a) && Startup(b).status == status
  {
    var i :| 0 <= i < |a| && a[i].status == status;
    b := a[..i] + a[i + 1..] + [a[i]];
    assert a == a[..i] + [a[i]] + a[i + 1..];
  }

  predicate DistinctNames(results: seq<CheckResult>) {
    forall i, j :: 0 <= i < j < |results| ==> results[i].name != results[j].name
  }

  lemma {:induction false} ChecksLookup(results: seq<CheckResult>)
    ensures forall k :: k in Checks(results) ==> exists i :: 0 <= i < |results| && results[i].name == k
    ensures forall i :: 0 <= i < |results| ==> results[i].name in Checks(results)
    ensures DistinctNames(results) ==>
              forall i :: 0 <= i < |results| ==> Checks(results)[results[i].name] == results[i].status
  {
    if results != [] {
      var front := results[..|results| - 1];
      ChecksLookup(front);
      forall k | k in Checks(results) ensures exists i :: 0 <= i < |results| && results[i].name == k {
        if k in Checks(front) {
          var i :| 0 <= i < |front| && front[i].name == k;
          assert results[i].name == k;
        } else {
          assert results[|results| - 1].name == k;
        }
      }
      forall i | 0 <= i < |results| ensures results[i].name in Checks(results) {
        if i < |front| {
          assert front[i] == results[i];
        }
      }
    }
  }

  /** One entry per check, under its own name and with its own status, whatever the order. */
  lemma ChecksAreTheResults(results: seq<CheckResult>, name: string, status: Status)
    requires DistinctNames(results)
    ensures (name in Checks(results) && Checks(results)[name] == status)
            <==> exists i :: 0 <= i < |results| && results[i].name == name && results[i].status == status
  {
    ChecksLookup(results);
  }

  /** The startup probe over CheckAll: whatever the interleaving of the checks, and as long as
      they come to the same results, the code sent is the same. */
  lemma ProbeIgnoresScheduling(n: nat, run: seq<FanIn.Action<CheckResult>>, run': seq<FanIn.Action<CheckResult>>)
    requires FanIn.Valid(FanIn.Initial(n), run) && FanIn.Valid(FanIn.Initial(n), run')
    requires FanIn.Exec(FanIn.Initial(n), run).ended && FanIn.Exec(FanIn.Initial(n), run').ended
    requires FanIn.Exec(FanIn.Initial(n), run).workers == FanIn.Exec(FanIn.Initial(n), run').workers
    ensures StartupCode(FanIn.Exec(FanIn.Initial(n), run).collected)
         == StartupCode(FanIn.Exec(FanIn.Initial(n), run').collected)
  {
    FanIn.CollectsEachOnce(n, run);
    FanIn.CollectsEachOnce(n, run');
    var end, end' := FanIn.Exec(FanIn.Initial(n), run), FanIn.Exec(FanIn.Initial(n), run');
    CodeIgnoresOrder(end.collected, end'.collected);
  }

  lemma {:induction false} CountOfDistinct(results: seq<CheckResult>, r: CheckResult)
    requires DistinctNames(results)
    ensures multiset(results)[r] <= 1
  {
    if results != [] {
      var front := results[..|results| - 1];
      var last := results[|results| - 1];
      assert results == front + [last];
      CountOfDistinct(front, r);
      if r == last {
        assert r !in front;
      }
    }
  }

  lemma DistinctInAnyOrder(a: seq<CheckResult>, b: seq<CheckResult>)
    requires DistinctNames(a) && multiset(a) == multiset(b)
    ensures DistinctNames(b)
  {
    forall i, j | 0 <= i < j < |b| ensures b[i].name != b[j].name {
      assert b[i] in multiset(a) && b[j] in multiset(a);
      assert b[i] in a && b[j] in a;
      CountOfDistinct(a, b[i]);
      assert b == b[..i] + [b[i]] + b[i + 1..j] + [b[j]] + b[j + 1..];
    }
  }

  /** The startup probe reports exactly the registered checks: when the workers run checkers of
      distinct names and each answers under its own name, the entries of the response are those
      names with those answers. */
  lemma ProbeReportsEveryCheck(names: seq<string>, run: seq<FanIn.Action<CheckResult>>, name: string, status: Status)
    requires FanIn.Valid(FanIn.Initial(|names|), run) && FanIn.Exec(FanIn.Initial(|names|), run).ended
    requires forall i, j :: 0 <= i < j < |names| ==> names[i] != names[j]
    requires var ws := FanIn.Exec(FanIn.Initial(|names|), run).workers;
      |ws| == |names| ==> forall i :: 0 <= i < |names| && ws[i].Finished? ==> ws[i].value.name == names[i]
    ensures var end := FanIn.Exec(FanIn.Initial(|names|), run);
      && |end.workers| == |names|
      && ((name in Checks(end.collected) && Checks(end.collected)[name] == status)
          <==> exists i :: 0 <= i < |names| && names[i] == name && end.workers[i].Finished?
                           && end.workers[i].value.status == status)
  {
    var n := |names|;
    FanIn.CollectsEachOnce(n, run);
    var end := FanIn.Exec(FanIn.Initial(n), run);
    var values := FanIn.Outputs(end.workers);
    assert DistinctNames(values);
    DistinctInAnyOrder(values, end.collected);
    ChecksAreTheResults(end.collected, name, status);
    if i :| 0 <= i < n && end.collected[i].name == name && end.collected[i].status == status {
      assert end.collected[i] in multiset(values);
      var k :| 0 <= k < n && values[k] == end.collected[i];
      assert names[k] == name && end.workers[k].Finished?;
    }
    if i :| 0 <= i < n && names[i] == name && end.workers[i].Finished? && end.workers[i].value.status == status {
      assert values[i] in multiset(end.collected);
      var k :| 0 <= k < n && end.collected[k] == values[i];
      assert end.collected[k].name == name;
    }
  }
}
