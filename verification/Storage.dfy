/** The store, the lock manager and the storage health check as they are written, running
 * beside other clients: before every access to the distributed map the others may have
 * changed it in any way. Each method is shown to make exactly the accesses of one client of
 * the protocol and to answer as that client does.
 */
module Storage {
  import opened Model
  import opened Protocol
  import opened Codec

  /* ----- a client's accesses ----- */

  /** One access to the distributed map: the map before and after, the time, and whether the
      access failed. */
  datatype Visit = Visit(before: map<string, Entry>, after: map<string, Entry>, now: nat, failed: bool)

  /** The call is refused before it reaches the store. */
  predicate Refused(req: Request) {
    !req.HealthCheck? && (req.key == "" || (req.Acquire? && (req.branch == "" || req.owner == "")))
  }

  function NextPc(req: Request, pc: Pc, v: Visit, stamp: Timestamp): Pc {
    if v.failed then AfterFault(req, pc) else Access(Split, req, pc, Look(v.before, req.key), v.now, stamp).0
  }

  /** The access is the one the protocol prescribes to a client at `pc`. */
  predicate Prescribed(req: Request, pc: Pc, v: Visit, stamp: Timestamp) {
    v.after == if v.failed then v.before
               else Set(v.before, req.key, Access(Split, req, pc, Look(v.before, req.key), v.now, stamp).1)
  }

  /** From `pc` on, the client makes the given accesses and then answers `outcome`. */
  predicate Follows(req: Request, pc: Pc, visits: seq<Visit>, stamp: Timestamp, outcome: Outcome)
    decreases |visits|
  {
    if !pc.Live() then visits == [] && pc.outcome == outcome
    else if pc.Start? && Refused(req) then visits == [] && outcome == Failed
    else visits != [] && Prescribed(req, pc, visits[0], stamp)
         && Follows(req, NextPc(req, pc, visits[0], stamp), visits[1..], stamp, outcome)
  }

  lemma FollowsMore(req: Request, pc: Pc, v: Visit, visits: seq<Visit>, stamp: Timestamp, outcome: Outcome)
    requires pc.Live() && !(pc.Start? && Refused(req)) && Prescribed(req, pc, v, stamp)
    requires Follows(req, NextPc(req, pc, v, stamp), visits, stamp, outcome)
    ensures Follows(req, pc, [v] + visits, stamp, outcome)
  {
  }

  /** The client's own actions in a run of the protocol are the given accesses. */
  predicate Makes(s: State, run: seq<Action>, c: ClientId, visits: seq<Visit>, stamp: Timestamp)
    requires Valid(Split, s, run) && c in s.clients
    decreases |run|
  {
    if run == [] then visits == []
    else if (run[0].Step? || run[0].Fault?) && run[0].c == c then
      && visits != []
      && visits[0].before == s.dmap && visits[0].now == s.now && visits[0].failed == run[0].Fault?
      && (run[0].Step? ==> run[0].stamp == stamp)
      && Makes(Apply(Split, s, run[0]), run[1..], c, visits[1..], stamp)
    else !run[0].Return? && Makes(Apply(Split, s, run[0]), run[1..], c, visits, stamp)
  }

  /** Each of those actions leaves the store as the access did. */
  predicate Leaves(s: State, run: seq<Action>, c: ClientId, visits: seq<Visit>)
    requires Valid(Split, s, run)
    decreases |run|
  {
    if run == [] then true
    else if (run[0].Step? || run[0].Fault?) && run[0].c == c then
      visits != [] && Apply(Split, s, run[0]).dmap == visits[0].after
      && Leaves(Apply(Split, s, run[0]), run[1..], c, visits[1..])
    else Leaves(Apply(Split, s, run[0]), run[1..], c, visits)
  }

  /** In whatever run of the protocol a client meets the store as these accesses did, however
      many others act in between, it comes to the same answer and has had the same effect. */
  lemma {:induction false} FollowingIsRunning(s: State, run: seq<Action>, c: ClientId, visits: seq<Visit>,
                                              stamp: Timestamp, outcome: Outcome)
    requires Valid(Split, s, run) && c in s.clients && Makes(s, run, c, visits, stamp)
    requires !(s.clients[c].pc.Start? && Refused(s.clients[c].req))
    requires Follows(s.clients[c].req, s.clients[c].pc, visits, stamp, outcome)
    ensures c in Exec(Split, s, run).clients
    ensures !Exec(Split, s, run).clients[c].pc.Live() && Exec(Split, s, run).clients[c].pc.outcome == outcome
    ensures Leaves(s, run, c, visits)
    decreases |run|
  {
    if run != [] {
      var s' := Apply(Split, s, run[0]);
      if (run[0].Step? || run[0].Fault?) && run[0].c == c {
        assert s'.clients[c] == Client(s.clients[c].req, NextPc(s.clients[c].req, s.clients[c].pc, visits[0], stamp));
        assert s'.dmap == visits[0].after by { SetSame(s.dmap, s.clients[c].req.key); }
        FollowingIsRunning(s', run[1..], c, visits[1..], stamp, outcome);
      } else {
        FollowingIsRunning(s', run[1..], c, visits, stamp, outcome);
      }
    }
  }

  lemma SetSame(dmap: map<string, Entry>, key: string)
    ensures Set(dmap, key, Look(dmap, key)) == dmap
  {
  }

  /** The accesses of a client in a run. */
  function VisitsOf(s: State, run: seq<Action>, c: ClientId): seq<Visit>
    requires Valid(Split, s, run)
    decreases |run|
  {
    if run == [] then [] else
      var s' := Apply(Split, s, run[0]);
      (if (run[0].Step? || run[0].Fault?) && run[0].c == c then [Visit(s.dmap, s'.dmap, s.now, run[0].Fault?)] else [])
      + VisitsOf(s', run[1..], c)
  }

  /** The stamp of the client's first access. */
  function StampOf(run: seq<Action>, c: ClientId, otherwise: Timestamp): Timestamp {
    if run == [] then otherwise
    else if run[0].Step? && run[0].c == c then run[0].stamp
    else if run[0].Fault? && run[0].c == c then otherwise
    else StampOf(run[1..], c, otherwise)
  }

  /** And conversely: whatever the run, the accesses of a client that has come to an end in it
      are those of one call that answers as the client does. */
  lemma {:induction false} RunningIsFollowing(s: State, run: seq<Action>, c: ClientId, stamp: Timestamp)
    requires Valid(Split, s, run) && c in s.clients && !(s.clients[c].pc.Start? && Refused(s.clients[c].req))
    requires s.clients[c].pc.Start? ==> stamp == StampOf(run, c, stamp)
    requires !IsLive(Exec(Split, s, run), c)
    ensures c in Exec(Split, s, run).clients
    ensures Follows(s.clients[c].req, s.clients[c].pc, VisitsOf(s, run, c), stamp,
                    Exec(Split, s, run).clients[c].pc.outcome)
    decreases |run|
  {
    if run != [] {
      var s' := Apply(Split, s, run[0]);
      if s.clients[c].pc.Live() && (run[0].Step? || run[0].Fault?) && run[0].c == c {
        OwnAccess(s, run[0], stamp);
      }
      RunningIsFollowing(s', run[1..], c, stamp);
      if s.clients[c].pc.Live() && (run[0].Step? || run[0].Fault?) && run[0].c == c {
        FollowsMore(s.clients[c].req, s.clients[c].pc, Visit(s.dmap, s'.dmap, s.now, run[0].Fault?),
                    VisitsOf(s', run[1..], c), stamp, Exec(Split, s, run).clients[c].pc.outcome);
      } else {
        assert VisitsOf(s, run, c) == VisitsOf(s', run[1..], c);
        assert s'.clients[c].req == s.clients[c].req;
      }
    }
  }

  lemma OwnAccess(s: State, a: Action, stamp: Timestamp)
    requires Enabled(s, a) && (a.Step? || a.Fault?)
    requires a.Step? && s.clients[a.c].pc.Start? ==> a.stamp == stamp
    ensures var Client(req, pc), s' := s.clients[a.c], Apply(Split, s, a);
      var v := Visit(s.dmap, s'.dmap, s.now, a.Fault?);
      && Prescribed(req, pc, v, stamp) && s'.clients[a.c] == Client(req, NextPc(req, pc, v, stamp))
      && !s'.clients[a.c].pc.Start?
  {
  }

  /* ----- what the answers mean ----- */

  /** One access, and what is left of the call. */
  lemma FirstVisit(req: Request, pc: Pc, visits: seq<Visit>, stamp: Timestamp, outcome: Outcome)
    requires pc.Live() && !(pc.Start? && Refused(req)) && Follows(req, pc, visits, stamp, outcome)
    ensures visits != [] && Prescribed(req, pc, visits[0], stamp)
    ensures var next := NextPc(req, pc, visits[0], stamp);
      && Follows(req, next, visits[1..], stamp, outcome)
      && (!next.Live() ==> |visits| == 1 && next.outcome == outcome)
    ensures Set(visits[0].before, req.key, Look(visits[0].before, req.key)) == visits[0].before
  {
    SetSame(visits[0].before, req.key);
  }

  /** The second half of an acquire, from the existence check on. */
  lemma StoreAnswers(p: string, branch: string, owner: string, lock: Lock, visits: seq<Visit>, stamp: Timestamp,
                     outcome: Outcome)
    requires Follows(Acquire(p, branch, owner), Checking(lock), visits, stamp, outcome)
    ensures 1 <= |visits| <= 2 && visits[0].after == visits[0].before
    ensures if visits[0].failed then |visits| == 1 && outcome == Failed else |visits| == 2
    ensures |visits| == 2 && p in visits[0].before ==>
      var v := visits[1];
      && v.after == v.before
      && if v.failed || p !in v.before then outcome == Failed
         else match v.before[p].value
              case LockData(other) =>
                outcome == if other.branch == branch && other.owner == owner then Success(other) else Conflict(other)
              case Text(_) => outcome == Failed
    ensures |visits| == 2 && p !in visits[0].before ==>
      var v := visits[1];
      if v.failed then outcome == Failed && v.after == v.before
      else outcome == Success(lock) && v.after == v.before[p := Entry(LockData(lock), None)]
  {
    var req := Acquire(p, branch, owner);
    FirstVisit(req, Checking(lock), visits, stamp, outcome);
    if !visits[0].failed {
      FirstVisit(req, if p in visits[0].before then Rereading else Putting(lock), visits[1..], stamp, outcome);
    }
  }

  /** The answer of an acquire in terms of what its accesses found. It makes one access if its
      first get fails or finds something, two if the check then fails, and three otherwise; the
      third is the Put if the check found nothing and else a get. Only that Put changes
      anything. */
  lemma AcquireAnswers(p: string, branch: string, owner: string, visits: seq<Visit>, stamp: Timestamp, outcome: Outcome)
    requires p != "" && branch != "" && owner != ""
    requires Follows(Acquire(p, branch, owner), Start, visits, stamp, outcome)
    ensures 1 <= |visits| <= 3
    ensures |visits| == 1 <==> visits[0].failed || p in visits[0].before
    ensures |visits| == 2 ==> visits[1].failed && outcome == Failed
    ensures |visits| == 3 ==> !visits[1].failed
    ensures forall i :: 0 <= i < |visits| && (i < 2 || p in visits[1].before) ==> visits[i].after == visits[i].before
    ensures |visits| != 2 && (|visits| == 3 ==> p in visits[1].before) ==>
      var v := visits[|visits| - 1];
      if v.failed || p !in v.before then outcome == Failed
      else match v.before[p].value
           case LockData(lock) =>
             outcome == if lock.branch == branch && lock.owner == owner then Success(lock) else Conflict(lock)
           case Text(_) => outcome == Failed
    ensures |visits| == 3 && p !in visits[1].before ==>
      var v, lock := visits[2], Lock(p, branch, stamp, owner);
      if v.failed then outcome == Failed && v.after == v.before
      else outcome == Success(lock) && v.after == v.before[p := Entry(LockData(lock), None)]
  {
    var req, lock := Acquire(p, branch, owner), Lock(p, branch, stamp, owner);
    FirstVisit(req, Start, visits, stamp, outcome);
    if !visits[0].failed && p !in visits[0].before {
      StoreAnswers(p, branch, owner, lock, visits[1..], stamp, outcome);
      assert visits[1..][0] == visits[1] && (|visits| == 3 ==> visits[1..][1] == visits[2]);
    }
  }

  /** So a success means that the caller's own branch and owner hold the project when the last
      access is over, and a conflict that another branch or owner does. */
  lemma AcquireMeans(p: string, branch: string, owner: string, visits: seq<Visit>, stamp: Timestamp, outcome: Outcome)
    requires p != "" && branch != "" && owner != ""
    requires Follows(Acquire(p, branch, owner), Start, visits, stamp, outcome)
    ensures visits != [] && (outcome.Success? || outcome.Conflict? || outcome.Failed?)
    ensures outcome.Success? || outcome.Conflict? ==>
      var v := visits[|visits| - 1];
      !v.failed && p in v.after && v.after[p].value == LockData(outcome.lock)
    ensures outcome.Success? ==> outcome.lock.branch == branch && outcome.lock.owner == owner
    ensures outcome.Conflict? ==> (outcome.lock.branch, outcome.lock.owner) != (branch, owner)
  {
    AcquireAnswers(p, branch, owner, visits, stamp, outcome);
  }

  /** A release is one access, a delete, and is answered Released exactly if that succeeds. */
  lemma ReleaseAnswers(p: string, branch: string, owner: string, visits: seq<Visit>, stamp: Timestamp, outcome: Outcome)
    requires p != "" && Follows(Release(p, branch, owner), Start, visits, stamp, outcome)
    ensures |visits| == 1
    ensures if visits[0].failed then outcome == Failed && visits[0].after == visits[0].before
            else outcome == Released && visits[0].after == visits[0].before - {p}
  {
    FirstVisit(Release(p, branch, owner), Start, visits, stamp, outcome);
  }

  /** A get is one access that changes nothing. */
  lemma GetAnswers(p: string, visits: seq<Visit>, stamp: Timestamp, outcome: Outcome)
    requires p != "" && Follows(Get(p), Start, visits, stamp, outcome)
    ensures |visits| == 1 && visits[0].after == visits[0].before
    ensures var v := visits[0];
      if v.failed then outcome == Failed
      else if p !in v.before then outcome == NotFound
      else match v.before[p].value
           case LockData(lock) => outcome == Found(lock)
           case Text(_) => outcome == Failed
  {
    FirstVisit(Get(p), Start, visits, stamp, outcome);
  }

  /** When a health check is healthy, exactly: its Put and its Get go through, and the Get finds
      the test value. A failed Put ends the check; otherwise it deletes the test key, with no
      effect on the verdict. The test value is stored for five seconds. */
  lemma HealthyExactly(key: string, visits: seq<Visit>, stamp: Timestamp, outcome: Outcome)
    requires Follows(HealthCheck(key), Start, visits, stamp, outcome)
    ensures outcome == Healthy || outcome == Unhealthy
    ensures |visits| == if |visits| > 0 && visits[0].failed then 1 else 3
    ensures outcome == Healthy <==>
      && |visits| == 3 && !visits[0].failed && !visits[1].failed
      && key in visits[1].before && visits[1].before[key].value == Text("healthy")
    ensures visits[0].after == if visits[0].failed then visits[0].before
              else visits[0].before[key := Entry(Text("healthy"), Some(visits[0].now + 5_000_000_000))]
    ensures |visits| == 3 ==> visits[1].after == visits[1].before
    ensures |visits| == 3 ==> visits[2].after == if visits[2].failed then visits[2].before else visits[2].before - {key}
  {
    var req := HealthCheck(key);
    FirstVisit(req, Start, visits, stamp, outcome);
    if !visits[0].failed {
      var rest := visits[1..];
      FirstVisit(req, Fetching, rest, stamp, outcome);
      FirstVisit(req, NextPc(req, Fetching, rest[0], stamp), rest[1..], stamp, outcome);
      assert rest[0] == visits[1] && rest[1..][0] == visits[2];
    }
  }

  /** The same over every run of the protocol: a health check that has come to an end in it is
      healthy exactly if two of its accesses were a Put and then a Get that went through, and
      the test value was there at the Get. */
  lemma HealthyInRuns(s: State, run: seq<Action>, c: ClientId, key: string)
    requires Valid(Split, s, run) && c in s.clients && s.clients[c] == Client(HealthCheck(key), Start)
    requires !IsLive(Exec(Split, s, run), c)
    ensures c in Exec(Split, s, run).clients
    ensures Exec(Split, s, run).clients[c].pc.outcome == Healthy <==>
      var visits := VisitsOf(s, run, c);
      && |visits| == 3 && !visits[0].failed && !visits[1].failed
      && key in visits[1].before && visits[1].before[key].value == Text("healthy")
  {
    var stamp: Timestamp := Reading(1970, 1, 1, 0, 0, 0, 0, 0);
    StampIsFound(run, c, stamp);
    RunningIsFollowing(s, run, c, StampOf(run, c, stamp));
    HealthyExactly(key, VisitsOf(s, run, c), StampOf(run, c, stamp), Exec(Split, s, run).clients[c].pc.outcome);
  }

  /** In particular a check on a store that works, and is left alone between its Put and its
      Get, is healthy. */
  lemma WorkingStoreIsHealthy(key: string, visits: seq<Visit>, stamp: Timestamp, outcome: Outcome)
    requires Follows(HealthCheck(key), Start, visits, stamp, outcome)
    requires |visits| >= 2 && !visits[0].failed && !visits[1].failed && visits[1].before == visits[0].after
    ensures outcome == Healthy
  {
    HealthyExactly(key, visits, stamp, outcome);
  }

  lemma {:induction false} StampIsFound(run: seq<Action>, c: ClientId, otherwise: Timestamp)
    ensures StampOf(run, c, StampOf(run, c, otherwise)) == StampOf(run, c, otherwise)
  {
    if run != [] {
      StampIsFound(run[1..], c, otherwise);
    }
  }

  /* ----- the store ----- */

  datatype Record = Record(data: string, deadline: Option<nat>)

  datatype Reply<T> = Ok(value: T) | Missing | Broken

  /** A stored string as its readers see it. */
  function Meaning(data: string): Value {
    match Unmarshal(data)
    case Some(lock) => LockData(lock)
    case None => Text(data)
  }

  function Means(record: Record): Entry { Entry(Meaning(record.data), record.deadline) }

  lemma MeansOfUpdate(dmap: map<string, Record>, key: string, record: Record)
    ensures MapMeans(dmap[key := record]) == MapMeans(dmap)[key := Means(record)]
    ensures MapMeans(dmap - {key}) == MapMeans(dmap) - {key}
  {
  }

  function MapMeans(dmap: map<string, Record>): map<string, Entry> {
    map k | k in dmap :: Means(dmap[k])
  }

  method Serialize(lock: Lock) returns (data: string)
    ensures Meaning(data) == LockData(lock)
  {
    data := Marshal(lock);
    LockRoundTrip(lock);
  }

  /** The health check's test value. No other string can be mistaken for it. */
  method TestValue() returns (data: string)
    ensures Meaning(data) == TEST_VALUE
  {
    data := "healthy";
    assert PROJECT[0] != data[0];
  }

  method IsTestValue(data: string) returns (same: bool)
    ensures same <==> Meaning(data) == TEST_VALUE
  {
    var healthy := "healthy";
    assert PROJECT[0] != healthy[0];
    same := data == healthy;
  }

  /** The Olric store: one map shared by all calls, and a record of the accesses made to it
      through this instance. */
  class OlricStore {
    var dmap: map<string, Record>
    var now: nat
    ghost var log: seq<Visit>

    constructor ()
      ensures dmap == map[] && log == []
    {
      dmap, now, log := map[], 0, [];
    }

    /** The other clients, and time, do what they like. */
    method Interleave()
      modifies this`dmap, this`now
      ensures now >= old(now)
    {
    }

    ghost predicate Logged(before: seq<Visit>, n: nat)
      reads this
    {
      |log| == |before| + n && before <= log
    }

    /** The last access went through, and left `lock` under `key`. */
    ghost predicate Holds(key: string, lock: Lock)
      reads this
    {
      log != [] && var v := log[|log| - 1];
      !v.failed && key in v.after && v.after[key].value == LockData(lock)
    }

    method Put(key: string, data: string, ttl: nat) returns (err: bool)
      modifies this
      ensures Logged(old(log), 1)
      ensures var v := log[|old(log)|];
        v.failed == err && v.now == now
        && v.after == (if err then v.before
                       else v.before[key := Entry(Meaning(data), if ttl > 0 then Some(now + ttl) else None)])
        && MapMeans(dmap) == v.after
    {
      Interleave();
      ghost var before := MapMeans(dmap);
      err := *;
      if !err {
        if ttl > 0 {
          MeansOfUpdate(dmap, key, Record(data, Some(now + ttl)));
          dmap := dmap[key := Record(data, Some(now + ttl))];
          assert MapMeans(dmap) == before[key := Entry(Meaning(data), Some(now + ttl))];
        } else {
          MeansOfUpdate(dmap, key, Record(data, None));
          dmap := dmap[key := Record(data, None)];
          assert MapMeans(dmap) == before[key := Entry(Meaning(data), None)];
        }
      }
      log := log + [Visit(before, MapMeans(dmap), now, err)];
    }

    method Get(key: string) returns (r: Reply<string>)
      modifies this
      ensures Logged(old(log), 1)
      ensures var v := log[|old(log)|];
        v.failed == r.Broken? && v.now == now && v.after == v.before == MapMeans(dmap)
        && (r.Missing? <==> !v.failed && key !in v.before)
        && (r.Ok? ==> key in v.before && v.before[key].value == Meaning(r.value))
    {
      Interleave();
      var failed: bool := *;
      log := log + [Visit(MapMeans(dmap), MapMeans(dmap), now, failed)];
      if failed {
        return Broken;
      }
      r := if key in dmap then Ok(dmap[key].data) else Missing;
    }

    /** Deleting a missing key is no error. */
    method Delete(key: string) returns (err: bool)
      modifies this
      ensures Logged(old(log), 1)
      ensures var v := log[|old(log)|];
        v.failed == err && v.now == now && v.after == (if err then v.before else v.before - {key})
        && MapMeans(dmap) == v.after
    {
      Interleave();
      ghost var before := MapMeans(dmap);
      MeansOfUpdate(dmap, key, Record("", None));
      err := *;
      if !err {
        dmap := dmap - {key};
      }
      log := log + [Visit(before, MapMeans(dmap), now, err)];
    }

    /** An existence check and, if it finds nothing, a Put. The check and the Put each meet the
        store as the other clients left it. */
    method PutIfAbsent(key: string, data: string, ttl: nat) returns (r: Reply<bool>)
      modifies this
      ensures !r.Missing? && (Logged(old(log), 1) || Logged(old(log), 2))
      ensures var v := log[|old(log)|];
        v.after == v.before
        && (Logged(old(log), 1) <==> v.failed || key in v.before)
        && (Logged(old(log), 1) ==> r == if v.failed then Broken else Ok(false))
      ensures Logged(old(log), 2) ==>
        var v := log[|old(log)| + 1];
        r == (if v.failed then Broken else Ok(true))
        && v.after == (if v.failed then v.before
                       else v.before[key := Entry(Meaning(data), if ttl > 0 then Some(v.now + ttl) else None)])
    {
      var existing := Get(key);
      if existing.Ok? {
        return Ok(false);
      }
      if !existing.Missing? {
        return Broken;
      }
      var err := Put(key, data, ttl);
      if err {
        return Broken;
      }
      r := Ok(true);
    }
  }

  /* ----- the lock manager ----- */

  /** What a get answers on what it finds. */
  function GetReply(v: Visit, project: string): Reply<Lock> {
    if v.failed then Broken else
      match Report(Look(v.before, project))
      case Found(lock) => Ok(lock)
      case NotFound => Missing
      case _ => Broken
  }

  /** What an acquire makes of a get's reply. */
  function Verdict(branch: string, owner: string, r: Reply<Lock>): Outcome {
    match r
    case Ok(lock) => if lock.HeldBy(branch, owner) then Success(lock) else Conflict(lock)
    case _ => Failed
  }

  lemma OneMore(req: Request, pc: Pc, v: Visit, stamp: Timestamp, outcome: Outcome)
    requires pc.Live() && !(pc.Start? && Refused(req))
    requires Prescribed(req, pc, v, stamp) && NextPc(req, pc, v, stamp) == Decided(outcome)
    ensures Follows(req, pc, [v], stamp, outcome)
  {
  }

  /** An acquire that learns its verdict from a get, its first or the one after a lost race. */
  lemma GetDecides(req: Request, pc: Pc, v: Visit, stamp: Timestamp)
    requires req.Acquire? && !Refused(req) && v.after == v.before
    requires pc.Rereading? || (pc.Start? && !GetReply(v, req.key).Missing?)
    ensures Follows(req, pc, [v], stamp, Verdict(req.branch, req.owner, GetReply(v, req.key)))
  {
  }

  /** An acquire whose first get finds nothing goes on to its PutIfAbsent. */
  lemma GetFindsNothing(req: Request, v: Visit, stamp: Timestamp, visits: seq<Visit>, outcome: Outcome)
    requires req.Acquire? && !Refused(req) && v.after == v.before && GetReply(v, req.key).Missing?
    requires Follows(req, Checking(Lock(req.key, req.branch, stamp, req.owner)), visits, stamp, outcome)
    ensures Follows(req, Start, [v] + visits, stamp, outcome)
  {
  }

  /** A PutIfAbsent that does not fail at its check. */
  lemma CheckPasses(req: Request, lock: Lock, v: Visit, stamp: Timestamp, visits: seq<Visit>, outcome: Outcome)
    requires !v.failed && v.after == v.before
    requires Follows(req, if req.key in v.before then Rereading else Putting(lock), visits, stamp, outcome)
    ensures Follows(req, Checking(lock), [v] + visits, stamp, outcome)
  {
  }

  predicate PutLeaves(key: string, lock: Lock, v: Visit) {
    v.after == if v.failed then v.before else v.before[key := Entry(LockData(lock), None)]
  }

  lemma PutEnds(req: Request, lock: Lock, v: Visit, stamp: Timestamp)
    requires PutLeaves(req.key, lock, v)
    ensures Follows(req, Putting(lock), [v], stamp, if v.failed then Failed else Success(lock))
  {
  }

  /** A PutIfAbsent that does not lose a race: its check fails, or it goes on to its Put. */
  lemma PutIfAbsentEnds(req: Request, lock: Lock, visits: seq<Visit>, stamp: Timestamp)
    requires 1 <= |visits| <= 2 && visits[0].after == visits[0].before
    requires |visits| == 1 <==> visits[0].failed
    requires |visits| == 2 ==> req.key !in visits[0].before
    requires |visits| == 2 ==> PutLeaves(req.key, lock, visits[1])
    ensures Follows(req, Checking(lock), visits, stamp, if visits[|visits| - 1].failed then Failed else Success(lock))
  {
    if |visits| == 1 {
      OneMore(req, Checking(lock), visits[0], stamp, Failed);
      assert visits == [visits[0]];
    } else {
      PutEnds(req, lock, visits[1], stamp);
      CheckPasses(req, lock, visits[0], stamp, [visits[1]], if visits[1].failed then Failed else Success(lock));
      assert visits == [visits[0]] + [visits[1]];
    }
  }

  class OlricLockManager {
    const store: OlricStore

    constructor (store: OlricStore)
      ensures this.store == store
    {
      this.store := store;
    }

    method GetLock(project: string) returns (r: Reply<Lock>)
      modifies store
      ensures project == "" ==> r == Broken && store.log == old(store.log)
      ensures project != "" ==> store.Logged(old(store.log), 1)
      ensures project != "" ==>
        var v := store.log[|old(store.log)|];
        v.after == v.before && r == GetReply(v, project)
      ensures project != "" ==>
        var v := store.log[|old(store.log)|];
        if v.failed then r == Broken
        else if project !in v.before then r == Missing
        else match v.before[project].value case LockData(lock) => r == Ok(lock) case Text(_) => r == Broken
    {
      if project == "" {
        return Broken;
      }
      var value := store.Get(project);
      match value {
        case Missing => return Missing;
        case Broken => return Broken;
        case Ok(data) =>
          var lock := Unmarshal(data);
          if lock.None? {
            return Broken;
          }
          return Ok(lock.value);
      }
    }

    /** AcquireLock makes the accesses of one acquire of the protocol, and gives its answer. */
    method AcquireLock(project: string, branch: string, owner: string, stamp: Timestamp) returns (outcome: Outcome)
      modifies store
      ensures old(store.log) <= store.log
      ensures Follows(Acquire(project, branch, owner), Start, store.log[|old(store.log)|..], stamp, outcome)
      ensures project == "" || branch == "" || owner == "" <==> store.log == old(store.log)
      ensures store.log == old(store.log) ==> outcome == Failed
      ensures outcome.Success? || outcome.Conflict? || outcome == Failed
      ensures outcome.Success? || outcome.Conflict? ==> store.Holds(project, outcome.lock)
      ensures outcome.Success? ==> outcome.lock.branch == branch && outcome.lock.owner == owner
      ensures outcome.Conflict? ==> (outcome.lock.branch, outcome.lock.owner) != (branch, owner)
    {
      ghost var req := Acquire(project, branch, owner);
      ghost var n := |store.log|;
      if project == "" || branch == "" || owner == "" {
        return Failed;
      }
      var existing := GetLock(project);
      ghost var v1 := store.log[n];
      if existing.Broken? {
        GetDecides(req, Start, v1, stamp);
        assert store.log[n..] == [v1];
        return Failed;
      }
      if existing.Ok? {
        GetDecides(req, Start, v1, stamp);
        assert store.log[n..] == [v1];
        if existing.value.HeldBy(branch, owner) {
          return Success(existing.value);
        }
        return Conflict(existing.value);
      }
      outcome := StoreLock(Lock(project, branch, stamp, owner), stamp);
      GetFindsNothing(req, v1, stamp, store.log[n + 1..], outcome);
      assert store.log[n..] == [v1] + store.log[n + 1..];
    }

    /** The second half of an acquire: PutIfAbsent, and the get after a lost race. */
    method StoreLock(lock: Lock, ghost stamp: Timestamp) returns (outcome: Outcome)
      requires lock.project != "" && lock.branch != "" && lock.owner != ""
      modifies store
      ensures old(store.log) <= store.log
      ensures Follows(Acquire(lock.project, lock.branch, lock.owner), Checking(lock),
                      store.log[|old(store.log)|..], stamp, outcome)
      ensures store.log != old(store.log) && (outcome.Success? || outcome.Conflict? || outcome == Failed)
      ensures outcome.Success? || outcome.Conflict? ==> store.Holds(lock.project, outcome.lock)
      ensures outcome.Success? ==> outcome.lock.branch == lock.branch && outcome.lock.owner == lock.owner
      ensures outcome.Conflict? ==> (outcome.lock.branch, outcome.lock.owner) != (lock.branch, lock.owner)
    {
      ghost var req := Acquire(lock.project, lock.branch, lock.owner);
      ghost var n := |store.log|;
      var data := Serialize(lock);
      var stored := store.PutIfAbsent(lock.project, data, 0);
      ghost var v1 := store.log[n];
      if stored == Ok(false) {
        var winner := GetLock(lock.project);
        ghost var v2 := store.log[n + 1];
        GetDecides(req, Rereading, v2, stamp);
        outcome := match winner
          case Ok(other) => if other.HeldBy(lock.branch, lock.owner) then Success(other) else Conflict(other)
          case _ => Failed;
        CheckPasses(req, lock, v1, stamp, [v2], outcome);
        assert store.log[n..] == [v1] + [v2];
        return;
      }
      outcome := if stored.Broken? then Failed else Success(lock);
      PutIfAbsentEnds(req, lock, store.log[n..], stamp);
    }

    /** Branch and owner of the caller play no part in a release, nor does a stamp. */
    method ReleaseLock(project: string, branch: string, owner: string, ghost stamp: Timestamp)
      returns (outcome: Outcome)
      modifies store
      ensures old(store.log) <= store.log
      ensures Follows(Release(project, branch, owner), Start, store.log[|old(store.log)|..], stamp, outcome)
      ensures project == "" ==> outcome == Failed && store.log == old(store.log)
      ensures project != "" ==> store.Logged(old(store.log), 1)
      ensures project != "" ==>
        var v := store.log[|old(store.log)|];
        v.failed == (outcome == Failed) && v.after == if v.failed then v.before else v.before - {project}
      ensures outcome == Failed || outcome == Released
    {
      if project == "" {
        return Failed;
      }
      ghost var n := |store.log|;
      var err := store.Delete(project);
      outcome := if err then Failed else Released;
      assert store.log[n..] == [store.log[n]];
      OneMore(Release(project, branch, owner), Start, store.log[n], stamp, outcome);
    }
  }

  function Verified(key: string, v: Visit): Outcome {
    if !v.failed && key in v.before && v.before[key].value == TEST_VALUE then Healthy else Unhealthy
  }

  /** A health check whose accesses were a Put, a Get and a Delete. */
  lemma CheckEnds(key: string, v1: Visit, v2: Visit, v3: Visit, stamp: Timestamp, outcome: Outcome)
    requires !v1.failed && v1.after == v1.before[key := Entry(TEST_VALUE, Some(v1.now + TEST_TTL))]
    requires v2.after == v2.before && outcome == Verified(key, v2)
    requires v3.after == if v3.failed then v3.before else v3.before - {key}
    ensures Follows(HealthCheck(key), Start, [v1, v2, v3], stamp, outcome)
  {
    var req := HealthCheck(key);
    OneMore(req, Cleaning(outcome), v3, stamp, outcome);
    SetSame(v2.before, key);
    FollowsMore(req, Fetching, v2, [v3], stamp, outcome);
    assert [v2] + [v3] == [v2, v3];
    FollowsMore(req, Start, v1, [v2, v3], stamp, outcome);
    assert [v1] + [v2, v3] == [v1, v2, v3];
  }

  class StorageHealthChecker {
    const store: OlricStore

    constructor (store: OlricStore)
      ensures this.store == store
    {
      this.store := store;
    }

    /** Reads the test key and compares. */
    method ReadBack(testKey: string) returns (outcome: Outcome)
      modifies store
      ensures store.Logged(old(store.log), 1)
      ensures var v := store.log[|old(store.log)|];
        && v.after == v.before && outcome == Verified(testKey, v)
        && (outcome == Healthy <==>
              !v.failed && testKey in v.before && v.before[testKey].value == Text("healthy"))
        && (outcome == Healthy || outcome == Unhealthy)
    {
      var value := store.Get(testKey);
      if !value.Ok? {
        return Unhealthy;
      }
      var same := IsTestValue(value.value);
      outcome := if same then Healthy else Unhealthy;
    }

    /** The check makes the accesses of one health check of the protocol, which has no use for a
        stamp. */
    method Check(testKey: string, ghost stamp: Timestamp) returns (outcome: Outcome)
      modifies store
      ensures old(store.log) <= store.log
      ensures Follows(HealthCheck(testKey), Start, store.log[|old(store.log)|..], stamp, outcome)
      ensures store.Logged(old(store.log), 1) || store.Logged(old(store.log), 3)
      ensures outcome == Healthy || outcome == Unhealthy
      ensures outcome == Healthy <==>
        && store.Logged(old(store.log), 3)
        && var put, get := store.log[|old(store.log)|], store.log[|old(store.log)| + 1];
           !put.failed && !get.failed && testKey in get.before && get.before[testKey].value == Text("healthy")
    {
      ghost var n := |store.log|;
      var testValue := TestValue();
      var err := store.Put(testKey, testValue, TEST_TTL);
      ghost var v1 := store.log[n];
      if err {
        outcome := Unhealthy;
        OneMore(HealthCheck(testKey), Start, v1, stamp, Unhealthy);
        assert store.log[n..] == [v1];
        return;
      }
      assert v1.after == v1.before[testKey := Entry(TEST_VALUE, Some(v1.now + TEST_TTL))];
      outcome := ReadBack(testKey);
      ghost var v2 := store.log[n + 1];
      var cleanup := store.Delete(testKey);
      ghost var v3 := store.log[n + 2];
      CheckEnds(testKey, v1, v2, v3, stamp, outcome);
      assert store.log[n..] == [v1, v2, v3];
    }
  }
}
