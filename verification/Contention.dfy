/** Any number of acquires contending for one free project, with no release among them. */
module Contention {
  import opened Model
  import opened Protocol

  /** The run's calls on `p` are acquires with non-empty names, and the store does not fail
      them. Calls on other keys are unrestricted. */
  predicate Contest(mode: Mode, s: State, run: seq<Action>, p: string)
    requires Valid(mode, s, run)
    decreases |run|
  {
    run == [] || (Fair(s, run[0], p) && Contest(mode, Apply(mode, s, run[0]), run[1..], p))
  }

  predicate Fair(s: State, a: Action, p: string)
    requires Enabled(s, a)
  {
    match a
    case Invoke(_, req) => req.key == p ==> req.Acquire? && req.branch != "" && req.owner != ""
    case Fault(c) => s.clients[c].req.key != p
    case _ => true
  }

  /** The locks that clients of `p` write to the store in a run. */
  function Written(mode: Mode, s: State, run: seq<Action>, p: string): set<(ClientId, Lock)>
    requires Valid(mode, s, run)
    decreases |run|
  {
    if run == [] then {} else
      Writes(mode, s, run[0], p) + Written(mode, Apply(mode, s, run[0]), run[1..], p)
  }

  function Writes(mode: Mode, s: State, a: Action, p: string): set<(ClientId, Lock)>
    requires Enabled(s, a)
  {
    if a.Step? && s.clients[a.c].req.key == p && Storing(mode, s, s.clients[a.c])
    then {(a.c, s.clients[a.c].pc.lock)} else {}
  }

  predicate Storing(mode: Mode, s: State, client: Client) {
    client.pc.Putting? || (mode.Atomic? && client.pc.Checking? && client.req.key !in s.dmap)
  }

  predicate Contends(s: State, c: ClientId, p: string) {
    c in s.clients && s.clients[c].req.key == p
  }

  ghost predicate WrittenBySomeone(wrote: set<(ClientId, Lock)>, lock: Lock) {
    exists w: ClientId :: (w, lock) in wrote
  }

  /** What holds at every moment of a contest, `wrote` being the locks written so far. */
  ghost predicate Contested(s: State, p: string, wrote: set<(ClientId, Lock)>) {
    && WellTyped(s)
    && (forall c :: Contends(s, c, p) ==> Placed(s, c, p, wrote))
    && (forall w: ClientId, lock: Lock :: (w, lock) in wrote ==>
          Contends(s, w, p) && !s.clients[w].pc.Live() && s.clients[w].pc.outcome == Success(lock))
    && (p in s.dmap ==> HoldsWritten(s.dmap[p], wrote))
  }

  ghost predicate HoldsWritten(entry: Entry, wrote: set<(ClientId, Lock)>) {
    entry.value.LockData? && entry.deadline == None && WrittenBySomeone(wrote, entry.value.lock)
  }

  ghost predicate Placed(s: State, c: ClientId, p: string, wrote: set<(ClientId, Lock)>)
    requires Contends(s, c, p)
  {
    var Client(req, pc) := s.clients[c];
    && req.Acquire? && req.branch != "" && req.owner != ""
    && (pc.Rereading? ==> p in s.dmap)
    && (!pc.Live() ==> p in s.dmap && IsVerdict(pc.outcome) && WrittenBySomeone(wrote, pc.outcome.lock))
  }

  predicate IsVerdict(outcome: Outcome) { outcome.Success? || outcome.Conflict? }

  predicate IsVerdictOn(pc: Pc, cell: Cell) {
    cell.Some? && cell.value.value.LockData? && pc.Decided? && IsVerdict(pc.outcome)
    && pc.outcome.lock == cell.value.value.lock
  }

  /** A contender either stores its lock and succeeds, or leaves the cell as it finds it. */
  lemma ContenderStep(mode: Mode, s: State, a: Action, p: string, wrote: set<(ClientId, Lock)>)
    requires p != "" && Contested(s, p, wrote) && Enabled(s, a) && a.Step? && Contends(s, a.c, p)
    ensures var (pc, cell) := Effect(mode, s, a.c, a.stamp);
      var client := s.clients[a.c];
      if Storing(mode, s, client) then pc == Decided(Success(client.pc.lock)) && cell == Stored(client.pc.lock)
      else cell == Look(s.dmap, p) && (pc.Rereading? ==> cell.Some?) && (!pc.Live() ==> IsVerdictOn(pc, cell))
  {
  }

  lemma MoreWritten(wrote: set<(ClientId, Lock)>, wrote': set<(ClientId, Lock)>, lock: Lock)
    requires wrote <= wrote' && WrittenBySomeone(wrote, lock)
    ensures WrittenBySomeone(wrote', lock)
  {
  }

  lemma CellStaysWritten(mode: Mode, s: State, a: Action, p: string, wrote: set<(ClientId, Lock)>)
    requires p != "" && Contested(s, p, wrote) && Enabled(s, a) && Fair(s, a, p)
    ensures var s' := Apply(mode, s, a);
      (p in s.dmap ==> p in s'.dmap) && (p in s'.dmap ==> HoldsWritten(s'.dmap[p], wrote + Writes(mode, s, a, p)))
  {
    var s', wrote' := Apply(mode, s, a), wrote + Writes(mode, s, a, p);
    if a.Step? && Contends(s, a.c, p) && Storing(mode, s, s.clients[a.c]) {
      ContenderStep(mode, s, a, p, wrote);
      assert (a.c, s.clients[a.c].pc.lock) in wrote';
    } else {
      if a.Step? && Contends(s, a.c, p) {
        ContenderStep(mode, s, a, p, wrote);
      } else if a.Step? {
        StepIsLocal(mode, s, a, p);
      }
      assert Look(s'.dmap, p) == Look(s.dmap, p);
      if p in s.dmap {
        MoreWritten(wrote, wrote', s.dmap[p].value.lock);
      }
    }
  }

  lemma StaysPlaced(mode: Mode, s: State, a: Action, p: string, wrote: set<(ClientId, Lock)>, c: ClientId)
    requires p != "" && Contested(s, p, wrote) && Enabled(s, a) && Fair(s, a, p)
    requires Contends(Apply(mode, s, a), c, p)
    ensures Placed(Apply(mode, s, a), c, p, wrote + Writes(mode, s, a, p))
  {
    var s', wrote' := Apply(mode, s, a), wrote + Writes(mode, s, a, p);
    CellStaysWritten(mode, s, a, p, wrote);
    if Contends(s, c, p) {
      assert Placed(s, c, p, wrote);
      if !s.clients[c].pc.Live() {
        MoreWritten(wrote, wrote', s.clients[c].pc.outcome.lock);
      } else if a.Step? && a.c == c {
        ContenderStep(mode, s, a, p, wrote);
      }
    }
  }

  lemma ContestedStep(mode: Mode, s: State, a: Action, p: string, wrote: set<(ClientId, Lock)>)
    requires p != "" && Contested(s, p, wrote) && Enabled(s, a) && Fair(s, a, p)
    ensures Contested(Apply(mode, s, a), p, wrote + Writes(mode, s, a, p))
  {
    var s', wrote' := Apply(mode, s, a), wrote + Writes(mode, s, a, p);
    CellStaysWritten(mode, s, a, p, wrote);
    forall c | Contends(s', c, p) ensures Placed(s', c, p, wrote') {
      StaysPlaced(mode, s, a, p, wrote, c);
    }
    if Writes(mode, s, a, p) != {} {
      ContenderStep(mode, s, a, p, wrote);
    }
  }

  lemma {:induction false} ContestedRun(mode: Mode, s: State, run: seq<Action>, p: string, wrote: set<(ClientId, Lock)>)
    requires p != "" && Valid(mode, s, run) && Contest(mode, s, run, p) && Contested(s, p, wrote)
    ensures Contested(Exec(mode, s, run), p, wrote + Written(mode, s, run, p))
    decreases |run|
  {
    if run != [] {
      var now := Writes(mode, s, run[0], p);
      ContestedStep(mode, s, run[0], p, wrote);
      var s' := Apply(mode, s, run[0]);
      ContestedRun(mode, s', run[1..], p, wrote + now);
      assert wrote + now + Written(mode, s', run[1..], p) == wrote + Written(mode, s, run, p);
    } else {
      assert wrote + Written(mode, s, run, p) == wrote;
    }
  }

  /** However the acquires of a free project interleave, in either version of PutIfAbsent:
      each that has ended was told success or conflict; once one has, the project holds a lock
      that some client wrote and was told it holds; and a conflict names a lock that some
      other client wrote and was told it holds, of a different branch or owner. */
  lemma ContentionResolves(mode: Mode, s: State, run: seq<Action>, p: string)
    requires p != "" && p !in s.dmap && WellTyped(s) && (forall c :: !Contends(s, c, p))
    requires Valid(mode, s, run) && Contest(mode, s, run, p)
    ensures forall c :: Contends(Exec(mode, s, run), c, p) && !Exec(mode, s, run).clients[c].pc.Live() ==>
              Resolved(Exec(mode, s, run), Written(mode, s, run, p), p, c)
  {
    ContestedRun(mode, s, run, p, {});
    var end, wrote := Exec(mode, s, run), Written(mode, s, run, p);
    assert {} + wrote == wrote;
    forall c | Contends(end, c, p) && !end.clients[c].pc.Live() ensures Resolved(end, wrote, p, c) {
      assert Placed(end, c, p, wrote) && Typed(end.clients[c]);
      WriterHolds(end, wrote, p, end.dmap[p].value.lock);
      WriterHolds(end, wrote, p, end.clients[c].pc.outcome.lock);
    }
  }

  ghost predicate Resolved(s: State, wrote: set<(ClientId, Lock)>, p: string, c: ClientId)
    requires Contends(s, c, p) && !s.clients[c].pc.Live()
  {
    var Client(req, pc) := s.clients[c];
    && IsVerdict(pc.outcome)
    && p in s.dmap && s.dmap[p].value.LockData? && HolderAmong(s, wrote, p, s.dmap[p].value.lock)
    && req.Acquire? && HolderAmong(s, wrote, p, pc.outcome.lock)
    && (pc.outcome.Conflict? <==> !pc.outcome.lock.HeldBy(req.branch, req.owner))
  }

  /** Some client wrote `lock`, asked for its branch and owner, and was told it holds it. */
  ghost predicate HolderAmong(s: State, wrote: set<(ClientId, Lock)>, p: string, lock: Lock) {
    exists w: ClientId :: (w, lock) in wrote && Contends(s, w, p)
      && !s.clients[w].pc.Live() && s.clients[w].pc.outcome == Success(lock)
      && s.clients[w].req == Acquire(p, lock.branch, lock.owner)
  }

  lemma WriterHolds(s: State, wrote: set<(ClientId, Lock)>, p: string, lock: Lock)
    requires Contested(s, p, wrote) && WrittenBySomeone(wrote, lock)
    ensures HolderAmong(s, wrote, p, lock)
  {
  }

  /** Corollary: as soon as one contender has ended, one of them has succeeded. */
  lemma SomeoneWins(mode: Mode, s: State, run: seq<Action>, p: string, c: ClientId) returns (winner: ClientId)
    requires p != "" && p !in s.dmap && WellTyped(s) && (forall c :: !Contends(s, c, p))
    requires Valid(mode, s, run) && Contest(mode, s, run, p)
    requires Contends(Exec(mode, s, run), c, p) && !Exec(mode, s, run).clients[c].pc.Live()
    ensures Contends(Exec(mode, s, run), winner, p) && !Exec(mode, s, run).clients[winner].pc.Live()
    ensures Exec(mode, s, run).clients[winner].pc.outcome.Success?
  {
    ContentionResolves(mode, s, run, p);
    var end := Exec(mode, s, run);
    assert Resolved(end, Written(mode, s, run, p), p, c);
    winner :| (winner, end.dmap[p].value.lock) in Written(mode, s, run, p) && Contends(end, winner, p)
      && !end.clients[winner].pc.Live() && end.clients[winner].pc.outcome == Success(end.dmap[p].value.lock);
  }

  /* ----- every call ends ----- */

  /** An upper bound on the actions a client still takes. */
  function Rank(pc: Pc): nat {
    match pc
    case Start => 4
    case Checking(_) => 3
    case Fetching => 3
    case Putting(_) => 2
    case Rereading => 2
    case Cleaning(_) => 2
    case Decided(_) => 1
    case Returned(_) => 0
  }

  ghost function Work(clients: map<ClientId, Client>): nat
    decreases |clients|
  {
    if clients == map[] then 0 else
      var c :| c in clients;
      Rank(clients[c].pc) + Work(clients - {c})
  }

  lemma {:induction false} WorkSplit(clients: map<ClientId, Client>, c: ClientId)
    requires c in clients
    ensures Work(clients) == Rank(clients[c].pc) + Work(clients - {c})
    decreases |clients|
  {
    var d :| d in clients && Work(clients) == Rank(clients[d].pc) + Work(clients - {d});
    if d != c {
      WorkSplit(clients - {d}, c);
      WorkSplit(clients - {c}, d);
      assert clients - {d} - {c} == clients - {c} - {d};
    }
  }

  /** Every action of a client, failed or not, uses up some of its work. */
  lemma ActionWorks(mode: Mode, s: State, a: Action)
    requires Enabled(s, a) && !a.Invoke?
    ensures Work(Apply(mode, s, a).clients) + (if a.Tick? then 0 else 1) <= Work(s.clients)
  {
    if !a.Tick? {
      var s' := Apply(mode, s, a);
      WorkSplit(s.clients, a.c);
      WorkSplit(s'.clients, a.c);
      assert s.clients - {a.c} == s'.clients - {a.c};
    }
  }

  function ClientActions(run: seq<Action>): nat {
    if run == [] then 0 else (if run[0].Tick? then 0 else 1) + ClientActions(run[1..])
  }

  lemma {:induction false} RunWorks(mode: Mode, s: State, run: seq<Action>)
    requires Valid(mode, s, run) && NoNewCalls(run)
    ensures ClientActions(run) + Work(Exec(mode, s, run).clients) <= Work(s.clients)
    decreases |run|
  {
    if run != [] {
      assert !run[0].Invoke?;
      assert forall i :: 0 <= i < |run[1..]| ==> run[1..][i] == run[i + 1];
      ActionWorks(mode, s, run[0]);
      RunWorks(mode, Apply(mode, s, run[0]), run[1..]);
    }
  }

  /** A call that has not returned can always go on, whatever the others do; and the calls of
      a state take at most `Work` actions altogether, after which all have returned. */
  lemma CallsEnd(mode: Mode, s: State, run: seq<Action>)
    requires Valid(mode, s, run) && NoNewCalls(run)
    ensures ClientActions(run) <= Work(s.clients)
    ensures ClientActions(run) == Work(s.clients) ==>
              forall c :: c in Exec(mode, s, run).clients ==> Exec(mode, s, run).clients[c].pc.Returned?
    ensures forall c, stamp :: c in Exec(mode, s, run).clients && !Exec(mode, s, run).clients[c].pc.Returned? ==>
              Enabled(Exec(mode, s, run), Step(c, stamp)) || Enabled(Exec(mode, s, run), Return(c))
  {
    RunWorks(mode, s, run);
    var end := Exec(mode, s, run);
    forall c | c in end.clients && Work(end.clients) == 0 ensures end.clients[c].pc.Returned? {
      WorkSplit(end.clients, c);
    }
  }
}
