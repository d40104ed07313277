/** What survives the race between check and Put. */
module Race {
  import opened Model
  import opened Protocol
  import opened Linearizability
  import opened Exclusion

  /** The clients past their check of `key` and before their Put. */
  function InWindow(s: State, key: string): set<ClientId> {
    set c | c in s.clients && s.clients[c].pc.Putting? && s.clients[c].req.key == key
  }

  /** `key` is present before every action of the run. */
  predicate PresentThroughout(s: State, run: seq<Action>, key: string)
    requires Valid(Split, s, run)
    decreases |run|
  {
    run == [] || (key in s.dmap && PresentThroughout(Apply(Split, s, run[0]), run[1..], key))
  }

  predicate LeavesWindow(s: State, a: Action, key: string) {
    (a.Step? || a.Fault?) && a.c in InWindow(s, key)
  }

  /** The lock Puts on `key` in a run. */
  function PutCount(s: State, run: seq<Action>, key: string): nat
    requires Valid(Split, s, run)
    decreases |run|
  {
    if run == [] then 0 else
      (if run[0].Step? && LeavesWindow(s, run[0], key) then 1 else 0)
      + PutCount(Apply(Split, s, run[0]), run[1..], key)
  }

  /** The Puts on `key` that fail. */
  function AbortCount(s: State, run: seq<Action>, key: string): nat
    requires Valid(Split, s, run)
    decreases |run|
  {
    if run == [] then 0 else
      (if run[0].Fault? && LeavesWindow(s, run[0], key) then 1 else 0)
      + AbortCount(Apply(Split, s, run[0]), run[1..], key)
  }

  lemma WindowStep(mode: Mode, s: State, a: Action, key: string)
    requires Enabled(s, a) && key in s.dmap
    ensures LeavesWindow(s, a, key) ==> InWindow(Apply(mode, s, a), key) == InWindow(s, key) - {a.c}
    ensures !LeavesWindow(s, a, key) ==> InWindow(Apply(mode, s, a), key) == InWindow(s, key)
  {
  }

  /** While a key stays present its window only drains: every client in it leaves by one Put,
      or by one failed Put, and none enters. So at most that many Puts can overwrite. */
  lemma {:induction false} WindowDrains(s: State, run: seq<Action>, key: string)
    requires Valid(Split, s, run) && PresentThroughout(s, run, key)
    ensures |InWindow(s, key)|
         == |InWindow(Exec(Split, s, run), key)| + PutCount(s, run, key) + AbortCount(s, run, key)
    ensures InWindow(Exec(Split, s, run), key) <= InWindow(s, key)
    decreases |run|
  {
    if run != [] {
      WindowStep(Split, s, run[0], key);
      WindowDrains(Apply(Split, s, run[0]), run[1..], key);
    }
  }

  /** The clients in the window of a stored lock are about to Put that very lock, if there are
      any. */
  predicate Harmless(s: State, p: string)
    requires p in s.dmap
  {
    forall c :: c in InWindow(s, p) ==> LockData(s.clients[c].pc.lock) == s.dmap[p].value
  }

  /** Once the window of a held project is harmless, or empty, its lock is stable: it stays in
      the store, the same lock, through any run without a release of that project. */
  lemma {:induction false} HolderIsStable(mode: Mode, s: State, run: seq<Action>, p: string)
    requires Valid(mode, s, run) && LocksOnly(s, p) && NoChecksOn(run, p)
    requires p in s.dmap && Harmless(s, p)
    requires Unreleased(Events(mode, s, run), p)
    ensures Look(Exec(mode, s, run).dmap, p) == Look(s.dmap, p)
    ensures InWindow(Exec(mode, s, run), p) <= InWindow(s, p)
    decreases |run|
  {
    if run != [] {
      var s' := Apply(mode, s, run[0]);
      assert forall e :: e in Emit(mode, s, run[0]) ==> e in Events(mode, s, run);
      assert forall e :: e in Events(mode, s', run[1..]) ==> e in Events(mode, s, run);
      assert forall i :: 0 <= i < |run[1..]| ==> run[1..][i] == run[i + 1];
      LocksOnlyStep(mode, s, run[0], p);
      WindowStep(mode, s, run[0], p);
      KeepsLock(mode, s, run[0], p);
      StaysHarmless(mode, s, run[0], p);
      HolderIsStable(mode, s', run[1..], p);
    }
  }

  lemma KeepsLock(mode: Mode, s: State, a: Action, p: string)
    requires Enabled(s, a) && LocksOnly(s, p) && p in s.dmap && Harmless(s, p)
    requires Unreleased(Emit(mode, s, a), p)
    ensures Look(Apply(mode, s, a).dmap, p) == Look(s.dmap, p)
  {
    if a.Step? && s.clients[a.c].req.key == p {
      var client := s.clients[a.c];
      assert client.pc.Putting? ==> a.c in InWindow(s, p);
      CellAfter(mode, client, Look(s.dmap, p), s.now, a.stamp);
      var pc := Effect(mode, s, a.c, a.stamp).0;
      if pc.Decided? && !pc.outcome.Failed? {
        assert Event(a.c, client.req, pc.outcome) in Emit(mode, s, a);
      }
    }
  }

  lemma StaysHarmless(mode: Mode, s: State, a: Action, p: string)
    requires Enabled(s, a) && p in s.dmap && Harmless(s, p)
    requires Look(Apply(mode, s, a).dmap, p) == Look(s.dmap, p)
    ensures p in Apply(mode, s, a).dmap && Harmless(Apply(mode, s, a), p)
  {
    WindowStep(mode, s, a, p);
    var s' := Apply(mode, s, a);
    forall c | c in InWindow(s', p) ensures s'.clients[c].pc == s.clients[c].pc {
      assert c in InWindow(s, p) && (a.Step? || a.Fault? ==> a.c != c);
    }
  }

  /** A client in the window that is not harmless replaces the lock by its next access. */
  lemma NextPutReplaces(mode: Mode, s: State, c: ClientId, p: string, stamp: Timestamp) returns (run: seq<Action>)
    requires WellTyped(s) && p in s.dmap && c in InWindow(s, p)
    requires LockData(s.clients[c].pc.lock) != s.dmap[p].value
    ensures Valid(mode, s, run) && NoNewCalls(run) && Unreleased(Events(mode, s, run), p)
    ensures Look(Exec(mode, s, run).dmap, p) != Look(s.dmap, p)
  {
    var a := Step(c, stamp);
    assert Typed(s.clients[c]);
    run := [a];
    assert run[1..] == [];
    assert Apply(mode, s, a).dmap[p].value == LockData(s.clients[c].pc.lock);
    assert Events(mode, s, run) == Emit(mode, s, a);
  }

  /* ----- the race itself ----- */

  /** The acquire that stores `lock` if it comes to that. */
  function Wanting(lock: Lock): Request { Acquire(lock.project, lock.branch, lock.owner) }

  /** Two locks that two callers may ask for on one project. */
  predicate Contenders(a: Lock, b: Lock) {
    && a.project == b.project != "" && a.branch != "" && a.owner != "" && b.branch != "" && b.owner != ""
    && !a.HeldBy(b.branch, b.owner)
  }

  /** Two acquires of one project whose checks both precede both Puts. */
  function Racing(a: Lock, b: Lock): seq<Action> {
    [Invoke(0, Wanting(a))] + ([Invoke(1, Wanting(b))]
    + ([Step(0, a.createdAt)] + ([Step(1, b.createdAt)] + RaceEnd(a, b))))
  }

  function RaceEnd(a: Lock, b: Lock): seq<Action> {
    [Step(0, a.createdAt)] + ([Step(1, b.createdAt)] + ([Step(0, a.createdAt)] + ([Step(1, b.createdAt)] + [])))
  }

  lemma Unroll(mode: Mode, s: State, a: Action, rest: seq<Action>)
    requires Enabled(s, a)
    ensures Valid(mode, s, [a] + rest) <==> Valid(mode, Apply(mode, s, a), rest)
    ensures Valid(mode, s, [a] + rest) ==> Exec(mode, s, [a] + rest) == Exec(mode, Apply(mode, s, a), rest)
  {
    assert ([a] + rest)[1..] == rest;
  }

  function Two(pc: Pc, a: Lock, pc': Pc, b: Lock): map<ClientId, Client> {
    map[0 := Client(Wanting(a), pc), 1 := Client(Wanting(b), pc')]
  }

  /** Mutual exclusion does not hold for the store as written: on the empty store any two
      callers can both be told that they hold a project, and nobody has released it. */
  lemma BothWin(a: Lock, b: Lock)
    requires Contenders(a, b)
    ensures Valid(Split, EMPTY, Racing(a, b))
    ensures Exec(Split, EMPTY, Racing(a, b)).clients == Two(Decided(Success(a)), a, Decided(Success(b)), b)
  {
    var t, t' := a.createdAt, b.createdAt;
    var s1 := State(0, map[], map[0 := Client(Wanting(a), Start)]);
    var s2 := State(0, map[], Two(Start, a, Start, b));
    var s3 := State(0, map[], Two(Checking(a), a, Start, b));
    var s4 := State(0, map[], Two(Checking(a), a, Checking(b), b));
    assert Apply(Split, EMPTY, Invoke(0, Wanting(a))) == s1;
    assert Apply(Split, s1, Invoke(1, Wanting(b))) == s2;
    assert Apply(Split, s2, Step(0, t)) == s3;
    assert Apply(Split, s3, Step(1, t')) == s4;
    RaceEnds(s4, a, b);
    Unroll(Split, s3, Step(1, t'), RaceEnd(a, b));
    Unroll(Split, s2, Step(0, t), [Step(1, t')] + RaceEnd(a, b));
    Unroll(Split, s1, Invoke(1, Wanting(b)), [Step(0, t)] + ([Step(1, t')] + RaceEnd(a, b)));
    Unroll(Split, EMPTY, Invoke(0, Wanting(a)),
           [Invoke(1, Wanting(b))] + ([Step(0, t)] + ([Step(1, t')] + RaceEnd(a, b))));
  }

  /** From where both are about to check, the race takes its course. */
  lemma RaceEnds(s: State, a: Lock, b: Lock)
    requires a.project == b.project && s.dmap == map[] && s.clients == Two(Checking(a), a, Checking(b), b)
    ensures Valid(Split, s, RaceEnd(a, b))
    ensures Exec(Split, s, RaceEnd(a, b)).clients == Two(Decided(Success(a)), a, Decided(Success(b)), b)
  {
    var t, t' := a.createdAt, b.createdAt;
    var s1 := Apply(Split, s, Step(0, t));
    var s2 := Apply(Split, s1, Step(1, t'));
    assert s2.clients == Two(Putting(a), a, Putting(b), b);
    var s3 := Apply(Split, s2, Step(0, t));
    var s4 := Apply(Split, s3, Step(1, t'));
    Unroll(Split, s3, Step(1, t'), []);
    Unroll(Split, s2, Step(0, t), [Step(1, t')] + []);
    Unroll(Split, s1, Step(1, t'), [Step(0, t)] + ([Step(1, t')] + []));
    Unroll(Split, s, Step(0, t), [Step(1, t')] + ([Step(0, t)] + ([Step(1, t')] + [])));
  }

  /** So exclusion fails in such a run, by a Put that replaces the other caller's lock. */
  lemma TheRaceUsurps(a: Lock, b: Lock)
    requires Contenders(a, b)
    ensures Valid(Split, EMPTY, Racing(a, b)) && !NoUsurp(Split, EMPTY, Racing(a, b), a.project)
    ensures !Excludes(None, Events(Split, EMPTY, Racing(a, b)), a.project)
  {
    BothWin(a, b);
    RivalsWithoutRelease(Split, EMPTY, Racing(a, b), 0, 1, Wanting(a), Wanting(b), a, b);
  }
}
