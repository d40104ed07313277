/** When the check-then-put store behaves like the atomic one. */
module Reduction {
  import opened Model
  import opened Protocol
  import opened Linearizability
  import opened Exclusion

  /** An existence check that finds nothing: it opens the window before the client's Put. */
  predicate Passes(s: State, a: Action) {
    a.Step? && IsLive(s, a.c) && s.clients[a.c].pc.Checking? && s.clients[a.c].req.key !in s.dmap
  }

  /** The Put that closes the window. */
  predicate Puts(s: State, a: Action) {
    a.Step? && IsLive(s, a.c) && s.clients[a.c].pc.Putting?
  }

  /** Any Put to the store, be it of a lock or of a health check's test value. */
  predicate Stores(s: State, a: Action) {
    Puts(s, a) || (a.Step? && IsLive(s, a.c) && s.clients[a.c].req.HealthCheck? && s.clients[a.c].pc.Start?)
  }

  predicate Overwrites(s: State, a: Action) {
    Puts(s, a) && s.clients[a.c].req.key in s.dmap
  }

  ghost predicate NeverOverwrites(s: State, run: seq<Action>)
    requires Valid(Split, s, run)
  {
    forall j :: 0 <= j < |run| ==> !Overwrites(At(Split, s, run, j), run[j])
  }

  lemma AtTail(mode: Mode, s: State, run: seq<Action>, k: nat)
    requires Valid(mode, s, run) && 0 < k <= |run|
    ensures At(mode, s, run, k) == At(mode, Apply(mode, s, run[0]), run[1..], k - 1)
  {
    assert run[..k][0] == run[0] && run[..k][1..] == run[1..][..k - 1];
  }

  lemma NeverOverwritesTail(s: State, run: seq<Action>)
    requires Valid(Split, s, run) && run != []
    ensures NeverOverwrites(s, run) <==>
            !Overwrites(s, run[0]) && NeverOverwrites(Apply(Split, s, run[0]), run[1..])
  {
    AtEnd(Split, s, run);
    var s' := Apply(Split, s, run[0]);
    forall j | 0 <= j < |run[1..]|
      ensures At(Split, s', run[1..], j) == At(Split, s, run, j + 1) && run[1..][j] == run[j + 1]
    {
      AtTail(Split, s, run, j + 1);
    }
    if !Overwrites(s, run[0]) && NeverOverwrites(s', run[1..]) {
      forall j | 0 <= j < |run| ensures !Overwrites(At(Split, s, run, j), run[j]) {
        if j != 0 {
          assert run[j] == run[1..][j - 1];
          assert !Overwrites(At(Split, s', run[1..], j - 1), run[1..][j - 1]);
        }
      }
    }
    if NeverOverwrites(s, run) {
      forall j | 0 <= j < |run[1..]| ensures !Overwrites(At(Split, s', run[1..], j), run[1..][j]) {
        assert !Overwrites(At(Split, s, run, j + 1), run[j + 1]);
      }
    }
  }

  /* ----- from split runs to atomic runs ----- */

  /** The client as the atomic protocol sees it: a passed check has not happened yet. */
  function Unchecked(client: Client): Client {
    if client.pc.Putting? then client.(pc := Checking(client.pc.lock)) else client
  }

  function Merge(s: State): State {
    s.(clients := map c | c in s.clients :: Unchecked(s.clients[c]))
  }

  /** The same run without the passing checks; their clients' Puts become PutIfAbsents. */
  function Reduce(s: State, run: seq<Action>): seq<Action>
    requires Valid(Split, s, run)
    decreases |run|
  {
    if run == [] then [] else
      (if Passes(s, run[0]) then [] else [run[0]]) + Reduce(Apply(Split, s, run[0]), run[1..])
  }

  lemma PassStutters(s: State, a: Action)
    requires Enabled(s, a) && Passes(s, a)
    ensures Merge(Apply(Split, s, a)) == Merge(s) && Emit(Split, s, a) == []
  {
  }

  lemma StepInLockstep(s: State, a: Action)
    requires Enabled(s, a) && !Passes(s, a)
    ensures Enabled(Merge(s), a)
    ensures Apply(Atomic, Merge(s), a) == Merge(Apply(Split, s, a)) <==> !Overwrites(s, a)
    ensures !Overwrites(s, a) ==> Emit(Atomic, Merge(s), a) == Emit(Split, s, a)
  {
    var m, s' := Apply(Atomic, Merge(s), a), Apply(Split, s, a);
    if Overwrites(s, a) {
      assert m.clients[a.c].pc.Rereading? && Merge(s').clients[a.c].pc.Decided?;
    } else {
      if a.Step? {
        var key := s.clients[a.c].req.key;
        assert Effect(Atomic, Merge(s), a.c, a.stamp) == Effect(Split, s, a.c, a.stamp);
      }
      assert m.clients == Merge(s').clients;
      assert m == Merge(s');
    }
  }

  /** A split run whose Puts overwrite nothing is an atomic run, with the same answers and
      events and the same store. */
  lemma {:induction false} Refines(s: State, run: seq<Action>)
    requires Valid(Split, s, run) && NeverOverwrites(s, run)
    ensures Valid(Atomic, Merge(s), Reduce(s, run))
    ensures Exec(Atomic, Merge(s), Reduce(s, run)) == Merge(Exec(Split, s, run))
    ensures Events(Atomic, Merge(s), Reduce(s, run)) == Events(Split, s, run)
    decreases |run|
  {
    if run != [] {
      var s' := Apply(Split, s, run[0]);
      NeverOverwritesTail(s, run);
      Refines(s', run[1..]);
      var rest := Reduce(s', run[1..]);
      if Passes(s, run[0]) {
        PassStutters(s, run[0]);
        assert Reduce(s, run) == rest;
      } else {
        StepInLockstep(s, run[0]);
        assert Reduce(s, run)[0] == run[0] && Reduce(s, run)[1..] == rest;
      }
    }
  }

  lemma {:induction false} ReduceCut(s: State, xs: seq<Action>, ys: seq<Action>)
    requires Valid(Split, s, xs + ys)
    ensures Valid(Split, s, xs) && Valid(Split, Exec(Split, s, xs), ys)
    ensures Reduce(s, xs + ys) == Reduce(s, xs) + Reduce(Exec(Split, s, xs), ys)
    decreases |xs|
  {
    Cut(Split, s, xs, ys);
    if xs == [] {
      assert xs + ys == ys;
    } else {
      assert (xs + ys)[0] == xs[0] && (xs + ys)[1..] == xs[1..] + ys;
      var s', first := Apply(Split, s, xs[0]), if Passes(s, xs[0]) then [] else [xs[0]];
      ReduceCut(s', xs[1..], ys);
      assert Reduce(s, xs + ys) == first + Reduce(s', xs[1..] + ys);
      Reassociate(first, Reduce(s', xs[1..]), Reduce(Exec(Split, s, xs), ys));
    }
  }

  /** After `k` actions the two protocols, run side by side, agree on store and clients. */
  predicate AgreeAt(s: State, run: seq<Action>, k: nat)
    requires Valid(Split, s, run) && k <= |run|
  {
    assert run == run[..k] + run[k..];
    Cut(Split, s, run[..k], run[k..]);
    Valid(Atomic, Merge(s), Reduce(s, run[..k]))
    && Exec(Atomic, Merge(s), Reduce(s, run[..k])) == Merge(Exec(Split, s, run[..k]))
  }

  /** The reduction is exact: the atomic protocol keeps in step with a split run all along if
      and only if no Put of the run overwrites. Deletes inside a window are harmless. */
  lemma ReductionIsExact(s: State, run: seq<Action>)
    requires Valid(Split, s, run)
    ensures (forall k :: 0 <= k <= |run| ==> AgreeAt(s, run, k)) <==> NeverOverwrites(s, run)
  {
    if NeverOverwrites(s, run) {
      forall k | 0 <= k <= |run| ensures AgreeAt(s, run, k) {
        assert run == run[..k] + run[k..];
        Cut(Split, s, run[..k], run[k..]);
        forall j | 0 <= j < k ensures !Overwrites(At(Split, s, run[..k], j), run[..k][j]) {
          assert run[..k][..j] == run[..j];
          assert !Overwrites(At(Split, s, run, j), run[j]);
        }
        Refines(s, run[..k]);
      }
    }
    if forall k :: 0 <= k <= |run| ==> AgreeAt(s, run, k) {
      forall j | 0 <= j < |run| ensures !Overwrites(At(Split, s, run, j), run[j]) {
        assert AgreeAt(s, run, j) && AgreeAt(s, run, j + 1);
        NextAgreement(s, run, j);
      }
    }
  }

  lemma NextAgreement(s: State, run: seq<Action>, j: nat)
    requires Valid(Split, s, run) && j < |run| && AgreeAt(s, run, j) && AgreeAt(s, run, j + 1)
    ensures !Overwrites(At(Split, s, run, j), run[j])
  {
    AtStep(Split, s, run, j);
    var at, a := At(Split, s, run, j), run[j];
    if Overwrites(at, a) {
      assert run[..j + 1] == run[..j] + [a];
      assert run == run[..j + 1] + run[j + 1..];
      Cut(Split, s, run[..j + 1], run[j + 1..]);
      ReduceCut(s, run[..j], [a]);
      assert [a][1..] == [] && Reduce(at, [a]) == [a];
      var red := Reduce(s, run[..j]);
      StepInLockstep(at, a);
      Cut(Atomic, Merge(s), red, [a]);
    }
  }

  /* ----- the window ----- */

  /** Between a client's passing check and its Put, no other client's Put lands on its key. */
  ghost predicate WindowClear(s: State, run: seq<Action>)
    requires Valid(Split, s, run)
  {
    forall i, j, k :: 0 <= i < k < j < |run|
      && Passes(At(Split, s, run, i), run[i])
      && Puts(At(Split, s, run, j), run[j]) && run[j].c == run[i].c
      && Stores(At(Split, s, run, k), run[k]) && run[k].c != run[i].c
      ==> At(Split, s, run, k).clients[run[k].c].req.key != At(Split, s, run, i).clients[run[i].c].req.key
  }

  ghost predicate PuttingAt(s: State, run: seq<Action>, k: nat, c: ClientId)
    requires Valid(Split, s, run) && k <= |run|
  {
    var at := At(Split, s, run, k);
    c in at.clients && at.clients[c].pc.Putting?
  }

  /** A client about to Put has passed its check before and done nothing since. */
  lemma {:induction false} PutHasCheck(s: State, run: seq<Action>, j: nat, c: ClientId) returns (i: nat)
    requires Valid(Split, s, run) && NobodyPutting(s) && j <= |run| && PuttingAt(s, run, j, c)
    ensures i < j && Passes(At(Split, s, run, i), run[i]) && run[i].c == c
    ensures forall k :: i < k <= j ==> PuttingAt(s, run, k, c)
    decreases j
  {
    i := 0;
    AtEnd(Split, s, run);
    if j > 0 {
      AtStep(Split, s, run, j - 1);
      var at := At(Split, s, run, j - 1);
      if PuttingAt(s, run, j - 1, c) {
        i := PutHasCheck(s, run, j - 1, c);
      } else {
        i := j - 1;
      }
    }
  }

  /** One action cannot make an absent key present unless it stores under that key. */
  lemma AbsentStays(s: State, a: Action, key: string)
    requires Enabled(s, a) && key !in s.dmap
    requires Stores(s, a) ==> s.clients[a.c].req.key != key
    ensures key !in Apply(Split, s, a).dmap
  {
  }

  lemma {:induction false} WindowStaysEmpty(s: State, run: seq<Action>, i: nat, k: nat, j: nat, key: string)
    requires Valid(Split, s, run) && WindowClear(s, run) && i < k <= j < |run|
    requires Passes(At(Split, s, run, i), run[i]) && At(Split, s, run, i).clients[run[i].c].req.key == key
    requires Puts(At(Split, s, run, j), run[j]) && run[j].c == run[i].c
    requires forall m :: i < m <= j ==> PuttingAt(s, run, m, run[i].c)
    ensures key !in At(Split, s, run, k).dmap
    decreases k
  {
    AtStep(Split, s, run, k - 1);
    if i + 1 < k {
      WindowStaysEmpty(s, run, i, k - 1, j, key);
      var at := At(Split, s, run, k - 1);
      assert PuttingAt(s, run, k - 1, run[i].c) && PuttingAt(s, run, k, run[i].c);
      if Stores(at, run[k - 1]) {
        assert run[k - 1].c != run[i].c;
      }
      AbsentStays(at, run[k - 1], key);
    }
  }

  /** If every window stays clear of other clients' Puts, no Put overwrites. */
  lemma ClearWindowsNeverOverwrite(s: State, run: seq<Action>)
    requires Valid(Split, s, run) && NobodyPutting(s) && WindowClear(s, run)
    ensures NeverOverwrites(s, run)
  {
    forall j | 0 <= j < |run| ensures !Overwrites(At(Split, s, run, j), run[j]) {
      if Overwrites(At(Split, s, run, j), run[j]) {
        var c := run[j].c;
        var i := PutHasCheck(s, run, j, c);
        RequestIsFixed(Split, s, run, i, j, c);
        WindowStaysEmpty(s, run, i, j, j, At(Split, s, run, i).clients[c].req.key);
      }
    }
  }

  lemma {:induction false} NeverOverwritesNeverClashes(s: State, run: seq<Action>, tests: set<string>)
    requires Valid(Split, s, run) && NeverOverwrites(s, run)
    ensures NoClash(Split, s, run, tests)
    decreases |run|
  {
    if run != [] {
      NeverOverwritesTail(s, run);
      NeverOverwritesNeverClashes(Apply(Split, s, run[0]), run[1..], tests);
    }
  }

  /** The store as written is as good as its contract while the windows stay clear: the run
      has an atomic counterpart with the same store and the same answers, and it is
      linearizable. */
  lemma ClearWindowsRefine(s: State, run: seq<Action>, tests: set<string>)
    requires Valid(Split, s, run) && NobodyPutting(s) && WindowClear(s, run)
    requires Separated(s, tests) && KeepsApart(run, tests)
    ensures Merge(s) == s
    ensures Valid(Atomic, s, Reduce(s, run))
    ensures Exec(Atomic, s, Reduce(s, run)).dmap == Exec(Split, s, run).dmap
    ensures forall c :: Answer(Exec(Atomic, s, Reduce(s, run)), c) == Answer(Exec(Split, s, run), c)
    ensures LegalHistory(View(s, tests), Outside(Events(Split, s, run), tests))
  {
    MergeNothing(s);
    ClearWindowsNeverOverwrite(s, run);
    Refines(s, run);
    NeverOverwritesNeverClashes(s, run, tests);
    Linearizable(Split, s, run, tests);
    forall c ensures Answer(Merge(Exec(Split, s, run)), c) == Answer(Exec(Split, s, run), c) {
      MergeKeepsAnswers(Exec(Split, s, run), c);
    }
  }

  lemma MergeNothing(s: State)
    requires NobodyPutting(s)
    ensures Merge(s) == s
  {
  }

  lemma MergeKeepsAnswers(s: State, c: ClientId)
    ensures Answer(Merge(s), c) == Answer(s, c)
  {
  }

  /** Mutual exclusion for the store as written: with clear windows, two wins of one project by
      different branches or owners have a release of it strictly between them. */
  lemma ClearWindowsExclude(s: State, run: seq<Action>, p: string, i: nat, j: nat)
    requires Valid(Split, s, run) && NobodyPutting(s) && WindowClear(s, run)
    requires LocksOnly(s, p) && NoChecksOn(run, p)
    requires i < j < |Events(Split, s, run)| && Rivals(Events(Split, s, run)[i], Events(Split, s, run)[j], p)
    ensures exists k :: i < k < j && Releases(Events(Split, s, run)[k], p)
  {
    ClearWindowsNeverOverwrite(s, run);
    NeverOverwritesNeverClashes(s, run, {});
    NoClashNeverUsurps(Split, s, run, {}, p);
    ExclusionIsExact(Split, s, run, p);
    assert ReleasedIn(Events(Split, s, run), i + 1, j, p);
  }
}
