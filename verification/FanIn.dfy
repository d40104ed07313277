/** The fan-out and fan-in of CheckAll: one goroutine per checker, a wait group, a buffered
 * channel, a goroutine that closes it, and a collecting loop.
 */
module FanIn {

  /** A worker computes a value, sends it on the channel and then calls Done. */
  datatype Worker<T> = Idle | Running | Sent(value: T) | Finished(value: T)

  datatype State<T> = State(workers: seq<Worker<T>>, launched: nat, waiting: int,
                            channel: seq<T>, closed: bool, collected: seq<T>, ended: bool)

  datatype Action<T> =
    | Launch                 // Add(1) and start the next worker
    | Send(i: nat, value: T)
    | Done(i: nat)
    | Close                  // Wait has returned
    | Receive
    | End                    // the loop over the closed channel ends

  /** The channel is as large as the number of checkers. */
  function Capacity<T>(s: State<T>): nat { |s.workers| }

  /** Sending waits for room in the channel, Close for the wait group, Receive for a value. A
      send on a closed channel would panic; `NothingSentAfterClose` rules it out. */
  predicate Enabled<T>(s: State<T>, a: Action<T>) {
    match a
    case Launch => s.launched < |s.workers|
    case Send(i, _) => i < |s.workers| && s.workers[i].Running? && |s.channel| < Capacity(s)
    case Done(i) => i < |s.workers| && s.workers[i].Sent?
    case Close => s.launched == |s.workers| && s.waiting == 0 && !s.closed
    case Receive => s.launched == |s.workers| && s.channel != [] && !s.ended
    case End => s.launched == |s.workers| && s.channel == [] && s.closed && !s.ended
  }

  function Apply<T>(s: State<T>, a: Action<T>): State<T>
    requires Enabled(s, a)
  {
    match a
    case Launch =>
      s.(launched := s.launched + 1, waiting := s.waiting + 1, workers := s.workers[s.launched := Running])
    case Send(i, value) => s.(channel := s.channel + [value], workers := s.workers[i := Sent(value)])
    case Done(i) => s.(waiting := s.waiting - 1, workers := s.workers[i := Finished(s.workers[i].value)])
    case Close => s.(closed := true)
    case Receive => s.(channel := s.channel[1..], collected := s.collected + [s.channel[0]])
    case End => s.(ended := true)
  }

  predicate Valid<T>(s: State<T>, run: seq<Action<T>>)
    decreases |run|
  {
    run == [] || (Enabled(s, run[0]) && Valid(Apply(s, run[0]), run[1..]))
  }

  function Exec<T>(s: State<T>, run: seq<Action<T>>): State<T>
    requires Valid(s, run)
    decreases |run|
  {
    if run == [] then s else Exec(Apply(s, run[0]), run[1..])
  }

  function Initial<T>(n: nat): State<T> {
    State(seq(n, _ => Idle), 0, 0, [], false, [], false)
  }

  /* ----- counting workers ----- */

  function Pending<T>(w: Worker<T>): nat { if w.Running? || w.Sent? then 1 else 0 }

  function Steps<T>(w: Worker<T>): nat {
    match w
    case Idle => 3
    case Running => 2
    case Sent(_) => 1
    case Finished(_) => 0
  }

  function Value<T(==)>(w: Worker<T>): multiset<T> {
    if w.Sent? || w.Finished? then multiset{w.value} else multiset{}
  }

  function PendingCount<T>(ws: seq<Worker<T>>): nat {
    if ws == [] then 0 else Pending(ws[0]) + PendingCount(ws[1..])
  }

  function StepsLeft<T>(ws: seq<Worker<T>>): nat {
    if ws == [] then 0 else Steps(ws[0]) + StepsLeft(ws[1..])
  }

  /** The values sent so far, one for each worker that has sent. */
  function Values<T(==)>(ws: seq<Worker<T>>): multiset<T> {
    if ws == [] then multiset{} else Value(ws[0]) + Values(ws[1..])
  }

  lemma {:induction false} CountsOfUpdate<T>(ws: seq<Worker<T>>, i: nat, w: Worker<T>)
    requires i < |ws|
    ensures PendingCount(ws[i := w]) + Pending(ws[i]) == PendingCount(ws) + Pending(w)
    ensures StepsLeft(ws[i := w]) + Steps(ws[i]) == StepsLeft(ws) + Steps(w)
  {
    if i == 0 {
      assert ws[i := w][1..] == ws[1..];
    } else {
      assert ws[i := w][1..] == ws[1..][i - 1 := w];
      CountsOfUpdate(ws[1..], i - 1, w);
    }
  }

  lemma {:induction false} ValuesStay<T>(ws: seq<Worker<T>>, i: nat, w: Worker<T>)
    requires i < |ws| && Value(w) == Value(ws[i])
    ensures Values(ws[i := w]) == Values(ws)
  {
    if i == 0 {
      assert ws[i := w][1..] == ws[1..];
    } else {
      assert ws[i := w][1..] == ws[1..][i - 1 := w];
      ValuesStay(ws[1..], i - 1, w);
    }
  }

  lemma {:induction false} ValuesGrow<T>(ws: seq<Worker<T>>, i: nat, w: Worker<T>)
    requires i < |ws| && Value(ws[i]) == multiset{}
    ensures Values(ws[i := w]) == Values(ws) + Value(w)
  {
    var head, tail := Value(ws[0]), Values(ws[1..]);
    if i == 0 {
      assert ws[i := w][1..] == ws[1..];
      assert Values(ws) == tail;
    } else {
      assert ws[i := w][1..] == ws[1..][i - 1 := w];
      ValuesGrow(ws[1..], i - 1, w);
      Associates(head, tail, Value(w));
    }
  }

  lemma Associates<T>(a: multiset<T>, b: multiset<T>, c: multiset<T>)
    ensures a + (b + c) == (a + b) + c
  {
  }

  predicate HasSent<T>(w: Worker<T>) { w.Sent? || w.Finished? }

  /** At most one value a worker, and fewer while some worker has not sent. */
  lemma {:induction false} ValuesBound<T>(ws: seq<Worker<T>>)
    ensures |Values(ws)| <= |ws|
    ensures |Values(ws)| == |ws| <==> forall i :: 0 <= i < |ws| ==> HasSent(ws[i])
  {
    if ws != [] {
      ValuesBound(ws[1..]);
      assert |Values(ws)| == |Value(ws[0])| + |Values(ws[1..])|;
      assert forall i :: 0 <= i < |ws[1..]| ==> ws[1..][i] == ws[i + 1];
      if forall i :: 0 <= i < |ws[1..]| ==> HasSent(ws[1..][i]) {
        assert forall i :: 0 < i < |ws| ==> HasSent(ws[1..][i - 1]) && ws[i] == ws[1..][i - 1];
      }
    }
  }

  lemma {:induction false} NonePending<T>(ws: seq<Worker<T>>, i: nat)
    requires PendingCount(ws) == 0 && i < |ws|
    ensures ws[i].Idle? || ws[i].Finished?
  {
    if i > 0 {
      NonePending(ws[1..], i - 1);
    }
  }

  lemma {:induction false} InitialCounts<T>(n: nat)
    ensures var ws := seq<Worker<T>>(n, _ => Idle);
            PendingCount(ws) == 0 && StepsLeft(ws) == 3 * n && Values(ws) == multiset{}
  {
    if n > 0 {
      InitialCounts<T>(n - 1);
      assert seq<Worker<T>>(n, _ => Idle)[1..] == seq<Worker<T>>(n - 1, _ => Idle);
    }
  }

  /* ----- the invariant ----- */

  /** Workers are launched in order, and the channel is closed only after all have finished. */
  ghost predicate InOrder<T>(s: State<T>) {
    && s.launched <= |s.workers|
    && (forall i :: 0 <= i < |s.workers| ==> (s.workers[i].Idle? <==> s.launched <= i))
    && (s.closed ==> forall i :: 0 <= i < |s.workers| ==> s.workers[i].Finished?)
    && (s.ended ==> s.closed && s.channel == [])
  }

  ghost predicate Invariant<T>(s: State<T>) {
    && InOrder(s)
    && s.waiting == PendingCount(s.workers)
    && Accounted(s.workers, s.channel, s.collected)
  }

  /** The number of actions still to come. */
  function Measure<T>(s: State<T>): int {
    StepsLeft(s.workers) + (if s.closed then 0 else 1) + (|s.workers| - |s.collected|) + (if s.ended then 0 else 1)
  }

  /** All values sent are in the channel or collected. */
  predicate Accounted<T(==)>(ws: seq<Worker<T>>, channel: seq<T>, collected: seq<T>) {
    Values(ws) == multiset(channel) + multiset(collected)
  }

  lemma SendAccounted<T>(ws: seq<Worker<T>>, i: nat, value: T, channel: seq<T>, collected: seq<T>)
    requires i < |ws| && ws[i].Running? && Accounted(ws, channel, collected)
    ensures Accounted(ws[i := Sent(value)], channel + [value], collected)
  {
    ValuesGrow(ws, i, Sent(value));
    Associates(multiset(channel), multiset{value}, multiset(collected));
    Associates(multiset(channel), multiset(collected), multiset{value});
    assert multiset{value} + multiset(collected) == multiset(collected) + multiset{value};
  }

  lemma ReceiveAccounted<T>(ws: seq<Worker<T>>, channel: seq<T>, collected: seq<T>)
    requires channel != [] && Accounted(ws, channel, collected)
    ensures Accounted(ws, channel[1..], collected + [channel[0]])
  {
    assert channel == [channel[0]] + channel[1..];
  }

  lemma ValuesStep<T>(s: State<T>, a: Action<T>)
    requires Enabled(s, a) && (a.Launch? ==> s.workers[s.launched].Idle?)
    requires Accounted(s.workers, s.channel, s.collected)
    ensures Accounted(Apply(s, a).workers, Apply(s, a).channel, Apply(s, a).collected)
  {
    match a {
      case Launch => ValuesStay(s.workers, s.launched, Running);
      case Send(i, value) => SendAccounted(s.workers, i, value, s.channel, s.collected);
      case Done(i) => ValuesStay(s.workers, i, Finished(s.workers[i].value));
      case Receive => ReceiveAccounted(s.workers, s.channel, s.collected);
      case _ =>
    }
  }

  lemma CountsStep<T>(s: State<T>, a: Action<T>)
    requires Invariant(s) && Enabled(s, a)
    ensures Apply(s, a).waiting == PendingCount(Apply(s, a).workers)
    ensures Measure(Apply(s, a)) == Measure(s) - 1
  {
    match a {
      case Launch => CountsOfUpdate(s.workers, s.launched, Running);
      case Send(i, value) => CountsOfUpdate(s.workers, i, Sent(value));
      case Done(i) => CountsOfUpdate(s.workers, i, Finished(s.workers[i].value));
      case _ =>
    }
  }

  lemma InOrderStep<T>(s: State<T>, a: Action<T>)
    requires InOrder(s) && Enabled(s, a) && s.waiting == PendingCount(s.workers)
    ensures InOrder(Apply(s, a)) && |Apply(s, a).workers| == |s.workers|
  {
    var ws, s' := s.workers, Apply(s, a);
    match a {
      case Launch => assert ws[s.launched].Idle?;
      case Send(i, _) => assert !ws[i].Finished? && !s.closed;
      case Done(i) => assert !ws[i].Finished? && !s.closed;
      case Close =>
        forall i | 0 <= i < |ws| ensures ws[i].Finished? {
          NonePending(ws, i);
        }
      case _ =>
    }
    forall i | 0 <= i < |ws| ensures s'.workers[i].Idle? <==> s'.launched <= i {
      assert ws[i].Idle? <==> s.launched <= i;
    }
  }

  lemma InvariantStep<T>(s: State<T>, a: Action<T>)
    requires Invariant(s) && Enabled(s, a)
    ensures Invariant(Apply(s, a)) && Measure(Apply(s, a)) == Measure(s) - 1
    ensures |Apply(s, a).workers| == |s.workers|
  {
    ValuesStep(s, a);
    CountsStep(s, a);
    InOrderStep(s, a);
  }

  lemma {:induction false} InvariantRun<T>(s: State<T>, run: seq<Action<T>>)
    requires Invariant(s) && Valid(s, run)
    ensures Invariant(Exec(s, run)) && |run| + Measure(Exec(s, run)) == Measure(s)
    ensures |Exec(s, run).workers| == |s.workers|
    decreases |run|
  {
    if run != [] {
      InvariantStep(s, run[0]);
      InvariantRun(Apply(s, run[0]), run[1..]);
    }
  }

  lemma Reached<T>(n: nat, run: seq<Action<T>>)
    requires Valid(Initial<T>(n), run)
    ensures Invariant(Exec(Initial<T>(n), run)) && |run| + Measure(Exec(Initial<T>(n), run)) == 4 * n + 2
    ensures |Exec(Initial<T>(n), run).workers| == n
  {
    InitialCounts<T>(n);
    InvariantRun(Initial<T>(n), run);
  }

  /* ----- what it is for ----- */

  /** Room is never short: the channel stays within its capacity, and a worker ready to send
      never has to wait. */
  lemma SendsNeverBlock<T>(n: nat, run: seq<Action<T>>, i: nat, value: T)
    requires Valid(Initial<T>(n), run) && i < n
    ensures |Exec(Initial<T>(n), run).workers| == n
    ensures |Exec(Initial<T>(n), run).channel| <= Capacity(Exec(Initial<T>(n), run))
    ensures Exec(Initial<T>(n), run).workers[i].Running? ==> Enabled(Exec(Initial<T>(n), run), Send(i, value))
  {
    Reached(n, run);
    var end := Exec(Initial<T>(n), run);
    ValuesBound(end.workers);
    assert |Values(end.workers)| == |end.channel| + |end.collected|;
  }

  /** Nothing is sent on the closed channel, and it is closed only when all is sent. */
  lemma NothingSentAfterClose<T>(n: nat, run: seq<Action<T>>, i: nat, value: T)
    requires Valid(Initial<T>(n), run) && Exec(Initial<T>(n), run).closed
    ensures !Enabled(Exec(Initial<T>(n), run), Send(i, value))
    ensures |Exec(Initial<T>(n), run).channel| + |Exec(Initial<T>(n), run).collected| == n
  {
    Reached(n, run);
    ValuesBound(Exec(Initial<T>(n), run).workers);
    assert |Values(Exec(Initial<T>(n), run).workers)|
        == |Exec(Initial<T>(n), run).channel| + |Exec(Initial<T>(n), run).collected|;
  }

  /** No deadlock: until the collector has ended, some action is possible. */
  lemma SomethingIsEnabled<T>(n: nat, run: seq<Action<T>>, any: T) returns (a: Action<T>)
    requires Valid(Initial<T>(n), run) && !Exec(Initial<T>(n), run).ended
    ensures Enabled(Exec(Initial<T>(n), run), a)
  {
    Reached(n, run);
    var end := Exec(Initial<T>(n), run);
    ValuesBound(end.workers);
    assert |Values(end.workers)| == |end.channel| + |end.collected|;
    if end.launched < n {
      a := Launch;
    } else if end.channel != [] {
      a := Receive;
    } else if end.closed {
      a := End;
    } else if i :| 0 <= i < n && end.workers[i].Running? {
      a := Send(i, any);
    } else if i :| 0 <= i < n && end.workers[i].Sent? {
      a := Done(i);
    } else {
      AllFinished(end.workers);
      a := Close;
    }
  }

  lemma {:induction false} AllFinished<T>(ws: seq<Worker<T>>)
    requires forall i :: 0 <= i < |ws| ==> !ws[i].Running? && !ws[i].Sent?
    ensures PendingCount(ws) == 0
  {
    if ws != [] {
      AllFinished(ws[1..]);
    }
  }

  /** Every run ends, after exactly 4n + 2 actions, and then the collector holds exactly one
      value of each of the n workers, in some order. */
  lemma CollectsEachOnce<T>(n: nat, run: seq<Action<T>>)
    requires Valid(Initial<T>(n), run)
    ensures |run| <= 4 * n + 2
    ensures |run| == 4 * n + 2 <==> Exec(Initial<T>(n), run).ended
    ensures Exec(Initial<T>(n), run).ended ==>
      var end := Exec(Initial<T>(n), run);
      && |end.workers| == n && (forall i :: 0 <= i < n ==> end.workers[i].Finished?)
      && |end.collected| == n
      && multiset(end.collected) == multiset(Outputs(end.workers))
  {
    Reached(n, run);
    var end := Exec(Initial<T>(n), run);
    ValuesBound(end.workers);
    assert |Values(end.workers)| == |end.channel| + |end.collected|;
    if end.ended {
      ValuesOfFinished(end.workers);
      NoStepsLeft(end.workers);
    }
  }

  lemma {:induction false} NoStepsLeft<T>(ws: seq<Worker<T>>)
    requires forall i :: 0 <= i < |ws| ==> ws[i].Finished?
    ensures StepsLeft(ws) == 0
  {
    if ws != [] {
      NoStepsLeft(ws[1..]);
    }
  }

  /** The values of workers that have all finished, in the order of the workers. */
  function Outputs<T>(ws: seq<Worker<T>>): (vs: seq<T>)
    requires forall i :: 0 <= i < |ws| ==> ws[i].Finished?
    ensures |vs| == |ws| && forall i :: 0 <= i < |ws| ==> vs[i] == ws[i].value
  {
    if ws == [] then [] else [ws[0].value] + Outputs(ws[1..])
  }

  lemma {:induction false} ValuesOfFinished<T>(ws: seq<Worker<T>>)
    requires forall i :: 0 <= i < |ws| ==> ws[i].Finished?
    ensures Values(ws) == multiset(Outputs(ws))
  {
    if ws != [] {
      ValuesOfFinished(ws[1..]);
    }
  }
}
