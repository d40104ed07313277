/** Lazy creation of the distributed map's handle: double-checked locking under a
 * readers-writer lock, for any number of threads.
 */
module LazyInit {
  import opened Model

  type Handle = nat
  type Thread = nat

  /** Where a call stands. The comments name the statement it executes next. */
  datatype Pc =
    | Arriving                   // RLock
    | Checking                   // read the field under the read lock
    | Rereading                  // read it again, to return it
    | LeavingShared(h: Handle)   // RUnlock and return
    | LeavingEmpty               // RUnlock, having found nil
    | Waiting                    // Lock
    | Queued                     // inside Lock, until the readers have left
    | Rechecking                 // read the field under the write lock
    | Creating                   // NewDMap
    | Writing(h: Handle)         // assign the field
    | Leaving(answer: Option<Handle>)  // Unlock and return
    | Done(answer: Option<Handle>)     // None: creation failed

  /** `field` is the handle, `created` the handles that NewDMap has delivered so far. A thread
      that is `pending` has announced its Lock and keeps new readers out, but waits itself for
      those inside. */
  datatype State = State(field: Option<Handle>, readers: set<Thread>, pending: Option<Thread>, writer: Option<Thread>,
                         created: seq<Handle>, threads: map<Thread, Pc>)

  datatype Action =
    | Call(t: Thread)
    | Step(t: Thread)
    | Create(t: Thread, result: Option<Handle>)

  predicate Enabled(s: State, a: Action) {
    match a
    case Call(t) => t !in s.threads
    case Create(t, _) => t in s.threads && s.threads[t].Creating?
    case Step(t) =>
      t in s.threads
      && match s.threads[t]
         case Arriving => s.writer.None? && s.pending.None?
         case Waiting => s.writer.None? && s.pending.None?
         case Queued => s.readers == {}
         case Creating => false
         case Done(_) => false
         case _ => true
  }

  function To(s: State, t: Thread, pc: Pc): State { s.(threads := s.threads[t := pc]) }

  /** What a call does next, when it meets `field`; `delivered` is NewDMap's result if that is
      what comes next. */
  function Next(pc: Pc, field: Option<Handle>, delivered: Option<Handle>): Pc {
    match pc
    case Arriving => Checking
    case Checking => if field.Some? then Rereading else LeavingEmpty
    case Rereading => LeavingShared(if field.Some? then field.value else 0)
    case LeavingShared(h) => Done(Some(h))
    case LeavingEmpty => Waiting
    case Waiting => Queued
    case Queued => Rechecking
    case Rechecking => if field.Some? then Leaving(field) else Creating
    case Creating => if delivered.Some? then Writing(delivered.value) else Leaving(None)
    case Writing(h) => Leaving(Some(h))
    case Leaving(answer) => Done(answer)
    case Done(_) => pc
  }

  function FieldAfter(pc: Pc, field: Option<Handle>): Option<Handle> {
    if pc.Writing? then Some(pc.h) else field
  }

  function Apply(s: State, a: Action): State
    requires Enabled(s, a)
  {
    match a
    case Call(t) => To(s, t, Arriving)
    case Create(t, result) =>
      To(s, t, Next(Creating, s.field, result))
        .(created := if result.Some? then s.created + [result.value] else s.created)
    case Step(t) =>
      var pc := s.threads[t];
      var s' := To(s, t, Next(pc, s.field, None)).(field := FieldAfter(pc, s.field));
      match pc
      case Arriving => s'.(readers := s.readers + {t})
      case LeavingShared(_) => s'.(readers := s.readers - {t})
      case LeavingEmpty => s'.(readers := s.readers - {t})
      case Waiting => s'.(pending := Some(t))
      case Queued => s'.(pending := None, writer := Some(t))
      case Leaving(_) => s'.(writer := None)
      case _ => s'
  }

  predicate Valid(s: State, run: seq<Action>)
    decreases |run|
  {
    run == [] || (Enabled(s, run[0]) && Valid(Apply(s, run[0]), run[1..]))
  }

  function Exec(s: State, run: seq<Action>): State
    requires Valid(s, run)
    decreases |run|
  {
    if run == [] then s else Exec(Apply(s, run[0]), run[1..])
  }

  const INITIAL := State(None, {}, None, None, [], map[])

  /* ----- the invariant ----- */

  predicate Shared(pc: Pc) { pc.Checking? || pc.Rereading? || pc.LeavingShared? || pc.LeavingEmpty? }

  predicate Exclusive(pc: Pc) { pc.Rechecking? || pc.Creating? || pc.Writing? || pc.Leaving? }

  /** The next statement of the thread reads, or writes, the shared field. */
  predicate Reads(pc: Pc) { pc.Checking? || pc.Rereading? || pc.Rechecking? }

  ghost predicate Locked(s: State) {
    && (forall t :: t in s.readers <==> t in s.threads && Shared(s.threads[t]))
    && (forall t :: s.writer == Some(t) <==> t in s.threads && Exclusive(s.threads[t]))
    && (forall t :: s.pending == Some(t) <==> t in s.threads && s.threads[t].Queued?)
    && (s.writer.Some? ==> s.readers == {} && s.pending.None?)
  }

  predicate AboutToWrite(s: State, h: Handle) {
    s.writer.Some? && s.writer.value in s.threads && s.threads[s.writer.value] == Writing(h)
  }

  /** The field and NewDMap's deliveries agree. */
  predicate FieldFits(s: State) {
    match s.field
    case Some(h) => s.created == [h]
    case None => |s.created| <= 1 && (s.created != [] ==> AboutToWrite(s, s.created[0]))
  }

  /** What a thread knows is still so. */
  predicate Knows(s: State, pc: Pc) {
    match pc
    case Rereading => s.field.Some?
    case Creating => s.field.None? && s.created == []
    case Writing(h) => s.field.None? && s.created == [h]
    case LeavingShared(h) => s.field == Some(h)
    case Leaving(answer) => answer.Some? ==> s.field == answer
    case Done(answer) => answer.Some? ==> s.field == answer
    case _ => true
  }

  ghost predicate Consistent(s: State) {
    FieldFits(s) && forall t :: t in s.threads ==> Knows(s, s.threads[t])
  }

  lemma LockedStep(s: State, a: Action)
    requires Enabled(s, a) && Locked(s)
    ensures Locked(Apply(s, a))
  {
  }

  lemma ConsistentStep(s: State, a: Action)
    requires Enabled(s, a) && Locked(s) && Consistent(s)
    ensures Consistent(Apply(s, a))
    ensures s.field.Some? ==> Apply(s, a).field == s.field
  {
  }

  lemma {:induction false} InvariantRun(s: State, run: seq<Action>)
    requires Locked(s) && Consistent(s) && Valid(s, run)
    ensures Locked(Exec(s, run)) && Consistent(Exec(s, run))
    ensures s.field.Some? ==> Exec(s, run).field == s.field
    decreases |run|
  {
    if run != [] {
      LockedStep(s, run[0]);
      ConsistentStep(s, run[0]);
      InvariantRun(Apply(s, run[0]), run[1..]);
    }
  }

  /* ----- what it is for ----- */

  /** Over every run: NewDMap succeeds at most once; every call that is answered with a handle
      is answered with that one, which is then the field; and while NewDMap has not succeeded
      the field is unset and every call that has ended failed. */
  lemma CreatedOnce(run: seq<Action>)
    requires Valid(INITIAL, run)
    ensures |Exec(INITIAL, run).created| <= 1
    ensures forall t: Thread, h: Handle ::
              t in Exec(INITIAL, run).threads && Exec(INITIAL, run).threads[t] == Done(Some(h)) ==>
              Exec(INITIAL, run).created == [h] && Exec(INITIAL, run).field == Some(h)
    ensures Exec(INITIAL, run).created == [] ==> Exec(INITIAL, run).field.None?
    ensures Exec(INITIAL, run).created == [] ==>
              forall t :: t in Exec(INITIAL, run).threads && Exec(INITIAL, run).threads[t].Done? ==>
                Exec(INITIAL, run).threads[t] == Done(None)
  {
    InvariantRun(INITIAL, run);
    AnswersAgree(Exec(INITIAL, run));
  }

  lemma AnswersAgree(s: State)
    requires Consistent(s)
    ensures |s.created| <= 1 && (s.created == [] ==> s.field.None?)
    ensures forall t: Thread, h: Handle :: t in s.threads && s.threads[t] == Done(Some(h)) ==>
              s.created == [h] && s.field == Some(h)
    ensures s.created == [] ==> forall t :: t in s.threads && s.threads[t].Done? ==> s.threads[t] == Done(None)
  {
    assert forall t :: t in s.threads ==> Knows(s, s.threads[t]);
    assert forall t :: t in s.threads && s.threads[t].Done? ==> s.threads[t] == Done(s.threads[t].answer);
  }

  /** The field never changes once it is set. */
  lemma FieldIsFinal(run: seq<Action>, more: seq<Action>)
    requires Valid(INITIAL, run) && Valid(Exec(INITIAL, run), more) && Exec(INITIAL, run).field.Some?
    ensures Exec(Exec(INITIAL, run), more).field == Exec(INITIAL, run).field
  {
    InvariantRun(INITIAL, run);
    InvariantRun(Exec(INITIAL, run), more);
  }

  /** No data race: when a thread is about to write the field, no other is about to read or
      write it. */
  lemma NoRace(run: seq<Action>, t: Thread, other: Thread)
    requires Valid(INITIAL, run) && t != other
    requires t in Exec(INITIAL, run).threads && other in Exec(INITIAL, run).threads
    requires Exec(INITIAL, run).threads[t].Writing?
    ensures !Reads(Exec(INITIAL, run).threads[other]) && !Exec(INITIAL, run).threads[other].Writing?
  {
    InvariantRun(INITIAL, run);
    var end := Exec(INITIAL, run);
    assert end.writer == Some(t) && other !in end.readers;
  }

  predicate Moves(s: State, t: Thread) {
    Enabled(s, Step(t)) || Enabled(s, Create(t, None))
  }

  /** No deadlock: as long as some call has not returned, some thread can go on. */
  lemma NoDeadlock(run: seq<Action>, t: Thread) returns (mover: Thread)
    requires Valid(INITIAL, run)
    requires t in Exec(INITIAL, run).threads && !Exec(INITIAL, run).threads[t].Done?
    ensures Moves(Exec(INITIAL, run), mover)
  {
    InvariantRun(INITIAL, run);
    var end := Exec(INITIAL, run);
    mover := t;
    if end.writer.Some? {
      mover := end.writer.value;
      assert mover in end.threads && Exclusive(end.threads[mover]);
    } else if end.readers != {} {
      mover :| mover in end.readers;
      assert mover in end.threads && Shared(end.threads[mover]);
    } else if end.pending.Some? {
      mover := end.pending.value;
      assert mover in end.threads && end.threads[mover].Queued?;
    }
  }

  /** A failed creation can be made good: whenever nobody holds the lock or waits for it inside
      Lock, and NewDMap has not succeeded yet, a new call whose NewDMap succeeds sets the field
      and returns its handle. */
  lemma Retry(s: State, t: Thread, h: Handle)
    requires FieldFits(s) && s.created == [] && Quiet(s, t)
    ensures var run := [Call(t), Step(t), Step(t), Step(t), Step(t), Step(t), Step(t),
                        Create(t, Some(h)), Step(t), Step(t)];
      Valid(s, run) && Exec(s, run) == State(Some(h), {}, None, None, [h], s.threads[t := Done(Some(h))])
  {
    var last := [Create(t, Some(h)), Step(t), Step(t)];
    RetryCreates(s, t, h);
    RetryLocks(s, t, last);
    RetryMisses(s, t, [Step(t), Step(t), Step(t)] + last);
    assert [Call(t), Step(t), Step(t), Step(t)] + ([Step(t), Step(t), Step(t)] + last)
        == [Call(t), Step(t), Step(t), Step(t), Step(t), Step(t), Step(t), Create(t, Some(h)), Step(t), Step(t)];
  }

  predicate Quiet(s: State, t: Thread) {
    s.writer.None? && s.pending.None? && s.readers == {} && t !in s.threads
  }

  lemma RetryMisses(s: State, t: Thread, rest: seq<Action>)
    requires s.field.None? && Quiet(s, t)
    requires Valid(To(s, t, Waiting), rest)
    ensures Valid(s, [Call(t), Step(t), Step(t), Step(t)] + rest)
    ensures Exec(s, [Call(t), Step(t), Step(t), Step(t)] + rest) == Exec(To(s, t, Waiting), rest)
  {
    var s1, s2, s3 := To(s, t, Arriving), To(s, t, Checking).(readers := {t}), To(s, t, LeavingEmpty).(readers := {t});
    assert Apply(s, Call(t)) == s1;
    assert Apply(s1, Step(t)) == s2;
    assert Apply(s2, Step(t)) == s3;
    assert Apply(s3, Step(t)) == To(s, t, Waiting);
    Unroll(s3, Step(t), rest);
    Unroll(s2, Step(t), [Step(t)] + rest);
    Unroll(s1, Step(t), [Step(t)] + ([Step(t)] + rest));
    Unroll(s, Call(t), [Step(t)] + ([Step(t)] + ([Step(t)] + rest)));
    assert [Call(t), Step(t), Step(t), Step(t)] + rest == [Call(t)] + ([Step(t)] + ([Step(t)] + ([Step(t)] + rest)));
  }

  lemma RetryLocks(s: State, t: Thread, rest: seq<Action>)
    requires s.field.None? && Quiet(s, t)
    requires Valid(To(s, t, Creating).(writer := Some(t)), rest)
    ensures Valid(To(s, t, Waiting), [Step(t), Step(t), Step(t)] + rest)
    ensures Exec(To(s, t, Waiting), [Step(t), Step(t), Step(t)] + rest)
         == Exec(To(s, t, Creating).(writer := Some(t)), rest)
  {
    var s4, s5 := To(s, t, Waiting), To(s, t, Queued).(pending := Some(t));
    var s6, s7 := To(s, t, Rechecking).(writer := Some(t)), To(s, t, Creating).(writer := Some(t));
    assert Apply(s4, Step(t)) == s5;
    assert Apply(s5, Step(t)) == s6;
    assert Apply(s6, Step(t)) == s7;
    Unroll(s6, Step(t), rest);
    Unroll(s5, Step(t), [Step(t)] + rest);
    Unroll(s4, Step(t), [Step(t)] + ([Step(t)] + rest));
    assert [Step(t), Step(t), Step(t)] + rest == [Step(t)] + ([Step(t)] + ([Step(t)] + rest));
  }

  lemma RetryCreates(s: State, t: Thread, h: Handle)
    requires s.field.None? && s.created == [] && Quiet(s, t)
    ensures var creating := To(s, t, Creating).(writer := Some(t));
      && Valid(creating, [Create(t, Some(h)), Step(t), Step(t)])
      && Exec(creating, [Create(t, Some(h)), Step(t), Step(t)])
         == State(Some(h), {}, None, None, [h], s.threads[t := Done(Some(h))])
  {
    var s7 := To(s, t, Creating).(writer := Some(t));
    var s8 := To(s, t, Writing(h)).(writer := Some(t), created := [h]);
    var s9 := To(s, t, Leaving(Some(h))).(writer := Some(t), created := [h], field := Some(h));
    assert Apply(s7, Create(t, Some(h))) == s8;
    assert Apply(s8, Step(t)) == s9;
    assert Apply(s9, Step(t)) == State(Some(h), {}, None, None, [h], s.threads[t := Done(Some(h))]);
    Unroll(s9, Step(t), []);
    Unroll(s8, Step(t), [Step(t)]);
    Unroll(s7, Create(t, Some(h)), [Step(t), Step(t)]);
    assert [Step(t)] + [] == [Step(t)] && [Step(t)] + [Step(t)] == [Step(t), Step(t)];
    assert [Create(t, Some(h)), Step(t), Step(t)] == [Create(t, Some(h))] + [Step(t), Step(t)];
  }

  lemma Unroll(s: State, a: Action, rest: seq<Action>)
    requires Enabled(s, a)
    ensures Valid(s, [a] + rest) <==> Valid(Apply(s, a), rest)
    ensures Valid(s, [a] + rest) ==> Exec(s, [a] + rest) == Exec(Apply(s, a), rest)
  {
  }

  /* ----- one call ----- */

  /** One statement of a call: the field before and after it, and NewDMap's result if it is
      that one. */
  datatype Moment = Moment(before: Option<Handle>, after: Option<Handle>, delivered: Option<Handle>)

  /** From `pc` the given statements lead to `end`. */
  predicate Leads(pc: Pc, moments: seq<Moment>, end: Pc)
    decreases |moments|
  {
    if moments == [] then pc == end
    else !pc.Done? && moments[0].after == FieldAfter(pc, moments[0].before)
         && Leads(Next(pc, moments[0].before, moments[0].delivered), moments[1..], end)
  }

  lemma {:induction false} LeadsOn(pc: Pc, moments: seq<Moment>, mid: Pc, m: Moment)
    requires Leads(pc, moments, mid) && !mid.Done? && m.after == FieldAfter(mid, m.before)
    ensures Leads(pc, moments + [m], Next(mid, m.before, m.delivered))
    decreases |moments|
  {
    if moments == [] {
      assert (moments + [m])[1..] == [];
    } else {
      LeadsOn(Next(pc, moments[0].before, moments[0].delivered), moments[1..], mid, m);
      assert (moments + [m])[1..] == moments[1..] + [m];
    }
  }

  predicate Own(a: Action, t: Thread) { !a.Call? && a.t == t }

  /** The thread's own actions in a run are the given statements. */
  predicate Makes(s: State, run: seq<Action>, t: Thread, moments: seq<Moment>)
    requires Valid(s, run)
    decreases |run|
  {
    if run == [] then moments == []
    else if Own(run[0], t) then
      && moments != [] && moments[0].before == s.field
      && (run[0].Create? ==> moments[0].delivered == run[0].result)
      && Makes(Apply(s, run[0]), run[1..], t, moments[1..])
    else Makes(Apply(s, run[0]), run[1..], t, moments)
  }

  /** Each of them leaves the field as the statement did. */
  predicate Leaves(s: State, run: seq<Action>, t: Thread, moments: seq<Moment>)
    requires Valid(s, run)
    decreases |run|
  {
    if run == [] then true
    else if Own(run[0], t) then
      moments != [] && Apply(s, run[0]).field == moments[0].after
      && Leaves(Apply(s, run[0]), run[1..], t, moments[1..])
    else Leaves(Apply(s, run[0]), run[1..], t, moments)
  }

  /** A thread that meets the field as these statements did, in whatever run of the machine,
      comes to the same end with the same effects. */
  lemma {:induction false} LeadingIsRunning(s: State, run: seq<Action>, t: Thread, moments: seq<Moment>, end: Pc)
    requires Valid(s, run) && t in s.threads && Makes(s, run, t, moments) && Leads(s.threads[t], moments, end)
    ensures t in Exec(s, run).threads && Exec(s, run).threads[t] == end
    ensures Leaves(s, run, t, moments)
    decreases |run|
  {
    if run != [] {
      LeadingIsRunning(Apply(s, run[0]), run[1..], t, if Own(run[0], t) then moments[1..] else moments, end);
    }
  }

  /** While a thread is inside the lock, shared or exclusive, no other changes the field. */
  lemma FieldStaysInside(s: State, a: Action, t: Thread)
    requires Locked(s) && Enabled(s, a) && !Own(a, t)
    requires t in s.threads && (Shared(s.threads[t]) || Exclusive(s.threads[t]))
    ensures Apply(s, a).field == s.field
  {
    assert a.Step? && s.threads[a.t].Writing? ==> s.writer == Some(a.t);
  }

  /* ----- the code ----- */

  /** The field as one caller meets it, and the statements it has executed. Outside the lock
      other callers may set the field, once; inside it is the caller's (`FieldStaysInside`). */
  class LazyDMap {
    var dmap: Option<Handle>
    ghost var log: seq<Moment>

    constructor ()
      ensures dmap.None? && log == []
    {
      dmap, log := None, [];
    }

    method Others()
      modifies this`dmap
      ensures old(dmap).Some? ==> dmap == old(dmap)
    {
    }

    /** A call that found the log as `base` has since come to `pc`. */
    ghost predicate At(base: seq<Moment>, pc: Pc)
      reads this`log
    {
      base <= log && Leads(Arriving, log[|base|..], pc)
    }

    /** Logs the statement that the call has just executed. */
    ghost method Note(base: seq<Moment>, pc: Pc, before: Option<Handle>, delivered: Option<Handle>) returns (pc': Pc)
      requires At(base, pc) && !pc.Done? && dmap == FieldAfter(pc, before)
      modifies this`log
      ensures log == old(log) + [Moment(before, dmap, delivered)]
      ensures pc' == Next(pc, before, delivered) && At(base, pc')
    {
      var m := Moment(before, dmap, delivered);
      LeadsOn(Arriving, log[|base|..], pc, m);
      assert (log + [m])[|base|..] == log[|base|..] + [m];
      log, pc' := log + [m], Next(pc, before, delivered);
    }

    /** `delivered` is what NewDMap delivers if it comes to be called. The call executes the
        statements of one thread of the machine and returns what that thread returns. A handle
        that was set stays; what is returned is the field, and only a failed creation returns
        none. */
    method GetDMap(delivered: Option<Handle>) returns (r: Option<Handle>)
      modifies this
      ensures At(old(log), Done(r))
      ensures r.Some? ==> dmap == r
      ensures old(dmap).Some? ==> r == old(dmap)
      ensures r.None? ==> delivered.None? && dmap.None?
    {
      ghost var base := log;
      Others();
      ghost var pc := Note(base, Arriving, dmap, None);  // RLock
      pc := Note(base, pc, dmap, None);
      if dmap.Some? {
        r := dmap;
        pc := Note(base, pc, dmap, None);
        pc := Note(base, pc, dmap, None);  // RUnlock
        return;
      }
      pc := Note(base, pc, dmap, None);  // RUnlock
      Others();
      pc := Note(base, pc, dmap, None);  // Lock
      Others();
      pc := Note(base, pc, dmap, None);  // Lock returns
      pc := Note(base, pc, dmap, None);
      if dmap.Some? {
        r := dmap;
        pc := Note(base, pc, dmap, None);  // Unlock
        return;
      }
      pc := Note(base, pc, dmap, delivered);
      if delivered.None? {
        r := None;
        pc := Note(base, pc, dmap, None);  // Unlock
        return;
      }
      dmap := delivered;
      pc := Note(base, pc, None, None);
      r := dmap;
      pc := Note(base, pc, dmap, None);  // Unlock
    }
  }
}
