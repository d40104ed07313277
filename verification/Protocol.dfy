/** The lock protocol as a state machine.
 *
 * Any number of clients share one distributed map. A client is one call of the lock
 * manager (acquire, release or get) or one run of the storage health check; each of its
 * accesses to the map is one step, and the steps of all clients interleave freely.
 *
 * The machine has two modes. In `Split` mode PutIfAbsent is an existence check followed,
 * in a later step, by a Put: this is what the Olric store does. In `Atomic` mode both
 * happen in one step: this is what the store's interface promises.
 */
module Protocol {
  import opened Model

  type ClientId = nat

  datatype Mode = Atomic | Split

  /** How long a health check's test key lives: five seconds, in nanoseconds. */
  const TEST_TTL: nat := 5_000_000_000

  const TEST_VALUE: Value := Text("healthy")

  /** What a stored string is to its readers: the lock it decodes to, or some other text. */
  datatype Value = LockData(lock: Lock) | Text(text: string)

  /** A stored value, with the time at which it expires if it does. */
  datatype Entry = Entry(value: Value, deadline: Option<nat>)

  type Cell = Option<Entry>

  datatype Request =
    | Acquire(key: string, branch: string, owner: string)
    | Release(key: string, branch: string, owner: string)
    | Get(key: string)
    | HealthCheck(key: string)

  datatype Outcome =
    | Success(lock: Lock)
    | Conflict(lock: Lock)
    | Released
    | Found(lock: Lock)
    | NotFound
    | Healthy
    | Unhealthy
    | Failed

  /** Where a client stands. The states of an acquire are `Start` (first Get), `Checking`
      (existence check, or the whole atomic PutIfAbsent), `Putting` (Put after a check that
      found nothing) and `Rereading` (Get after a lost race). A health check goes from
      `Start` (Put) through `Fetching` (Get) to `Cleaning` (Delete). */
  datatype Pc =
    | Start
    | Checking(lock: Lock)
    | Putting(lock: Lock)
    | Rereading
    | Fetching
    | Cleaning(verdict: Outcome)
    | Decided(outcome: Outcome)
    | Returned(outcome: Outcome)
  {
    /** The client still has to access the store. */
    predicate Live() { !Decided? && !Returned? }
  }

  datatype Client = Client(req: Request, pc: Pc)

  datatype State = State(now: nat, dmap: map<string, Entry>, clients: map<ClientId, Client>)

  const EMPTY := State(0, map[], map[])

  datatype Action =
    | Invoke(c: ClientId, req: Request)
    | Step(c: ClientId, stamp: Timestamp)  // the next store access; `stamp` is the clock if it is read
    | Fault(c: ClientId)                   // the next store access fails, without effect
    | Return(c: ClientId)
    | Tick(d: nat)                         // time passes and entries expire

  /* ----- the effect of one store access, on the one key the client uses ----- */

  function Stored(lock: Lock): Cell { Some(Entry(LockData(lock), None)) }

  /** The verdict of an acquire that reads `value` under its key. */
  function Judge(branch: string, owner: string, value: Value): Outcome {
    match value
    case Text(_) => Failed
    case LockData(lock) => if lock.HeldBy(branch, owner) then Success(lock) else Conflict(lock)
  }

  function Report(cell: Cell): Outcome {
    match cell
    case None => NotFound
    case Some(Entry(LockData(lock), _)) => Found(lock)
    case Some(_) => Failed
  }

  function Begin(req: Request, cell: Cell, now: nat, stamp: Timestamp): (Pc, Cell) {
    match req
    case Acquire(key, branch, owner) =>
      if key == "" || branch == "" || owner == "" then (Decided(Failed), cell)
      else if cell.None? then (Checking(Lock(key, branch, stamp, owner)), cell)
      else (Decided(Judge(branch, owner, cell.value.value)), cell)
    case Release(key, _, _) =>
      if key == "" then (Decided(Failed), cell) else (Decided(Released), None)
    case Get(key) =>
      (Decided(if key == "" then Failed else Report(cell)), cell)
    case HealthCheck(_) =>
      (Fetching, Some(Entry(TEST_VALUE, Some(now + TEST_TTL))))
  }

  function Access(mode: Mode, req: Request, pc: Pc, cell: Cell, now: nat, stamp: Timestamp): (Pc, Cell) {
    match pc
    case Start => Begin(req, cell, now, stamp)
    case Checking(lock) =>
      if cell.Some? then (Rereading, cell)
      else if mode.Split? then (Putting(lock), cell)
      else (Decided(Success(lock)), Stored(lock))
    case Putting(lock) => (Decided(Success(lock)), Stored(lock))
    case Rereading =>
      (Decided(if cell.Some? && req.Acquire? then Judge(req.branch, req.owner, cell.value.value) else Failed), cell)
    case Fetching =>
      (Cleaning(if cell.Some? && cell.value.value == TEST_VALUE then Healthy else Unhealthy), cell)
    case Cleaning(verdict) => (Decided(verdict), None)
    case _ => (pc, cell)
  }

  /** A failed access leaves the store alone and ends the call, except that a health check
      still cleans up after itself once its Put went through. */
  function AfterFault(req: Request, pc: Pc): Pc {
    match pc
    case Start => Decided(if req.HealthCheck? then Unhealthy else Failed)
    case Fetching => Cleaning(Unhealthy)
    case Cleaning(verdict) => Decided(verdict)
    case _ => Decided(Failed)
  }

  /* ----- the machine ----- */

  function Look(dmap: map<string, Entry>, key: string): Cell {
    if key in dmap then Some(dmap[key]) else None
  }

  function Set(dmap: map<string, Entry>, key: string, cell: Cell): map<string, Entry> {
    match cell
    case None => dmap - {key}
    case Some(entry) => dmap[key := entry]
  }

  predicate Alive(entry: Entry, now: nat) {
    entry.deadline.Some? ==> now < entry.deadline.value
  }

  function Expire(dmap: map<string, Entry>, now: nat): map<string, Entry> {
    map k | k in dmap && Alive(dmap[k], now) :: dmap[k]
  }

  predicate IsLive(s: State, c: ClientId) {
    c in s.clients && s.clients[c].pc.Live()
  }

  predicate Enabled(s: State, a: Action) {
    match a
    case Invoke(c, _) => c !in s.clients
    case Step(c, _) => IsLive(s, c)
    case Fault(c) => IsLive(s, c)
    case Return(c) => c in s.clients && s.clients[c].pc.Decided?
    case Tick(_) => true
  }

  function MoveTo(s: State, c: ClientId, pc: Pc): State
    requires c in s.clients
  {
    s.(clients := s.clients[c := s.clients[c].(pc := pc)])
  }

  /** What the next access of client `c` does to it and to its key. */
  function Effect(mode: Mode, s: State, c: ClientId, stamp: Timestamp): (Pc, Cell)
    requires c in s.clients
  {
    var Client(req, pc) := s.clients[c];
    Access(mode, req, pc, Look(s.dmap, req.key), s.now, stamp)
  }

  function Apply(mode: Mode, s: State, a: Action): State
    requires Enabled(s, a)
  {
    match a
    case Invoke(c, req) => s.(clients := s.clients[c := Client(req, Start)])
    case Step(c, stamp) =>
      var (pc, cell) := Effect(mode, s, c, stamp);
      MoveTo(s, c, pc).(dmap := Set(s.dmap, s.clients[c].req.key, cell))
    case Fault(c) => MoveTo(s, c, AfterFault(s.clients[c].req, s.clients[c].pc))
    case Return(c) => MoveTo(s, c, Returned(s.clients[c].pc.outcome))
    case Tick(d) => s.(now := s.now + d, dmap := Expire(s.dmap, s.now + d))
  }

  /** `run` can be executed from `s`. */
  predicate Valid(mode: Mode, s: State, run: seq<Action>)
    decreases |run|
  {
    run == [] || (Enabled(s, run[0]) && Valid(mode, Apply(mode, s, run[0]), run[1..]))
  }

  function Exec(mode: Mode, s: State, run: seq<Action>): State
    requires Valid(mode, s, run)
    decreases |run|
  {
    if run == [] then s else Exec(mode, Apply(mode, s, run[0]), run[1..])
  }

  predicate NoNewCalls(run: seq<Action>) {
    forall i :: 0 <= i < |run| ==> !run[i].Invoke?
  }

  /** A run can be cut anywhere. */
  lemma {:induction false} Cut(mode: Mode, s: State, xs: seq<Action>, ys: seq<Action>)
    ensures Valid(mode, s, xs + ys) <==> Valid(mode, s, xs) && Valid(mode, Exec(mode, s, xs), ys)
    ensures Valid(mode, s, xs + ys) ==> Exec(mode, s, xs + ys) == Exec(mode, Exec(mode, s, xs), ys)
    decreases |xs|
  {
    if xs == [] {
      assert xs + ys == ys;
    } else {
      assert (xs + ys)[0] == xs[0] && (xs + ys)[1..] == xs[1..] + ys;
      if Enabled(s, xs[0]) {
        Cut(mode, Apply(mode, s, xs[0]), xs[1..], ys);
      }
    }
  }

  /** The state after the first `k` actions of a run. */
  function At(mode: Mode, s: State, run: seq<Action>, k: nat): State
    requires Valid(mode, s, run) && k <= |run|
  {
    assert run == run[..k] + run[k..];
    Cut(mode, s, run[..k], run[k..]);
    Exec(mode, s, run[..k])
  }

  lemma AtStep(mode: Mode, s: State, run: seq<Action>, k: nat)
    requires Valid(mode, s, run) && k < |run|
    ensures Enabled(At(mode, s, run, k), run[k])
    ensures At(mode, s, run, k + 1) == Apply(mode, At(mode, s, run, k), run[k])
  {
    assert run[..k + 1] == run[..k] + [run[k]];
    assert run == run[..k + 1] + run[k + 1..];
    Cut(mode, s, run[..k + 1], run[k + 1..]);
    Cut(mode, s, run[..k], [run[k]]);
    assert Valid(mode, Exec(mode, s, run[..k]), [run[k]]);
    assert [run[k]][1..] == [];
    assert Exec(mode, Exec(mode, s, run[..k]), [run[k]]) == Apply(mode, Exec(mode, s, run[..k]), run[k]);
  }

  lemma AtEnd(mode: Mode, s: State, run: seq<Action>)
    requires Valid(mode, s, run)
    ensures At(mode, s, run, |run|) == Exec(mode, s, run) && At(mode, s, run, 0) == s
  {
    assert run[..|run|] == run && run[..0] == [];
  }

  /** Clients stay, with the request they came with. */
  lemma {:induction false} RequestIsFixed(mode: Mode, s: State, run: seq<Action>, i: nat, k: nat, c: ClientId)
    requires Valid(mode, s, run) && i <= k <= |run| && c in At(mode, s, run, i).clients
    ensures c in At(mode, s, run, k).clients
    ensures At(mode, s, run, k).clients[c].req == At(mode, s, run, i).clients[c].req
    decreases k
  {
    if i < k {
      RequestIsFixed(mode, s, run, i, k - 1, c);
      AtStep(mode, s, run, k - 1);
    }
  }

  /* ----- what every state keeps ----- */

  /** The local state of a client fits its request. */
  predicate Typed(client: Client) {
    var Client(req, pc) := client;
    match pc
    case Start => true
    case Checking(lock) => Wants(req, lock)
    case Putting(lock) => Wants(req, lock)
    case Rereading => req.Acquire? && req.key != ""
    case Fetching => req.HealthCheck?
    case Cleaning(verdict) => req.HealthCheck? && (verdict.Healthy? || verdict.Unhealthy?)
    case Decided(outcome) => Fits(req, outcome)
    case Returned(outcome) => Fits(req, outcome)
  }

  /** `lock` is a lock that the acquire `req` may store. */
  predicate Wants(req: Request, lock: Lock) {
    req.Acquire? && req.key != "" && lock.project == req.key && lock.HeldBy(req.branch, req.owner)
  }

  predicate Fits(req: Request, outcome: Outcome) {
    match req
    case Acquire(_, branch, owner) =>
      outcome.Failed? || (outcome.Success? && outcome.lock.HeldBy(branch, owner))
      || (outcome.Conflict? && !outcome.lock.HeldBy(branch, owner))
    case Release(_, _, _) => outcome.Failed? || outcome.Released?
    case Get(_) => outcome.Failed? || outcome.Found? || outcome.NotFound?
    case HealthCheck(_) => outcome.Healthy? || outcome.Unhealthy?
  }

  ghost predicate WellTyped(s: State) {
    forall c :: c in s.clients ==> Typed(s.clients[c])
  }

  lemma {:induction false} WellTypedRun(mode: Mode, s: State, run: seq<Action>)
    requires WellTyped(s) && Valid(mode, s, run)
    ensures WellTyped(Exec(mode, s, run))
    decreases |run|
  {
    if run != [] {
      WellTypedRun(mode, Apply(mode, s, run[0]), run[1..]);
    }
  }

  /** A step touches only the key of the client that takes it. */
  lemma StepIsLocal(mode: Mode, s: State, a: Action, key: string)
    requires Enabled(s, a)
    requires (a.Step? && s.clients[a.c].req.key != key) || a.Invoke? || a.Fault? || a.Return?
    ensures Look(Apply(mode, s, a).dmap, key) == Look(s.dmap, key)
  {
  }
}
