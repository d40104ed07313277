/** The HTTP handlers for locks: what they answer, and what they count. */
module Handlers {
  import opened Model
  import opened Protocol
  import opened Names
  import opened Storage

  const OWNER := "placeholder-owner"

  datatype Operation = LockOp | UnlockOp | GetOp

  datatype Label = SuccessLabel | ConflictLabel | FailureLabel

  datatype LockRequest = LockRequest(project: string, branch: string)

  datatype Response = Response(code: nat, status: string, lock: Option<Lock>)

  /** One request that has been dealt with: what it asked for, the label under which it was
      counted, and the code sent. */
  datatype Handled = Handled(op: Operation, counted: Label, code: nat)

  const BAD_REQUEST := Response(400, "error", None)
  const INTERNAL_ERROR := Response(500, "error", None)

  /** The label a request is counted under fits the code it is sent. */
  predicate Fitting(h: Handled) {
    match (h.op, h.counted)
    case (LockOp, SuccessLabel) => h.code == 200
    case (LockOp, ConflictLabel) => h.code == 409
    case (UnlockOp, SuccessLabel) => h.code == 200
    case (GetOp, SuccessLabel) => h.code == 200 || h.code == 404
    case (_, FailureLabel) => h.code == 400 || h.code == 500
    case _ => false
  }

  function Count(handled: seq<Handled>, op: Operation, counted: Label): nat {
    if handled == [] then 0 else
      (if handled[0].op == op && handled[0].counted == counted then 1 else 0) + Count(handled[1..], op, counted)
  }

  function CountOp(handled: seq<Handled>, op: Operation): nat {
    if handled == [] then 0 else (if handled[0].op == op then 1 else 0) + CountOp(handled[1..], op)
  }

  lemma {:induction false} CountAppend(handled: seq<Handled>, h: Handled, op: Operation, counted: Label)
    ensures Count(handled + [h], op, counted)
         == Count(handled, op, counted) + if h.op == op && h.counted == counted then 1 else 0
  {
    if handled == [] {
      assert handled + [h] == [h] && [h][1..] == [];
    } else {
      assert (handled + [h])[1..] == handled[1..] + [h];
      CountAppend(handled[1..], h, op, counted);
    }
  }

  /** The labels of an operation divide its requests among them. */
  lemma {:induction false} LabelsDivide(handled: seq<Handled>, op: Operation)
    ensures Count(handled, op, SuccessLabel) + Count(handled, op, ConflictLabel) + Count(handled, op, FailureLabel)
         == CountOp(handled, op)
  {
    if handled != [] {
      LabelsDivide(handled[1..], op);
    }
  }

  /** Only a lock request can be counted as a conflict. */
  lemma {:induction false} OnlyLocksConflict(handled: seq<Handled>, op: Operation)
    requires (forall i :: 0 <= i < |handled| ==> Fitting(handled[i])) && op != LockOp
    ensures Count(handled, op, ConflictLabel) == 0
  {
    if handled != [] {
      OnlyLocksConflict(handled[1..], op);
    }
  }

  /** A request that gets past validation is never refused by the lock manager for an empty name. */
  lemma AcceptedIsNotRefused(req: LockRequest)
    requires IsName(Trim(req.project)) && IsName(Trim(req.branch))
    ensures !Refused(Acquire(Trim(req.project), Trim(req.branch), OWNER))
    ensures !Refused(Release(Trim(req.project), Trim(req.branch), OWNER))
  {
  }

  class LockHandlers {
    const lockManager: OlricLockManager
    const metrics: bool
    var counters: map<(Operation, Label), nat>
    ghost var handled: seq<Handled>

    constructor (lockManager: OlricLockManager, metrics: bool)
      ensures this.lockManager == lockManager && this.metrics == metrics && Valid() && handled == []
    {
      this.lockManager := lockManager;
      this.metrics := metrics;
      counters := map[];
      handled := [];
    }

    function Counter(op: Operation, counted: Label): nat
      reads this
    {
      if (op, counted) in counters then counters[(op, counted)] else 0
    }

    /** With metrics on, the counters count what has been handled; with metrics off there are
        none. */
    ghost predicate Counted()
      reads this
    {
      forall op, counted :: Counter(op, counted) == if metrics then Count(handled, op, counted) else 0
    }

    /** And every label fits its code. */
    ghost predicate Valid()
      reads this
    {
      Counted() && forall i :: 0 <= i < |handled| ==> Fitting(handled[i])
    }

    /** Conservation: what was counted for an operation, over all labels, is the number of its
        requests. */
    lemma Conserved(op: Operation)
      requires Valid() && metrics
      ensures Counter(op, SuccessLabel) + Counter(op, ConflictLabel) + Counter(op, FailureLabel) == CountOp(handled, op)
      ensures op != LockOp ==> Counter(op, ConflictLabel) == 0
    {
      LabelsDivide(handled, op);
      if op != LockOp {
        OnlyLocksConflict(handled, op);
      }
    }

    /** One more request under the given label, and under no other, whatever its code. */
    method RecordMetric(op: Operation, counted: Label, ghost code: nat)
      requires Counted()
      modifies this
      ensures Counted() && handled == old(handled) + [Handled(op, counted, code)]
      ensures forall o, l :: Counter(o, l) == old(Counter(o, l)) + if metrics && (o, l) == (op, counted) then 1 else 0
    {
      forall o, l ensures Count(handled + [Handled(op, counted, code)], o, l)
                       == Count(handled, o, l) + if op == o && counted == l then 1 else 0 {
        CountAppend(handled, Handled(op, counted, code), o, l);
      }
      if metrics {
        var n := if (op, counted) in counters then counters[(op, counted)] else 0;
        counters := counters[(op, counted) := n + 1];
      }
      handled := handled + [Handled(op, counted, code)];
    }

    /** A body that does not decode, or a name that is not one, is a bad request and does not
        reach the store. Anything else is one acquire of the protocol under the trimmed names,
        whose answer decides code, label and body. */
    method HandleLock(body: Option<LockRequest>, stamp: Timestamp) returns (r: Response, ghost outcome: Outcome)
      requires Valid()
      modifies this, lockManager.store
      ensures Valid() && old(lockManager.store.log) <= lockManager.store.log
      ensures body.Some? && IsName(Trim(body.value.project)) && IsName(Trim(body.value.branch)) ==>
                && Follows(Acquire(Trim(body.value.project), Trim(body.value.branch), OWNER), Start,
                           lockManager.store.log[|old(lockManager.store.log)|..], stamp, outcome)
                && if outcome.Success? then
                     && handled == old(handled) + [Handled(LockOp, SuccessLabel, 200)]
                     && r == Response(200, "locked", Some(outcome.lock))
                     && lockManager.store.Holds(Trim(body.value.project), outcome.lock)
                     && outcome.lock.branch == Trim(body.value.branch) && outcome.lock.owner == "placeholder-owner"
                   else if outcome.Conflict? then
                     && handled == old(handled) + [Handled(LockOp, ConflictLabel, 409)]
                     && r == Response(409, "locked", Some(outcome.lock))
                     && lockManager.store.Holds(Trim(body.value.project), outcome.lock)
                     && (outcome.lock.branch, outcome.lock.owner) != (Trim(body.value.branch), "placeholder-owner")
                   else
                     && outcome == Failed && handled == old(handled) + [Handled(LockOp, FailureLabel, 500)]
                     && r == Response(500, "error", None)
      ensures body.None? || !(IsName(Trim(body.value.project)) && IsName(Trim(body.value.branch))) ==>
                && handled == old(handled) + [Handled(LockOp, FailureLabel, 400)]
                && r == Response(400, "error", None) && lockManager.store.log == old(lockManager.store.log)
    {
      if body.None? {
        RecordMetric(LockOp, FailureLabel, 400);
        return BAD_REQUEST, Failed;
      }
      var project, branch := Trim(body.value.project), Trim(body.value.branch);
      AcceptedExactly(body.value.project);
      AcceptedExactly(body.value.branch);
      if ValidateName(project).Some? || ValidateName(branch).Some? {
        RecordMetric(LockOp, FailureLabel, 400);
        return BAD_REQUEST, Failed;
      }
      var answer := lockManager.AcquireLock(project, branch, OWNER, stamp);
      outcome := answer;
      if answer.Conflict? {
        RecordMetric(LockOp, ConflictLabel, 409);
        return Response(409, "locked", Some(answer.lock)), outcome;
      }
      if !answer.Success? {
        RecordMetric(LockOp, FailureLabel, 500);
        return INTERNAL_ERROR, outcome;
      }
      RecordMetric(LockOp, SuccessLabel, 200);
      r := Response(200, "locked", Some(answer.lock));
    }

    /** An unlock is one release of the protocol under the trimmed project name, whatever the
        branch. */
    method HandleUnlock(body: Option<LockRequest>, ghost stamp: Timestamp)
      returns (r: Response, ghost outcome: Outcome)
      requires Valid()
      modifies this, lockManager.store
      ensures Valid() && old(lockManager.store.log) <= lockManager.store.log
      ensures body.Some? && IsName(Trim(body.value.project)) && IsName(Trim(body.value.branch)) ==>
                && Follows(Release(Trim(body.value.project), Trim(body.value.branch), OWNER), Start,
                           lockManager.store.log[|old(lockManager.store.log)|..], stamp, outcome)
                && lockManager.store.Logged(old(lockManager.store.log), 1)
                && (var v := lockManager.store.log[|old(lockManager.store.log)|];
                    && v.failed == (outcome == Failed)
                    && v.after == if v.failed then v.before else v.before - {Trim(body.value.project)})
                && if outcome.Released? then
                     && handled == old(handled) + [Handled(UnlockOp, SuccessLabel, 200)]
                     && r == Response(200, "unlocked", None)
                   else
                     && outcome == Failed && handled == old(handled) + [Handled(UnlockOp, FailureLabel, 500)]
                     && r == Response(500, "error", None)
      ensures body.None? || !(IsName(Trim(body.value.project)) && IsName(Trim(body.value.branch))) ==>
                && handled == old(handled) + [Handled(UnlockOp, FailureLabel, 400)]
                && r == Response(400, "error", None) && lockManager.store.log == old(lockManager.store.log)
    {
      if body.None? {
        RecordMetric(UnlockOp, FailureLabel, 400);
        return BAD_REQUEST, Failed;
      }
      var project, branch := Trim(body.value.project), Trim(body.value.branch);
      AcceptedExactly(body.value.project);
      AcceptedExactly(body.value.branch);
      if ValidateName(project).Some? || ValidateName(branch).Some? {
        RecordMetric(UnlockOp, FailureLabel, 400);
        return BAD_REQUEST, Failed;
      }
      var answer := lockManager.ReleaseLock(project, branch, OWNER, stamp);
      outcome := answer;
      if !answer.Released? {
        RecordMetric(UnlockOp, FailureLabel, 500);
        return INTERNAL_ERROR, outcome;
      }
      RecordMetric(UnlockOp, SuccessLabel, 200);
      r := Response(200, "unlocked", None);
    }

    /** A get that finds nothing is a success with code 404. */
    method HandleGetLock(rawProject: string) returns (r: Response)
      requires Valid()
      modifies this, lockManager.store
      ensures Valid()
      ensures !IsName(Trim(rawProject)) ==>
                && handled == old(handled) + [Handled(GetOp, FailureLabel, 400)]
                && r == Response(400, "error", None) && lockManager.store.log == old(lockManager.store.log)
      ensures IsName(Trim(rawProject)) ==>
                && lockManager.store.Logged(old(lockManager.store.log), 1)
                && var v := lockManager.store.log[|old(lockManager.store.log)|];
                   && v.after == v.before
                   && if !v.failed && Trim(rawProject) !in v.before then
                        && handled == old(handled) + [Handled(GetOp, SuccessLabel, 404)]
                        && r == Response(404, "unlocked", None)
                      else if !v.failed && v.before[Trim(rawProject)].value.LockData? then
                        && handled == old(handled) + [Handled(GetOp, SuccessLabel, 200)]
                        && r == Response(200, "locked", Some(v.before[Trim(rawProject)].value.lock))
                      else
                        && handled == old(handled) + [Handled(GetOp, FailureLabel, 500)]
                        && r == Response(500, "error", None)
    {
      var project := Trim(rawProject);
      AcceptedExactly(rawProject);
      if ValidateName(project).Some? {
        RecordMetric(GetOp, FailureLabel, 400);
        return BAD_REQUEST;
      }
      var lock := lockManager.GetLock(project);
      match lock {
        case Missing =>
          RecordMetric(GetOp, SuccessLabel, 404);
          r := Response(404, "unlocked", None);
        case Broken =>
          RecordMetric(GetOp, FailureLabel, 500);
          r := INTERNAL_ERROR;
        case Ok(l) =>
          RecordMetric(GetOp, SuccessLabel, 200);
          r := Response(200, "locked", Some(l));
      }
    }
  }
}
