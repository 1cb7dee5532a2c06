/**
 The persisted task record of orchestrator/state_manager.py and the operations that advance it.
 Every operation of class `StateManager` ends in a save; `saves` accounts for the records written,
 in order, so that a crash between two saves can be described.
 */
module StateManagers {
  import opened Wrappers

  datatype State =
    | INIT | SPEC_DESIGN | SPEC_GATE | BUILDING | DIFF_GATE | TESTING | TRIAGING
    | SAST_SCAN | SAST_FILTER | LOGIC_AUDIT | AUTO_MERGE | HUMAN_REVIEW | HALT_HUMAN

  datatype Status = RUNNING | INTERRUPTED | COMPLETED | FAILED | NEEDS_HUMAN_REVIEW

  datatype Limits = Limits(logic: nat, security: nat, spec: nat, perEpoch: nat, total: nat)

  datatype Transition = Transition(before: State, to: State)

  datatype Record = Record(
    epoch: nat, state: State, status: Status, limits: Limits,
    logicUsed: nat, securityUsed: nat, specUsed: nat, attempts: nat, total: nat,
    blockedGate: Option<State>, auditModel: Option<string>, history: seq<Transition>)

  function Fresh(limits: Limits): Record {
    Record(1, INIT, RUNNING, limits, 0, 0, 0, 0, 0, None, None, [])
  }

  /** Construction of a manager: a missing file is created, an interrupted run is marked. */
  function Load(disk: Option<Record>, limits: Limits): Record {
    if disk.None? then Fresh(limits)
    else if disk.value.status == RUNNING then disk.value.(status := INTERRUPTED)
    else disk.value
  }

  /** What construction itself saves: a fresh record or the interruption mark. */
  function LoadSaves(disk: Option<Record>, limits: Limits): seq<Record> {
    if disk.Some? && disk.value.status != RUNNING then [] else [Load(disk, limits)]
  }

  function Move(r: Record, to: State): Record {
    r.(state := to, history := r.history + [Transition(r.state, to)])
  }

  function Halt(r: Record): Record {
    Move(r, HALT_HUMAN).(status := FAILED)
  }

  function Review(r: Record): Record {
    Move(r, HUMAN_REVIEW).(status := NEEDS_HUMAN_REVIEW, blockedGate := Some(LOGIC_AUDIT))
  }

  function CountRun(r: Record): Record {
    r.(total := r.total + 1, attempts := r.attempts + 1)
  }

  function NewEpoch(r: Record): Record {
    r.(epoch := r.epoch + 1, attempts := 0)
  }

  predicate WorkerBudget(r: Record) {
    r.attempts < r.limits.perEpoch && r.total < r.limits.total
  }

  datatype Replan = Logic | Security

  function Charge(r: Record, k: Replan): Record {
    match k
    case Logic => r.(logicUsed := r.logicUsed + 1)
    case Security => r.(securityUsed := r.securityUsed + 1)
  }

  predicate WithinReplans(r: Record, k: Replan) {
    match k
    case Logic => r.logicUsed <= r.limits.logic
    case Security => r.securityUsed <= r.limits.security
  }

  /** `can_resume_merge`, without the test of the failure text. */
  predicate CanResumeMerge(r: Record) {
    && r.state == HALT_HUMAN && r.status == FAILED && r.history != []
    && r.history[|r.history| - 1] == Transition(AUTO_MERGE, HALT_HUMAN)
  }

  /** The part of `can_resume_audit` that looks at the record. */
  predicate CanResumeAudit(r: Record) {
    && r.state == HUMAN_REVIEW && r.status == NEEDS_HUMAN_REVIEW && r.blockedGate == Some(LOGIC_AUDIT)
    && Transition(LOGIC_AUDIT, HUMAN_REVIEW) in r.history
  }

  /** One replan of kind `k` was charged; an epoch was opened iff that kind had one left, otherwise the task halted. */
  predicate ReplanCharged(r: Record, r': Record, k: Replan, ok: bool) {
    && r'.limits == r.limits && r'.total == r.total && r'.specUsed == r.specUsed && r'.auditModel == r.auditModel
    && r'.logicUsed == r.logicUsed + (if k == Logic then 1 else 0)
    && r'.securityUsed == r.securityUsed + (if k == Security then 1 else 0)
    && (ok <==> if k == Logic then r.logicUsed < r.limits.logic else r.securityUsed < r.limits.security)
    && (ok ==> r'.epoch == r.epoch + 1 && r'.attempts == 0 && r'.state == r.state && r'.status == r.status)
    && (!ok ==> r'.epoch == r.epoch && r'.attempts == r.attempts && r'.state == HALT_HUMAN && r'.status == FAILED)
  }

  class StateManager {
    var data: Record
    ghost var saves: seq<Record>

    constructor (disk: Option<Record>, limits: Limits)
      ensures data == Load(disk, limits)
      ensures saves == LoadSaves(disk, limits)
      ensures disk.None? ==> && data.state == INIT && data.status == RUNNING && data.limits == limits && data.epoch == 1
                             && data.logicUsed == data.securityUsed == data.specUsed == data.attempts == data.total == 0
                             && data.history == [] && data.auditModel.None? && saves == [data]
      ensures disk.Some? ==> data == disk.value.(status := data.status) && data.status != RUNNING
      ensures disk.Some? && disk.value.status == RUNNING ==> data.status == INTERRUPTED && saves == [data]
      ensures disk.Some? && disk.value.status != RUNNING ==> data == disk.value && saves == []
    {
      data := Load(disk, limits);
      saves := LoadSaves(disk, limits);
    }

    method Save()
      modifies `saves
      ensures saves == old(saves) + [data]
    {
      saves := saves + [data];
    }

    method DoTransition(to: State)
      modifies this
      ensures data == Move(old(data), to) && saves == old(saves) + [data]
      ensures data.state == to && data.history == old(data).history + [Transition(old(data).state, to)]
      ensures data == old(data).(state := data.state, history := data.history)
    {
      data := data.(history := data.history + [Transition(data.state, to)], state := to);
      Save();
    }

    method SetStatus(status: Status)
      modifies this
      ensures data == old(data).(status := status) && saves == old(saves) + [data]
    {
      data := data.(status := status);
      Save();
    }

    method HaltHuman()
      modifies this
      ensures data.state == HALT_HUMAN && data.status == FAILED
      ensures data.history == old(data).history + [Transition(old(data).state, HALT_HUMAN)]
      ensures data == old(data).(state := data.state, status := data.status, history := data.history)
      ensures data == Halt(old(data)) && saves == old(saves) + [Move(old(data), HALT_HUMAN)] + [data]
    {
      DoTransition(HALT_HUMAN);
      SetStatus(FAILED);
    }

    method RequestHumanReview()
      modifies this
      ensures data == Review(old(data))
      ensures data.state == HUMAN_REVIEW && data.status == NEEDS_HUMAN_REVIEW && data.blockedGate == Some(LOGIC_AUDIT)
      ensures data.history == old(data).history + [Transition(old(data).state, HUMAN_REVIEW)]
      ensures data == old(data).(state := data.state, status := data.status, blockedGate := data.blockedGate, history := data.history)
      ensures saves == old(saves) + [Move(old(data), HUMAN_REVIEW)]
                       + [Move(old(data), HUMAN_REVIEW).(status := NEEDS_HUMAN_REVIEW)] + [data]
    {
      DoTransition(HUMAN_REVIEW);
      SetStatus(NEEDS_HUMAN_REVIEW);
      data := data.(blockedGate := Some(LOGIC_AUDIT));
      Save();
    }

    method RegisterWorkerRun() returns (ok: bool)
      modifies this
      ensures ok <==> old(data).attempts < old(data).limits.perEpoch && old(data).total < old(data).limits.total
      ensures ok ==> data == old(data).(total := old(data).total + 1, attempts := old(data).attempts + 1)
      ensures !ok ==> data.state == HALT_HUMAN && data.status == FAILED && data.total == old(data).total
      ensures data == if ok then CountRun(old(data)) else Halt(old(data))
      ensures saves == if ok then old(saves) + [data] else old(saves) + [Move(old(data), HALT_HUMAN)] + [data]
    {
      if data.attempts >= data.limits.perEpoch {
        HaltHuman();
        return false;
      }
      if data.total >= data.limits.total {
        HaltHuman();
        return false;
      }
      data := data.(total := data.total + 1, attempts := data.attempts + 1);
      Save();
      ok := true;
    }

    method CanWorkerRetryInEpoch() returns (b: bool)
      ensures b == (data.attempts < data.limits.perEpoch)
    {
      b := data.attempts < data.limits.perEpoch;
    }

    method ConsumeSpecSyntaxRetry() returns (ok: bool)
      modifies this
      ensures ok <==> old(data).specUsed < old(data).limits.spec
      ensures data.specUsed == old(data).specUsed + 1 && (!ok ==> data.state == HALT_HUMAN && data.status == FAILED)
      ensures var r := old(data).(specUsed := old(data).specUsed + 1);
              && ok == (r.specUsed <= r.limits.spec) && data == (if ok then r else Halt(r))
              && saves == (if ok then old(saves) + [r] else old(saves) + [r] + [Move(r, HALT_HUMAN)] + [data])
    {
      data := data.(specUsed := data.specUsed + 1);
      Save();
      if data.specUsed > data.limits.spec {
        HaltHuman();
        return false;
      }
      ok := true;
    }

    /** `consume_logic_replan` and `consume_security_replan`: charge, save, then open an epoch or halt. */
    method ConsumeReplan(k: Replan) returns (ok: bool)
      modifies this
      ensures ReplanCharged(old(data), data, k, ok)
      ensures var r := Charge(old(data), k);
              && ok == WithinReplans(r, k)
              && data == (if ok then NewEpoch(r) else Halt(r))
              && saves == (if ok then old(saves) + [r] + [data] else old(saves) + [r] + [Move(r, HALT_HUMAN)] + [data])
    {
      data := Charge(data, k);
      Save();
      if !WithinReplans(data, k) {
        HaltHuman();
        return false;
      }
      data := data.(epoch := data.epoch + 1, attempts := 0);
      Save();
      ok := true;
    }

    method RecordAuditModel(model: string)
      modifies this
      ensures data == old(data).(auditModel := Some(model)) && saves == old(saves) + [data]
    {
      data := data.(auditModel := Some(model));
      Save();
    }
  }
}
