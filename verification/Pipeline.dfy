/**
 The task life cycle of orchestrator.py as a labelled transition system over the persisted record
 and the control point of the one process that works on the task.  A label names what happened
 since the last save and the step performs the next save; outcomes of gates, models and git are
 free.  `Crash` ends the process anywhere and keeps the record as last saved.
 */
module Pipeline {
  import opened Sequences
  import opened Wrappers
  import opened StateManagers

  datatype AuditResult =
    | Pass(model: string) | Simulated(model: string) | Fail | Inconclusive
    | Unavailable(another: bool) // availability failure; another candidate is configured
    | Broken                     // unknown provider or non-retryable error

  datatype Label =
    | Crash
    | Run(simulate: bool) | ResumeAudit(simulate: bool, gitReady: bool) | ResumeMerge(gitReady: bool)
    | Save
    | SpecDesigned | SpecValid(ok: bool) | WorktreeMade(ok: bool)
    | WorkerRun | BudgetSpent
    | DiffGate(ok: bool) | Tests(ok: bool) | Sast(findings: bool) | Filtered(truePositive: bool)
    | DiffComputed(ok: bool) | Audited(result: AuditResult, simulate: bool)
    | Ancestor(ok: bool) | Merge(ok: bool) | Complete

  /** Where the process is; `candidate` numbers the auditor being asked and `resumed` tells the audit recovery path from the build loop. */
  datatype Point =
    | Idle
    | RunStart(sim: bool) | SpecStage(sim: bool) | SpecEntry(sim: bool) | SpecCheck(sim: bool) | SpecRetry(sim: bool) | Worktree(sim: bool)
    | LoopHead(sim: bool) | Register(sim: bool) | Working(sim: bool) | DiffCheck(sim: bool) | Testing(sim: bool) | Triage(sim: bool)
    | Scanning(sim: bool) | Filtering(sim: bool) | Replanning(k: Replan, resumed: bool, sim: bool)
    | Auditing(candidate: nat, resumed: bool, sim: bool) | AuditPassed(resumed: bool)
    | AuditReady(sim: bool) | AuditDiff(sim: bool)
    | Merging | Merged | RecoveryMerging | Recovered
    | Halting | Reviewing | Blocking

  datatype Sys = Sys(disk: Option<Record>, at: Point)

  function To(r: Record, p: Point): Option<Sys> {
    Some(Sys(Some(r), p))
  }

  /** Retry in the same epoch if attempts remain, otherwise charge a logic replan. */
  function RetryOrReplan(r: Record, sim: bool): Option<Sys> {
    if r.attempts < r.limits.perEpoch then To(r, LoopHead(sim)) else To(Charge(r, Logic), Replanning(Logic, false, sim))
  }

  function AuditStep(r: Record, o: AuditResult, k: nat, resumed: bool, sim: bool): Option<Sys> {
    match o
    case Pass(model) => To(r.(auditModel := Some(model)), AuditPassed(resumed))
    case Simulated(model) => if sim then To(r.(auditModel := Some(model)), AuditPassed(resumed)) else To(Move(r, HALT_HUMAN), Halting)
    case Fail => To(Charge(r, Security), Replanning(Security, resumed, sim))
    case Inconclusive => To(Move(r, HUMAN_REVIEW), Reviewing)
    case Unavailable(another) =>
      if another then To(Move(r, LOGIC_AUDIT), Auditing(k + 1, resumed, sim)) else To(Move(r, HUMAN_REVIEW), Reviewing)
    case Broken => To(Move(r, HALT_HUMAN), Halting)
  }

  /** Steps out of `Idle`: a new process loads the record first. */
  function Launch(limits: Limits, disk: Option<Record>, l: Label): Option<Sys> {
    var r := Load(disk, limits);
    match l
    case Run(sim) => To(r, RunStart(sim))
    case ResumeAudit(sim, ready) => To(r, if CanResumeAudit(r) && ready then AuditReady(sim) else Idle)
    case ResumeMerge(ready) => To(r, if CanResumeMerge(r) && ready then RecoveryMerging else Idle)
    case _ => None
  }

  function Next(limits: Limits, s: Sys, l: Label): Option<Sys> {
    if l.Crash? then Some(Sys(s.disk, Idle))
    else if s.at.Idle? then Launch(limits, s.disk, l)
    else if s.disk.None? then None
    else Work(s.disk.value, s.at, l)
  }

  function Work(r: Record, at: Point, l: Label): Option<Sys> {
    match at
    case Idle => None
    case RunStart(sim) => if l.Save? then To(Move(r, INIT), SpecStage(sim)) else None
    case SpecStage(sim) =>
      if l.SpecDesigned? then To(Move(r, SPEC_DESIGN), SpecEntry(sim))
      else if l.Save? then To(Move(r, SPEC_GATE), SpecCheck(sim))
      else None
    case SpecEntry(sim) => if l.Save? then To(Move(r, SPEC_GATE), SpecCheck(sim)) else None
    case SpecCheck(sim) =>
      if !l.SpecValid? then None
      else if l.ok then To(r, Worktree(sim))
      else To(r.(specUsed := r.specUsed + 1), SpecRetry(sim))
    case SpecRetry(sim) =>
      if !l.SpecValid? then None
      else if l.ok && r.specUsed <= r.limits.spec then To(r, Worktree(sim))
      else To(Move(r, HALT_HUMAN), Halting)
    case Worktree(sim) =>
      if !l.WorktreeMade? then None else if l.ok then To(r, LoopHead(sim)) else To(Move(r, HALT_HUMAN), Halting)
    case LoopHead(sim) => if l.Save? then To(Move(r, BUILDING), Register(sim)) else None
    case Register(sim) =>
      if l.WorkerRun? && WorkerBudget(r) then To(CountRun(r), Working(sim))
      else if l.BudgetSpent? && !WorkerBudget(r) then To(Move(r, HALT_HUMAN), Halting)
      else None
    case Working(sim) => if l.Save? then To(Move(r, DIFF_GATE), DiffCheck(sim)) else None
    case DiffCheck(sim) =>
      if !l.DiffGate? then None else if l.ok then To(Move(r, TESTING), Testing(sim)) else RetryOrReplan(r, sim)
    case Testing(sim) =>
      if !l.Tests? then None else if l.ok then To(Move(r, SAST_SCAN), Scanning(sim)) else To(Move(r, TRIAGING), Triage(sim))
    case Triage(sim) => if l.Save? then RetryOrReplan(r, sim) else None
    case Scanning(sim) =>
      if !l.Sast? then None else if l.findings then To(Move(r, SAST_FILTER), Filtering(sim)) else To(r, Auditing(0, false, sim))
    case Filtering(sim) =>
      if !l.Filtered? then None
      else if l.truePositive then To(Charge(r, Security), Replanning(Security, false, sim))
      else To(r, Auditing(0, false, sim))
    case Replanning(k, resumed, sim) =>
      if !l.Save? then None
      else if WithinReplans(r, k) then To(NewEpoch(r), if resumed then Idle else LoopHead(sim))
      else To(Move(r, HALT_HUMAN), Halting)
    case Auditing(k, resumed, sim) => if l.Audited? && l.simulate == sim then AuditStep(r, l.result, k, resumed, sim) else None
    case AuditPassed(resumed) =>
      if (!resumed && l.Save?) || (resumed && l == Ancestor(true)) then To(Move(r, AUTO_MERGE), Merging)
      else if resumed && l == Ancestor(false) then To(Move(r, HALT_HUMAN), Halting)
      else None
    case AuditReady(sim) => if l.Save? then To(Move(r, LOGIC_AUDIT), AuditDiff(sim)) else None
    case AuditDiff(sim) =>
      if !l.DiffComputed? then None else if l.ok then To(r, Auditing(0, true, sim)) else To(Move(r, HALT_HUMAN), Halting)
    case Merging => if !l.Merge? then None else if l.ok then To(r, Merged) else To(Move(r, HALT_HUMAN), Halting)
    case Merged => if l.Complete? then To(r.(status := COMPLETED), Idle) else None
    case RecoveryMerging => if l.Merge? then To(r, if l.ok then Recovered else Idle) else None
    case Recovered => if l.Save? then To(Move(r, AUTO_MERGE), Merged) else None
    case Halting => if l.Save? then To(r.(status := FAILED), Idle) else None
    case Reviewing => if l.Save? then To(r.(status := NEEDS_HUMAN_REVIEW), Blocking) else None
    case Blocking => if l.Save? then To(r.(blockedGate := Some(LOGIC_AUDIT)), Idle) else None
  }

  // ---------- Runs ----------

  const START := Sys(None, Idle)

  /** The system after the labelled steps, if they are possible; crashes and restarts included. */
  function Exec(limits: Limits, s: Sys, labels: seq<Label>): Option<Sys> {
    if labels == [] then Some(s)
    else
      var prev := Exec(limits, s, Init(labels));
      if prev.None? then None else Next(limits, prev.value, Last(labels))
  }

  /** Extend a run by one step. */
  lemma Do(limits: Limits, s0: Sys, labels: seq<Label>, s: Sys, l: Label, s': Sys)
    requires Exec(limits, s0, labels) == Some(s) && Next(limits, s, l) == Some(s')
    ensures Exec(limits, s0, labels + [l]) == Some(s')
  {
    assert Init(labels + [l]) == labels;
  }

  lemma DoWork(limits: Limits, s0: Sys, labels: seq<Label>, r: Record, at: Point, l: Label, r': Record, at': Point)
    requires Exec(limits, s0, labels) == To(r, at) && !at.Idle? && !l.Crash? && Work(r, at, l) == To(r', at')
    ensures Exec(limits, s0, labels + [l]) == To(r', at')
  {
    Do(limits, s0, labels, Sys(Some(r), at), l, Sys(Some(r'), at'));
  }

  /** Steps that find the record as it should be and save nothing; every other step saves once. */
  predicate Silent(r: Record, at: Point, l: Label) {
    match at
    case SpecCheck(_) => l == SpecValid(true)
    case SpecRetry(_) => l == SpecValid(true) && r.specUsed <= r.limits.spec
    case Worktree(_) => l == WorktreeMade(true)
    case DiffCheck(_) => l == DiffGate(false) && r.attempts < r.limits.perEpoch
    case Triage(_) => r.attempts < r.limits.perEpoch
    case Scanning(_) => l == Sast(false)
    case Filtering(_) => l == Filtered(false)
    case AuditDiff(_) => l == DiffComputed(true)
    case Merging => l == Merge(true)
    case RecoveryMerging => true
    case _ => false
  }

  lemma SilentKeepsRecord(r: Record, at: Point, l: Label)
    requires Silent(r, at, l) && Work(r, at, l).Some?
    ensures Work(r, at, l).value.disk == Some(r)
  {
  }

  // ---------- What has been established about the current build ----------

  predicate Cleared(l: Label) {
    l.Audited? && (l.result.Pass? || (l.result.Simulated? && l.simulate))
  }

  /** The label that takes the current build from level `k` to `k + 1`. */
  predicate Advances(k: nat, l: Label) {
    match k
    case 0 => l == WorkerRun
    case 1 => l == DiffGate(true)
    case 2 => l == Tests(true)
    case 3 => l == Sast(false) || l == Filtered(false)
    case 4 => Cleared(l)
    case 5 => l == Merge(true)
    case _ => false
  }

  /** How far the build of the last worker run has come: built, diff, tests, findings, audit, merge. */
  function Level(labels: seq<Label>): (k: nat)
    ensures k <= 6
  {
    if labels == [] then 0 else Bump(Level(Init(labels)), Last(labels))
  }

  function Bump(k: nat, l: Label): nat {
    if l.WorktreeMade? then 0
    else if l.WorkerRun? then 1
    else if k < 6 && Advances(k, l) then k + 1
    else k
  }

  /** Indices, in order, of the labels that took the current build through the first |ix| levels. */
  ghost predicate Evidence(labels: seq<Label>, ix: seq<nat>) {
    && (forall j :: 0 <= j < |ix| ==> ix[j] < |labels| && Advances(j, labels[ix[j]]))
    && (forall j :: 0 < j < |ix| ==> ix[j - 1] < ix[j])
    && (ix != [] ==> forall i :: ix[0] < i < |labels| ==> !labels[i].WorkerRun? && !labels[i].WorktreeMade?)
  }

  /** A level is always backed by evidence gathered since the last worker run. */
  lemma {:induction false} LevelEvidence(labels: seq<Label>) returns (ix: seq<nat>)
    ensures |ix| == Level(labels) && Evidence(labels, ix)
  {
    if labels == [] {
      ix := [];
    } else {
      var prev := LevelEvidence(Init(labels));
      var l, k := Last(labels), Level(Init(labels));
      assert forall i :: 0 <= i < |labels| - 1 ==> labels[i] == Init(labels)[i];
      if l.WorktreeMade? {
        ix := [];
      } else if l.WorkerRun? {
        ix := [|labels| - 1];
      } else if k < 6 && Advances(k, l) {
        ix := prev + [|labels| - 1];
      } else {
        ix := prev;
      }
    }
  }

  // ---------- The safety invariant ----------

  /** Control points between the `INIT` transition and a terminal one, merge points apart. */
  predicate Underway(p: Point) {
    !(p.Idle? || p.RunStart? || p.AuditReady? || p.RecoveryMerging? || p.Recovered? || p.Merging? || p.Merged?
      || p.Halting? || p.Reviewing? || p.Blocking?)
  }

  predicate LevelAt(p: Point, k: nat) {
    match p
    case Working(_) => k == 1
    case DiffCheck(_) => k == 1
    case Testing(_) => k == 2
    case Triage(_) => k == 2
    case Scanning(_) => k == 3
    case Filtering(_) => k == 3
    case Auditing(_, _, _) => k == 4
    case AuditReady(_) => k == 4
    case AuditDiff(_) => k == 4
    case Reviewing => k == 4
    case Blocking => k == 4
    case AuditPassed(_) => k == 5
    case Merging => k == 5
    case RecoveryMerging => k >= 5
    case Merged => k == 6
    case Recovered => k == 6
    case _ => true
  }

  ghost predicate MergeHalted(r: Record) {
    r.state == HALT_HUMAN && r.history != [] && Last(r.history) == Transition(AUTO_MERGE, HALT_HUMAN)
  }

  ghost predicate Safe(s: Sys, k: nat) {
    && k <= 6
    && (s.disk.None? ==> s.at.Idle?)
    && LevelAt(s.at, k)
    && (s.disk.Some? ==>
          var r := s.disk.value;
          && (r.state == HUMAN_REVIEW ==> k == 4)
          && (MergeHalted(r) ==> k >= 5)
          && (Underway(s.at) ==> r.state != HUMAN_REVIEW && r.state != HALT_HUMAN && r.state != AUTO_MERGE)
          && (s.at.Merging? || s.at.Merged? ==> r.state == AUTO_MERGE)
          && (s.at.Recovered? || s.at.RecoveryMerging? ==> MergeHalted(r))
          && (s.at.AuditReady? || s.at.Reviewing? || s.at.Blocking? ==> r.state == HUMAN_REVIEW)
          && (s.at.Halting? ==> r.state == HALT_HUMAN))
  }

  lemma LaunchSafe(limits: Limits, s: Sys, l: Label, k: nat)
    requires s.at.Idle? && Safe(s, k) && Launch(limits, s.disk, l).Some?
    ensures Safe(Launch(limits, s.disk, l).value, Bump(k, l))
  {
  }

  predicate Preparing(p: Point) {
    p.RunStart? || p.SpecStage? || p.SpecEntry? || p.SpecCheck? || p.SpecRetry? || p.Worktree? || p.LoopHead? || p.Register?
  }

  predicate Building(p: Point) {
    p.Working? || p.DiffCheck? || p.Testing? || p.Triage? || p.Scanning? || p.Filtering? || p.Replanning?
  }

  lemma PreparingSafe(r: Record, at: Point, l: Label, k: nat)
    requires Preparing(at) && Safe(Sys(Some(r), at), k) && Work(r, at, l).Some?
    ensures Safe(Work(r, at, l).value, Bump(k, l))
  {
  }

  lemma BuildingSafe(r: Record, at: Point, l: Label, k: nat)
    requires Building(at) && Safe(Sys(Some(r), at), k) && Work(r, at, l).Some?
    ensures Safe(Work(r, at, l).value, Bump(k, l))
  {
  }

  predicate AuditStage(p: Point) {
    p.Auditing? || p.AuditPassed? || p.AuditReady? || p.AuditDiff?
  }

  lemma AuditSafe(r: Record, at: Point, l: Label, k: nat)
    requires AuditStage(at) && Safe(Sys(Some(r), at), k) && Work(r, at, l).Some?
    ensures Safe(Work(r, at, l).value, Bump(k, l))
  {
  }

  lemma FinishingSafe(r: Record, at: Point, l: Label, k: nat)
    requires !Preparing(at) && !Building(at) && !AuditStage(at) && Safe(Sys(Some(r), at), k) && Work(r, at, l).Some?
    ensures Safe(Work(r, at, l).value, Bump(k, l))
  {
  }

  lemma StepSafe(limits: Limits, s: Sys, l: Label, k: nat)
    requires Safe(s, k) && Next(limits, s, l).Some?
    ensures Safe(Next(limits, s, l).value, Bump(k, l))
  {
    if l.Crash? {
    } else if s.at.Idle? {
      LaunchSafe(limits, s, l, k);
    } else if Preparing(s.at) {
      PreparingSafe(s.disk.value, s.at, l, k);
    } else if Building(s.at) {
      BuildingSafe(s.disk.value, s.at, l, k);
    } else if AuditStage(s.at) {
      AuditSafe(s.disk.value, s.at, l, k);
    } else {
      FinishingSafe(s.disk.value, s.at, l, k);
    }
  }

  lemma {:induction false} RunsAreSafe(limits: Limits, labels: seq<Label>)
    requires Exec(limits, START, labels).Some?
    ensures Safe(Exec(limits, START, labels).value, Level(labels))
  {
    if labels != [] {
      RunsAreSafe(limits, Init(labels));
      StepSafe(limits, Exec(limits, START, Init(labels)).value, Last(labels), Level(Init(labels)));
    }
  }

  lemma IntoMerged(limits: Limits, s: Sys, l: Label)
    requires Next(limits, s, l).Some?
    ensures Next(limits, s, l).value.at == Merged ==> l == Merge(true) || (l == Save && s.at == Recovered)
  {
  }

  lemma IntoRecovered(limits: Limits, s: Sys, l: Label)
    requires Next(limits, s, l).Some?
    ensures Next(limits, s, l).value.at == Recovered ==> l == Merge(true)
  {
  }

  /** The merge point is entered only by a successful merge, at once or after the recovery transition. */
  lemma MergedDirectly(limits: Limits, labels: seq<Label>)
    requires Exec(limits, START, labels).Some? && Exec(limits, START, labels).value.at == Merged
    ensures labels != [] && (Last(labels) == Merge(true)
                             || (Last(labels) == Save && Init(labels) != [] && Last(Init(labels)) == Merge(true)))
  {
    var prev := Exec(limits, START, Init(labels)).value;
    IntoMerged(limits, prev, Last(labels));
    if prev.at == Recovered {
      IntoRecovered(limits, Exec(limits, START, Init(Init(labels))).value, Last(Init(labels)));
    }
  }

  /**
   Completion safety: whenever a step writes `COMPLETED`, in any run with crashes, restarts and both
   recovery paths, the task is in `AUTO_MERGE` and since the last worker run the build passed, in this
   order, the diff gate, the tests, the finding filter, the audit and a fast-forward merge.
   */
  lemma CompletionSafety(limits: Limits, labels: seq<Label>) returns (ix: seq<nat>)
    requires labels != [] && Last(labels) == Complete && Exec(limits, START, labels).Some?
    ensures |ix| == 6 && Evidence(Init(labels), ix)
    ensures |labels| >= 3 && (labels[|labels| - 2] == Merge(true) || (labels[|labels| - 2] == Save && labels[|labels| - 3] == Merge(true)))
    ensures var before, after := Exec(limits, START, Init(labels)), Exec(limits, START, labels).value;
            && before.Some? && before.value.disk.Some? && before.value.disk.value.state == AUTO_MERGE
            && after == Sys(Some(before.value.disk.value.(status := COMPLETED)), Idle)
  {
    RunsAreSafe(limits, Init(labels));
    ix := LevelEvidence(Init(labels));
    MergedDirectly(limits, Init(labels));
  }

  /** No other step ever writes `COMPLETED`. */
  lemma OnlyCompleteCompletes(limits: Limits, s: Sys, l: Label)
    requires Next(limits, s, l).Some? && Next(limits, s, l).value.disk.Some?
    requires Next(limits, s, l).value.disk.value.status == COMPLETED
    ensures l == Complete || (s.disk.Some? && s.disk.value.status == COMPLETED)
  {
  }

  /** Every reachable record marked `COMPLETED` owes the mark to a completion with full evidence. */
  lemma {:induction false} CompletedWithEvidence(limits: Limits, labels: seq<Label>) returns (i: nat, ix: seq<nat>)
    requires Exec(limits, START, labels).Some?
    requires var s := Exec(limits, START, labels).value; s.disk.Some? && s.disk.value.status == COMPLETED
    ensures i < |labels| && labels[i] == Complete && |ix| == 6 && Evidence(labels[..i], ix)
  {
    var s := Exec(limits, START, Init(labels)).value;
    if Last(labels) == Complete {
      i := |labels| - 1;
      ix := CompletionSafety(limits, labels);
    } else {
      OnlyCompleteCompletes(limits, s, Last(labels));
      i, ix := CompletedWithEvidence(limits, Init(labels));
      assert Init(labels)[..i] == labels[..i];
    }
  }
}
