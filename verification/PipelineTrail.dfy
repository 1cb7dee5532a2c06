/**
 What the labels of a run say by themselves: which entry point the process came from, what it had
 cleared before the worker ran or a merge began, and what every replan and epoch is owed to.
 */
module PipelineTrails {
  import opened Sequences
  import opened Wrappers
  import opened StateManagers
  import opened Pipeline
  import PipelineBudgets

  predicate Launches(l: Label) {
    l.Run? || l.ResumeAudit? || l.ResumeMerge?
  }

  /** The entry point the current or last process came from. */
  function LaunchOf(labels: seq<Label>): Option<Label> {
    if labels == [] then None else if Launches(Last(labels)) then Some(Last(labels)) else LaunchOf(Init(labels))
  }

  /** How far the process has prepared since it was launched: specification valid, worktree made. */
  function Prepared(labels: seq<Label>): nat {
    if labels == [] then 0 else PreparedBy(Prepared(Init(labels)), Last(labels))
  }

  function PreparedBy(p: nat, l: Label): nat {
    if Launches(l) then 0
    else if l == SpecValid(true) && p == 0 then 1
    else if l == WorktreeMade(true) && p == 1 then 2
    else p
  }

  /** Points of `run_pipeline` from the build loop on. */
  predicate InBuild(at: Point) {
    || at.LoopHead? || at.Register? || (Building(at) && !(at.Replanning? && at.resumed))
    || (at.Auditing? && !at.resumed) || (at.AuditPassed? && !at.resumed)
  }

  /** Points of `resume_audit` before the merge. */
  predicate InRecovery(at: Point) {
    || at.AuditReady? || at.AuditDiff? || (at.Auditing? && at.resumed) || (at.AuditPassed? && at.resumed) || (at.Replanning? && at.resumed)
  }

  /** Each point belongs to the entry point that leads to it, with the preparation it presupposes. */
  ghost predicate OnCourse(at: Point, launch: Option<Label>, p: nat) {
    && (at.RunStart? || at.SpecStage? || at.SpecEntry? || at.SpecCheck? || at.SpecRetry? ==> launch.Some? && launch.value.Run? && p == 0)
    && (at.Worktree? ==> launch.Some? && launch.value.Run? && p == 1)
    && (InBuild(at) ==> launch.Some? && launch.value.Run? && p == 2)
    && (InRecovery(at) ==> launch.Some? && launch.value.ResumeAudit? && launch.value.gitReady)
    && (at.RecoveryMerging? || at.Recovered? ==> launch.Some? && launch.value.ResumeMerge? && launch.value.gitReady)
    && (at.Merging? ==> launch.Some? && ((launch.value.Run? && p == 2) || (launch.value.ResumeAudit? && launch.value.gitReady)))
  }

  lemma EarlyOnCourse(r: Record, at: Point, l: Label, launch: Option<Label>, p: nat)
    requires OnCourse(at, launch, p) && Work(r, at, l).Some? && (Preparing(at) || Building(at))
    ensures OnCourse(Work(r, at, l).value.at, launch, PreparedBy(p, l))
  {
  }

  lemma LateOnCourse(r: Record, at: Point, l: Label, launch: Option<Label>, p: nat)
    requires OnCourse(at, launch, p) && Work(r, at, l).Some? && !Preparing(at) && !Building(at)
    ensures OnCourse(Work(r, at, l).value.at, launch, PreparedBy(p, l))
  {
  }

  lemma WorkIsNoLaunch(r: Record, at: Point, l: Label)
    requires Work(r, at, l).Some?
    ensures !Launches(l)
  {
  }

  lemma StepOnCourse(limits: Limits, s: Sys, l: Label, launch: Option<Label>, p: nat)
    requires OnCourse(s.at, launch, p) && Next(limits, s, l).Some?
    ensures OnCourse(Next(limits, s, l).value.at, if Launches(l) then Some(l) else launch, PreparedBy(p, l))
  {
    if !l.Crash? && !s.at.Idle? {
      WorkIsNoLaunch(s.disk.value, s.at, l);
      if Preparing(s.at) || Building(s.at) {
        EarlyOnCourse(s.disk.value, s.at, l, launch, p);
      } else {
        LateOnCourse(s.disk.value, s.at, l, launch, p);
      }
    }
  }

  lemma {:induction false} RunsStayOnCourse(limits: Limits, labels: seq<Label>)
    requires Exec(limits, START, labels).Some?
    ensures OnCourse(Exec(limits, START, labels).value.at, LaunchOf(labels), Prepared(labels))
  {
    if labels != [] {
      RunsStayOnCourse(limits, Init(labels));
      StepOnCourse(limits, Exec(limits, START, Init(labels)).value, Last(labels), LaunchOf(Init(labels)), Prepared(Init(labels)));
    }
  }

  lemma IntoWorker(limits: Limits, s: Sys)
    requires Next(limits, s, WorkerRun).Some?
    ensures s.at.Register?
  {
  }

  /** The worker runs only in a process of `run_pipeline` whose specification was valid and whose worktree was made. */
  lemma WorkerRunsArePrepared(limits: Limits, labels: seq<Label>)
    requires labels != [] && Last(labels) == WorkerRun && Exec(limits, START, labels).Some?
    ensures LaunchOf(labels).Some? && LaunchOf(labels).value.Run? && Prepared(labels) == 2
  {
    RunsStayOnCourse(limits, Init(labels));
    IntoWorker(limits, Exec(limits, START, Init(labels)).value);
  }

  lemma IntoMerging(limits: Limits, s: Sys, l: Label)
    requires Next(limits, s, l).Some? && Next(limits, s, l).value.at.Merging?
    ensures (s.at == AuditPassed(true) && l == Ancestor(true)) || (s.at == AuditPassed(false) && l == Save)
  {
  }

  /** A process of `resume_audit` begins to merge only right after it found the base to be an ancestor of the branch. */
  lemma RecoveryMergesOnAncestor(limits: Limits, labels: seq<Label>)
    requires Exec(limits, START, labels).Some? && Exec(limits, START, labels).value.at.Merging?
    requires LaunchOf(labels).Some? && LaunchOf(labels).value.ResumeAudit?
    ensures labels != [] && Last(labels) == Ancestor(true)
  {
    var prev := Exec(limits, START, Init(labels)).value;
    IntoMerging(limits, prev, Last(labels));
    RunsStayOnCourse(limits, Init(labels));
  }

  // ---------- What every replan is owed to ----------

  predicate ChargesSecurity(l: Label) {
    l == Filtered(true) || (l.Audited? && l.result.Fail?)
  }

  /** The diff gate or the tests rejected a build whose epoch has no attempt left. */
  predicate ChargesLogic(s: Sys, l: Label) {
    && s.disk.Some? && s.disk.value.attempts >= s.disk.value.limits.perEpoch
    && ((s.at.DiffCheck? && l == DiffGate(false)) || (s.at.Triage? && l == Save))
  }

  /** A process stopped between charging a replan that still was within its limit and opening its epoch. */
  predicate LosesEpoch(s: Sys, l: Label) {
    && s.disk.Some? && s.at.Replanning? && l.Crash?
    && if s.at.k == Logic then s.disk.value.logicUsed <= s.disk.value.limits.logic else s.disk.value.securityUsed <= s.disk.value.limits.security
  }

  datatype Tally = Tally(security: nat, logic: nat, lost: nat)

  /** The labels of a run counted. */
  ghost function Counted(limits: Limits, labels: seq<Label>): Tally {
    if labels == [] then Tally(0, 0, 0)
    else
      var t, l := Counted(limits, Init(labels)), Last(labels);
      var before := Exec(limits, START, Init(labels));
      if before.None? then t else TallyStep(t, before.value, l)
  }

  ghost function TallyStep(t: Tally, s: Sys, l: Label): Tally {
    Tally(t.security + (if ChargesSecurity(l) then 1 else 0),
          t.logic + (if ChargesLogic(s, l) then 1 else 0),
          t.lost + (if LosesEpoch(s, l) then 1 else 0))
  }

  predicate EpochPending(s: Sys) {
    && s.disk.Some? && s.at.Replanning?
    && if s.at.k == Logic then s.disk.value.logicUsed <= s.disk.value.limits.logic else s.disk.value.securityUsed <= s.disk.value.limits.security
  }

  /** Used replans are the counted ones, and every replan within its limit opened an epoch, is about to, or lost it to a crash. */
  ghost predicate Balanced(s: Sys, t: Tally) {
    && (s.disk.None? ==> s.at.Idle? && t == Tally(0, 0, 0))
    && (s.disk.Some? ==>
          var r := s.disk.value;
          && r.securityUsed == t.security && r.logicUsed == t.logic && r.epoch >= 1
          && r.epoch - 1 + t.lost + (if EpochPending(s) then 1 else 0)
             == PipelineBudgets.Min(r.logicUsed, r.limits.logic) + PipelineBudgets.Min(r.securityUsed, r.limits.security))
  }

  lemma BuildBalanced(r: Record, at: Point, l: Label, t: Tally)
    requires Balanced(Sys(Some(r), at), t) && Work(r, at, l).Some? && Building(at)
    ensures Balanced(Work(r, at, l).value, TallyStep(t, Sys(Some(r), at), l))
  {
  }

  lemma OtherBalanced(r: Record, at: Point, l: Label, t: Tally)
    requires Balanced(Sys(Some(r), at), t) && Work(r, at, l).Some? && !Building(at)
    ensures Balanced(Work(r, at, l).value, TallyStep(t, Sys(Some(r), at), l))
  {
  }

  lemma StepBalanced(limits: Limits, s: Sys, l: Label, t: Tally)
    requires Balanced(s, t) && Next(limits, s, l).Some?
    ensures Balanced(Next(limits, s, l).value, TallyStep(t, s, l))
  {
    if !l.Crash? && !s.at.Idle? {
      if Building(s.at) {
        BuildBalanced(s.disk.value, s.at, l, t);
      } else {
        OtherBalanced(s.disk.value, s.at, l, t);
      }
    }
  }

  /**
   Exact accounts of every run: security replans used are the confirmed findings plus the failed audits,
   logic replans used are the rejections without an attempt left, and the epochs are one plus the replans
   within their limits, less those lost to a crash before the epoch was saved.
   */
  lemma {:induction false} AccountsAreExact(limits: Limits, labels: seq<Label>)
    requires Exec(limits, START, labels).Some?
    ensures Balanced(Exec(limits, START, labels).value, Counted(limits, labels))
  {
    if labels != [] {
      AccountsAreExact(limits, Init(labels));
      StepBalanced(limits, Exec(limits, START, Init(labels)).value, Last(labels), Counted(limits, Init(labels)));
    }
  }
}
