/** What the budgets bound over the whole life of a task, across crashes, restarts and recoveries. */
module PipelineBudgets {
  import opened Sequences
  import opened Wrappers
  import opened StateManagers
  import opened Pipeline

  function Min(a: nat, b: nat): nat {
    if a <= b then a else b
  }

  /** Replans that were granted an epoch, or will be by the next save. */
  function Granted(r: Record): nat {
    Min(r.logicUsed, r.limits.logic) + Min(r.securityUsed, r.limits.security)
  }

  predicate EpochDue(r: Record, at: Point) {
    at.Replanning? && WithinReplans(r, at.k)
  }

  /** Attempts per epoch and number of epochs, including between the two saves of a replan. */
  ghost predicate EpochsBounded(limits: Limits, s: Sys) {
    s.disk.Some? ==>
      var r := s.disk.value;
      && r.limits == limits && r.epoch >= 1 && r.attempts <= limits.perEpoch && r.total <= limits.total
      && r.epoch - 1 + (if EpochDue(r, s.at) then 1 else 0) <= Granted(r)
  }

  /** Every run belongs to some epoch, and no epoch has more than its share. */
  ghost predicate RunsBounded(s: Sys) {
    s.disk.Some? ==>
      var r := s.disk.value;
      r.epoch >= 1 && r.attempts <= r.limits.perEpoch && r.total <= r.limits.perEpoch * (r.epoch - 1) + r.attempts
  }

  /** A build that has not been charged to a replan yet. */
  predicate Uncharged(at: Point) {
    at.Working? || at.DiffCheck? || at.Testing? || at.Triage? || at.Scanning? || at.Filtering? || at.Auditing?
    || at.AuditReady? || at.AuditDiff? || at.Reviewing? || at.Blocking?
  }

  ghost predicate ReplansCovered(s: Sys) {
    s.disk.Some? ==>
      var r := s.disk.value;
      r.logicUsed + r.securityUsed + (if Uncharged(s.at) || r.state == HUMAN_REVIEW then 1 else 0) <= r.total
  }

  lemma EpochsStep(limits: Limits, s: Sys, l: Label)
    requires EpochsBounded(limits, s) && (s.disk.None? ==> s.at.Idle?) && Next(limits, s, l).Some?
    ensures EpochsBounded(limits, Next(limits, s, l).value)
  {
    if !l.Crash? && !s.at.Idle? {
      EpochsWork(limits, s.disk.value, s.at, l);
    }
  }

  lemma EpochsWork(limits: Limits, r: Record, at: Point, l: Label)
    requires EpochsBounded(limits, Sys(Some(r), at)) && Work(r, at, l).Some?
    ensures EpochsBounded(limits, Work(r, at, l).value)
  {
    if Building(at) {
      EpochsBuild(limits, r, at, l);
    }
  }

  lemma EpochsBuild(limits: Limits, r: Record, at: Point, l: Label)
    requires Building(at) && EpochsBounded(limits, Sys(Some(r), at)) && Work(r, at, l).Some?
    ensures EpochsBounded(limits, Work(r, at, l).value)
  {
  }

  lemma RunsStep(limits: Limits, s: Sys, l: Label)
    requires RunsBounded(s) && (s.disk.None? ==> s.at.Idle?) && Next(limits, s, l).Some?
    ensures RunsBounded(Next(limits, s, l).value)
  {
    if !l.Crash? && !s.at.Idle? {
      var r := s.disk.value;
      if s.at.Replanning? && l.Save? && WithinReplans(r, s.at.k) {
        assert r.limits.perEpoch * r.epoch == r.limits.perEpoch * (r.epoch - 1) + r.limits.perEpoch;
      } else {
        RunsWork(r, s.at, l);
      }
    }
  }

  lemma RunsWork(r: Record, at: Point, l: Label)
    requires RunsBounded(Sys(Some(r), at)) && Work(r, at, l).Some?
    requires !(at.Replanning? && l.Save? && WithinReplans(r, at.k))
    ensures RunsBounded(Work(r, at, l).value)
  {
    assert Work(r, at, l).value.disk.value.epoch == r.epoch;
  }

  lemma ReplansStep(limits: Limits, s: Sys, l: Label, k: nat)
    requires Safe(s, k) && ReplansCovered(s) && Next(limits, s, l).Some?
    ensures ReplansCovered(Next(limits, s, l).value)
  {
    if !l.Crash? && !s.at.Idle? {
      ReplansWork(s.disk.value, s.at, l, k);
    }
  }

  lemma ReplansWork(r: Record, at: Point, l: Label, k: nat)
    requires Safe(Sys(Some(r), at), k) && ReplansCovered(Sys(Some(r), at)) && Work(r, at, l).Some?
    ensures ReplansCovered(Work(r, at, l).value)
  {
    if Building(at) {
      ReplansBuild(r, at, l, k);
    }
  }

  lemma ReplansBuild(r: Record, at: Point, l: Label, k: nat)
    requires Building(at) && Safe(Sys(Some(r), at), k) && ReplansCovered(Sys(Some(r), at)) && Work(r, at, l).Some?
    ensures ReplansCovered(Work(r, at, l).value)
  {
  }

  ghost predicate Budgeted(limits: Limits, s: Sys) {
    EpochsBounded(limits, s) && RunsBounded(s) && ReplansCovered(s)
  }

  lemma {:induction false} RunsAreBudgeted(limits: Limits, labels: seq<Label>)
    requires Exec(limits, START, labels).Some?
    ensures Budgeted(limits, Exec(limits, START, labels).value)
  {
    if labels != [] {
      RunsAreBudgeted(limits, Init(labels));
      RunsAreSafe(limits, Init(labels));
      var s := Exec(limits, START, Init(labels)).value;
      EpochsStep(limits, s, Last(labels));
      RunsStep(limits, s, Last(labels));
      ReplansStep(limits, s, Last(labels), Level(Init(labels)));
    }
  }

  lemma ProductBound(m: nat, e: nat, f: nat)
    requires e <= f
    ensures m * e <= m * f
  {
  }

  /** Lifetime budget of every reachable record. */
  lemma LifetimeBudget(limits: Limits, labels: seq<Label>, r: Record)
    requires Exec(limits, START, labels).Some? && Exec(limits, START, labels).value.disk == Some(r)
    ensures r.limits == limits && r.attempts <= limits.perEpoch
    ensures 0 <= r.epoch - 1 <= Min(r.logicUsed, limits.logic) + Min(r.securityUsed, limits.security)
    ensures r.total <= limits.total && r.total <= limits.perEpoch * (1 + limits.logic + limits.security)
  {
    RunsAreBudgeted(limits, labels);
    BudgetArithmetic(limits, r, Exec(limits, START, labels).value.at);
  }

  lemma BudgetArithmetic(limits: Limits, r: Record, at: Point)
    requires EpochsBounded(limits, Sys(Some(r), at)) && RunsBounded(Sys(Some(r), at))
    ensures r.total <= limits.perEpoch * (1 + limits.logic + limits.security)
  {
    var m, e := limits.perEpoch, r.epoch;
    assert m * e == m * (e - 1) + m;
    ProductBound(m, e, 1 + limits.logic + limits.security);
  }

  /** Replan conservation: replans used, plus one while a build awaits review, never exceed the worker runs. */
  lemma ReplanConservation(limits: Limits, labels: seq<Label>, r: Record)
    requires Exec(limits, START, labels).Some? && Exec(limits, START, labels).value.disk == Some(r)
    ensures r.logicUsed + r.securityUsed + (if r.state == HUMAN_REVIEW then 1 else 0) <= r.total
  {
    RunsAreBudgeted(limits, labels);
  }

  function WorkerRuns(labels: seq<Label>): nat {
    if labels == [] then 0 else WorkerRuns(Init(labels)) + if Last(labels).WorkerRun? then 1 else 0
  }

  lemma CountStep(limits: Limits, s: Sys, l: Label)
    requires Next(limits, s, l).Some? && (s.disk.None? ==> s.at.Idle?)
    ensures var s' := Next(limits, s, l).value;
            && (s'.disk.None? ==> s.disk.None? && !l.WorkerRun?)
            && (s'.disk.Some? ==> s'.disk.value.total == (if s.disk.Some? then s.disk.value.total else 0) + if l.WorkerRun? then 1 else 0)
  {
  }

  lemma {:induction false} RunsAreCounted(limits: Limits, labels: seq<Label>)
    requires Exec(limits, START, labels).Some?
    ensures var s := Exec(limits, START, labels).value;
            WorkerRuns(labels) == if s.disk.Some? then s.disk.value.total else 0
  {
    if labels != [] {
      RunsAreCounted(limits, Init(labels));
      RunsAreSafe(limits, Init(labels));
      CountStep(limits, Exec(limits, START, Init(labels)).value, Last(labels));
    }
  }

  /** However often the process crashes and restarts, the worker runs at most `limits.total` times in all. */
  lemma WorkerRunsBounded(limits: Limits, labels: seq<Label>)
    requires Exec(limits, START, labels).Some?
    ensures WorkerRuns(labels) <= limits.total
    ensures WorkerRuns(labels) <= limits.perEpoch * (1 + limits.logic + limits.security)
  {
    RunsAreCounted(limits, labels);
    var s := Exec(limits, START, labels).value;
    if s.disk.Some? {
      LifetimeBudget(limits, labels, s.disk.value);
    }
  }

  // ---------- When a suspended audit can be resumed ----------

  /**
   The record after a review request is resumable iff the request was made from `LOGIC_AUDIT` or
   an earlier one was: the primary candidate alone never enters `LOGIC_AUDIT` inside the build loop.
   */
  lemma ReviewResumableIff(r: Record)
    ensures CanResumeAudit(Review(r)) <==> r.state == LOGIC_AUDIT || Transition(LOGIC_AUDIT, HUMAN_REVIEW) in r.history
  {
    var h := Review(r).history;
    assert h == r.history + [Transition(r.state, HUMAN_REVIEW)];
  }

  /** Resuming an audit presupposes that some audit fell back to another candidate before. */
  ghost predicate NeverInAudit(s: Sys) {
    && !s.at.AuditReady? && !s.at.AuditDiff?
    && (s.disk.Some? ==> s.disk.value.state != LOGIC_AUDIT && Transition(LOGIC_AUDIT, HUMAN_REVIEW) !in s.disk.value.history)
  }

  lemma NeverInAuditStep(limits: Limits, s: Sys, l: Label)
    requires NeverInAudit(s) && Next(limits, s, l).Some? && !(l.Audited? && l.result == Unavailable(true))
    ensures NeverInAudit(Next(limits, s, l).value)
  {
    if !l.Crash? && !s.at.Idle? && s.disk.Some? {
      if Preparing(s.at) || Building(s.at) {
        EarlyNeverInAudit(s.disk.value, s.at, l);
      } else {
        LateNeverInAudit(s.disk.value, s.at, l);
      }
    }
  }

  lemma EarlyNeverInAudit(r: Record, at: Point, l: Label)
    requires NeverInAudit(Sys(Some(r), at)) && Work(r, at, l).Some? && (Preparing(at) || Building(at))
    ensures NeverInAudit(Work(r, at, l).value)
  {
  }

  lemma LateNeverInAudit(r: Record, at: Point, l: Label)
    requires NeverInAudit(Sys(Some(r), at)) && Work(r, at, l).Some? && !Preparing(at) && !Building(at)
    requires !(l.Audited? && l.result == Unavailable(true))
    ensures NeverInAudit(Work(r, at, l).value)
  {
  }

  lemma {:induction false} ResumableOnlyAfterFallback(limits: Limits, labels: seq<Label>)
    requires Exec(limits, START, labels).Some?
    requires forall i :: 0 <= i < |labels| ==> !(labels[i].Audited? && labels[i].result == Unavailable(true))
    ensures NeverInAudit(Exec(limits, START, labels).value)
    ensures var s := Exec(limits, START, labels).value; s.disk.Some? ==> !CanResumeAudit(s.disk.value)
  {
    if labels != [] {
      ResumableOnlyAfterFallback(limits, Init(labels));
      NeverInAuditStep(limits, Exec(limits, START, Init(labels)).value, Last(labels));
    }
  }

  // ---------- Exactly which suspended runs can be resumed ----------

  const FROM_AUDIT := Transition(LOGIC_AUDIT, HUMAN_REVIEW)

  /** The record a review request leaves behind. */
  predicate Suspended(r: Record) {
    r.state == HUMAN_REVIEW && r.status == NEEDS_HUMAN_REVIEW && r.blockedGate == Some(LOGIC_AUDIT)
  }

  predicate AsksForReview(l: Label) {
    l.Audited? && (l.result.Inconclusive? || l.result == Unavailable(false))
  }

  /** The audit has fallen back to another candidate, or it is itself a resumed one. */
  predicate InAuditState(at: Point) {
    at.Auditing? && (at.candidate > 0 || at.resumed)
  }

  /** Some review request of the run came from an audit that had fallen back or was resumed. */
  ghost predicate Requested(limits: Limits, labels: seq<Label>) {
    && labels != []
    && (|| Requested(limits, Init(labels))
        || (&& Exec(limits, START, Init(labels)).Some? && InAuditState(Exec(limits, START, Init(labels)).value.at)
            && AsksForReview(Last(labels))))
  }

  /** The state recorded at each point of the audit, and whether the history shows a request from `LOGIC_AUDIT`. */
  ghost predicate Trail(s: Sys, requested: bool) {
    && (s.disk.None? ==> s.at.Idle? && !requested)
    && (s.disk.Some? ==>
          var r := s.disk.value;
          && (FROM_AUDIT in r.history <==> requested)
          && (s.at.Auditing? ==> (r.state == LOGIC_AUDIT <==> InAuditState(s.at)))
          && (s.at.Scanning? ==> r.state == SAST_SCAN) && (s.at.Filtering? ==> r.state == SAST_FILTER)
          && (s.at.AuditDiff? ==> r.state == LOGIC_AUDIT))
  }

  lemma MoveTrail(r: Record, to: State)
    ensures FROM_AUDIT in Move(r, to).history <==> FROM_AUDIT in r.history || (r.state == LOGIC_AUDIT && to == HUMAN_REVIEW)
  {
    assert Move(r, to).history == r.history + [Transition(r.state, to)];
  }

  lemma TrailMoves(r: Record)
    ensures forall to :: FROM_AUDIT in Move(r, to).history <==> FROM_AUDIT in r.history || (r.state == LOGIC_AUDIT && to == HUMAN_REVIEW)
  {
    forall to ensures FROM_AUDIT in Move(r, to).history <==> FROM_AUDIT in r.history || (r.state == LOGIC_AUDIT && to == HUMAN_REVIEW) {
      MoveTrail(r, to);
    }
  }

  lemma TrailEarly(r: Record, at: Point, l: Label, requested: bool)
    requires Trail(Sys(Some(r), at), requested) && Work(r, at, l).Some? && (Preparing(at) || Building(at))
    ensures Trail(Work(r, at, l).value, requested)
  {
    TrailMoves(r);
  }

  lemma TrailLate(r: Record, at: Point, l: Label, requested: bool)
    requires Trail(Sys(Some(r), at), requested) && Work(r, at, l).Some? && !Preparing(at) && !Building(at) && !at.Auditing?
    ensures Trail(Work(r, at, l).value, requested)
  {
    TrailMoves(r);
  }

  lemma TrailAudit(r: Record, at: Point, l: Label, requested: bool)
    requires Trail(Sys(Some(r), at), requested) && Work(r, at, l).Some? && at.Auditing?
    ensures Trail(Work(r, at, l).value, requested || (InAuditState(at) && AsksForReview(l)))
  {
    TrailMoves(r);
    TrailMoves(Charge(r, Security));
  }

  lemma TrailStep(limits: Limits, s: Sys, l: Label, requested: bool)
    requires Trail(s, requested) && Next(limits, s, l).Some?
    ensures Trail(Next(limits, s, l).value, requested || (InAuditState(s.at) && AsksForReview(l)))
  {
    if !l.Crash? && !s.at.Idle? && s.disk.Some? {
      if s.at.Auditing? {
        TrailAudit(s.disk.value, s.at, l, requested);
      } else if Preparing(s.at) || Building(s.at) {
        TrailEarly(s.disk.value, s.at, l, requested);
      } else {
        TrailLate(s.disk.value, s.at, l, requested);
      }
    }
  }

  lemma {:induction false} RunsLeaveTrail(limits: Limits, labels: seq<Label>)
    requires Exec(limits, START, labels).Some?
    ensures Trail(Exec(limits, START, labels).value, Requested(limits, labels))
  {
    if labels != [] {
      RunsLeaveTrail(limits, Init(labels));
      TrailStep(limits, Exec(limits, START, Init(labels)).value, Last(labels), Requested(limits, Init(labels)));
    }
  }

  /**
   A suspended record of any run can be resumed iff some review request of that run came from an audit
   that had fallen back to another candidate or was resumed.
   */
  lemma ResumableIff(limits: Limits, labels: seq<Label>, r: Record)
    requires Exec(limits, START, labels).Some? && Exec(limits, START, labels).value.disk == Some(r) && Suspended(r)
    ensures CanResumeAudit(r) <==> Requested(limits, labels)
  {
    RunsLeaveTrail(limits, labels);
  }

  lemma SpecPath(limits: Limits) returns (labels: seq<Label>, r: Record)
    ensures Exec(limits, START, labels) == To(r, LoopHead(false))
    ensures r == Move(Move(Fresh(limits), INIT), SPEC_GATE)
  {
    var r0 := Fresh(limits);
    var r1 := Move(r0, INIT);
    r := Move(r1, SPEC_GATE);
    Do(limits, START, [], START, Run(false), Sys(Some(r0), RunStart(false)));
    DoWork(limits, START, [] + [Run(false)], r0, RunStart(false), Save, r1, SpecStage(false));
    labels := [] + [Run(false)] + [Save];
    DoWork(limits, START, labels, r1, SpecStage(false), Save, r, SpecCheck(false));
    labels := labels + [Save];
    DoWork(limits, START, labels, r, SpecCheck(false), SpecValid(true), r, Worktree(false));
    labels := labels + [SpecValid(true)];
    DoWork(limits, START, labels, r, Worktree(false), WorktreeMade(true), r, LoopHead(false));
    labels := labels + [WorktreeMade(true)];
  }

  lemma BuildPath(limits: Limits, start: seq<Label>, r: Record) returns (labels: seq<Label>, r': Record)
    requires Exec(limits, START, start) == To(r, LoopHead(false)) && WorkerBudget(r)
    ensures Exec(limits, START, labels) == To(r', Auditing(0, false, false))
    ensures r' == Move(Move(Move(CountRun(Move(r, BUILDING)), DIFF_GATE), TESTING), SAST_SCAN)
  {
    var r1 := Move(r, BUILDING);
    var r2 := CountRun(r1);
    var r3 := Move(r2, DIFF_GATE);
    var r4 := Move(r3, TESTING);
    r' := Move(r4, SAST_SCAN);
    DoWork(limits, START, start, r, LoopHead(false), Save, r1, Register(false));
    labels := start + [Save];
    DoWork(limits, START, labels, r1, Register(false), WorkerRun, r2, Working(false));
    labels := labels + [WorkerRun];
    DoWork(limits, START, labels, r2, Working(false), Save, r3, DiffCheck(false));
    labels := labels + [Save];
    DoWork(limits, START, labels, r3, DiffCheck(false), DiffGate(true), r4, Testing(false));
    labels := labels + [DiffGate(true)];
    DoWork(limits, START, labels, r4, Testing(false), Tests(true), r', Scanning(false));
    labels := labels + [Tests(true)];
    DoWork(limits, START, labels, r', Scanning(false), Sast(false), r', Auditing(0, false, false));
    labels := labels + [Sast(false)];
  }

  lemma ReviewPath(limits: Limits, start: seq<Label>, r: Record) returns (labels: seq<Label>)
    requires Exec(limits, START, start) == To(r, Auditing(0, false, false))
    ensures Exec(limits, START, labels) == To(Review(r), Idle)
  {
    var r1 := Move(r, HUMAN_REVIEW);
    var r2 := r1.(status := NEEDS_HUMAN_REVIEW);
    DoWork(limits, START, start, r, Auditing(0, false, false), Audited(Inconclusive, false), r1, Reviewing);
    labels := start + [Audited(Inconclusive, false)];
    DoWork(limits, START, labels, r1, Reviewing, Save, r2, Blocking);
    labels := labels + [Save];
    DoWork(limits, START, labels, r2, Blocking, Save, Review(r), Idle);
    labels := labels + [Save];
  }

  /**
   A first run whose primary auditor is inconclusive suspends in `HUMAN_REVIEW` with the gate recorded
   as `LOGIC_AUDIT`, yet the audit cannot be resumed.
   */
  lemma PrimaryReviewStuck(limits: Limits) returns (labels: seq<Label>, r: Record)
    requires limits.perEpoch > 0 && limits.total > 0
    ensures Exec(limits, START, labels) == To(r, Idle)
    ensures r.state == HUMAN_REVIEW && r.status == NEEDS_HUMAN_REVIEW && r.blockedGate == Some(LOGIC_AUDIT)
    ensures !CanResumeAudit(r)
  {
    var spec, r0 := SpecPath(limits);
    var built, r1 := BuildPath(limits, spec, r0);
    labels := ReviewPath(limits, built, r1);
    r := Review(r1);
    ReviewResumableIff(r1);
  }
}
