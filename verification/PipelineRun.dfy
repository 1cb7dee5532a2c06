/**
 The three entry points of orchestrator.py as programs over a state manager.  Outcomes of gates,
 models and git come from a `World`, those of a build indexed by its cumulative run number.  Given
 the world, `Choice` is the label that happens next and `Go` the system after a number of steps; each
 program is shown to end, exactly where `Go` comes to rest.
 */
module PipelineRun {
  import opened Sequences
  import opened Wrappers
  import opened StateManagers
  import opened Pipeline
  import opened NetworkRetry
  import opened AuditFallback

  /** What the filter says of a finding. */
  datatype Classification = TRUE_POSITIVE | FALSE_POSITIVE | UNCERTAIN_FINDING

  /** A static scan: whether it exits with findings, and the classification of each. */
  datatype Scan = Scan(findings: bool, classes: seq<Classification>)

  datatype World = World(
    specExists: bool, specValid: bool, specValidAgain: bool, worktree: bool,
    diff: nat -> bool, tests: nat -> bool, sast: nat -> Scan,
    audit: nat -> Calls,
    diffComputed: bool, ancestor: bool, merge: bool)

  datatype Setup = Setup(limits: Limits, world: World, candidates: seq<Candidate>, backoff: Backoff)

  /** What happens next to a process at a control point. */
  function ChoiceAt(c: Setup, r: Record, at: Point): Label {
    match at
    case Idle => Crash
    case SpecStage(_) => if c.world.specExists then Save else SpecDesigned
    case SpecCheck(_) => SpecValid(c.world.specValid)
    case SpecRetry(_) => SpecValid(c.world.specValidAgain)
    case Worktree(_) => WorktreeMade(c.world.worktree)
    case Register(_) => if WorkerBudget(r) then WorkerRun else BudgetSpent
    case DiffCheck(_) => DiffGate(c.world.diff(r.total))
    case Testing(_) => Tests(c.world.tests(r.total))
    case Scanning(_) => Sast(c.world.sast(r.total).findings)
    case Filtering(_) => Filtered(TRUE_POSITIVE in c.world.sast(r.total).classes)
    case Auditing(k, _, sim) =>
      if k < |c.candidates| then Audited(ResultOf(c.candidates, c.backoff, c.world.audit(r.total), k), sim) else Crash
    case AuditPassed(resumed) => if resumed then Ancestor(c.world.ancestor) else Save
    case AuditDiff(_) => DiffComputed(c.world.diffComputed)
    case Merging => Merge(c.world.merge)
    case RecoveryMerging => Merge(c.world.merge)
    case Merged => Complete
    case _ => Save
  }

  function Choice(c: Setup, s: Sys): Label {
    if s.disk.None? then Crash else ChoiceAt(c, s.disk.value, s.at)
  }

  /** One step: the chosen label is always possible. */
  function Tick(c: Setup, s: Sys): (t: Sys)
    ensures Next(c.limits, s, Choice(c, s)) == Some(t)
  {
    Next(c.limits, s, Choice(c, s)).value
  }

  function Iterate<T>(f: T -> T, x: T, n: nat): T
    decreases n
  {
    if n == 0 then x else Iterate(f, f(x), n - 1)
  }

  lemma {:induction false} IterateOn<T>(f: T -> T, x: T, n: nat)
    ensures Iterate(f, x, n + 1) == f(Iterate(f, x, n))
    decreases n
  {
    if n > 0 {
      IterateOn(f, f(x), n - 1);
    }
  }

  /** The system after `n` steps; a finished process stays where it is. */
  function Go(c: Setup, s: Sys, n: nat): Sys {
    Iterate((x: Sys) => Tick(c, x), s, n)
  }

  lemma GoOn(c: Setup, s: Sys, n: nat)
    ensures Go(c, s, n + 1) == Tick(c, Go(c, s, n))
  {
    IterateOn((x: Sys) => Tick(c, x), s, n);
  }

  /** The process ends, leaving this record. */
  ghost predicate ComesToRest(c: Setup, s: Sys, r: Record) {
    exists n: nat :: Go(c, s, n) == Sys(Some(r), Idle)
  }

  /** A process that has ended stays where it is. */
  lemma {:induction false} Resting(c: Setup, s: Sys, m: nat, n: nat)
    requires m <= n && Go(c, s, m).at.Idle?
    ensures Go(c, s, n) == Go(c, s, m)
    decreases n - m
  {
    if m < n {
      Resting(c, s, m, n - 1);
      GoOn(c, s, n - 1);
    }
  }

  /** Given the world, where a process ends is determined. */
  lemma RestIsUnique(c: Setup, s: Sys, r: Record, r': Record)
    requires ComesToRest(c, s, r) && ComesToRest(c, s, r')
    ensures r == r'
  {
    var m: nat :| Go(c, s, m) == Sys(Some(r), Idle);
    var n: nat :| Go(c, s, n) == Sys(Some(r'), Idle);
    if m <= n {
      Resting(c, s, m, n);
    } else {
      Resting(c, s, n, m);
    }
  }

  /** What the programs do is a run of the transition system, so every law of runs applies to them. */
  lemma {:induction false} GoIsRun(c: Setup, s: Sys, n: nat) returns (labels: seq<Label>)
    ensures |labels| == n && Exec(c.limits, s, labels) == Some(Go(c, s, n))
  {
    if n == 0 {
      labels := [];
    } else {
      var p := Go(c, s, n - 1);
      var prev := GoIsRun(c, s, n - 1);
      GoOn(c, s, n - 1);
      Do(c.limits, s, prev, p, Choice(c, p), Go(c, s, n));
      labels := prev + [Choice(c, p)];
    }
  }

  /** Processes one after another form one run. */
  lemma {:induction false} RunsCompose(limits: Limits, s: Sys, a: seq<Label>, b: seq<Label>)
    requires Exec(limits, s, a).Some?
    ensures Exec(limits, s, a + b) == Exec(limits, Exec(limits, s, a).value, b)
  {
    if b == [] {
      assert a + b == a;
    } else {
      RunsCompose(limits, s, a, Init(b));
      assert Init(a + b) == a + Init(b) && Last(a + b) == Last(b);
    }
  }

  /** An entry point invoked after any history of the task prolongs that history: the laws of runs hold at its end. */
  lemma InvocationIsRun(c: Setup, before: seq<Label>, s: Sys, entry: Label, launched: Sys, n: nat) returns (labels: seq<Label>)
    requires Exec(c.limits, START, before) == Some(s) && s.at.Idle? && Launch(c.limits, s.disk, entry) == Some(launched)
    ensures |labels| == n && Exec(c.limits, START, before + [entry] + labels) == Some(Go(c, launched, n))
  {
    Do(c.limits, START, before, s, entry, launched);
    labels := GoIsRun(c, launched, n);
    RunsCompose(c.limits, START, before + [entry], labels);
  }

  /** The records a step saves. */
  function SavedBy(c: Setup, s: Sys): seq<Record> {
    if s.at.Idle? || s.disk.None? || ChoiceAt(c, s.disk.value, s.at).Crash? || Silent(s.disk.value, s.at, ChoiceAt(c, s.disk.value, s.at))
      || Tick(c, s).disk.None? then []
    else [Tick(c, s).disk.value]
  }

  /** The records saved in the first `n` steps, in order. */
  function Saved(c: Setup, s: Sys, n: nat): seq<Record>
    decreases n
  {
    if n == 0 then [] else SavedBy(c, s) + Saved(c, Tick(c, s), n - 1)
  }

  lemma {:induction false} SavedOn(c: Setup, s: Sys, n: nat)
    ensures Saved(c, s, n + 1) == Saved(c, s, n) + SavedBy(c, Go(c, s, n))
    decreases n
  {
    if n > 0 {
      SavedOn(c, Tick(c, s), n - 1);
    }
  }

  /** Every record saved is, in order, the disk of some later state of the system. */
  lemma {:induction false} SavesAreStates(c: Setup, s: Sys, n: nat) returns (js: seq<nat>)
    ensures |js| == |Saved(c, s, n)|
    ensures forall k :: 0 <= k < |js| ==> 0 < js[k] <= n && Go(c, s, js[k]).disk == Some(Saved(c, s, n)[k])
    ensures forall i, k :: 0 <= i < k < |js| ==> js[i] < js[k]
  {
    js := [];
    if n > 0 {
      js := SavesAreStates(c, s, n - 1);
      SavedOn(c, s, n - 1);
      GoOn(c, s, n - 1);
      if SavedBy(c, Go(c, s, n - 1)) != [] {
        js := js + [n];
      }
    }
  }

  /** A process stopped right after any of its saves leaves that record at the end of a run, so every law of runs holds of it. */
  lemma CrashAfterSave(c: Setup, before: seq<Label>, s: Sys, entry: Label, launched: Sys, n: nat, k: nat) returns (labels: seq<Label>)
    requires Exec(c.limits, START, before) == Some(s) && s.at.Idle? && Launch(c.limits, s.disk, entry) == Some(launched)
    requires k < |Saved(c, launched, n)|
    ensures Exec(c.limits, START, before + [entry] + labels + [Crash]) == Some(Sys(Some(Saved(c, launched, n)[k]), Idle))
  {
    var js := SavesAreStates(c, launched, n);
    labels := InvocationIsRun(c, before, s, entry, launched, js[k]);
    var all := before + [entry] + labels;
    Do(c.limits, START, all, Go(c, launched, js[k]), Crash, Sys(Go(c, launched, js[k]).disk, Idle));
  }

  /** The process ends, leaving this record, after saving these records in this order. */
  ghost predicate RestsAfter(c: Setup, s: Sys, first: seq<Record>, r: Record, saves: seq<Record>) {
    exists n: nat :: Go(c, s, n) == Sys(Some(r), Idle) && saves == first + Saved(c, s, n)
  }

  /** Where a process started, and what it had saved by then. */
  datatype Origin = Origin(sys: Sys, saved: seq<Record>)

  function Saves(c: Setup, g: Origin, n: nat): seq<Record> {
    g.saved + Saved(c, g.sys, n)
  }

  ghost predicate Reached(c: Setup, g: Origin, n: nat, r: Record, at: Point) {
    Go(c, g.sys, n) == Sys(Some(r), at)
  }

  /** A state manager stands where the system does after `n` steps, and has saved exactly what the system saved. */
  ghost predicate Stands(c: Setup, g: Origin, n: nat, r: Record, saves: seq<Record>, at: Point) {
    Reached(c, g, n, r, at) && saves == Saves(c, g, n)
  }

  lemma Follow(c: Setup, g: Origin, n: nat, r: Record, at: Point, r': Record, at': Point)
    requires Reached(c, g, n, r, at) && !at.Idle? && !ChoiceAt(c, r, at).Crash?
    requires Work(r, at, ChoiceAt(c, r, at)) == To(r', at')
    ensures Reached(c, g, n + 1, r', at')
    ensures Saves(c, g, n + 1) == if Silent(r, at, ChoiceAt(c, r, at)) then Saves(c, g, n) else Saves(c, g, n) + [r']
  {
    GoOn(c, g.sys, n);
    SavedOn(c, g.sys, n);
    assert g.saved + (Saved(c, g.sys, n) + SavedBy(c, Go(c, g.sys, n))) == Saves(c, g, n) + SavedBy(c, Go(c, g.sys, n));
  }

  /** The saves that follow a halt, a review request or a charged replan. */
  function AfterSaves(r: Record, at: Point): (Record, Point)
    requires at.Halting? || at.Reviewing? || at.Replanning?
  {
    match at
    case Halting => (r.(status := FAILED), Idle)
    case Reviewing => (r.(status := NEEDS_HUMAN_REVIEW, blockedGate := Some(LOGIC_AUDIT)), Idle)
    case Replanning(k, resumed, sim) =>
      if WithinReplans(r, k) then (NewEpoch(r), if resumed then Idle else LoopHead(sim)) else (Halt(r), Idle)
  }

  function AfterSaved(r: Record, at: Point): seq<Record>
    requires at.Halting? || at.Reviewing? || at.Replanning?
  {
    match at
    case Halting => [r.(status := FAILED)]
    case Reviewing => [r.(status := NEEDS_HUMAN_REVIEW)] + [r.(status := NEEDS_HUMAN_REVIEW, blockedGate := Some(LOGIC_AUDIT))]
    case Replanning(k, resumed, sim) => if WithinReplans(r, k) then [NewEpoch(r)] else [Move(r, HALT_HUMAN)] + [Halt(r)]
  }

  lemma Aftermath(c: Setup, g: Origin, n: nat, r: Record, at: Point) returns (m: nat)
    requires Reached(c, g, n, r, at) && (at.Halting? || at.Reviewing? || at.Replanning?)
    ensures Reached(c, g, m, AfterSaves(r, at).0, AfterSaves(r, at).1)
    ensures Saves(c, g, m) == Saves(c, g, n) + AfterSaved(r, at)
  {
    var next := Work(r, at, Save).value;
    Follow(c, g, n, r, at, next.disk.value, next.at);
    m := n + 1;
    if next.at.Halting? || next.at.Blocking? {
      var last := Work(next.disk.value, next.at, Save).value;
      Follow(c, g, m, next.disk.value, next.at, last.disk.value, last.at);
      m := m + 1;
    }
  }

  // ---------- What the world says of a build ----------

  /** The build with this number passed the diff gate and the tests, and no finding was confirmed. */
  predicate GatesClear(w: World, t: nat) {
    w.diff(t) && w.tests(t) && !(w.sast(t).findings && TRUE_POSITIVE in w.sast(t).classes)
  }

  /** Its audit was decided by a supported candidate that returned PASS, or SIMULATED in a simulated run. */
  ghost predicate AuditClears(c: Setup, t: nat, sim: bool) {
    exists d :: Clears(c.candidates, c.backoff, c.world.audit(t), sim, d)
  }

  /** Its audit was decided by a supported candidate that returned FAIL. */
  ghost predicate AuditFails(c: Setup, t: nat) {
    exists d :: Fails(c.candidates, c.backoff, c.world.audit(t), d)
  }

  ghost predicate BuildClears(c: Setup, t: nat, sim: bool) {
    GatesClear(c.world, t) && AuditClears(c, t, sim)
  }

  predicate SpecClears(c: Setup, r: Record) {
    c.world.specValid || (c.world.specValidAgain && r.specUsed < r.limits.spec)
  }

  /** Nothing here writes `COMPLETED`. */
  predicate NotCompleted(r: Record, r': Record) {
    r'.status == COMPLETED ==> r.status == COMPLETED
  }

  // ---------- The audit ----------

  /** Where control goes: on to the merge, back to the build loop, or out of the process. */
  function Destination(v: Verdict, resumed: bool, sim: bool): Point {
    match v
    case Passed => AuditPassed(resumed)
    case Replanned => if resumed then Idle else LoopHead(sim)
    case Stopped => Idle
  }

  /** An unfavourable result is one save and its aftermath. */
  lemma SettleParts(r: Record, o: AuditResult, k: nat, resumed: bool, sim: bool)
    requires o != Unavailable(true) && !Passes(o, sim)
    ensures AuditStep(r, o, k, resumed, sim).Some?
    ensures var next := AuditStep(r, o, k, resumed, sim).value;
            && next.disk.Some? && (next.at.Halting? || next.at.Reviewing? || next.at.Replanning?)
            && SettleSaves(r, o, sim) == [next.disk.value] + AfterSaved(next.disk.value, next.at)
            && AfterSaves(next.disk.value, next.at) == (Settle(r, o, sim), Destination(VerdictOf(r, o, sim), resumed, sim))
  {
  }

  lemma ActOn(c: Setup, g: Origin, n: nat, r: Record, k: nat, resumed: bool, sim: bool) returns (m: nat)
    requires k < |c.candidates| && Reached(c, g, n, r, Auditing(k, resumed, sim))
    requires ResultOf(c.candidates, c.backoff, c.world.audit(r.total), k) != Unavailable(true)
    ensures var o := ResultOf(c.candidates, c.backoff, c.world.audit(r.total), k);
            && Reached(c, g, m, Settle(r, o, sim), Destination(VerdictOf(r, o, sim), resumed, sim))
            && Saves(c, g, m) == Saves(c, g, n) + SettleSaves(r, o, sim)
  {
    var o := ResultOf(c.candidates, c.backoff, c.world.audit(r.total), k);
    var next := AuditStep(r, o, k, resumed, sim).value;
    Follow(c, g, n, r, Auditing(k, resumed, sim), next.disk.value, next.at);
    m := n + 1;
    if !Passes(o, sim) {
      SettleParts(r, o, k, resumed, sim);
      assert Saves(c, g, n) + [next.disk.value] + AfterSaved(next.disk.value, next.at)
          == Saves(c, g, n) + ([next.disk.value] + AfterSaved(next.disk.value, next.at));
      m := Aftermath(c, g, m, next.disk.value, next.at);
    }
  }

  /** An unavailable candidate with a successor: one `LOGIC_AUDIT` transition, then the next is asked. */
  lemma FallBack(c: Setup, g: Origin, n: nat, r: Record, k: nat, resumed: bool, sim: bool)
    requires k < |c.candidates| && Reached(c, g, n, r, Auditing(k, resumed, sim))
    requires ResultOf(c.candidates, c.backoff, c.world.audit(r.total), k) == Unavailable(true)
    ensures k + 1 < |c.candidates|
    ensures var calls := c.world.audit(r.total);
            Decider(c.candidates, c.backoff, calls, k) == Decider(c.candidates, c.backoff, calls, k + 1)
    ensures Reached(c, g, n + 1, Move(r, LOGIC_AUDIT), Auditing(k + 1, resumed, sim))
    ensures Saves(c, g, n + 1) == Saves(c, g, n) + [Move(r, LOGIC_AUDIT)]
  {
    Follow(c, g, n, r, Auditing(k, resumed, sim), Move(r, LOGIC_AUDIT), Auditing(k + 1, resumed, sim));
  }

  /** One more candidate: what it costs, and that it decides unless it passes the question on. */
  method AskNext(c: Setup, calls: Calls, k: nat, attempts: seq<nat>, sleeps: seq<seq<real>>)
    returns (o: AuditResult, attempts': seq<nat>, sleeps': seq<seq<real>>)
    requires k < |c.candidates| && AllEconomical(c.backoff, attempts, sleeps)
    ensures o == ResultOf(c.candidates, c.backoff, calls, k)
    ensures o != Unavailable(true) ==> Decider(c.candidates, c.backoff, calls, k) == k
    ensures |attempts'| == |attempts| + 1 && AllEconomical(c.backoff, attempts', sleeps')
  {
    var tries, pauses;
    o, tries, pauses := Ask(c.candidates, c.backoff, calls, k);
    attempts', sleeps' := attempts + [tries], sleeps + [pauses];
  }

  /** The candidate loop: exactly the candidates up to the decider are asked, each economically. */
  method Consult(sm: StateManager, c: Setup, sim: bool, resumed: bool, ghost g: Origin, ghost start: nat)
    returns (k: nat, o: AuditResult, attempts: seq<nat>, sleeps: seq<seq<real>>, ghost n: nat)
    requires c.candidates != [] && Stands(c, g, start, sm.data, sm.saves, Auditing(0, resumed, sim))
    modifies sm
    ensures var calls := c.world.audit(old(sm.data).total);
            && k == Decider(c.candidates, c.backoff, calls, 0)
            && o == ResultOf(c.candidates, c.backoff, calls, k) != Unavailable(true)
    ensures sm.data == FellBack(old(sm.data), k) && sm.data.total == old(sm.data.total)
    ensures |attempts| == k + 1 && AllEconomical(c.backoff, attempts, sleeps)
    ensures Stands(c, g, n, sm.data, sm.saves, Auditing(k, resumed, sim))
  {
    k, n := 0, start;
    var calls := c.world.audit(sm.data.total);
    o, attempts, sleeps := AskNext(c, calls, k, [], []);
    while o == Unavailable(true)
      invariant k < |c.candidates| && o == ResultOf(c.candidates, c.backoff, calls, k)
      invariant o != Unavailable(true) ==> Decider(c.candidates, c.backoff, calls, k) == k
      invariant Decider(c.candidates, c.backoff, calls, 0) == Decider(c.candidates, c.backoff, calls, k)
      invariant sm.data == FellBack(old(sm.data), k) && sm.data.total == old(sm.data.total)
      invariant |attempts| == k + 1 && AllEconomical(c.backoff, attempts, sleeps)
      invariant Stands(c, g, n, sm.data, sm.saves, Auditing(k, resumed, sim))
      decreases |c.candidates| - k
    {
      FallBack(c, g, n, sm.data, k, resumed, sim);
      sm.DoTransition(LOGIC_AUDIT);
      k, n := k + 1, n + 1;
      o, attempts, sleeps := AskNext(c, calls, k, attempts, sleeps);
    }
  }

  /**
   `execute_logic_security_audit`.  Exactly the candidates up to the decider are asked, each
   economically; record and verdict depend only on the decider's result.
   */
  method ExecuteAudit(sm: StateManager, c: Setup, sim: bool, resumed: bool, ghost g: Origin, ghost start: nat)
    returns (v: Verdict, attempts: seq<nat>, sleeps: seq<seq<real>>, ghost n: nat)
    requires c.candidates != [] && Stands(c, g, start, sm.data, sm.saves, Auditing(0, resumed, sim))
    modifies sm
    ensures var calls := c.world.audit(old(sm.data).total);
            var d := Decider(c.candidates, c.backoff, calls, 0);
            var r, o := FellBack(old(sm.data), d), ResultOf(c.candidates, c.backoff, calls, d);
            && |attempts| == d + 1
            && sm.data == Settle(r, o, sim) && v == VerdictOf(r, o, sim)
    ensures var calls, d := c.world.audit(old(sm.data).total), |attempts| - 1;
            && Decides(c.candidates, c.backoff, calls, d)
            && AuditLaw(c.candidates, c.backoff, calls, sim, d, old(sm.data), sm.data, v)
    ensures (v == Passed <==> AuditClears(c, old(sm.data.total), sim)) && NotCompleted(old(sm.data), sm.data)
    ensures v == Replanned <==> AuditFails(c, old(sm.data.total)) && old(sm.data.securityUsed) < old(sm.data.limits.security)
    ensures AllEconomical(c.backoff, attempts, sleeps)
    ensures Stands(c, g, n, sm.data, sm.saves, Destination(v, resumed, sim))
    ensures sm.data.total == old(sm.data.total) && sm.data.limits == old(sm.data.limits)
  {
    var k, o;
    k, o, attempts, sleeps, n := Consult(sm, c, sim, resumed, g, start);
    n := ActOn(c, g, n, sm.data, k, resumed, sim);
    v := VerdictOf(sm.data, o, sim);
    OnlyFailCosts(old(sm.data), k, o, sim);
    AuditLawOf(c, sim, old(sm.data), k, o, v);
    FailureOf(c, sim, old(sm.data), k, Settle(sm.data, o, sim), v);
    SettleRecord(sm, o, sim);
  }

  lemma FailureOf(c: Setup, sim: bool, r: Record, d: nat, r': Record, v: Verdict)
    requires Decides(c.candidates, c.backoff, c.world.audit(r.total), d)
    requires AuditLaw(c.candidates, c.backoff, c.world.audit(r.total), sim, d, r, r', v)
    ensures v == Replanned <==> AuditFails(c, r.total) && r.securityUsed < r.limits.security
  {
    var calls := c.world.audit(r.total);
    forall e | Fails(c.candidates, c.backoff, calls, e) ensures e == d {
      DecidesOnce(c.candidates, c.backoff, calls, d, e);
    }
    assert v == Replanned ==> Fails(c.candidates, c.backoff, calls, d);
  }

  lemma AuditLawOf(c: Setup, sim: bool, r: Record, d: nat, o: AuditResult, v: Verdict)
    requires c.candidates != []
    requires var calls := c.world.audit(r.total);
             && d == Decider(c.candidates, c.backoff, calls, 0) && o == ResultOf(c.candidates, c.backoff, calls, d) != Unavailable(true)
    requires v == VerdictOf(FellBack(r, d), o, sim)
    ensures Decides(c.candidates, c.backoff, c.world.audit(r.total), d)
    ensures AuditLaw(c.candidates, c.backoff, c.world.audit(r.total), sim, d, r, Settle(FellBack(r, d), o, sim), v)
    ensures (v == Passed <==> AuditClears(c, r.total, sim)) && NotCompleted(r, Settle(FellBack(r, d), o, sim))
  {
    var calls := c.world.audit(r.total);
    DeciderDecides(c.candidates, c.backoff, calls, 0);
    AuditObeysLaw(c.candidates, c.backoff, calls, sim, d, r);
    FallbacksKeepBudgets(r, d);
    forall e | Clears(c.candidates, c.backoff, calls, sim, e) ensures e == d {
      DecidesOnce(c.candidates, c.backoff, calls, d, e);
    }
    assert v == Passed <==> Clears(c.candidates, c.backoff, calls, sim, d);
  }

  // ---------- The build loop ----------

  /** Charge a replan and open the next epoch, or halt. */
  method SpendReplan(sm: StateManager, c: Setup, k: Replan, sim: bool, at: Point, ghost g: Origin, ghost start: nat)
    returns (ok: bool, ghost n: nat)
    requires Stands(c, g, start, sm.data, sm.saves, at) && !at.Idle? && !ChoiceAt(c, sm.data, at).Crash?
    requires Work(sm.data, at, ChoiceAt(c, sm.data, at)) == To(Charge(sm.data, k), Replanning(k, false, sim))
    modifies sm
    ensures Stands(c, g, n, sm.data, sm.saves, if ok then LoopHead(sim) else Idle)
    ensures ReplanCharged(old(sm.data), sm.data, k, ok)
  {
    Follow(c, g, start, sm.data, at, Charge(sm.data, k), Replanning(k, false, sim));
    n := Aftermath(c, g, start + 1, Charge(sm.data, k), Replanning(k, false, sim));
    ok := sm.ConsumeReplan(k);
  }

  /** A rejected build is tried again in its epoch while attempts remain; otherwise it costs a logic replan. */
  predicate Retried(r: Record, r': Record, again: bool) {
    if r.attempts < r.limits.perEpoch then again && r' == r else ReplanCharged(r, r', Logic, again)
  }

  /** The branch taken when the diff gate or the tests reject a build. */
  method RetryBuild(sm: StateManager, c: Setup, sim: bool, at: Point, ghost g: Origin, ghost start: nat)
    returns (again: bool, ghost n: nat)
    requires Stands(c, g, start, sm.data, sm.saves, at) && !at.Idle? && !ChoiceAt(c, sm.data, at).Crash?
    requires Work(sm.data, at, ChoiceAt(c, sm.data, at)) == RetryOrReplan(sm.data, sim)
    modifies sm
    ensures Stands(c, g, n, sm.data, sm.saves, if again then LoopHead(sim) else Idle)
    ensures Retried(old(sm.data), sm.data, again)
  {
    var retry := sm.CanWorkerRetryInEpoch();
    if retry {
      Follow(c, g, start, sm.data, at, sm.data, LoopHead(sim));
      return true, start + 1;
    }
    again, n := SpendReplan(sm, c, Logic, sim, at, g, start);
  }

  datatype Turn = Again | Ready | Ended

  function TurnPoint(t: Turn, sim: bool): Point {
    match t
    case Again => LoopHead(sim)
    case Ready => AuditPassed(false)
    case Ended => Idle
  }

  /** Register the run, or halt when a worker budget is spent. */
  method RegisterRun(sm: StateManager, c: Setup, sim: bool, ghost g: Origin, ghost start: nat)
    returns (ok: bool, ghost n: nat)
    requires Stands(c, g, start, sm.data, sm.saves, Register(sim))
    modifies sm
    ensures Stands(c, g, n, sm.data, sm.saves, if ok then Working(sim) else Idle)
    ensures ok <==> old(sm.data.attempts) < old(sm.data.limits.perEpoch) && old(sm.data.total) < old(sm.data.limits.total)
    ensures ok ==> sm.data == old(sm.data).(total := old(sm.data.total) + 1, attempts := old(sm.data.attempts) + 1)
    ensures !ok ==> Halted(sm.data) && SameBudgets(old(sm.data), sm.data)
  {
    ghost var r := sm.data;
    ok := sm.RegisterWorkerRun();
    if !ok {
      Follow(c, g, start, r, Register(sim), Move(r, HALT_HUMAN), Halting);
      n := Aftermath(c, g, start + 1, Move(r, HALT_HUMAN), Halting);
      return;
    }
    Follow(c, g, start, r, Register(sim), sm.data, Working(sim));
    n := start + 1;
  }

  /** Register and run the worker. */
  method RunWorker(sm: StateManager, c: Setup, sim: bool, ghost g: Origin, ghost start: nat)
    returns (ok: bool, ghost n: nat)
    requires Stands(c, g, start, sm.data, sm.saves, LoopHead(sim))
    modifies sm
    ensures Stands(c, g, n, sm.data, sm.saves, if ok then DiffCheck(sim) else Idle)
    ensures ok <==> old(sm.data.attempts) < old(sm.data.limits.perEpoch) && old(sm.data.total) < old(sm.data.limits.total)
    ensures sm.data.total == old(sm.data.total) + (if ok then 1 else 0) && sm.data.limits == old(sm.data.limits)
    ensures if ok then sm.data.attempts == old(sm.data.attempts) + 1 && sm.data.status == old(sm.data.status) else Halted(sm.data)
  {
    Follow(c, g, start, sm.data, LoopHead(sim), Move(sm.data, BUILDING), Register(sim));
    sm.DoTransition(BUILDING);
    ok, n := RegisterRun(sm, c, sim, g, start + 1);
    if ok {
      Follow(c, g, n, sm.data, Working(sim), Move(sm.data, DIFF_GATE), DiffCheck(sim));
      sm.DoTransition(DIFF_GATE);
      n := n + 1;
    }
  }

  /** What a gate that rejects the build costs: a true positive a security replan, anything else a retry or a logic replan. */
  predicate RejectionCosts(w: World, r: Record, r': Record, t: Turn) {
    && r'.total == r.total && r'.limits == r.limits && (t == Ended ==> Halted(r')) && NotCompleted(r, r')
    && if w.diff(r.total) && w.tests(r.total)
       then r'.securityUsed == r.securityUsed + 1 && r'.logicUsed == r.logicUsed && (t == Again <==> r.securityUsed < r.limits.security)
       else && r'.securityUsed == r.securityUsed
            && r'.logicUsed == r.logicUsed + (if r.attempts < r.limits.perEpoch then 0 else 1)
            && (t == Again <==> r.attempts < r.limits.perEpoch || r.logicUsed < r.limits.logic)
  }

  /** Tests and finding filter. */
  method RunTests(sm: StateManager, c: Setup, sim: bool, ghost g: Origin, ghost start: nat)
    returns (t: Turn, ghost n: nat)
    requires Stands(c, g, start, sm.data, sm.saves, Testing(sim)) && c.world.diff(sm.data.total)
    modifies sm
    ensures Stands(c, g, n, sm.data, sm.saves, if t == Ready then Auditing(0, false, sim) else TurnPoint(t, sim))
    ensures t == Ready <==> GatesClear(c.world, old(sm.data.total))
    ensures t == Ready ==> SameBudgets(old(sm.data), sm.data) && sm.data.status == old(sm.data.status)
    ensures t != Ready ==> RejectionCosts(c.world, old(sm.data), sm.data, t)
  {
    if !c.world.tests(sm.data.total) {
      Follow(c, g, start, sm.data, Testing(sim), Move(sm.data, TRIAGING), Triage(sim));
      sm.DoTransition(TRIAGING);
      var again;
      again, n := RetryBuild(sm, c, sim, Triage(sim), g, start + 1);
      return if again then Again else Ended, n;
    }
    Follow(c, g, start, sm.data, Testing(sim), Move(sm.data, SAST_SCAN), Scanning(sim));
    sm.DoTransition(SAST_SCAN);
    t, n := RunScan(sm, c, sim, g, start + 1);
  }

  /** Diff gate, tests and finding filter; `Ready` means the build goes to the audit. */
  method RunGates(sm: StateManager, c: Setup, sim: bool, ghost g: Origin, ghost start: nat)
    returns (t: Turn, ghost n: nat)
    requires Stands(c, g, start, sm.data, sm.saves, DiffCheck(sim))
    modifies sm
    ensures Stands(c, g, n, sm.data, sm.saves, if t == Ready then Auditing(0, false, sim) else TurnPoint(t, sim))
    ensures t == Ready <==> GatesClear(c.world, old(sm.data.total))
    ensures t == Ready ==> SameBudgets(old(sm.data), sm.data) && sm.data.status == old(sm.data.status)
    ensures t != Ready ==> RejectionCosts(c.world, old(sm.data), sm.data, t)
  {
    if !c.world.diff(sm.data.total) {
      var again;
      again, n := RetryBuild(sm, c, sim, DiffCheck(sim), g, start);
      return if again then Again else Ended, n;
    }
    Follow(c, g, start, sm.data, DiffCheck(sim), Move(sm.data, TESTING), Testing(sim));
    sm.DoTransition(TESTING);
    t, n := RunTests(sm, c, sim, g, start + 1);
  }

  /** Findings are filtered one by one up to the first true positive. */
  method FilterFindings(classes: seq<Classification>) returns (confirmed: bool, asked: nat)
    ensures confirmed <==> TRUE_POSITIVE in classes
    ensures if confirmed then 0 < asked <= |classes| && classes[asked - 1] == TRUE_POSITIVE && TRUE_POSITIVE !in classes[..asked - 1]
            else asked == |classes|
  {
    asked := 0;
    while asked < |classes|
      invariant asked <= |classes| && TRUE_POSITIVE !in classes[..asked]
    {
      asked := asked + 1;
      if classes[asked - 1] == TRUE_POSITIVE {
        return true, asked;
      }
    }
    assert classes[..asked] == classes;
    confirmed := false;
  }

  /** How the static scan leaves the record: untouched budgets, or one security replan. */
  predicate ScanCosts(r: Record, r': Record, t: Turn) {
    && (t == Ready ==> SameBudgets(r, r') && r'.status == r.status)
    && (t != Ready ==>
          && r'.securityUsed == r.securityUsed + 1 && r'.logicUsed == r.logicUsed && r'.total == r.total && r'.limits == r.limits
          && (t == Again <==> r.securityUsed < r.limits.security) && (t == Ended ==> Halted(r')) && NotCompleted(r, r'))
  }

  /** The filter over the findings. */
  method RunFilter(sm: StateManager, c: Setup, sim: bool, ghost g: Origin, ghost start: nat)
    returns (t: Turn, ghost n: nat)
    requires Stands(c, g, start, sm.data, sm.saves, Filtering(sim))
    modifies sm
    ensures Stands(c, g, n, sm.data, sm.saves, if t == Ready then Auditing(0, false, sim) else TurnPoint(t, sim))
    ensures t == Ready <==> TRUE_POSITIVE !in c.world.sast(old(sm.data.total)).classes
    ensures ScanCosts(old(sm.data), sm.data, t)
  {
    var confirmed, asked := FilterFindings(c.world.sast(sm.data.total).classes);
    if confirmed {
      var ok;
      ok, n := SpendReplan(sm, c, Security, sim, Filtering(sim), g, start);
      return if ok then Again else Ended, n;
    }
    Follow(c, g, start, sm.data, Filtering(sim), sm.data, Auditing(0, false, sim));
    t, n := Ready, start + 1;
  }

  method RunScan(sm: StateManager, c: Setup, sim: bool, ghost g: Origin, ghost start: nat)
    returns (t: Turn, ghost n: nat)
    requires Stands(c, g, start, sm.data, sm.saves, Scanning(sim))
    modifies sm
    ensures Stands(c, g, n, sm.data, sm.saves, if t == Ready then Auditing(0, false, sim) else TurnPoint(t, sim))
    ensures var scan := c.world.sast(old(sm.data.total)); t == Ready <==> !(scan.findings && TRUE_POSITIVE in scan.classes)
    ensures ScanCosts(old(sm.data), sm.data, t)
  {
    if !c.world.sast(sm.data.total).findings {
      Follow(c, g, start, sm.data, Scanning(sim), sm.data, Auditing(0, false, sim));
      return Ready, start + 1;
    }
    Follow(c, g, start, sm.data, Scanning(sim), Move(sm.data, SAST_FILTER), Filtering(sim));
    sm.DoTransition(SAST_FILTER);
    t, n := RunFilter(sm, c, sim, g, start + 1);
  }

  /** The next build is within budget and clears every gate and the audit. */
  ghost predicate FirstBuildClears(c: Setup, r: Record, sim: bool) {
    r.attempts < r.limits.perEpoch && r.total < r.limits.total && BuildClears(c, r.total + 1, sim)
  }

  lemma FirstBuildSame(c: Setup, r: Record, r': Record, sim: bool)
    requires r.total == r'.total && r.attempts == r'.attempts && r.limits == r'.limits
    ensures FirstBuildClears(c, r, sim) == FirstBuildClears(c, r', sim)
  {
  }

  /** The audit of a build that cleared the gates. */
  method AuditBuild(sm: StateManager, c: Setup, sim: bool, ghost g: Origin, ghost start: nat) returns (t: Turn, ghost n: nat)
    requires c.candidates != [] && Stands(c, g, start, sm.data, sm.saves, Auditing(0, false, sim))
    modifies sm
    ensures Stands(c, g, n, sm.data, sm.saves, TurnPoint(t, sim))
    ensures t == Ready <==> AuditClears(c, old(sm.data.total), sim)
    ensures t == Again <==> AuditFails(c, old(sm.data.total)) && old(sm.data.securityUsed) < old(sm.data.limits.security)
    ensures sm.data.total == old(sm.data.total) && sm.data.limits == old(sm.data.limits) && NotCompleted(old(sm.data), sm.data)
  {
    var v, attempts, sleeps;
    v, attempts, sleeps, n := ExecuteAudit(sm, c, sim, false, g, start);
    t := if v == Passed then Ready else if v == Replanned then Again else Ended;
  }

  /** The gates and, for a build that clears them, the audit. */
  method JudgeBuild(sm: StateManager, c: Setup, sim: bool, ghost g: Origin, ghost start: nat) returns (t: Turn, ghost n: nat)
    requires c.candidates != [] && Stands(c, g, start, sm.data, sm.saves, DiffCheck(sim))
    modifies sm
    ensures Stands(c, g, n, sm.data, sm.saves, TurnPoint(t, sim))
    ensures t == Ready <==> BuildClears(c, old(sm.data.total), sim)
    ensures sm.data.total == old(sm.data.total) && sm.data.limits == old(sm.data.limits) && NotCompleted(old(sm.data), sm.data)
  {
    t, n := RunGates(sm, c, sim, g, start);
    if t == Ready {
      t, n := AuditBuild(sm, c, sim, g, n);
    }
  }

  /** One turn of the build loop: a worker run, the gates and the audit. */
  method BuildTurn(sm: StateManager, c: Setup, sim: bool, ghost g: Origin, ghost start: nat) returns (t: Turn, ghost n: nat)
    requires c.candidates != [] && Stands(c, g, start, sm.data, sm.saves, LoopHead(sim))
    modifies sm
    ensures Stands(c, g, n, sm.data, sm.saves, TurnPoint(t, sim))
    ensures t == Ready <==> FirstBuildClears(c, old(sm.data), sim)
    ensures sm.data.limits == old(sm.data.limits) && NotCompleted(old(sm.data), sm.data)
    ensures t != Ended ==> old(sm.data.total) < sm.data.limits.total && sm.data.total == old(sm.data.total) + 1
  {
    var ok;
    ok, n := RunWorker(sm, c, sim, g, start);
    if !ok {
      return Ended, n;
    }
    t, n := JudgeBuild(sm, c, sim, g, n);
  }

  /** The build loop: it ends because every turn spends one of the remaining worker runs. */
  method BuildLoop(sm: StateManager, c: Setup, sim: bool, ghost g: Origin, ghost start: nat)
    returns (passed: bool, ghost n: nat)
    requires c.candidates != [] && Stands(c, g, start, sm.data, sm.saves, LoopHead(sim))
    modifies sm
    ensures Stands(c, g, n, sm.data, sm.saves, if passed then AuditPassed(false) else Idle)
    ensures passed ==> BuildClears(c, sm.data.total, sim) && sm.data.total > old(sm.data.total)
    ensures NotCompleted(old(sm.data), sm.data)
    ensures FirstBuildClears(c, old(sm.data), sim) ==> passed && sm.data.total == old(sm.data.total) + 1
  {
    ghost var total, atOnce := sm.data.total, FirstBuildClears(c, sm.data, sim);
    var t;
    t, n := BuildTurn(sm, c, sim, g, start);
    while t == Again
      invariant Stands(c, g, n, sm.data, sm.saves, TurnPoint(t, sim)) && NotCompleted(old(sm.data), sm.data)
      invariant t == Ready ==> BuildClears(c, sm.data.total, sim)
      invariant t != Ended ==> sm.data.total > total
      invariant atOnce ==> t == Ready && sm.data.total == total + 1
      decreases t == Again, sm.data.limits.total - sm.data.total
    {
      t, n := BuildTurn(sm, c, sim, g, n);
    }
    passed := t == Ready;
  }

  // ---------- The entry points ----------

  /** Halt where the system halts. */
  method HaltRun(sm: StateManager, c: Setup, ghost at: Point, ghost g: Origin, ghost start: nat) returns (ghost n: nat)
    requires Stands(c, g, start, sm.data, sm.saves, at) && !at.Idle? && !ChoiceAt(c, sm.data, at).Crash?
    requires Work(sm.data, at, ChoiceAt(c, sm.data, at)) == To(Move(sm.data, HALT_HUMAN), Halting) && !Silent(sm.data, at, ChoiceAt(c, sm.data, at))
    modifies sm
    ensures Stands(c, g, n, sm.data, sm.saves, Idle) && Halted(sm.data) && sm.data == Halt(old(sm.data))
  {
    Follow(c, g, start, sm.data, at, Move(sm.data, HALT_HUMAN), Halting);
    n := Aftermath(c, g, start + 1, Move(sm.data, HALT_HUMAN), Halting);
    sm.HaltHuman();
  }

  /** The last save of a merged task. */
  method MarkCompleted(sm: StateManager, c: Setup, ghost g: Origin, ghost start: nat)
    requires Stands(c, g, start, sm.data, sm.saves, Merged)
    modifies sm
    ensures Stands(c, g, start + 1, sm.data, sm.saves, Idle) && sm.data == old(sm.data).(status := COMPLETED)
  {
    Follow(c, g, start, sm.data, Merged, sm.data.(status := COMPLETED), Idle);
    sm.SetStatus(COMPLETED);
  }

  /** Merge from `AUTO_MERGE`: complete, or halt for recovery. */
  method MergeAndComplete(sm: StateManager, c: Setup, ghost g: Origin, ghost start: nat)
    returns (ok: bool, ghost n: nat)
    requires Stands(c, g, start, sm.data, sm.saves, Merging)
    modifies sm
    ensures Stands(c, g, n, sm.data, sm.saves, Idle)
    ensures ok == c.world.merge
    ensures ok ==> sm.data == old(sm.data).(status := COMPLETED)
    ensures !ok ==> Halted(sm.data) && CanResumeMerge(sm.data) == (old(sm.data.state) == AUTO_MERGE) && sm.data == Halt(old(sm.data))
  {
    if !c.world.merge {
      n := HaltRun(sm, c, Merging, g, start);
      return false, n;
    }
    Follow(c, g, start, sm.data, Merging, sm.data, Merged);
    MarkCompleted(sm, c, g, start + 1);
    ok, n := true, start + 2;
  }

  /** The specification gate and the worktree. */
  method Prepare(sm: StateManager, c: Setup, sim: bool, ghost g: Origin, ghost start: nat)
    returns (ok: bool, ghost n: nat)
    requires Stands(c, g, start, sm.data, sm.saves, SpecCheck(sim))
    modifies sm
    ensures Stands(c, g, n, sm.data, sm.saves, if ok then Worktree(sim) else Idle)
    ensures ok <==> SpecClears(c, old(sm.data))
    ensures ok ==> sm.data == old(sm.data).(specUsed := old(sm.data.specUsed) + (if c.world.specValid then 0 else 1))
    ensures !ok ==> Halted(sm.data)
  {
    if c.world.specValid {
      Follow(c, g, start, sm.data, SpecCheck(sim), sm.data, Worktree(sim));
      return true, start + 1;
    }
    ghost var r := sm.data.(specUsed := sm.data.specUsed + 1);
    Follow(c, g, start, sm.data, SpecCheck(sim), r, SpecRetry(sim));
    ok := sm.ConsumeSpecSyntaxRetry();
    if ok && c.world.specValidAgain {
      Follow(c, g, start + 1, r, SpecRetry(sim), r, Worktree(sim));
      return true, start + 2;
    }
    Follow(c, g, start + 1, r, SpecRetry(sim), Move(r, HALT_HUMAN), Halting);
    n := Aftermath(c, g, start + 2, Move(r, HALT_HUMAN), Halting);
    if ok {
      sm.HaltHuman();
      ok := false;
    }
  }

  method MakeWorktree(sm: StateManager, c: Setup, sim: bool, ghost g: Origin, ghost start: nat)
    returns (ok: bool, ghost n: nat)
    requires Stands(c, g, start, sm.data, sm.saves, Worktree(sim))
    modifies sm
    ensures Stands(c, g, n, sm.data, sm.saves, if ok then LoopHead(sim) else Idle)
    ensures ok == c.world.worktree && (if ok then sm.data == old(sm.data) else Halted(sm.data))
  {
    if c.world.worktree {
      Follow(c, g, start, sm.data, Worktree(sim), sm.data, LoopHead(sim));
      return true, start + 1;
    }
    n := HaltRun(sm, c, Worktree(sim), g, start);
    ok := false;
  }

  method EnterSpecGate(sm: StateManager, c: Setup, sim: bool, ghost g: Origin) returns (ghost n: nat)
    requires Stands(c, g, 0, sm.data, sm.saves, RunStart(sim))
    modifies sm
    ensures Stands(c, g, n, sm.data, sm.saves, SpecCheck(sim))
    ensures SameBudgets(old(sm.data), sm.data) && sm.data.status == old(sm.data.status) && sm.data.state == SPEC_GATE
  {
    Follow(c, g, 0, sm.data, RunStart(sim), Move(sm.data, INIT), SpecStage(sim));
    sm.DoTransition(INIT);
    n := 1;
    if !c.world.specExists {
      Follow(c, g, n, sm.data, SpecStage(sim), Move(sm.data, SPEC_DESIGN), SpecEntry(sim));
      sm.DoTransition(SPEC_DESIGN);
      n := 2;
      Follow(c, g, n, sm.data, SpecEntry(sim), Move(sm.data, SPEC_GATE), SpecCheck(sim));
    } else {
      Follow(c, g, n, sm.data, SpecStage(sim), Move(sm.data, SPEC_GATE), SpecCheck(sim));
    }
    sm.DoTransition(SPEC_GATE);
    n := n + 1;
  }

  /** What a run needs to complete with its first build. */
  ghost predicate CompletesAtOnce(c: Setup, r: Record, sim: bool) {
    SpecClears(c, r) && c.world.worktree && FirstBuildClears(c, r, sim) && c.world.merge
  }

  /** What a completed run has behind it: specification, worktree, a clear build, and its merge. */
  ghost predicate CompletedRightly(c: Setup, r0: Record, r: Record, sim: bool) {
    && r.status == COMPLETED && r.state == AUTO_MERGE && r.total > r0.total
    && SpecClears(c, r0) && c.world.worktree && BuildClears(c, r.total, sim) && c.world.merge
  }

  /** From a clear build to its merge. */
  method FinishRun(sm: StateManager, c: Setup, ghost g: Origin, ghost start: nat) returns (ok: bool, ghost n: nat)
    requires Stands(c, g, start, sm.data, sm.saves, AuditPassed(false))
    modifies sm
    ensures Stands(c, g, n, sm.data, sm.saves, Idle)
    ensures ok == c.world.merge && sm.data.total == old(sm.data.total)
    ensures if ok then sm.data.status == COMPLETED && sm.data.state == AUTO_MERGE else Halted(sm.data) && CanResumeMerge(sm.data)
  {
    Follow(c, g, start, sm.data, AuditPassed(false), Move(sm.data, AUTO_MERGE), Merging);
    sm.DoTransition(AUTO_MERGE);
    ok, n := MergeAndComplete(sm, c, g, start + 1);
  }

  /** Everything before the build loop. */
  method PrepareRun(sm: StateManager, c: Setup, sim: bool, ghost g: Origin) returns (ok: bool, ghost n: nat)
    requires Stands(c, g, 0, sm.data, sm.saves, RunStart(sim))
    modifies sm
    ensures Stands(c, g, n, sm.data, sm.saves, if ok then LoopHead(sim) else Idle)
    ensures ok <==> SpecClears(c, old(sm.data)) && c.world.worktree
    ensures if ok then sm.data.status == old(sm.data.status) else Halted(sm.data)
    ensures ok ==> sm.data.total == old(sm.data.total) && sm.data.attempts == old(sm.data.attempts) && sm.data.limits == old(sm.data.limits)
  {
    n := EnterSpecGate(sm, c, sim, g);
    ok, n := Prepare(sm, c, sim, g, n);
    if ok {
      ok, n := MakeWorktree(sm, c, sim, g, n);
    }
  }

  /** The build loop and, after a clear build, the merge. */
  method BuildAndMerge(sm: StateManager, c: Setup, sim: bool, ghost g: Origin, ghost start: nat) returns (done: bool, ghost n: nat)
    requires c.candidates != [] && Stands(c, g, start, sm.data, sm.saves, LoopHead(sim))
    modifies sm
    ensures Stands(c, g, n, sm.data, sm.saves, Idle)
    ensures done ==> sm.data.status == COMPLETED && sm.data.state == AUTO_MERGE && sm.data.total > old(sm.data.total)
    ensures done ==> BuildClears(c, sm.data.total, sim) && c.world.merge
    ensures !done ==> NotCompleted(old(sm.data), sm.data)
    ensures FirstBuildClears(c, old(sm.data), sim) && c.world.merge ==> done && sm.data.total == old(sm.data.total) + 1
  {
    done, n := BuildLoop(sm, c, sim, g, start);
    if done {
      done, n := FinishRun(sm, c, g, n);
    }
  }

  /** The body of `run_pipeline` once the state manager exists; `done` tells whether it wrote `COMPLETED`. */
  method DrivePipeline(sm: StateManager, c: Setup, sim: bool, ghost g: Origin) returns (done: bool, ghost n: nat)
    requires c.candidates != [] && Stands(c, g, 0, sm.data, sm.saves, RunStart(sim))
    modifies sm
    ensures Stands(c, g, n, sm.data, sm.saves, Idle)
    ensures done ==> CompletedRightly(c, old(sm.data), sm.data, sim)
    ensures !done ==> NotCompleted(old(sm.data), sm.data)
    ensures CompletesAtOnce(c, old(sm.data), sim) ==> done && sm.data.total == old(sm.data.total) + 1
  {
    done, n := PrepareRun(sm, c, sim, g);
    if done {
      FirstBuildSame(c, old(sm.data), sm.data, sim);
      done, n := BuildAndMerge(sm, c, sim, g, n);
    }
  }

  /** `run_pipeline`: it ends, with the record on which the launched system comes to rest, having saved what that system saves. */
  method RunPipeline(disk: Option<Record>, c: Setup, sim: bool) returns (done: bool, r: Record, ghost saves: seq<Record>)
    requires c.candidates != []
    ensures Launch(c.limits, disk, Run(sim)).Some? && ComesToRest(c, Launch(c.limits, disk, Run(sim)).value, r)
    ensures RestsAfter(c, Launch(c.limits, disk, Run(sim)).value, LoadSaves(disk, c.limits), r, saves)
    ensures done ==> CompletedRightly(c, Load(disk, c.limits), r, sim)
    ensures !done ==> NotCompleted(Load(disk, c.limits), r)
    ensures CompletesAtOnce(c, Load(disk, c.limits), sim) ==> done
  {
    var sm := new StateManager(disk, c.limits);
    ghost var g := Origin(Sys(Some(sm.data), RunStart(sim)), sm.saves);
    ghost var n;
    done, n := DrivePipeline(sm, c, sim, g);
    r, saves := sm.data, sm.saves;
  }

  method MergeIfAncestor(sm: StateManager, c: Setup, ghost g: Origin, ghost start: nat)
    returns (ok: bool, ghost n: nat)
    requires Stands(c, g, start, sm.data, sm.saves, AuditPassed(true))
    modifies sm
    ensures Stands(c, g, n, sm.data, sm.saves, Idle)
    ensures ok <==> c.world.ancestor && c.world.merge
    ensures !c.world.ancestor ==> Halted(sm.data) && sm.data == Halt(old(sm.data))
    ensures c.world.ancestor && !c.world.merge ==> Halted(sm.data) && CanResumeMerge(sm.data)
    ensures ok ==> sm.data.status == COMPLETED && sm.data.state == AUTO_MERGE && SameBudgets(old(sm.data), sm.data)
  {
    if !c.world.ancestor {
      n := HaltRun(sm, c, AuditPassed(true), g, start);
      return false, n;
    }
    Follow(c, g, start, sm.data, AuditPassed(true), Move(sm.data, AUTO_MERGE), Merging);
    sm.DoTransition(AUTO_MERGE);
    ok, n := MergeAndComplete(sm, c, g, start + 1);
  }

  /** The work of an authorised audit recovery. */
  method AuditAndMerge(sm: StateManager, c: Setup, sim: bool, ghost g: Origin) returns (ok: bool, ghost n: nat)
    requires c.candidates != [] && Stands(c, g, 0, sm.data, sm.saves, AuditReady(sim))
    modifies sm
    ensures Stands(c, g, n, sm.data, sm.saves, Idle)
    ensures ok <==> c.world.diffComputed && AuditClears(c, old(sm.data.total), sim) && c.world.ancestor && c.world.merge
    ensures ok ==> sm.data.status == COMPLETED && sm.data.state == AUTO_MERGE && SameBudgets(old(sm.data), sm.data)
    ensures !ok ==> NotCompleted(old(sm.data), sm.data)
    ensures !c.world.diffComputed || (AuditClears(c, old(sm.data.total), sim) && !c.world.ancestor) ==> Halted(sm.data)
  {
    Follow(c, g, 0, sm.data, AuditReady(sim), Move(sm.data, LOGIC_AUDIT), AuditDiff(sim));
    sm.DoTransition(LOGIC_AUDIT);
    if !c.world.diffComputed {
      n := HaltRun(sm, c, AuditDiff(sim), g, 1);
      return false, n;
    }
    Follow(c, g, 1, sm.data, AuditDiff(sim), sm.data, Auditing(0, true, sim));
    var v, attempts, sleeps;
    v, attempts, sleeps, n := ExecuteAudit(sm, c, sim, true, g, 2);
    if v != Passed {
      return false, n;
    }
    ok, n := MergeIfAncestor(sm, c, g, n);
  }

  /** Suspended at the audit, with a review request from `LOGIC_AUDIT` on record. */
  predicate Resumable(r: Record) {
    && r.state == HUMAN_REVIEW && r.status == NEEDS_HUMAN_REVIEW && r.blockedGate == Some(LOGIC_AUDIT)
    && exists i :: 0 <= i < |r.history| && r.history[i] == Transition(LOGIC_AUDIT, HUMAN_REVIEW)
  }

  /** Halted by a failed merge, which is the last thing that happened. */
  predicate MergeRecoverable(r: Record) {
    && r.state == HALT_HUMAN && r.status == FAILED
    && r.history != [] && Last(r.history) == Transition(AUTO_MERGE, HALT_HUMAN)
  }

  /** `resume_audit`: refused records stay as loaded; otherwise it ends where the launched system rests. */
  method ResumeAudit(disk: Option<Record>, c: Setup, sim: bool, gitReady: bool) returns (ok: bool, r: Record, ghost saves: seq<Record>)
    requires c.candidates != []
    ensures var s := Launch(c.limits, disk, Pipeline.ResumeAudit(sim, gitReady)); s.Some? && ComesToRest(c, s.value, r)
    ensures RestsAfter(c, Launch(c.limits, disk, Pipeline.ResumeAudit(sim, gitReady)).value, LoadSaves(disk, c.limits), r, saves)
    ensures ok <==> && Resumable(Load(disk, c.limits)) && gitReady && c.world.diffComputed
                    && AuditClears(c, Load(disk, c.limits).total, sim) && c.world.ancestor && c.world.merge
    ensures ok ==> r.status == COMPLETED && r.state == AUTO_MERGE && SameBudgets(Load(disk, c.limits), r)
    ensures !ok ==> NotCompleted(Load(disk, c.limits), r)
    ensures !(CanResumeAudit(Load(disk, c.limits)) && gitReady) ==> !ok && r == Load(disk, c.limits)
  {
    var sm := new StateManager(disk, c.limits);
    ghost var g := Origin(Sys(Some(sm.data), if CanResumeAudit(sm.data) && gitReady then AuditReady(sim) else Idle), sm.saves);
    ghost var n := 0;
    ok := false;
    if CanResumeAudit(sm.data) && gitReady {
      ok, n := AuditAndMerge(sm, c, sim, g);
    }
    assert Stands(c, g, n, sm.data, sm.saves, Idle);
    r, saves := sm.data, sm.saves;
  }

  /** `resume_merge`: completes iff the record is authorised, git is ready and the merge succeeds. */
  method ResumeMerge(disk: Option<Record>, c: Setup, gitReady: bool) returns (ok: bool, r: Record, ghost saves: seq<Record>)
    ensures var s := Launch(c.limits, disk, Pipeline.ResumeMerge(gitReady)); s.Some? && ComesToRest(c, s.value, r)
    ensures RestsAfter(c, Launch(c.limits, disk, Pipeline.ResumeMerge(gitReady)).value, LoadSaves(disk, c.limits), r, saves)
    ensures ok <==> MergeRecoverable(Load(disk, c.limits)) && gitReady && c.world.merge
    ensures ok ==> r.status == COMPLETED && r.state == AUTO_MERGE && SameBudgets(Load(disk, c.limits), r)
    ensures r == if ok then Move(Load(disk, c.limits), AUTO_MERGE).(status := COMPLETED) else Load(disk, c.limits)
  {
    var sm := new StateManager(disk, c.limits);
    ghost var g := Origin(Sys(Some(sm.data), if CanResumeMerge(sm.data) && gitReady then RecoveryMerging else Idle), sm.saves);
    ghost var n := 0;
    ok := CanResumeMerge(sm.data) && gitReady && c.world.merge;
    if CanResumeMerge(sm.data) && gitReady {
      n := RecoverMerge(sm, c, g);
    }
    assert Stands(c, g, n, sm.data, sm.saves, Idle);
    r, saves := sm.data, sm.saves;
  }

  method RecoverMerge(sm: StateManager, c: Setup, ghost g: Origin) returns (ghost n: nat)
    requires Stands(c, g, 0, sm.data, sm.saves, RecoveryMerging)
    modifies sm
    ensures Stands(c, g, n, sm.data, sm.saves, Idle)
    ensures sm.data == if c.world.merge then Move(old(sm.data), AUTO_MERGE).(status := COMPLETED) else old(sm.data)
  {
    if !c.world.merge {
      Follow(c, g, 0, sm.data, RecoveryMerging, sm.data, Idle);
      return 1;
    }
    Follow(c, g, 0, sm.data, RecoveryMerging, sm.data, Recovered);
    Follow(c, g, 1, sm.data, Recovered, Move(sm.data, AUTO_MERGE), Merged);
    sm.DoTransition(AUTO_MERGE);
    MarkCompleted(sm, c, g, 2);
    n := 3;
  }
}
