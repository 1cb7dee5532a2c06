/**
 The logic-security audit with provider fallback of orchestrator.py, each candidate called through
 the retry wrapper: what is asked, who decides, and what the decision does to the record.
 */
module AuditFallback {
  import opened Sequences
  import opened Wrappers
  import opened StateManagers
  import opened Pipeline
  import opened NetworkRetry

  datatype Candidate = Candidate(provider: string, model: string)

  /** Provider names after normalisation. */
  predicate Supported(provider: string) {
    provider in {"gemini", "deepseek", "qwen", "dashscope", "glm", "zhipu"}
  }

  datatype AuditStatus = PASS | FAIL | UNAVAILABLE | SIMULATED | UNCERTAIN

  /** A fallback counts if it names both a provider and a model. */
  predicate Named(c: Candidate) {
    c.provider != "" && c.model != ""
  }

  function Usable(fallbacks: seq<Candidate>): seq<Candidate> {
    if fallbacks == [] then [] else Usable(Init(fallbacks)) + if Named(Last(fallbacks)) then [Last(fallbacks)] else []
  }

  /** Exactly the named fallbacks are used, each once and in the configured order. */
  lemma {:induction false} UsableExact(fallbacks: seq<Candidate>) returns (ix: seq<nat>)
    ensures |ix| == |Usable(fallbacks)| && forall j :: 0 <= j < |ix| ==> ix[j] < |fallbacks| && Usable(fallbacks)[j] == fallbacks[ix[j]]
    ensures forall i, j :: 0 <= i < j < |ix| ==> ix[i] < ix[j]
    ensures forall i :: 0 <= i < |fallbacks| ==> (i in ix <==> Named(fallbacks[i]))
  {
    ix := [];
    if fallbacks != [] {
      var was := UsableExact(Init(fallbacks));
      ix := was + if Named(Last(fallbacks)) then [|fallbacks| - 1] else [];
      forall i | 0 <= i < |fallbacks| ensures i in ix <==> Named(fallbacks[i]) {
        assert i in ix <==> i in was || (Named(Last(fallbacks)) && i == |fallbacks| - 1);
        assert i < |fallbacks| - 1 ==> fallbacks[i] == Init(fallbacks)[i];
        assert forall j :: 0 <= j < |was| ==> was[j] < |fallbacks| - 1;
      }
    }
  }

  /** The primary candidate, then the usable fallbacks in order. */
  method Candidates(primary: Candidate, fallbacks: seq<Candidate>) returns (cs: seq<Candidate>)
    ensures cs == [primary] + Usable(fallbacks)
  {
    cs := [primary];
    for i := 0 to |fallbacks|
      invariant cs == [primary] + Usable(fallbacks[..i])
    {
      assert Init(fallbacks[..i + 1]) == fallbacks[..i] && Last(fallbacks[..i + 1]) == fallbacks[i];
      if Named(fallbacks[i]) {
        cs := cs + [fallbacks[i]];
      }
    }
    assert fallbacks[..|fallbacks|] == fallbacks;
  }

  type Calls = (nat, nat) -> Attempt<AuditStatus>

  /** What the audit learns from a candidate. */
  function Learn(c: Candidate, o: Outcome<AuditStatus>, another: bool): AuditResult {
    if !Supported(c.provider) then Broken
    else match o
      case TransportError(_) => Unavailable(another)
      case Propagated(e) => if Transient(e) then Unavailable(another) else Broken
      case NegativeSleep => Broken
      case Value(status) =>
        match status
        case PASS => Pass(c.model)
        case SIMULATED => Simulated(c.model)
        case FAIL => Fail
        case UNAVAILABLE => Inconclusive
        case UNCERTAIN => Inconclusive
  }

  function OneCandidate(calls: Calls, k: nat): nat -> Attempt<AuditStatus> {
    (i: nat) => calls(k, i)
  }

  function ResultOf(cs: seq<Candidate>, b: Backoff, calls: Calls, k: nat): AuditResult
    requires k < |cs|
  {
    Learn(cs[k], RetryFrom(b, OneCandidate(calls, k), 0), k + 1 < |cs|)
  }

  /** Index of the first candidate that is not unavailable, or of the last candidate. */
  function Decider(cs: seq<Candidate>, b: Backoff, calls: Calls, k: nat): (d: nat)
    requires k < |cs|
    ensures k <= d < |cs|
    ensures forall j :: k <= j < d ==> ResultOf(cs, b, calls, j).Unavailable?
    ensures ResultOf(cs, b, calls, d).Unavailable? ==> d == |cs| - 1
    decreases |cs| - k
  {
    if ResultOf(cs, b, calls, k).Unavailable? && k + 1 < |cs| then Decider(cs, b, calls, k + 1) else k
  }

  /** The record after `n` fallbacks: one `LOGIC_AUDIT` transition each. */
  function FellBack(r: Record, n: nat): Record {
    if n == 0 then r else Move(FellBack(r, n - 1), LOGIC_AUDIT)
  }

  /** The record once the deciding result has been acted upon. */
  function Settle(r: Record, o: AuditResult, sim: bool): Record {
    match o
    case Pass(model) => r.(auditModel := Some(model))
    case Simulated(model) => if sim then r.(auditModel := Some(model)) else Halt(r)
    case Fail => var c := Charge(r, Security); if WithinReplans(c, Security) then NewEpoch(c) else Halt(c)
    case Inconclusive => Review(r)
    case Unavailable(_) => Review(r)
    case Broken => Halt(r)
  }

  /** The records saved on the way, in order. */
  function SettleSaves(r: Record, o: AuditResult, sim: bool): seq<Record> {
    match o
    case Pass(_) => [Settle(r, o, sim)]
    case Simulated(_) => if sim then [Settle(r, o, sim)] else [Move(r, HALT_HUMAN)] + [Halt(r)]
    case Fail =>
      var c := Charge(r, Security);
      if WithinReplans(c, Security) then [c] + [NewEpoch(c)] else [c] + [Move(c, HALT_HUMAN)] + [Halt(c)]
    case Inconclusive => [Move(r, HUMAN_REVIEW)] + [Move(r, HUMAN_REVIEW).(status := NEEDS_HUMAN_REVIEW)] + [Review(r)]
    case Unavailable(_) => [Move(r, HUMAN_REVIEW)] + [Move(r, HUMAN_REVIEW).(status := NEEDS_HUMAN_REVIEW)] + [Review(r)]
    case Broken => [Move(r, HALT_HUMAN)] + [Halt(r)]
  }

  predicate Passes(o: AuditResult, sim: bool) {
    o.Pass? || (o.Simulated? && sim)
  }

  datatype Verdict = Passed | Replanned | Stopped

  function VerdictOf(r: Record, o: AuditResult, sim: bool): Verdict {
    if Passes(o, sim) then Passed
    else if o.Fail? && WithinReplans(Charge(r, Security), Security) then Replanned
    else Stopped
  }

  // ---------- What the calls mean ----------

  /** The candidate's decisive call returned this status. */
  ghost predicate Answers(b: Backoff, call: nat -> Attempt<AuditStatus>, status: AuditStatus) {
    exists i: nat :: Decisive(b, call, i) && call(i) == Returned(status)
  }

  /** The decisive call raised: a permanent exception, or a delay that cannot be slept. */
  ghost predicate Breaks(b: Backoff, call: nat -> Attempt<AuditStatus>) {
    exists i: nat :: Decisive(b, call, i) && call(i).Raised?
  }

  /** Every permitted call failed transiently. */
  ghost predicate Unreachable(b: Backoff, call: nat -> Attempt<AuditStatus>) {
    forall j :: 0 <= j < b.Tries() ==> !Settles(b, call, j)
  }

  lemma WhenDecisive(b: Backoff, call: nat -> Attempt<AuditStatus>, i: nat)
    requires Decisive(b, call, i)
    ensures !Unreachable(b, call) && (Breaks(b, call) <==> call(i).Raised?)
    ensures forall s :: Answers(b, call, s) <==> call(i) == Returned(s)
  {
    forall j: nat | Decisive(b, call, j) ensures j == i {
      assert !(j < i) && !(i < j);
    }
  }

  /** A candidate is unreachable, breaks, or answers with exactly one status. */
  lemma Trichotomy(b: Backoff, call: nat -> Attempt<AuditStatus>)
    ensures Unreachable(b, call) || Breaks(b, call) || exists s :: Answers(b, call, s)
    ensures Unreachable(b, call) ==> !Breaks(b, call) && forall s :: !Answers(b, call, s)
    ensures forall s, s' :: Answers(b, call, s) ==> !Breaks(b, call) && (Answers(b, call, s') ==> s == s')
  {
    DecisiveOrNone(b, call, b.Tries());
    if i: nat :| i < b.Tries() && Decisive(b, call, i) {
      WhenDecisive(b, call, i);
      if call(i).Returned? {
        assert Answers(b, call, call(i).value);
      }
    }
  }

  /** The first candidate with a supported provider that is not unreachable, or else the last one. */
  ghost predicate Decides(cs: seq<Candidate>, b: Backoff, calls: Calls, d: nat) {
    && d < |cs|
    && (forall j :: 0 <= j < d ==> Supported(cs[j].provider) && Unreachable(b, OneCandidate(calls, j)))
    && (d < |cs| - 1 ==> !(Supported(cs[d].provider) && Unreachable(b, OneCandidate(calls, d))))
  }

  /** The audit is passed: by PASS, or by SIMULATED in a simulated run. */
  ghost predicate Clears(cs: seq<Candidate>, b: Backoff, calls: Calls, sim: bool, d: nat) {
    && Decides(cs, b, calls, d) && Supported(cs[d].provider)
    && (Answers(b, OneCandidate(calls, d), PASS) || (sim && Answers(b, OneCandidate(calls, d), SIMULATED)))
  }

  /** The audit is failed: the deciding candidate said so. */
  ghost predicate Fails(cs: seq<Candidate>, b: Backoff, calls: Calls, d: nat) {
    Decides(cs, b, calls, d) && Supported(cs[d].provider) && Answers(b, OneCandidate(calls, d), FAIL)
  }

  predicate SameBudgets(r: Record, r': Record) {
    && r'.limits == r.limits && r'.epoch == r.epoch && r'.attempts == r.attempts && r'.total == r.total
    && r'.logicUsed == r.logicUsed && r'.securityUsed == r.securityUsed && r'.specUsed == r.specUsed
  }

  predicate Halted(r: Record) {
    r.state == HALT_HUMAN && r.status == FAILED
  }

  /** What an audit does to the record, in terms of what the deciding candidate answered. */
  ghost predicate AuditLaw(cs: seq<Candidate>, b: Backoff, calls: Calls, sim: bool, d: nat, r: Record, r': Record, v: Verdict)
    requires d < |cs|
  {
    var call, ok := OneCandidate(calls, d), Supported(cs[d].provider);
    && (v == Passed <==> ok && (Answers(b, call, PASS) || (sim && Answers(b, call, SIMULATED))))
    && (v == Passed ==> r'.auditModel == Some(cs[d].model) && r'.status == r.status && SameBudgets(r, r'))
    && (v != Passed ==> r'.auditModel == r.auditModel)
    && (ok && Answers(b, call, FAIL) ==>
          && r'.securityUsed == r.securityUsed + 1 && r'.logicUsed == r.logicUsed && r'.total == r.total && r'.limits == r.limits
          && (v == Replanned <==> r.securityUsed < r.limits.security)
          && (v == Replanned ==> r'.epoch == r.epoch + 1 && r'.attempts == 0 && r'.status == r.status)
          && (v == Stopped ==> r'.epoch == r.epoch && r'.attempts == r.attempts && Halted(r')))
    && (v == Replanned ==> ok && Answers(b, call, FAIL))
    && (ok && (Answers(b, call, UNAVAILABLE) || Answers(b, call, UNCERTAIN) || Unreachable(b, call)) ==>
          && v == Stopped && SameBudgets(r, r')
          && r'.state == HUMAN_REVIEW && r'.status == NEEDS_HUMAN_REVIEW && r'.blockedGate == Some(LOGIC_AUDIT))
    && (!ok || Breaks(b, call) || (!sim && Answers(b, call, SIMULATED)) ==> v == Stopped && SameBudgets(r, r') && Halted(r'))
  }

  lemma ResultMeaning(cs: seq<Candidate>, b: Backoff, calls: Calls, k: nat)
    requires k < |cs|
    ensures var call, o := OneCandidate(calls, k), ResultOf(cs, b, calls, k);
            && (!Supported(cs[k].provider) ==> o == Broken)
            && (Supported(cs[k].provider) ==>
                  && (o.Unavailable? <==> Unreachable(b, call)) && (o.Unavailable? ==> o.another == (k + 1 < |cs|))
                  && (o.Pass? <==> Answers(b, call, PASS)) && (o.Pass? ==> o.model == cs[k].model)
                  && (o.Simulated? <==> Answers(b, call, SIMULATED)) && (o.Simulated? ==> o.model == cs[k].model)
                  && (o.Fail? <==> Answers(b, call, FAIL))
                  && (o.Inconclusive? <==> Answers(b, call, UNAVAILABLE) || Answers(b, call, UNCERTAIN))
                  && (o.Broken? <==> Breaks(b, call)))
  {
    var call := OneCandidate(calls, k);
    TransportIff(b, call, 0);
    DecisiveOrNone(b, call, b.Tries());
    if i: nat :| i < b.Tries() && Decisive(b, call, i) {
      DecisiveOutcome(b, call, i);
      WhenDecisive(b, call, i);
    } else {
      Trichotomy(b, call);
    }
  }

  lemma {:induction false} DeciderDecides(cs: seq<Candidate>, b: Backoff, calls: Calls, k: nat)
    requires k < |cs| && forall j :: 0 <= j < k ==> Supported(cs[j].provider) && Unreachable(b, OneCandidate(calls, j))
    ensures Decides(cs, b, calls, Decider(cs, b, calls, k))
    decreases |cs| - k
  {
    ResultMeaning(cs, b, calls, k);
    if ResultOf(cs, b, calls, k).Unavailable? && k + 1 < |cs| {
      DeciderDecides(cs, b, calls, k + 1);
    }
  }

  lemma DecidesOnce(cs: seq<Candidate>, b: Backoff, calls: Calls, d: nat, e: nat)
    requires Decides(cs, b, calls, d) && Decides(cs, b, calls, e)
    ensures d == e
  {
  }

  /** The record and verdict of an audit obey the law of its deciding candidate. */
  lemma AuditObeysLaw(cs: seq<Candidate>, b: Backoff, calls: Calls, sim: bool, d: nat, r: Record)
    requires d < |cs| && ResultOf(cs, b, calls, d) != Unavailable(true)
    ensures var f, o := FellBack(r, d), ResultOf(cs, b, calls, d);
            AuditLaw(cs, b, calls, sim, d, r, Settle(f, o, sim), VerdictOf(f, o, sim))
  {
    ResultMeaning(cs, b, calls, d);
    FallbacksKeepBudgets(r, d);
  }

  // ---------- Laws of the decision ----------

  lemma {:induction false} DeciderStable(cs: seq<Candidate>, more: seq<Candidate>, b: Backoff, calls: Calls, k: nat)
    requires k < |cs| && !ResultOf(cs, b, calls, Decider(cs, b, calls, k)).Unavailable?
    ensures Decider(cs + more, b, calls, k) == Decider(cs, b, calls, k)
    ensures var d := Decider(cs, b, calls, k); ResultOf(cs + more, b, calls, d) == ResultOf(cs, b, calls, d)
    decreases |cs| - k
  {
    if ResultOf(cs, b, calls, k).Unavailable? && k + 1 < |cs| {
      DeciderStable(cs, more, b, calls, k + 1);
    }
  }

  /** Appending fallbacks never changes a decided audit: same record, same verdict. */
  lemma AppendedFallbacksIrrelevant(cs: seq<Candidate>, more: seq<Candidate>, b: Backoff, calls: Calls, r: Record, sim: bool)
    requires cs != [] && !ResultOf(cs, b, calls, Decider(cs, b, calls, 0)).Unavailable?
    ensures var d, d' := Decider(cs, b, calls, 0), Decider(cs + more, b, calls, 0);
            var o, o' := ResultOf(cs, b, calls, d), ResultOf(cs + more, b, calls, d');
            && Settle(FellBack(r, d), o, sim) == Settle(FellBack(r, d'), o', sim)
            && VerdictOf(FellBack(r, d), o, sim) == VerdictOf(FellBack(r, d'), o', sim)
  {
    DeciderStable(cs, more, b, calls, 0);
  }

  lemma {:induction false} FallbacksKeepBudgets(r: Record, n: nat)
    ensures var f := FellBack(r, n);
            && f.epoch == r.epoch && f.limits == r.limits && f.attempts == r.attempts && f.total == r.total
            && f.logicUsed == r.logicUsed && f.securityUsed == r.securityUsed && f.specUsed == r.specUsed
            && f.auditModel == r.auditModel && f.status == r.status
  {
    if n > 0 {
      FallbacksKeepBudgets(r, n - 1);
    }
  }

  /** Only a semantic FAIL touches budgets or the epoch, and it charges exactly one security replan. */
  lemma OnlyFailCosts(r: Record, n: nat, o: AuditResult, sim: bool)
    ensures var f := Settle(FellBack(r, n), o, sim);
            && f.limits == r.limits && f.logicUsed == r.logicUsed && f.total == r.total && f.specUsed == r.specUsed
            && f.securityUsed == r.securityUsed + (if o.Fail? then 1 else 0)
            && (f.epoch != r.epoch <==> o.Fail? && r.securityUsed < r.limits.security)
            && (f.attempts != r.attempts ==> o.Fail?)
            && (f.auditModel != r.auditModel ==> Passes(o, sim))
  {
    FallbacksKeepBudgets(r, n);
  }

  // ---------- Asking one candidate, acting on the answer ----------

  /** One candidate, through the retry wrapper; an unsupported provider is never called. */
  method Ask(cs: seq<Candidate>, b: Backoff, calls: Calls, k: nat)
    returns (o: AuditResult, attempts: nat, sleeps: seq<real>)
    requires k < |cs|
    ensures o == ResultOf(cs, b, calls, k)
    ensures Economical(b, attempts, sleeps)
    ensures !Supported(cs[k].provider) ==> attempts == 0 && sleeps == []
  {
    if !Supported(cs[k].provider) {
      return Broken, 0, [];
    }
    var outcome;
    outcome, attempts, sleeps := RetryWithBackoff(b, OneCandidate(calls, k));
    WaitedBound(b, OneCandidate(calls, k), |sleeps|, sleeps);
    o := Learn(cs[k], outcome, k + 1 < |cs|);
  }

  /** At most `max_retries` attempts, and sleeps of at most `max_delay` between them. */
  ghost predicate Economical(b: Backoff, attempts: nat, sleeps: seq<real>) {
    attempts <= b.Tries() && |sleeps| <= attempts && AllWithin(sleeps, b.maxDelay)
  }

  ghost predicate AllEconomical(b: Backoff, attempts: seq<nat>, sleeps: seq<seq<real>>) {
    |attempts| == |sleeps| && forall i :: 0 <= i < |attempts| ==> Economical(b, attempts[i], sleeps[i])
  }

  lemma EconomicalSleep(b: Backoff, attempts: nat, sleeps: seq<real>)
    requires Economical(b, attempts, sleeps) && b.maxDelay >= 0.0
    ensures 0.0 <= Sum(sleeps) <= b.Tries() as real * b.maxDelay
  {
    SumBound(sleeps, b.Tries(), b.maxDelay);
  }

  /** The calls on the state manager that each deciding result triggers. */
  method SettleRecord(sm: StateManager, o: AuditResult, sim: bool)
    modifies sm
    ensures sm.data == Settle(old(sm.data), o, sim)
    ensures sm.saves == old(sm.saves) + SettleSaves(old(sm.data), o, sim)
  {
    match o
    case Pass(model) => sm.RecordAuditModel(model);
    case Simulated(model) =>
      if sim {
        sm.RecordAuditModel(model);
      } else {
        sm.HaltHuman();
      }
    case Fail => var _ := sm.ConsumeReplan(Security);
    case Inconclusive => sm.RequestHumanReview();
    case Unavailable(_) => sm.RequestHumanReview();
    case Broken => sm.HaltHuman();
  }
}
