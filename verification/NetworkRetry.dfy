/**
 The retry wrapper of adapters/network_retry.py.  The wrapped function is given by what its i-th
 call does; sleeping is accounted for as a sequence of durations.
 */
module NetworkRetry {
  import opened Wrappers

  datatype Exception =
    | Timeout
    | ConnectionError
    | HttpError(code: int, retryAfter: Option<real>) // with a response; an unparsable header counts as absent
    | OtherError                                     // including an HTTP error without a response

  predicate RetryableCode(code: int) {
    code == 429 || code == 502 || code == 503 || code == 504
  }

  predicate Transient(e: Exception) {
    e.Timeout? || e.ConnectionError? || (e.HttpError? && RetryableCode(e.code))
  }

  datatype Attempt<+T> = Returned(value: T) | Raised(e: Exception)

  datatype Outcome<+T> =
    | Value(value: T)
    | Propagated(e: Exception)
    | NegativeSleep                       // `time.sleep` rejects the computed delay
    | TransportError(code: Option<int>)

  datatype Backoff = Backoff(maxRetries: int, initialDelay: real, factor: real, maxDelay: real) {
    function Tries(): nat { if maxRetries > 0 then maxRetries else 0 }
  }

  function MinReal(a: real, b: real): real {
    if a <= b then a else b
  }

  function Delay(b: Backoff, i: nat): real {
    if i == 0 then b.initialDelay else Delay(b, i - 1) * b.factor
  }

  /** How long to sleep after the i-th call failed with `e`. */
  function Wait(b: Backoff, i: nat, e: Exception): real {
    if Transient(e) && e.HttpError? && e.retryAfter.Some? && e.retryAfter.value > 0.0
    then MinReal(e.retryAfter.value, b.maxDelay)
    else MinReal(Delay(b, i), b.maxDelay)
  }

  /** The i-th call settles the matter: no further call is made after it. */
  predicate Settles<T>(b: Backoff, call: nat -> Attempt<T>, i: nat) {
    call(i).Returned? || !Transient(call(i).e) || Wait(b, i, call(i).e) < 0.0
  }

  function SettledBy<T>(b: Backoff, call: nat -> Attempt<T>, i: nat): Outcome<T>
    requires Settles(b, call, i)
  {
    match call(i)
    case Returned(v) => Value(v)
    case Raised(e) => if !Transient(e) then Propagated(e) else NegativeSleep
  }

  /** Status code of the last HTTP error with a response among the first `n` calls. */
  function LastCode<T>(call: nat -> Attempt<T>, n: nat): Option<int> {
    if n == 0 then None
    else if call(n - 1).Raised? && call(n - 1).e.HttpError? then Some(call(n - 1).e.code)
    else LastCode(call, n - 1)
  }

  /** The wrapper's result: that of the first call from `i` on that settles, or a transport error. */
  function RetryFrom<T>(b: Backoff, call: nat -> Attempt<T>, i: nat): Outcome<T>
    decreases b.Tries() - i
  {
    if i >= b.Tries() then TransportError(LastCode(call, b.Tries()))
    else if Settles(b, call, i) then SettledBy(b, call, i)
    else RetryFrom(b, call, i + 1)
  }

  function Sum(xs: seq<real>): real {
    if xs == [] then 0.0 else Sum(xs[..|xs| - 1]) + xs[|xs| - 1]
  }

  ghost predicate AllWithin(xs: seq<real>, max: real) {
    forall i :: 0 <= i < |xs| ==> 0.0 <= xs[i] <= max
  }

  /** `n` sleeps of at most `max` each take at most n * max together. */
  lemma {:induction false} SumBound(xs: seq<real>, n: nat, max: real)
    requires |xs| <= n && max >= 0.0 && AllWithin(xs, max)
    ensures 0.0 <= Sum(xs) <= n as real * max
  {
    if xs != [] {
      SumBound(xs[..|xs| - 1], n - 1, max);
      var m := (n - 1) as real;
      assert n as real == m + 1.0;
      assert (m + 1.0) * max == m * max + max;
    }
  }

  /** The first `n` calls failed transiently, each followed by its scheduled sleep. */
  ghost predicate Waited<T>(b: Backoff, call: nat -> Attempt<T>, n: nat, sleeps: seq<real>) {
    && |sleeps| == n
    && forall j :: 0 <= j < n ==> !Settles(b, call, j) && sleeps[j] == Wait(b, j, call(j).e)
  }

  lemma WaitedBound<T>(b: Backoff, call: nat -> Attempt<T>, n: nat, sleeps: seq<real>)
    requires Waited(b, call, n, sleeps)
    ensures AllWithin(sleeps, b.maxDelay)
  {
    forall j | 0 <= j < n ensures 0.0 <= sleeps[j] <= b.maxDelay {
      assert !Settles(b, call, j);
    }
  }

  /** One failed attempt: the pause it asks for and the delay of the next attempt. */
  method Pause(b: Backoff, i: nat, e: Exception, delay: real) returns (pause: real, next: real)
    requires delay == Delay(b, i) && Transient(e)
    ensures pause == Wait(b, i, e) && next == Delay(b, i + 1)
  {
    var serverDelay := if e.HttpError? then e.retryAfter else None;
    if serverDelay.Some? && serverDelay.value > 0.0 {
      pause := MinReal(serverDelay.value, b.maxDelay);
    } else {
      pause := MinReal(delay, b.maxDelay);
    }
    next := delay * b.factor;
  }

  /**
   At most `max_retries` calls; every call but the last failed transiently and was followed by exactly
   the scheduled sleep; the result is that of the settling call, or a transport error.
   */
  method RetryWithBackoff<T>(b: Backoff, call: nat -> Attempt<T>) returns (r: Outcome<T>, calls: nat, sleeps: seq<real>)
    ensures r == RetryFrom(b, call, 0)
    ensures calls <= b.Tries()
    ensures r.TransportError? ==> calls == b.Tries() && Waited(b, call, calls, sleeps)
    ensures !r.TransportError? ==> calls > 0 && Settles(b, call, calls - 1) && Waited(b, call, calls - 1, sleeps)
    ensures r.Value? ==> call(calls - 1) == Returned(r.value)
    ensures r.Propagated? ==> call(calls - 1) == Raised(r.e) && !Transient(r.e)
    ensures r.NegativeSleep? ==> call(calls - 1).Raised? && Transient(call(calls - 1).e)
  {
    var delay := b.initialDelay;
    var lastCode: Option<int> := None;
    sleeps := [];
    for attempt := 0 to b.Tries()
      invariant delay == Delay(b, attempt) && lastCode == LastCode(call, attempt)
      invariant RetryFrom(b, call, 0) == RetryFrom(b, call, attempt)
      invariant Waited(b, call, attempt, sleeps)
    {
      var a := call(attempt);
      if a.Returned? {
        return Value(a.value), attempt + 1, sleeps;
      }
      if a.e.HttpError? {
        lastCode := Some(a.e.code);
      }
      if !Transient(a.e) {
        return Propagated(a.e), attempt + 1, sleeps;
      }
      var pause;
      pause, delay := Pause(b, attempt, a.e, delay);
      if pause < 0.0 {
        return NegativeSleep, attempt + 1, sleeps;
      }
      sleeps := sleeps + [pause];
    }
    r, calls := TransportError(lastCode), b.Tries();
  }

  /** A transport error is reported iff every permitted call failed transiently. */
  lemma {:induction false} TransportIff<T>(b: Backoff, call: nat -> Attempt<T>, i: nat)
    ensures RetryFrom(b, call, i).TransportError? <==> forall j :: i <= j < b.Tries() ==> !Settles(b, call, j)
    decreases b.Tries() - i
  {
    if i < b.Tries() && !Settles(b, call, i) {
      TransportIff(b, call, i + 1);
    }
  }

  /** Nothing transient ever escapes the wrapper as itself. */
  lemma {:induction false} PropagatedIsPermanent<T>(b: Backoff, call: nat -> Attempt<T>, i: nat)
    ensures RetryFrom(b, call, i).Propagated? ==> !Transient(RetryFrom(b, call, i).e)
    decreases b.Tries() - i
  {
    if i < b.Tries() && !Settles(b, call, i) {
      PropagatedIsPermanent(b, call, i + 1);
    }
  }

  /** The i-th call is made and settles the matter. */
  ghost predicate Decisive<T>(b: Backoff, call: nat -> Attempt<T>, i: nat) {
    i < b.Tries() && Settles(b, call, i) && forall j :: 0 <= j < i ==> !Settles(b, call, j)
  }

  lemma {:induction false} RetryUpTo<T>(b: Backoff, call: nat -> Attempt<T>, i: nat)
    requires i <= b.Tries() && forall j :: 0 <= j < i ==> !Settles(b, call, j)
    ensures RetryFrom(b, call, 0) == RetryFrom(b, call, i)
  {
    if i > 0 {
      RetryUpTo(b, call, i - 1);
    }
  }

  /** What the decisive call did is what the wrapper does: a value comes back, a permanent exception is passed on. */
  lemma DecisiveOutcome<T>(b: Backoff, call: nat -> Attempt<T>, i: nat)
    requires Decisive(b, call, i)
    ensures call(i).Returned? ==> RetryFrom(b, call, 0) == Value(call(i).value)
    ensures call(i).Raised? && !Transient(call(i).e) ==> RetryFrom(b, call, 0) == Propagated(call(i).e)
    ensures call(i).Raised? && Transient(call(i).e) ==> RetryFrom(b, call, 0) == NegativeSleep
  {
    RetryUpTo(b, call, i);
  }

  /** Either some call is decisive, or none settles. */
  lemma {:induction false} DecisiveOrNone<T>(b: Backoff, call: nat -> Attempt<T>, n: nat)
    requires n <= b.Tries()
    ensures (exists i: nat :: i < n && Decisive(b, call, i)) || forall j :: 0 <= j < n ==> !Settles(b, call, j)
  {
    if n > 0 {
      DecisiveOrNone(b, call, n - 1);
      if forall j :: 0 <= j < n - 1 ==> !Settles(b, call, j) {
        if Settles(b, call, n - 1) {
          assert Decisive(b, call, n - 1);
        }
      }
    }
  }

  function Power(x: real, n: nat): real {
    if n == 0 then 1.0 else Power(x, n - 1) * x
  }

  lemma {:induction false} DelayIsGeometric(b: Backoff, i: nat)
    ensures Delay(b, i) == b.initialDelay * Power(b.factor, i)
  {
    if i > 0 {
      DelayIsGeometric(b, i - 1);
      assert b.initialDelay * Power(b.factor, i - 1) * b.factor == b.initialDelay * (Power(b.factor, i - 1) * b.factor);
    }
  }

  /**
   The sleep after a transient failure: what the server asked for if that is positive, otherwise the
   initial delay times the factor for every earlier failure; never more than the maximum.
   */
  lemma WaitMeaning(b: Backoff, i: nat, e: Exception)
    requires Transient(e)
    ensures var asked := if e.HttpError? && e.retryAfter.Some? && e.retryAfter.value > 0.0 then e.retryAfter.value
                         else b.initialDelay * Power(b.factor, i);
            Wait(b, i, e) <= b.maxDelay && Wait(b, i, e) <= asked && (Wait(b, i, e) == asked || Wait(b, i, e) == b.maxDelay)
  {
    DelayIsGeometric(b, i);
  }

  /** The code reported with a transport error is that of the last HTTP failure, if there was one. */
  lemma {:induction false} LastCodeMeaning<T>(call: nat -> Attempt<T>, n: nat)
    ensures LastCode(call, n).None? <==> forall j :: 0 <= j < n ==> !(call(j).Raised? && call(j).e.HttpError?)
    ensures LastCode(call, n).Some? ==>
              exists j :: 0 <= j < n && call(j).Raised? && call(j).e.HttpError? && LastCode(call, n) == Some(call(j).e.code)
                          && forall k :: j < k < n ==> !(call(k).Raised? && call(k).e.HttpError?)
  {
    if n > 0 {
      LastCodeMeaning(call, n - 1);
    }
  }

  /** A call is followed by another attempt iff it timed out, lost its connection or met one of four statuses, and the pause can be slept. */
  lemma RetriedIff<T>(b: Backoff, call: nat -> Attempt<T>, i: nat)
    ensures !Settles(b, call, i) <==>
              && call(i).Raised? && Wait(b, i, call(i).e) >= 0.0
              && (call(i).e.Timeout? || call(i).e.ConnectionError? || (call(i).e.HttpError? && call(i).e.code in {429, 502, 503, 504}))
  {
  }
}
