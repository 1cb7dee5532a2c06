/**
 The fixed-window rate limiter of src/security/rate_limiter.py: per client a pair of
 window start and request count.  Timestamps are reals supplied by the caller.
 */
module RateLimiting {
  import opened Sequences
  import opened Wrappers

  datatype Slot = Slot(start: real, count: nat)

  datatype Request<C> = Request(client: C, at: real)

  datatype Limits = Limits(max: nat, window: real) {
    predicate Valid() { max > 0 && window > 0.0 }
  }

  function Decide<C(==)>(lim: Limits, st: map<C, Slot>, c: C, now: real): (map<C, Slot>, bool) {
    if c !in st then (st[c := Slot(now, 1)], true)
    else if now - st[c].start >= lim.window then (st[c := Slot(now, 1)], true)
    else if st[c].count < lim.max then (st[c := Slot(st[c].start, st[c].count + 1)], true)
    else (st, false)
  }

  class RateLimiter<C(==)> {
    const limits: Limits
    var state: map<C, Slot>

    constructor (lim: Limits)
      requires lim.Valid()
      ensures limits == lim && state == map[]
    {
      limits := lim;
      state := map[];
    }

    /** `RateLimiter(max_requests, window_seconds)`; `None` stands for `ValueError`. */
    static method Create(maxRequests: int, windowSeconds: real) returns (r: Option<RateLimiter<C>>)
      ensures r.Some? <==> maxRequests > 0 && windowSeconds > 0.0
      ensures r.Some? ==> fresh(r.value) && r.value.limits == Limits(maxRequests, windowSeconds) && r.value.state == map[]
    {
      if maxRequests <= 0 || windowSeconds <= 0.0 {
        return None;
      }
      var l := new RateLimiter(Limits(maxRequests, windowSeconds));
      r := Some(l);
    }

    method Allow(client: C, now: real) returns (ok: bool)
      modifies this
      ensures (state, ok) == Decide(limits, old(state), client, now)
    {
      if client !in state {
        state := state[client := Slot(now, 1)];
        return true;
      }
      var entry := state[client];
      if now - entry.start >= limits.window {
        state := state[client := Slot(now, 1)];
        return true;
      }
      if entry.count < limits.max {
        state := state[client := Slot(entry.start, entry.count + 1)];
        return true;
      }
      return false;
    }
  }

  // ---------- Whole request sequences ----------

  function After<C(==)>(lim: Limits, rs: seq<Request<C>>): map<C, Slot> {
    if rs == [] then map[] else Decide(lim, After(lim, Init(rs)), Last(rs).client, Last(rs).at).0
  }

  predicate Allowed<C(==)>(lim: Limits, before: seq<Request<C>>, r: Request<C>) {
    Decide(lim, After(lim, before), r.client, r.at).1
  }

  /** How many requests of client `c` stamped in [lo, hi) were allowed; `hi` may be absent. */
  function Granted<C(==)>(lim: Limits, rs: seq<Request<C>>, c: C, lo: real, hi: Option<real>): nat {
    if rs == [] then 0
    else
      var r := Last(rs);
      Granted(lim, Init(rs), c, lo, hi)
      + if r.client == c && lo <= r.at && (hi.Some? ==> r.at < hi.value) && Allowed(lim, Init(rs), r) then 1 else 0
  }

  /** The stamps of one client never go back. */
  ghost predicate Monotone<C>(rs: seq<Request<C>>, c: C) {
    forall i, j :: 0 <= i < j < |rs| && rs[i].client == c && rs[j].client == c ==> rs[i].at <= rs[j].at
  }

  /** Everything granted so far lies before the end of the current window, which holds exactly `count` grants. */
  lemma {:induction false} CurrentWindow<C>(lim: Limits, rs: seq<Request<C>>, c: C, lo: real)
    requires lim.Valid() && Monotone(rs, c)
    ensures c !in After(lim, rs) ==> Granted(lim, rs, c, lo, None) == 0
    ensures c in After(lim, rs) ==>
              var s := After(lim, rs)[c];
              && 1 <= s.count <= lim.max
              && Granted(lim, rs, c, s.start, None) == s.count
              && (lo >= s.start + lim.window ==> Granted(lim, rs, c, lo, None) == 0)
              && exists i :: 0 <= i < |rs| && rs[i].client == c && rs[i].at == s.start
  {
    if rs != [] {
      var prev, r := Init(rs), Last(rs);
      CurrentWindow(lim, prev, c, lo);
      if r.client == c && c in After(lim, prev) {
        var s := After(lim, prev)[c];
        var i :| 0 <= i < |prev| && prev[i].client == c && prev[i].at == s.start;
        assert rs[i] == prev[i] && s.start <= r.at;
        CurrentWindow(lim, prev, c, r.at);
        assert rs[|rs| - 1] == r;
      } else if r.client == c {
        CurrentWindow(lim, prev, c, r.at);
        assert rs[|rs| - 1] == r;
      } else if c in After(lim, prev) {
        var s := After(lim, prev)[c];
        var i :| 0 <= i < |prev| && prev[i].client == c && prev[i].at == s.start;
        assert rs[i] == prev[i];
      }
    }
  }

  /** A request is denied exactly when the current window already holds `max` grants and has not elapsed. */
  lemma DenialIffWindowFull<C>(lim: Limits, rs: seq<Request<C>>, r: Request<C>)
    requires lim.Valid() && Monotone(rs, r.client)
    ensures !Allowed(lim, rs, r) <==>
              && r.client in After(lim, rs)
              && var s := After(lim, rs)[r.client];
                 r.at < s.start + lim.window && Granted(lim, rs, r.client, s.start, None) == lim.max
  {
    CurrentWindow(lim, rs, r.client, r.at);
  }

  /** `n` windows, and the claimed bound, written additively. */
  function Windows(lim: Limits, n: nat): (t: real)
    requires lim.Valid()
    ensures t >= 0.0
  {
    if n == 0 then 0.0 else Windows(lim, n - 1) + lim.window
  }

  function Bound(lim: Limits, n: nat): nat
    requires lim.Valid()
  {
    if n == 0 then lim.max - 1 else Bound(lim, n - 1) + lim.max
  }

  lemma {:induction false} ClosedForms(lim: Limits, n: nat)
    requires lim.Valid()
    ensures Windows(lim, n) == n as real * lim.window
    ensures Bound(lim, n) == lim.max * (n + 1) - 1
  {
    if n > 0 {
      ClosedForms(lim, n - 1);
      assert n as real * lim.window == (n - 1) as real * lim.window + lim.window;
      assert lim.max * (n + 1) == lim.max * n + lim.max;
    }
  }

  /** Grants since `lo`, when the current window starts less than `n` windows later. */
  lemma {:induction false} GrantsSince<C>(lim: Limits, rs: seq<Request<C>>, c: C, lo: real, n: nat)
    requires lim.Valid() && Monotone(rs, c)
    requires c in After(lim, rs) && After(lim, rs)[c].start < lo + Windows(lim, n)
    ensures Granted(lim, rs, c, lo, None) + lim.max <= After(lim, rs)[c].count + Bound(lim, n)
  {
    var prev, r := Init(rs), Last(rs);
    CurrentWindow(lim, prev, c, lo);
    if r.client != c {
      GrantsSince(lim, prev, c, lo, n);
    } else if c in After(lim, prev) {
      if r.at - After(lim, prev)[c].start < lim.window {
        GrantsSince(lim, prev, c, lo, n);
      } else if n > 0 {
        GrantsSince(lim, prev, c, lo, n - 1);
      }
    }
  }

  lemma {:induction false} IntervalBound<C>(lim: Limits, rs: seq<Request<C>>, c: C, lo: real, hi: real, n: nat)
    requires lim.Valid() && Monotone(rs, c) && hi <= lo + Windows(lim, n)
    ensures Granted(lim, rs, c, lo, Some(hi)) <= Bound(lim, n)
  {
    if rs != [] {
      var r := Last(rs);
      if r.client != c || r.at >= hi {
        IntervalBound(lim, Init(rs), c, lo, hi, n);
      } else {
        AllBefore(lim, rs, c, lo, hi);
        CurrentWindow(lim, rs, c, lo);
        if c in After(lim, rs) {
          var i :| 0 <= i < |rs| && rs[i].client == c && rs[i].at == After(lim, rs)[c].start;
          assert rs[i].at <= rs[|rs| - 1].at;
          GrantsSince(lim, rs, c, lo, n);
        }
      }
    }
  }

  /**
   Sliding bound: an interval no longer than `n` windows never contains more than
   max * (n + 1) - 1 allowed requests of one client (so at most 2 * max - 1 in one window length).
   */
  lemma SlidingBound<C>(lim: Limits, rs: seq<Request<C>>, c: C, lo: real, hi: real, n: nat)
    requires lim.Valid() && Monotone(rs, c) && hi <= lo + n as real * lim.window
    ensures Granted(lim, rs, c, lo, Some(hi)) <= lim.max * (n + 1) - 1
  {
    ClosedForms(lim, n);
    IntervalBound(lim, rs, c, lo, hi, n);
  }

  lemma {:induction false} AllBefore<C>(lim: Limits, rs: seq<Request<C>>, c: C, lo: real, hi: real)
    requires forall i :: 0 <= i < |rs| && rs[i].client == c ==> rs[i].at < hi
    ensures Granted(lim, rs, c, lo, Some(hi)) == Granted(lim, rs, c, lo, None)
  {
    if rs != [] {
      AllBefore(lim, Init(rs), c, lo, hi);
      assert rs[|rs| - 1] == Last(rs);
    }
  }

  // ---------- The bound is attained ----------

  function Burst<C>(c: C, at: real, k: nat): (b: seq<Request<C>>)
    ensures |b| == k && forall i :: 0 <= i < k ==> b[i] == Request(c, at)
  {
    seq(k, _ => Request(c, at))
  }

  /** One request at 0, the rest of its window at W/2, then a full burst at each of W, 2W, ..., nW. */
  function Worst<C>(lim: Limits, c: C, n: nat): seq<Request<C>>
    requires lim.Valid()
  {
    if n == 0 then Burst(c, 0.0, 1) + Burst(c, lim.window / 2.0, lim.max - 1)
    else Worst(lim, c, n - 1) + Burst(c, Windows(lim, n), lim.max)
  }

  lemma {:induction false} BurstInWindow<C>(lim: Limits, rs: seq<Request<C>>, c: C, at: real, k: nat, lo: real)
    requires lim.Valid() && c in After(lim, rs)
    requires at - After(lim, rs)[c].start < lim.window && After(lim, rs)[c].count + k <= lim.max
    ensures c in After(lim, rs + Burst(c, at, k))
    ensures After(lim, rs + Burst(c, at, k))[c] == Slot(After(lim, rs)[c].start, After(lim, rs)[c].count + k)
    ensures Granted(lim, rs + Burst(c, at, k), c, lo, None)
            == Granted(lim, rs, c, lo, None) + if lo <= at then k else 0
  {
    if k == 0 {
      assert rs + Burst(c, at, 0) == rs;
    } else {
      BurstInWindow(lim, rs, c, at, k - 1, lo);
      assert Init(rs + Burst(c, at, k)) == rs + Burst(c, at, k - 1);
    }
  }

  lemma BurstOpensWindow<C>(lim: Limits, rs: seq<Request<C>>, c: C, at: real, k: nat, lo: real)
    requires lim.Valid() && 0 < k <= lim.max && lo <= at
    requires c in After(lim, rs) ==> at - After(lim, rs)[c].start >= lim.window
    ensures c in After(lim, rs + Burst(c, at, k))
    ensures After(lim, rs + Burst(c, at, k))[c] == Slot(at, k)
    ensures Granted(lim, rs + Burst(c, at, k), c, lo, None) == Granted(lim, rs, c, lo, None) + k
  {
    var one := rs + Burst(c, at, 1);
    assert Init(one) == rs && Last(one) == Request(c, at);
    BurstInWindow(lim, one, c, at, k - 1, lo);
    assert one + Burst(c, at, k - 1) == rs + Burst(c, at, k);
  }

  lemma MonotoneAppend<C>(rs: seq<Request<C>>, c: C, at: real, k: nat)
    requires Monotone(rs, c) && forall i :: 0 <= i < |rs| ==> rs[i].at <= at
    ensures Monotone(rs + Burst(c, at, k), c)
    ensures forall i :: 0 <= i < |rs + Burst(c, at, k)| ==> (rs + Burst(c, at, k))[i].at <= at
  {
  }

  /** The sequence ends by `latest` in a window opened at `start`, with `g` grants since W/2. */
  ghost predicate Peak<C>(lim: Limits, rs: seq<Request<C>>, c: C, latest: real, start: real, g: nat) {
    && Monotone(rs, c)
    && (forall i :: 0 <= i < |rs| ==> rs[i].at <= latest)
    && c in After(lim, rs) && After(lim, rs)[c].start == start
    && Granted(lim, rs, c, lim.window / 2.0, None) == g
  }

  lemma PeakStart<C>(lim: Limits, c: C)
    requires lim.Valid()
    ensures Peak(lim, Worst(lim, c, 0), c, lim.window / 2.0, 0.0, lim.max - 1)
  {
    var first, half := Burst(c, 0.0, 1), lim.window / 2.0;
    assert Init(first) == [];
    BurstInWindow(lim, first, c, half, lim.max - 1, half);
    MonotoneAppend(first, c, half, lim.max - 1);
  }

  lemma PeakExtend<C>(lim: Limits, rs: seq<Request<C>>, c: C, latest: real, start: real, g: nat, at: real)
    requires lim.Valid() && Peak(lim, rs, c, latest, start, g)
    requires latest <= at && start + lim.window <= at && lim.window / 2.0 <= at
    ensures Peak(lim, rs + Burst(c, at, lim.max), c, at, at, g + lim.max)
  {
    BurstOpensWindow(lim, rs, c, at, lim.max, lim.window / 2.0);
    MonotoneAppend(rs, c, at, lim.max);
  }

  lemma {:induction false} WorstCase<C>(lim: Limits, c: C, n: nat)
    requires lim.Valid()
    ensures Peak(lim, Worst(lim, c, n), c, if n == 0 then lim.window / 2.0 else Windows(lim, n), Windows(lim, n), Bound(lim, n))
  {
    if n == 0 {
      PeakStart(lim, c);
    } else {
      WorstCase(lim, c, n - 1);
      PeakExtend(lim, Worst(lim, c, n - 1), c, if n == 1 then lim.window / 2.0 else Windows(lim, n - 1),
                 Windows(lim, n - 1), Bound(lim, n - 1), Windows(lim, n));
    }
  }

  /** For every limit and every `n` some request sequence attains the sliding bound exactly. */
  lemma SlidingBoundIsTight<C>(lim: Limits, c: C, n: nat)
    requires lim.Valid() && n > 0
    ensures Monotone(Worst(lim, c, n), c)
    ensures var lo := lim.window / 2.0;
            Granted(lim, Worst(lim, c, n), c, lo, Some(lo + n as real * lim.window)) == lim.max * (n + 1) - 1
  {
    WorstCase(lim, c, n);
    ClosedForms(lim, n);
    var lo := lim.window / 2.0;
    AllBefore(lim, Worst(lim, c, n), c, lo, lo + Windows(lim, n));
  }
}
