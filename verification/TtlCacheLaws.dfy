/**
 Relational laws of the cache: LRU inclusion between two capacities, and the
 equivalence of the lazily purging cache with one that purges before every call.
 */
module TtlCacheLaws {
  import opened Wrappers
  import opened TtlCache

  // ---------- Order-preserving sublists ----------

  predicate Sublist<T(==)>(a: seq<T>, b: seq<T>) {
    a == [] || (b != [] && (if a[0] == b[0] then Sublist(a[1..], b[1..]) else Sublist(a, b[1..])))
  }

  lemma {:induction false} SublistTail<T>(a: seq<T>, b: seq<T>)
    requires Sublist(a, b) && a != []
    ensures Sublist(a[1..], b) && Sublist(a[1..], b[1..])
    decreases |b|, 0
  {
    if a[0] == b[0] {
      SublistWeaken(a[1..], b[1..], b[0]);
      assert [b[0]] + b[1..] == b;
    } else {
      SublistTail(a, b[1..]);
      SublistWeaken(a[1..], b[1..], b[0]);
      assert [b[0]] + b[1..] == b;
    }
  }

  lemma {:induction false} SublistWeaken<T>(a: seq<T>, b: seq<T>, x: T)
    requires Sublist(a, b)
    ensures Sublist(a, [x] + b)
    decreases |b|, 1
  {
    assert ([x] + b)[1..] == b;
    if a != [] && a[0] == x {
      if a[0] == b[0] {
        SublistWeaken(a[1..], b[1..], b[0]);
        assert [b[0]] + b[1..] == b;
      } else {
        SublistTail(a, b);
      }
    }
  }

  lemma {:induction false} SublistMembers<T>(a: seq<T>, b: seq<T>)
    requires Sublist(a, b)
    ensures |a| <= |b|
    ensures forall e :: e in a ==> e in b
  {
    if a != [] {
      if a[0] == b[0] {
        SublistMembers(a[1..], b[1..]);
        forall e | e in a ensures e in b {
          if e != a[0] {
            assert e in a[1..];
          }
        }
      } else {
        SublistMembers(a, b[1..]);
      }
    }
  }

  /** Filtering keeps sublists and never widens the size gap between them. */
  lemma {:induction false} SublistFilter<T>(p: T -> bool, a: seq<T>, b: seq<T>)
    requires Sublist(a, b)
    ensures Sublist(Filter(p, a), Filter(p, b))
    ensures |Filter(p, b)| - |Filter(p, a)| <= |b| - |a|
  {
    if a == [] {
    } else if a[0] == b[0] {
      SublistFilter(p, a[1..], b[1..]);
      if p(a[0]) {
        assert Filter(p, a)[1..] == Filter(p, a[1..]);
        assert Filter(p, b)[1..] == Filter(p, b[1..]);
      } else {
        assert Filter(p, a) == Filter(p, a[1..]) && Filter(p, b) == Filter(p, b[1..]);
      }
    } else {
      SublistFilter(p, a, b[1..]);
      if p(b[0]) {
        SublistWeaken(Filter(p, a), Filter(p, b[1..]), b[0]);
      } else {
        assert Filter(p, b) == Filter(p, b[1..]);
      }
    }
  }

  lemma {:induction false} SublistAppend<T>(a: seq<T>, b: seq<T>, e: T)
    requires Sublist(a, b)
    ensures Sublist(a + [e], b + [e])
  {
    if b == [] {
    } else if a == [] {
      SublistAppend(a, b[1..], e);
      assert b + [e] == [b[0]] + (b[1..] + [e]);
      SublistWeaken(a + [e], b[1..] + [e], b[0]);
    } else {
      assert (b + [e])[1..] == b[1..] + [e];
      assert (a + [e])[1..] == a[1..] + [e];
      if a[0] == b[0] {
        SublistAppend(a[1..], b[1..], e);
      } else {
        SublistAppend(a, b[1..], e);
      }
    }
  }

  lemma {:induction false} SublistDropLarge<T>(a: seq<T>, b: seq<T>, n: nat)
    requires Sublist(a, b) && n <= |a|
    ensures n <= |b| && Sublist(a[n..], b[n..])
    decreases n
  {
    SublistMembers(a, b);
    if n == 0 {
      assert a[0..] == a && b[0..] == b;
    } else {
      SublistTail(a, b);
      SublistDropLarge(a[1..], b[1..], n - 1);
      assert a[1..][n - 1..] == a[n..] && b[1..][n - 1..] == b[n..];
    }
  }

  lemma {:induction false} SublistDropSmall<T>(a: seq<T>, b: seq<T>, n: nat)
    requires Sublist(a, b) && n <= |a|
    ensures Sublist(a[n..], b)
    decreases n
  {
    if n == 0 {
      assert a[0..] == a;
    } else {
      SublistTail(a, b);
      SublistDropSmall(a[1..], b, n - 1);
      assert a[1..][n - 1..] == a[n..];
    }
  }

  /** Evicting the least recently used entries keeps inclusion as long as the gap fits the capacities. */
  lemma SublistEvict<T>(a: seq<T>, b: seq<T>, k: nat, m: nat)
    requires Sublist(a, b) && k <= m && |b| - |a| <= m - k && |a| <= k + 1 && |b| <= m + 1
    ensures Sublist(Evict(a, k), Evict(b, m))
    ensures |Evict(b, m)| - |Evict(a, k)| <= m - k
  {
    if |b| > m {
      SublistDropLarge(a, b, 1);
    } else if |a| > k {
      SublistDropSmall(a, b, 1);
    }
  }

  // ---------- LRU inclusion ----------

  /** A smaller cache included in a larger one. */
  ghost predicate Included<K, V>(small: Cache<K, V>, large: Cache<K, V>) {
    && Valid(small) && Valid(large)
    && small.cap <= large.cap && small.default == large.default
    && Sublist(small.entries, large.entries)
    && |large.entries| - |small.entries| <= large.cap - small.cap
  }

  /** Whatever the smaller cache answers positively, the larger one answers too. */
  ghost predicate Dominated<K, V>(small: Reply<K, V>, large: Reply<K, V>) {
    match small
    case Done => large == Done
    case Value(v) => large == small
    case Nothing => large.Nothing? || large.Value? || large.ValueError?
    case Flag(b) => large.Flag? && (b ==> large.b)
    case Size(n) => large.Size? && n <= large.n
    case KeyList(ks) => large.KeyList? && Sublist(ks, large.ks)
    case ValueError => large.ValueError?
  }

  lemma IncludedFind<K, V>(small: Cache<K, V>, large: Cache<K, V>, k: K)
    requires Included(small, large) && Find(small.entries, k).Some?
    ensures Find(large.entries, k) == Find(small.entries, k)
  {
    SublistMembers(small.entries, large.entries);
    FindUnique(large.entries, Find(small.entries, k).value);
  }

  lemma RemoveAbsent<K, V>(es: seq<Entry<K, V>>, k: K)
    requires Find(es, k).None?
    ensures Remove(es, k) == es
  {
    FilterAll((e: Entry<K, V>) => e.key != k, es);
  }

  lemma IncludedRemove<K, V>(small: Cache<K, V>, large: Cache<K, V>, k: K)
    requires Included(small, large)
    ensures Sublist(Remove(small.entries, k), Remove(large.entries, k))
    ensures |Remove(large.entries, k)| - |Remove(small.entries, k)| <= large.cap - small.cap
    ensures Find(small.entries, k).None? ==> Remove(small.entries, k) == small.entries
    ensures Find(large.entries, k).None? ==> Remove(large.entries, k) == large.entries && Find(small.entries, k).None?
  {
    SublistFilter((e: Entry<K, V>) => e.key != k, small.entries, large.entries);
    if Find(small.entries, k).None? {
      RemoveAbsent(small.entries, k);
    } else {
      IncludedFind(small, large, k);
    }
    if Find(large.entries, k).None? {
      RemoveAbsent(large.entries, k);
    }
  }

  lemma IncludedSet<K, V>(small: Cache<K, V>, large: Cache<K, V>, k: K, v: V, ttl: TtlArg, at: Reading)
    requires Included(small, large) && Lifetime(small.default, ttl).Some?
    ensures var (s, rs) := Step(small, Set(k, v, ttl), at);
            var (l, rl) := Step(large, Set(k, v, ttl), at);
            Sublist(s.entries, l.entries) && |l.entries| - |s.entries| <= large.cap - small.cap && Dominated(rs, rl)
  {
    var e := Entry(k, v, Plus(at.mono, Lifetime(small.default, ttl).value));
    SetClosedForm(small, k, v, ttl, at.mono);
    SetClosedForm(large, k, v, ttl, at.mono);
    IncludedRemove(small, large, k);
    SublistFilter((x: Entry<K, V>) => Lt(Fin(at.mono), x.expiresAt), Remove(small.entries, k), Remove(large.entries, k));
    var a := Live(Remove(small.entries, k), at.mono);
    var b := Live(Remove(large.entries, k), at.mono);
    SublistAppend(a, b, e);
    SublistEvict(a + [e], b + [e], small.cap, large.cap);
  }

  lemma IncludedGet<K, V>(small: Cache<K, V>, large: Cache<K, V>, k: K, now: NowArg, at: Reading)
    requires Included(small, large)
    ensures var (s, rs) := Step(small, Get(k, now), at);
            var (l, rl) := Step(large, Get(k, now), at);
            Sublist(s.entries, l.entries) && |l.entries| - |s.entries| <= large.cap - small.cap && Dominated(rs, rl)
  {
    if Find(small.entries, k).Some? {
      IncludedFind(small, large, k);
      IncludedRemove(small, large, k);
      SublistAppend(Remove(small.entries, k), Remove(large.entries, k), Find(large.entries, k).value);
    } else if Find(large.entries, k).Some? {
      IncludedOnlyLarge(small, large, k);
    }
  }

  /** A key only the larger cache holds may be dropped or refreshed there without losing inclusion. */
  lemma IncludedOnlyLarge<K, V>(small: Cache<K, V>, large: Cache<K, V>, k: K)
    requires Included(small, large) && Find(small.entries, k).None? && Find(large.entries, k).Some?
    ensures Sublist(small.entries, Remove(large.entries, k))
    ensures Sublist(small.entries, MoveToEnd(large.entries, k))
    ensures |Remove(large.entries, k)| < |MoveToEnd(large.entries, k)| == |large.entries|
  {
    IncludedRemove(small, large, k);
    RemoveShrinks(large.entries, k);
    SublistBelow(small.entries, Remove(large.entries, k), [Find(large.entries, k).value]);
  }

  lemma {:induction false} SublistBelow<T>(a: seq<T>, b: seq<T>, c: seq<T>)
    requires Sublist(a, b)
    ensures Sublist(a, b + c)
  {
    if a != [] {
      assert (b + c)[1..] == b[1..] + c;
      SublistBelow(if a[0] == b[0] then a[1..] else a, b[1..], c);
    }
  }

  lemma {:induction false} SublistKeys<K, V>(a: seq<Entry<K, V>>, b: seq<Entry<K, V>>)
    requires Sublist(a, b)
    ensures Sublist(KeysOf(a), KeysOf(b))
  {
    if a != [] {
      assert KeysOf(b)[1..] == KeysOf(b[1..]);
      assert KeysOf(a)[1..] == KeysOf(a[1..]);
      if a[0] == b[0] {
        SublistKeys(a[1..], b[1..]);
      } else {
        SublistKeys(a, b[1..]);
        SublistWeaken(KeysOf(a), KeysOf(b[1..]), b[0].key);
        assert KeysOf(b) == [b[0].key] + KeysOf(b[1..]);
      }
    }
  }

  /** One operation with the same clock readings keeps inclusion, and the larger cache dominates the answer. */
  lemma InclusionStep<K, V>(small: Cache<K, V>, large: Cache<K, V>, op: Op<K, V>, at: Reading)
    requires Included(small, large)
    ensures Included(Step(small, op, at).0, Step(large, op, at).0)
    ensures Dominated(Step(small, op, at).1, Step(large, op, at).1)
  {
    StepKeepsValid(small, op, at);
    StepKeepsValid(large, op, at);
    match op
    case Set(k, v, ttl) =>
      if Lifetime(small.default, ttl).Some? {
        IncludedSet(small, large, k, v, ttl, at);
      }
    case Get(k, now) => IncludedGet(small, large, k, now, at);
    case Delete(k) =>
      IncludedRemove(small, large, k);
      if Find(small.entries, k).Some? {
        IncludedFind(small, large, k);
      }
    case Contains(k) =>
      IncludedRemove(small, large, k);
      if Find(small.entries, k).Some? {
        IncludedFind(small, large, k);
      }
    case Clear =>
    case Len => IncludedPurge(small, large, at.mono);
    case Keys =>
      IncludedPurge(small, large, at.mono);
      SublistKeys(Purge(small, at.mono).entries, Purge(large, at.mono).entries);
  }

  lemma IncludedPurge<K, V>(small: Cache<K, V>, large: Cache<K, V>, now: real)
    requires Included(small, large)
    ensures var s, l := Purge(small, now).entries, Purge(large, now).entries;
            Sublist(s, l) && |s| <= |l| && |l| - |s| <= large.cap - small.cap
  {
    PurgeIsScan(small, now);
    PurgeIsScan(large, now);
    SublistFilter((x: Entry<K, V>) => Lt(Fin(now), x.expiresAt), small.entries, large.entries);
    SublistMembers(Live(small.entries, now), Live(large.entries, now));
  }

  /** A program for the cache: operations with the clock readings taken while they run. */
  datatype Event<K, V> = Event(op: Op<K, V>, at: Reading)

  function Run<K(==), V>(c: Cache<K, V>, events: seq<Event<K, V>>): Cache<K, V> {
    if events == [] then c
    else
      var last := events[|events| - 1];
      Step(Run(c, events[..|events| - 1]), last.op, last.at).0
  }

  lemma {:induction false} RunKeepsValid<K, V>(c: Cache<K, V>, events: seq<Event<K, V>>)
    requires Valid(c)
    ensures Valid(Run(c, events)) && Run(c, events).cap == c.cap && Run(c, events).default == c.default
  {
    if events != [] {
      var last := events[|events| - 1];
      RunKeepsValid(c, events[..|events| - 1]);
      StepKeepsValid(Run(c, events[..|events| - 1]), last.op, last.at);
    }
  }

  lemma {:induction false} InclusionRun<K, V>(small: Cache<K, V>, large: Cache<K, V>, events: seq<Event<K, V>>)
    requires Included(small, large)
    ensures Included(Run(small, events), Run(large, events))
  {
    if events != [] {
      var last := events[|events| - 1];
      InclusionRun(small, large, events[..|events| - 1]);
      InclusionStep(Run(small, events[..|events| - 1]), Run(large, events[..|events| - 1]), last.op, last.at);
    }
  }

  /**
   LRU inclusion: after any program run on fresh caches of capacities k <= m, the
   entries of the smaller are an order-preserving sublist of those of the larger,
   and every further answer of the smaller is dominated by that of the larger.
   */
  lemma LruInclusion<K, V>(k: nat, m: nat, default: Stamp, events: seq<Event<K, V>>, op: Op<K, V>, at: Reading)
    requires 0 < k <= m && ValidTtl(default)
    ensures var s: Cache<K, V>, l: Cache<K, V> := Run(Empty(k, default), events), Run(Empty(m, default), events);
            && Sublist(s.entries, l.entries)
            && |l.entries| - |s.entries| <= m - k
            && Dominated(Step(s, op, at).1, Step(l, op, at).1)
  {
    InclusionRun<K, V>(Empty(k, default), Empty(m, default), events);
    var s: Cache<K, V>, l: Cache<K, V> := Run(Empty(k, default), events), Run(Empty(m, default), events);
    RunKeepsValid<K, V>(Empty(k, default), events);
    RunKeepsValid<K, V>(Empty(m, default), events);
    InclusionStep(s, l, op, at);
  }

  // ---------- Lazy purging refines eager purging ----------

  /** The reference cache: drop everything expired at the clock reading, then do the operation. */
  function Purged<K, V>(c: Cache<K, V>, now: real): Cache<K, V> {
    c.(entries := Live(c.entries, now))
  }

  function EagerStep<K(==), V>(c: Cache<K, V>, op: Op<K, V>, at: Reading): (Cache<K, V>, Reply<K, V>) {
    Step(Purged(c, at.mono), op, at)
  }

  function EagerRun<K(==), V>(c: Cache<K, V>, events: seq<Event<K, V>>): Cache<K, V> {
    if events == [] then c
    else
      var last := events[|events| - 1];
      EagerStep(EagerRun(c, events[..|events| - 1]), last.op, last.at).0
  }

  /** A `get` whose resolved time does not lie before the clock; every other operation qualifies. */
  predicate Timely<K, V>(op: Op<K, V>, at: Reading) {
    op.Get? ==> var t := Resolve(op.now, at); t.Some? && Le(Fin(at.mono), t.value)
  }

  /** Up to entries already expired at the clock, both caches hold the same list. */
  ghost predicate SameLive<K, V>(lazy: Cache<K, V>, eager: Cache<K, V>, now: real) {
    && Valid(lazy) && Valid(eager)
    && lazy.cap == eager.cap && lazy.default == eager.default
    && Live(lazy.entries, now) == Live(eager.entries, now)
  }

  lemma LiveLater<K, V>(es: seq<Entry<K, V>>, t: real, u: real)
    requires t <= u
    ensures Live(Live(es, t), u) == Live(es, u)
    ensures Live(Live(es, u), t) == Live(es, u)
  {
    FilterCompose((e: Entry<K, V>) => Lt(Fin(u), e.expiresAt), (e: Entry<K, V>) => Lt(Fin(t), e.expiresAt),
                  (e: Entry<K, V>) => Lt(Fin(u), e.expiresAt), es);
    FilterCompose((e: Entry<K, V>) => Lt(Fin(t), e.expiresAt), (e: Entry<K, V>) => Lt(Fin(u), e.expiresAt),
                  (e: Entry<K, V>) => Lt(Fin(u), e.expiresAt), es);
  }

  lemma LiveRemove<K, V>(es: seq<Entry<K, V>>, k: K, now: real)
    ensures Live(Remove(es, k), now) == Remove(Live(es, now), k)
  {
    var p := (e: Entry<K, V>) => Lt(Fin(now), e.expiresAt);
    var q := (e: Entry<K, V>) => e.key != k;
    var r := (e: Entry<K, V>) => Lt(Fin(now), e.expiresAt) && e.key != k;
    FilterCompose(p, q, r, es);
    FilterCompose(q, p, r, es);
  }

  lemma FindLive<K, V>(es: seq<Entry<K, V>>, k: K, now: real)
    requires Unique(es)
    ensures var f := Find(es, k);
            Find(Live(es, now), k) == if f.Some? && Lt(Fin(now), f.value.expiresAt) then f else None
  {
    FilterUnique((e: Entry<K, V>) => Lt(Fin(now), e.expiresAt), es);
    var f, g := Find(es, k), Find(Live(es, now), k);
    if g.Some? {
      FindUnique(es, g.value);
    }
    if f.Some? && Lt(Fin(now), f.value.expiresAt) {
      FindUnique(Live(es, now), f.value);
    }
  }

  lemma PurgedValid<K, V>(c: Cache<K, V>, now: real)
    requires Valid(c)
    ensures Valid(Purged(c, now))
  {
    FilterUnique((e: Entry<K, V>) => Lt(Fin(now), e.expiresAt), c.entries);
  }

  lemma LazySet<K, V>(c: Cache<K, V>, d: Cache<K, V>, k: K, v: V, ttl: TtlArg, now: real)
    requires Valid(c) && Valid(d) && c.cap == d.cap && c.default == d.default && d.entries == Live(c.entries, now)
    ensures SetStep(c, k, v, ttl, now).1 == SetStep(d, k, v, ttl, now).1
    ensures Live(SetStep(c, k, v, ttl, now).0.entries, now) == Live(SetStep(d, k, v, ttl, now).0.entries, now)
  {
    LiveLater(c.entries, now, now);
    if Lifetime(c.default, ttl).Some? {
      SetClosedForm(c, k, v, ttl, now);
      SetClosedForm(d, k, v, ttl, now);
      LiveRemove(c.entries, k, now);
      LiveRemove(d.entries, k, now);
    }
  }

  lemma LazyGet<K, V>(c: Cache<K, V>, d: Cache<K, V>, k: K, t: NowArg, at: Reading)
    requires Valid(c) && Valid(d) && d.entries == Live(c.entries, at.mono)
    requires Timely<K, V>(Get(k, t), at)
    ensures GetStep(c, k, t, at).1 == GetStep(d, k, t, at).1
    ensures Live(GetStep(c, k, t, at).0.entries, at.mono) == Live(GetStep(d, k, t, at).0.entries, at.mono)
  {
    var now := at.mono;
    LiveLater(c.entries, now, now);
    LiveRemove(c.entries, k, now);
    LiveRemove(d.entries, k, now);
    FindLive(c.entries, k, now);
    var f := Find(c.entries, k);
    if f.Some? {
      FilterAppend((e: Entry<K, V>) => Lt(Fin(now), e.expiresAt), Remove(c.entries, k), [f.value]);
      FilterAppend((e: Entry<K, V>) => Lt(Fin(now), e.expiresAt), Remove(d.entries, k), [f.value]);
      if Find(d.entries, k).None? {
        RemoveAbsent(d.entries, k);
      }
    }
  }

  lemma LazyOther<K, V>(c: Cache<K, V>, d: Cache<K, V>, op: Op<K, V>, at: Reading)
    requires Valid(c) && Valid(d) && d.entries == Live(c.entries, at.mono)
    requires !op.Set? && !op.Get?
    ensures Step(c, op, at).1 == Step(d, op, at).1
    ensures Live(Step(c, op, at).0.entries, at.mono) == Live(Step(d, op, at).0.entries, at.mono)
  {
    var now := at.mono;
    LiveLater(c.entries, now, now);
    match op
    case Clear =>
    case Len =>
      PurgeIsScan(c, now);
      PurgeIsScan(d, now);
    case Keys =>
      PurgeIsScan(c, now);
      PurgeIsScan(d, now);
    case Delete(k) => LazyDrop(c, d, k, now);
    case Contains(k) => LazyDrop(c, d, k, now);
  }

  lemma LazyDrop<K, V>(c: Cache<K, V>, d: Cache<K, V>, k: K, now: real)
    requires Valid(c) && d.entries == Live(c.entries, now)
    ensures Live(Remove(c.entries, k), now) == Live(Remove(d.entries, k), now)
    ensures Find(d.entries, k).None? ==> Live(Remove(c.entries, k), now) == Live(d.entries, now)
    ensures var f := Find(c.entries, k);
            Find(d.entries, k) == if f.Some? && Lt(Fin(now), f.value.expiresAt) then f else None
  {
    LiveLater(c.entries, now, now);
    LiveRemove(c.entries, k, now);
    LiveRemove(d.entries, k, now);
    FindLive(c.entries, k, now);
    if Find(d.entries, k).None? {
      RemoveAbsent(d.entries, k);
    }
  }

  /** One timely operation: same answer, and the same live entries afterwards. */
  lemma LazyStep<K, V>(lazy: Cache<K, V>, eager: Cache<K, V>, before: real, op: Op<K, V>, at: Reading)
    requires SameLive(lazy, eager, before) && before <= at.mono && Timely(op, at)
    ensures Step(lazy, op, at).1 == EagerStep(eager, op, at).1
    ensures SameLive(Step(lazy, op, at).0, EagerStep(eager, op, at).0, at.mono)
  {
    var now := at.mono;
    LiveLater(lazy.entries, before, now);
    LiveLater(eager.entries, before, now);
    var d := Purged(eager, now);
    PurgedValid(eager, now);
    assert d.entries == Live(lazy.entries, now);
    StepKeepsValid(lazy, op, at);
    StepKeepsValid(d, op, at);
    match op
    case Set(k, v, ttl) => LazySet(lazy, d, k, v, ttl, now);
    case Get(k, t) => LazyGet(lazy, d, k, t, at);
    case _ => LazyOther(lazy, d, op, at);
  }

  ghost predicate Monotone<K, V>(events: seq<Event<K, V>>) {
    forall i, j :: 0 <= i < j < |events| ==> events[i].at.mono <= events[j].at.mono
  }

  ghost predicate AllTimely<K, V>(events: seq<Event<K, V>>) {
    forall i :: 0 <= i < |events| ==> Timely(events[i].op, events[i].at)
  }

  lemma {:induction false} LazyRun<K, V>(cap: nat, default: Stamp, events: seq<Event<K, V>>, now: real)
    requires Config(cap, default) && Monotone(events) && AllTimely(events)
    requires events == [] || events[|events| - 1].at.mono <= now
    ensures SameLive(Run(Empty(cap, default), events), EagerRun(Empty(cap, default), events), now)
  {
    if events != [] {
      var prev, last := events[..|events| - 1], events[|events| - 1];
      LazyRun(cap, default, prev, last.at.mono);
      var l: Cache<K, V>, e: Cache<K, V> := Run(Empty(cap, default), prev), EagerRun(Empty(cap, default), prev);
      LazyStep(l, e, last.at.mono, last.op, last.at);
      var l', e' := Step(l, last.op, last.at).0, EagerStep(e, last.op, last.at).0;
      LiveLater(l'.entries, last.at.mono, now);
      LiveLater(e'.entries, last.at.mono, now);
    }
  }

  /** For nondecreasing clocks and timely lookups no program can tell lazy purging from eager purging. */
  lemma LazyRefinesEager<K, V>(cap: nat, default: Stamp, events: seq<Event<K, V>>, op: Op<K, V>, at: Reading)
    requires Config(cap, default) && Monotone(events + [Event(op, at)]) && AllTimely(events) && Timely(op, at)
    ensures Step(Run(Empty(cap, default), events), op, at).1 == EagerStep(EagerRun(Empty(cap, default), events), op, at).1
  {
    var all := events + [Event(op, at)];
    assert forall i :: 0 <= i < |events| ==> all[i] == events[i];
    assert all[|events|] == Event(op, at);
    LazyRun(cap, default, events, at.mono);
    LazyStep<K, V>(Run(Empty(cap, default), events), EagerRun(Empty(cap, default), events), at.mono, op, at);
  }

  /**
   The restriction to timely lookups is exact: for an untimely `get` there is a
   program on which the lazy cache answers from an entry (or rejects an argument)
   where the eager cache reports a miss.
   */
  lemma UntimelyGetObservable<K, V>(cap: nat, default: Stamp, k: K, v: V, now: NowArg, at: Reading)
    requires Config(cap, default) && !Timely<K, V>(Get(k, now), at)
    ensures exists events: seq<Event<K, V>> ::
              && Monotone(events + [Event(Get(k, now), at)]) && AllTimely(events)
              && Step(Run(Empty(cap, default), events), Get(k, now), at).1
                 != EagerStep(EagerRun(Empty(cap, default), events), Get(k, now), at).1
  {
    var t0 := Reading(at.mono - 1.0, at.wall);
    var set1 := Event(Set(k, v, Seconds(Fin(1.0))), t0);
    var events := [set1];
    var c: Cache<K, V> := Empty(cap, default);
    var e := Entry(k, v, Fin(at.mono));
    assert events[..0] == [];
    assert Run(c, events) == Step(Run(c, []), set1.op, t0).0;
    assert EagerRun(c, events) == EagerStep(EagerRun(c, []), set1.op, t0).0;
    SetClosedForm(c, k, v, Seconds(Fin(1.0)), t0.mono);
    assert Live(c.entries, t0.mono) == [];
    assert c.(entries := []) == c;
    assert Run(c, events).entries == [e] && EagerRun(c, events).entries == [e];
    assert Live([e], at.mono) == [];
    assert Find([e], k) == Some(e);
    var all := events + [Event(Get(k, now), at)];
    assert all[0] == set1 && all[1] == Event(Get(k, now), at);
    assert Monotone(all);
  }
}
