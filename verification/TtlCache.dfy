/**
 The bounded in-memory cache of src/cache/ttl_cache.py.

 Time is modelled over `real` extended with both infinities; clock readings are
 parameters of each operation.  `Cache` is the abstract value of a cache object
 and `Step` its behaviour on one operation; class `TTLCache` is the object itself,
 with the entry list and the `_next_expiry` shortcut as mutable fields.
 */
module TtlCache {
  import opened Wrappers

  // ---------- Time ----------

  datatype Stamp = NegInf | Fin(r: real) | PosInf

  predicate Le(a: Stamp, b: Stamp) {
    a.NegInf? || b.PosInf? || (a.Fin? && b.Fin? && a.r <= b.r)
  }

  predicate Lt(a: Stamp, b: Stamp) {
    !Le(b, a)
  }

  function Min(a: Stamp, b: Stamp): Stamp {
    if Lt(a, b) then a else b
  }

  const WALL_CLOCK_THRESHOLD: real := 1000000000.0

  /** One reading of `time.monotonic()` and of `time.time()`. */
  datatype Reading = Reading(mono: real, wall: real)

  /** The optional `ttl` argument; `BadTtl` stands for every non-numeric or NaN value. */
  datatype TtlArg = DefaultTtl | Seconds(s: Stamp) | BadTtl

  /** The optional `now` argument; `BadNow` stands for every non-numeric or NaN value. */
  datatype NowArg = Unspecified | Moment(s: Stamp) | BadNow

  predicate ValidTtl(s: Stamp) {
    Lt(Fin(0.0), s)
  }

  function Lifetime(default: Stamp, ttl: TtlArg): Option<Stamp> {
    match ttl
    case DefaultTtl => Some(default)
    case Seconds(s) => if ValidTtl(s) then Some(s) else None
    case BadTtl => None
  }

  function Plus(now: real, life: Stamp): Stamp {
    if life.Fin? then Fin(now + life.r) else life
  }

  /** `_resolve_now`: wall-clock stamps are mapped onto the monotonic timeline. */
  function Resolve(now: NowArg, at: Reading): Option<Stamp> {
    match now
    case Unspecified => Some(Fin(at.mono))
    case BadNow => None
    case Moment(s) =>
      if Le(Fin(WALL_CLOCK_THRESHOLD), s) then Some(if s.Fin? then Fin(at.mono + (s.r - at.wall)) else s)
      else Some(s)
  }

  // ---------- Entry lists, least recently used first ----------

  datatype Entry<K, V> = Entry(key: K, value: V, expiresAt: Stamp)

  function Filter<T>(p: T -> bool, es: seq<T>): (r: seq<T>)
    ensures |r| <= |es|
    ensures forall e :: e in r ==> e in es && p(e)
    ensures forall e :: e in es && p(e) ==> e in r
  {
    if es == [] then [] else (if p(es[0]) then [es[0]] else []) + Filter(p, es[1..])
  }

  function Remove<K(==), V>(es: seq<Entry<K, V>>, k: K): seq<Entry<K, V>> {
    Filter((e: Entry<K, V>) => e.key != k, es)
  }

  function Live<K, V>(es: seq<Entry<K, V>>, now: real): seq<Entry<K, V>> {
    Filter((e: Entry<K, V>) => Lt(Fin(now), e.expiresAt), es)
  }

  function Find<K(==), V>(es: seq<Entry<K, V>>, k: K): (r: Option<Entry<K, V>>)
    ensures r.Some? ==> r.value in es && r.value.key == k
    ensures r.None? ==> forall e :: e in es ==> e.key != k
  {
    if es == [] then None else if es[0].key == k then Some(es[0]) else Find(es[1..], k)
  }

  /** `d[k] = e`: an existing key keeps its position, a new key goes last. */
  function Assign<K(==), V>(es: seq<Entry<K, V>>, e: Entry<K, V>): seq<Entry<K, V>> {
    if es == [] then [e]
    else if es[0].key == e.key then [e] + es[1..]
    else [es[0]] + Assign(es[1..], e)
  }

  /** `d.move_to_end(k)`. */
  function MoveToEnd<K(==), V>(es: seq<Entry<K, V>>, k: K): seq<Entry<K, V>> {
    var f := Find(es, k);
    if f.None? then es else Remove(es, k) + [f.value]
  }

  function Evict<T>(es: seq<T>, cap: nat): seq<T> {
    if |es| > cap then es[|es| - cap..] else es
  }

  function MinExpiry<K, V>(es: seq<Entry<K, V>>): (m: Stamp)
    ensures forall e :: e in es ==> Le(m, e.expiresAt)
  {
    if es == [] then PosInf else Min(es[0].expiresAt, MinExpiry(es[1..]))
  }

  ghost predicate Unique<K, V>(es: seq<Entry<K, V>>) {
    forall i, j :: 0 <= i < j < |es| ==> es[i].key != es[j].key
  }

  // ---------- The cache value and its operations ----------

  datatype Cache<K, V> = Cache(cap: nat, default: Stamp, entries: seq<Entry<K, V>>, next: Stamp)

  function Empty<K, V>(cap: nat, default: Stamp): Cache<K, V> {
    Cache(cap, default, [], PosInf)
  }

  ghost predicate Config(cap: nat, default: Stamp) {
    cap > 0 && ValidTtl(default)
  }

  /** What every operation keeps; the last conjunct is the soundness of the `_next_expiry` shortcut. */
  ghost predicate Valid<K, V>(c: Cache<K, V>) {
    && Config(c.cap, c.default)
    && Unique(c.entries)
    && |c.entries| <= c.cap
    && LowerBound(c.next, c.entries)
  }

  ghost predicate LowerBound<K, V>(next: Stamp, es: seq<Entry<K, V>>) {
    forall e :: e in es ==> Le(next, e.expiresAt)
  }

  /** `_purge_expired`, with its early exit. */
  function Purge<K, V>(c: Cache<K, V>, now: real): Cache<K, V> {
    if Lt(Fin(now), c.next) then c
    else c.(entries := Live(c.entries, now), next := MinExpiry(Live(c.entries, now)))
  }

  datatype Op<K, V> =
    | Set(k: K, v: V, ttl: TtlArg)
    | Get(k: K, now: NowArg)
    | Delete(k: K)
    | Clear
    | Contains(k: K)
    | Len
    | Keys

  datatype Reply<K, V> =
    | Done
    | Value(v: V)
    | Nothing
    | Flag(b: bool)
    | Size(n: nat)
    | KeyList(ks: seq<K>)
    | ValueError

  function Insert<K(==), V>(c: Cache<K, V>, e: Entry<K, V>): Cache<K, V> {
    c.(entries := MoveToEnd(Assign(c.entries, e), e.key), next := Min(e.expiresAt, c.next))
  }

  function SetStep<K(==), V>(c: Cache<K, V>, k: K, v: V, ttl: TtlArg, now: real): (Cache<K, V>, Reply<K, V>) {
    var life := Lifetime(c.default, ttl);
    if life.None? then (c, ValueError)
    else
      var purged := Purge(Insert(c, Entry(k, v, Plus(now, life.value))), now);
      (purged.(entries := Evict(purged.entries, c.cap)), Done)
  }

  function GetStep<K(==), V>(c: Cache<K, V>, k: K, now: NowArg, at: Reading): (Cache<K, V>, Reply<K, V>) {
    var f := Find(c.entries, k);
    if f.None? then (c, Nothing)
    else
      var t := Resolve(now, at);
      if t.None? then (c, ValueError)
      else if Le(f.value.expiresAt, t.value) then (c.(entries := Remove(c.entries, k)), Nothing)
      else (c.(entries := MoveToEnd(c.entries, k)), Value(f.value.value))
  }

  function DeleteStep<K(==), V>(c: Cache<K, V>, k: K, now: real): (Cache<K, V>, Reply<K, V>) {
    var f := Find(c.entries, k);
    if f.None? then (c, Flag(false))
    else (c.(entries := Remove(c.entries, k)), Flag(Lt(Fin(now), f.value.expiresAt)))
  }

  function ContainsStep<K(==), V>(c: Cache<K, V>, k: K, now: real): (Cache<K, V>, Reply<K, V>) {
    var f := Find(c.entries, k);
    if f.None? then (c, Flag(false))
    else if Le(f.value.expiresAt, Fin(now)) then (c.(entries := Remove(c.entries, k)), Flag(false))
    else (c, Flag(true))
  }

  function KeysOf<K, V>(es: seq<Entry<K, V>>): (ks: seq<K>)
    ensures |ks| == |es|
    ensures forall i :: 0 <= i < |es| ==> ks[i] == es[i].key
  {
    seq(|es|, i requires 0 <= i < |es| => es[i].key)
  }

  function Step<K(==), V>(c: Cache<K, V>, op: Op<K, V>, at: Reading): (Cache<K, V>, Reply<K, V>) {
    match op
    case Set(k, v, ttl) => SetStep(c, k, v, ttl, at.mono)
    case Get(k, now) => GetStep(c, k, now, at)
    case Delete(k) => DeleteStep(c, k, at.mono)
    case Clear => (c.(entries := [], next := PosInf), Done)
    case Contains(k) => ContainsStep(c, k, at.mono)
    case Len => var p := Purge(c, at.mono); (p, Size(|p.entries|))
    case Keys => var p := Purge(c, at.mono); (p, KeyList(KeysOf(p.entries)))
  }

  // ---------- List laws ----------

  lemma {:induction false} FilterAppend<T>(p: T -> bool, a: seq<T>, b: seq<T>)
    ensures Filter(p, a + b) == Filter(p, a) + Filter(p, b)
  {
    if a == [] {
      assert a + b == b;
    } else {
      assert (a + b)[1..] == a[1..] + b;
      FilterAppend(p, a[1..], b);
    }
  }

  lemma {:induction false} FilterAll<T>(p: T -> bool, es: seq<T>)
    requires forall e :: e in es ==> p(e)
    ensures Filter(p, es) == es
  {
    if es != [] {
      FilterAll(p, es[1..]);
    }
  }

  lemma {:induction false} FilterCompose<T>(p: T -> bool, q: T -> bool, r: T -> bool, es: seq<T>)
    requires forall e :: e in es ==> (r(e) <==> p(e) && q(e))
    ensures Filter(p, Filter(q, es)) == Filter(r, es)
  {
    if es != [] {
      FilterCompose(p, q, r, es[1..]);
      FilterAppend(p, if q(es[0]) then [es[0]] else [], Filter(q, es[1..]));
    }
  }

  lemma {:induction false} FilterUnique<K, V>(p: Entry<K, V> -> bool, es: seq<Entry<K, V>>)
    requires Unique(es)
    ensures Unique(Filter(p, es))
  {
    if es != [] {
      FilterUnique(p, es[1..]);
      forall e | e in Filter(p, es[1..]) ensures e.key != es[0].key {
        assert e in es[1..];
      }
    }
  }

  lemma UniqueAppend<K, V>(es: seq<Entry<K, V>>, e: Entry<K, V>)
    requires Unique(es) && forall x :: x in es ==> x.key != e.key
    ensures Unique(es + [e])
  {
    forall i, j | 0 <= i < j < |es + [e]| ensures (es + [e])[i].key != (es + [e])[j].key {
      assert es[i] in es;
    }
  }

  /** In a list without duplicate keys an entry is found under its own key. */
  lemma {:induction false} FindUnique<K, V>(es: seq<Entry<K, V>>, e: Entry<K, V>)
    requires Unique(es) && e in es
    ensures Find(es, e.key) == Some(e)
  {
    if es[0] != e {
      var i :| 0 <= i < |es| && es[i] == e;
      assert es[1..][i - 1] == e;
      FindUnique(es[1..], e);
    }
  }

  /** `d[k] = e; d.move_to_end(k)` drops any old entry of the key and appends the new one. */
  lemma {:induction false} InsertIsReplace<K, V>(es: seq<Entry<K, V>>, e: Entry<K, V>)
    requires Unique(es)
    ensures MoveToEnd(Assign(es, e), e.key) == Remove(es, e.key) + [e]
  {
    AssignLaws(es, e);
  }

  lemma {:induction false} AssignLaws<K, V>(es: seq<Entry<K, V>>, e: Entry<K, V>)
    requires Unique(es)
    ensures Find(Assign(es, e), e.key) == Some(e)
    ensures Remove(Assign(es, e), e.key) == Remove(es, e.key)
  {
    if es == [] {
    } else if es[0].key == e.key {
      assert ([e] + es[1..])[1..] == es[1..];
    } else {
      assert Assign(es, e)[1..] == Assign(es[1..], e);
      AssignLaws(es[1..], e);
    }
  }

  /** With a sound lower bound the early exit of `_purge_expired` loses nothing: it is the plain scan. */
  lemma PurgeIsScan<K, V>(c: Cache<K, V>, now: real)
    requires LowerBound(c.next, c.entries)
    ensures Purge(c, now).entries == Live(c.entries, now)
    ensures LowerBound(Purge(c, now).next, Purge(c, now).entries)
  {
    if Lt(Fin(now), c.next) {
      FilterAll((e: Entry<K, V>) => Lt(Fin(now), e.expiresAt), c.entries);
    }
  }

  /** The effect of a successful `set` in closed form. */
  lemma SetClosedForm<K, V>(c: Cache<K, V>, k: K, v: V, ttl: TtlArg, now: real)
    requires Valid(c) && Lifetime(c.default, ttl).Some?
    ensures var e := Entry(k, v, Plus(now, Lifetime(c.default, ttl).value));
            && SetStep(c, k, v, ttl, now).0.entries == Evict(Live(Remove(c.entries, k), now) + [e], c.cap)
            && LowerBound(SetStep(c, k, v, ttl, now).0.next, Live(Remove(c.entries, k), now) + [e])
            && Lt(Fin(now), e.expiresAt)
            && Unique(Live(Remove(c.entries, k), now) + [e])
            && |Live(Remove(c.entries, k), now) + [e]| <= c.cap + 1
  {
    var e := Entry(k, v, Plus(now, Lifetime(c.default, ttl).value));
    var ins := Insert(c, e);
    InsertIsReplace(c.entries, e);
    PurgeIsScan(ins, now);
    ReplaceLaws(c.entries, e, now);
  }

  lemma ReplaceLaws<K, V>(es: seq<Entry<K, V>>, e: Entry<K, V>, now: real)
    requires Unique(es) && Lt(Fin(now), e.expiresAt)
    ensures Live(Remove(es, e.key) + [e], now) == Live(Remove(es, e.key), now) + [e]
    ensures Unique(Live(Remove(es, e.key), now) + [e])
  {
    var rest := Remove(es, e.key);
    FilterAppend((x: Entry<K, V>) => Lt(Fin(now), x.expiresAt), rest, [e]);
    FilterUnique((x: Entry<K, V>) => x.key != e.key, es);
    FilterUnique((x: Entry<K, V>) => Lt(Fin(now), x.expiresAt), rest);
    UniqueAppend(Live(rest, now), e);
  }

  /** Every operation keeps the invariant: unique keys, bounded size, sound expiry bound. */
  lemma StepKeepsValid<K, V>(c: Cache<K, V>, op: Op<K, V>, at: Reading)
    requires Valid(c)
    ensures Valid(Step(c, op, at).0)
    ensures Step(c, op, at).0.cap == c.cap && Step(c, op, at).0.default == c.default
  {
    match op
    case Set(k, v, ttl) => SetKeepsValid(c, k, v, ttl, at.mono);
    case Get(k, now) => GetKeepsValid(c, k, now, at);
    case Delete(k) => FilterKeepsValid(c, (e: Entry<K, V>) => e.key != k);
    case Contains(k) => FilterKeepsValid(c, (e: Entry<K, V>) => e.key != k);
    case Clear =>
    case Len => PurgeKeepsValid(c, at.mono);
    case Keys => PurgeKeepsValid(c, at.mono);
  }

  lemma SetKeepsValid<K, V>(c: Cache<K, V>, k: K, v: V, ttl: TtlArg, now: real)
    requires Valid(c)
    ensures Valid(SetStep(c, k, v, ttl, now).0)
  {
    if Lifetime(c.default, ttl).Some? {
      SetClosedForm(c, k, v, ttl, now);
    }
  }

  lemma GetKeepsValid<K, V>(c: Cache<K, V>, k: K, now: NowArg, at: Reading)
    requires Valid(c)
    ensures Valid(GetStep(c, k, now, at).0)
  {
    if Find(c.entries, k).Some? {
      MoveToEndLaws(c.entries, k);
    }
  }

  lemma FilterKeepsValid<K, V>(c: Cache<K, V>, p: Entry<K, V> -> bool)
    requires Valid(c)
    ensures Valid(c.(entries := Filter(p, c.entries)))
  {
    FilterUnique(p, c.entries);
  }

  lemma PurgeKeepsValid<K, V>(c: Cache<K, V>, now: real)
    requires Valid(c)
    ensures Valid(Purge(c, now))
  {
    PurgeIsScan(c, now);
    FilterUnique((e: Entry<K, V>) => Lt(Fin(now), e.expiresAt), c.entries);
  }

  lemma MoveToEndLaws<K, V>(es: seq<Entry<K, V>>, k: K)
    requires Unique(es) && Find(es, k).Some?
    ensures Unique(Remove(es, k)) && Unique(MoveToEnd(es, k))
    ensures |MoveToEnd(es, k)| == |es|
    ensures forall e :: e in MoveToEnd(es, k) ==> e in es
  {
    FilterUnique((e: Entry<K, V>) => e.key != k, es);
    UniqueAppend(Remove(es, k), Find(es, k).value);
    RemoveShrinks(es, k);
  }

  lemma {:induction false} RemoveShrinks<K, V>(es: seq<Entry<K, V>>, k: K)
    requires Unique(es) && Find(es, k).Some?
    ensures |Remove(es, k)| == |es| - 1
  {
    if es[0].key == k {
      forall e | e in es[1..] ensures e.key != k { }
      FilterAll((e: Entry<K, V>) => e.key != k, es[1..]);
    } else {
      RemoveShrinks(es[1..], k);
    }
  }

  // ---------- The object ----------

  class TTLCache<K(==), V> {
    const maxSize: nat
    const defaultTtl: Stamp
    var entries: seq<Entry<K, V>>
    var nextExpiry: Stamp

    ghost function State(): Cache<K, V>
      reads this
    {
      Cache(maxSize, defaultTtl, entries, nextExpiry)
    }

    constructor (size: nat, ttl: Stamp)
      requires size > 0 && ValidTtl(ttl)
      ensures State() == Empty(size, ttl) && Valid(State())
    {
      maxSize := size;
      defaultTtl := ttl;
      entries := [];
      nextExpiry := PosInf;
    }

    /** `TTLCache(max_size, default_ttl)` with its argument checks; `None` stands for `ValueError`. */
    static method Create(size: int, ttl: Stamp) returns (r: Option<TTLCache<K, V>>)
      ensures r.Some? <==> size > 0 && ValidTtl(ttl)
      ensures r.Some? ==> fresh(r.value) && r.value.State() == Empty(size, ttl) && Valid(r.value.State())
    {
      if size <= 0 || !ValidTtl(ttl) {
        return None;
      }
      var c := new TTLCache(size, ttl);
      r := Some(c);
    }

    method PurgeExpired(now: real)
      requires Unique(entries)
      modifies this
      ensures State() == Purge(old(State()), now)
    {
      if Lt(Fin(now), nextExpiry) {
        return;
      }
      ghost var was := entries;
      var expired: seq<K> := [];
      for i := 0 to |entries|
        invariant entries == was
        invariant forall k :: k in expired ==> exists j :: 0 <= j < i && was[j].key == k && Le(was[j].expiresAt, Fin(now))
        invariant forall j :: 0 <= j < i && Le(was[j].expiresAt, Fin(now)) ==> was[j].key in expired
      {
        if Le(entries[i].expiresAt, Fin(now)) {
          expired := expired + [entries[i].key];
        }
      }
      FilterAll((e: Entry<K, V>) => e.key !in expired[..0], was);
      for j := 0 to |expired|
        invariant entries == Filter((e: Entry<K, V>) => e.key !in expired[..j], was)
      {
        FilterCompose((e: Entry<K, V>) => e.key != expired[j], (e: Entry<K, V>) => e.key !in expired[..j],
                      (e: Entry<K, V>) => e.key !in expired[..j + 1], was);
        entries := Remove(entries, expired[j]);
      }
      forall e | e in was ensures e.key !in expired[..|expired|] <==> Lt(Fin(now), e.expiresAt) {
        assert expired[..|expired|] == expired;
        if e.key in expired {
          var i :| 0 <= i < |was| && was[i] == e;
          var j :| 0 <= j < |was| && was[j].key == e.key && Le(was[j].expiresAt, Fin(now));
          assert i == j;
        }
      }
      FilterSame((e: Entry<K, V>) => e.key !in expired[..|expired|], (e: Entry<K, V>) => Lt(Fin(now), e.expiresAt), was);
      assert entries == Live(was, now);
      var m := PosInf;
      var n := |entries|;
      while n > 0
        invariant 0 <= n <= |entries| && entries == Live(was, now)
        invariant m == MinExpiry(entries[n..])
      {
        n := n - 1;
        assert entries[n..][1..] == entries[n + 1..];
        m := Min(entries[n].expiresAt, m);
      }
      assert entries[0..] == entries;
      nextExpiry := m;
    }

    /** The eviction loop of `set`. */
    method EvictOldest()
      modifies `entries
      ensures entries == Evict(old(entries), maxSize)
    {
      while |entries| > maxSize
        invariant |entries| >= maxSize || entries == old(entries)
        invariant |entries| <= |old(entries)| && entries == old(entries)[|old(entries)| - |entries|..]
      {
        entries := entries[1..];
      }
    }

    method Set(key: K, value: V, ttl: TtlArg, at: Reading) returns (reply: Reply<K, V>)
      requires Valid(State())
      modifies this
      ensures Valid(State())
      ensures (State(), reply) == Step(old(State()), Op.Set(key, value, ttl), at)
    {
      StepKeepsValid(State(), Op.Set(key, value, ttl), at);
      var life := Lifetime(defaultTtl, ttl);
      if life.None? {
        return ValueError;
      }
      var e := Entry(key, value, Plus(at.mono, life.value));
      SetClosedForm(State(), key, value, ttl, at.mono);
      InsertIsReplace(entries, e);
      FilterUnique((x: Entry<K, V>) => x.key != key, entries);
      UniqueAppend(Remove(entries, key), e);
      entries := Assign(entries, e);
      entries := MoveToEnd(entries, key);
      if Lt(e.expiresAt, nextExpiry) {
        nextExpiry := e.expiresAt;
      }
      PurgeExpired(at.mono);
      EvictOldest();
      reply := Done;
    }

    method Get(key: K, now: NowArg, at: Reading) returns (reply: Reply<K, V>)
      requires Valid(State())
      modifies this
      ensures Valid(State())
      ensures (State(), reply) == Step(old(State()), Op.Get(key, now), at)
    {
      StepKeepsValid(State(), Op.Get(key, now), at);
      var entry := Find(entries, key);
      if entry.None? {
        return Nothing;
      }
      var t := Resolve(now, at);
      if t.None? {
        return ValueError;
      }
      if Le(entry.value.expiresAt, t.value) {
        entries := Remove(entries, key);
        return Nothing;
      }
      entries := MoveToEnd(entries, key);
      reply := Value(entry.value.value);
    }

    method Delete(key: K, at: Reading) returns (reply: Reply<K, V>)
      requires Valid(State())
      modifies this
      ensures Valid(State())
      ensures (State(), reply) == Step(old(State()), Op.Delete(key), at)
    {
      StepKeepsValid(State(), Op.Delete(key), at);
      var entry := Find(entries, key);
      if entry.None? {
        return Flag(false);
      }
      entries := Remove(entries, key);
      reply := Flag(Lt(Fin(at.mono), entry.value.expiresAt));
    }

    method Clear(at: Reading) returns (reply: Reply<K, V>)
      requires Valid(State())
      modifies this
      ensures Valid(State())
      ensures (State(), reply) == Step(old(State()), Op.Clear, at)
    {
      entries := [];
      nextExpiry := PosInf;
      reply := Done;
    }

    method Contains(key: K, at: Reading) returns (reply: Reply<K, V>)
      requires Valid(State())
      modifies this
      ensures Valid(State())
      ensures (State(), reply) == Step(old(State()), Op.Contains(key), at)
    {
      StepKeepsValid(State(), Op.Contains(key), at);
      var entry := Find(entries, key);
      if entry.None? {
        return Flag(false);
      }
      if Le(entry.value.expiresAt, Fin(at.mono)) {
        entries := Remove(entries, key);
        return Flag(false);
      }
      reply := Flag(true);
    }

    method Len(at: Reading) returns (reply: Reply<K, V>)
      requires Valid(State())
      modifies this
      ensures Valid(State())
      ensures (State(), reply) == Step(old(State()), Op.Len, at)
    {
      PurgeKeepsValid(State(), at.mono);
      PurgeExpired(at.mono);
      reply := Size(|entries|);
    }

    method Keys(at: Reading) returns (reply: Reply<K, V>)
      requires Valid(State())
      modifies this
      ensures Valid(State())
      ensures (State(), reply) == Step(old(State()), Op.Keys, at)
    {
      PurgeKeepsValid(State(), at.mono);
      PurgeExpired(at.mono);
      reply := KeyList(KeysOf(entries));
    }
  }

  lemma {:induction false} FilterSame<T>(p: T -> bool, q: T -> bool, es: seq<T>)
    requires forall e :: e in es ==> (p(e) <==> q(e))
    ensures Filter(p, es) == Filter(q, es)
  {
    if es != [] {
      FilterSame(p, q, es[1..]);
    }
  }
}
