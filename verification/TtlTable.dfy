/**
 A plain reference for the cache of src/cache/ttl_cache.py: an unordered table whose entries carry the
 index of the call that last touched them, with all times written out.  No recency list, no expiry
 shortcut.  The cache gives the table's answers in every program.
 */
module TtlTables {
  import opened Sequences
  import opened Wrappers
  import opened TtlCache
  import opened TtlCacheLaws
  import opened TtlCacheHistory

  datatype Slot<V> = Slot(value: V, expiry: Stamp, touched: int)

  type Table<K, V> = map<K, Slot<V>>

  predicate Before(now: real, expiry: Stamp) {
    match expiry
    case NegInf => false
    case Fin(r) => now < r
    case PosInf => true
  }

  /** When an entry stored now expires; `None` for a lifetime that is not a positive number. */
  function ExpiryFor(default: Stamp, ttl: TtlArg, now: real): Option<Stamp> {
    match ttl
    case DefaultTtl => Some(if default.Fin? then Fin(now + default.r) else default)
    case Seconds(Fin(s)) => if s > 0.0 then Some(Fin(now + s)) else None
    case Seconds(PosInf) => Some(PosInf)
    case Seconds(NegInf) => None
    case BadTtl => None
  }

  /** Whether the time asked for lies before the expiry; stamps of a billion seconds and more are read off the wall clock. */
  predicate AskedBefore(now: NowArg, at: Reading, expiry: Stamp)
    requires !now.BadNow?
  {
    match now
    case Unspecified => Before(at.mono, expiry)
    case Moment(Fin(x)) => if x >= 1000000000.0 then Before(at.mono + (x - at.wall), expiry) else Before(x, expiry)
    case Moment(PosInf) => false
    case Moment(NegInf) => !expiry.NegInf?
  }

  function LiveTable<K, V>(t: Table<K, V>, now: real): Table<K, V> {
    map k | k in t && Before(now, t[k].expiry) :: t[k]
  }

  ghost predicate Oldest<K, V>(t: Table<K, V>, k: K) {
    k in t && forall j :: j in t ==> t[k].touched <= t[j].touched
  }

  /** The table with one more entry, short of the oldest one if that is one too many. */
  ghost predicate Stored<K, V>(cap: nat, all: Table<K, V>, after: Table<K, V>) {
    if |all| <= cap then after == all else exists k :: k in all && Oldest(all, k) && after == all - {k}
  }

  /** Every key of the table once, least recently touched first. */
  ghost predicate InOrder<K, V>(t: Table<K, V>, ks: seq<K>) {
    && (forall k :: k in ks ==> k in t) && (forall k :: k in t ==> k in ks)
    && (forall i, j :: 0 <= i < j < |ks| ==> ks[i] in t && ks[j] in t && t[ks[i]].touched < t[ks[j]].touched)
  }

  /** The n-th call, answered by the table. */
  ghost predicate TableStep<K, V>(cap: nat, default: Stamp, t: Table<K, V>, n: nat, op: Op<K, V>, at: Reading, t': Table<K, V>, r: Reply<K, V>) {
    match op
    case Set(k, v, ttl) =>
      var expiry := ExpiryFor(default, ttl, at.mono);
      if expiry.None? then t' == t && r == ValueError
      else r == Done && Stored(cap, LiveTable(t - {k}, at.mono)[k := Slot(v, expiry.value, n)], t')
    case Get(k, now) =>
      if k !in t then t' == t && r == Nothing
      else if now.BadNow? then t' == t && r == ValueError
      else if AskedBefore(now, at, t[k].expiry) then t' == t[k := t[k].(touched := n)] && r == Value(t[k].value)
      else t' == t - {k} && r == Nothing
    case Delete(k) => t' == t - {k} && r == Flag(k in t && Before(at.mono, t[k].expiry))
    case Clear => t' == map[] && r == Done
    case Contains(k) =>
      && r == Flag(k in t && Before(at.mono, t[k].expiry))
      && t' == if k in t && !Before(at.mono, t[k].expiry) then t - {k} else t
    case Len => t' == LiveTable(t, at.mono) && r == Size(|t'|)
    case Keys => t' == LiveTable(t, at.mono) && r.KeyList? && InOrder(t', r.ks)
  }

  ghost predicate TouchedApart<K, V>(t: Table<K, V>) {
    forall j, k :: j in t && k in t && t[j].touched == t[k].touched ==> j == k
  }

  /** While no two entries were touched by the same call, every call of the table has one outcome. */
  lemma TableDetermined<K, V>(cap: nat, default: Stamp, t: Table<K, V>, n: nat, op: Op<K, V>, at: Reading,
                              u: Table<K, V>, r: Reply<K, V>, u': Table<K, V>, r': Reply<K, V>)
    requires TouchedApart(t) && forall k :: k in t ==> t[k].touched < n
    requires TableStep(cap, default, t, n, op, at, u, r) && TableStep(cap, default, t, n, op, at, u', r')
    ensures u == u' && r == r'
  {
    if op.Keys? {
      OrderUnique(u, r.ks, r'.ks);
    }
  }

  lemma OldestFirst<K, V>(t: Table<K, V>, ks: seq<K>, k: K)
    requires InOrder(t, ks) && ks != [] && k in t && ks[0] in t && k != ks[0]
    ensures t[ks[0]].touched < t[k].touched
  {
    var i :| 0 <= i < |ks| && ks[i] == k;
    assert 0 < i;
  }

  lemma OrderTail<K, V>(t: Table<K, V>, ks: seq<K>)
    requires InOrder(t, ks) && ks != []
    ensures ks[0] in t && InOrder(t - {ks[0]}, ks[1..])
  {
    var first, rest := ks[0], ks[1..];
    assert first in ks && ks == [first] + rest;
    forall i | 0 <= i < |rest| ensures rest[i] in t && rest[i] != first {
      assert rest[i] == ks[i + 1] && ks[i + 1] in ks;
      assert t[ks[0]].touched < t[ks[i + 1]].touched;
    }
    var u := t - {first};
    forall i, j | 0 <= i < j < |rest| ensures rest[i] in u && rest[j] in u && u[rest[i]].touched < u[rest[j]].touched {
      assert rest[i] == ks[i + 1] && rest[j] == ks[j + 1];
    }
  }

  lemma SameHead<K, V>(t: Table<K, V>, a: seq<K>, b: seq<K>)
    requires InOrder(t, a) && InOrder(t, b) && a != [] && b != []
    ensures a[0] == b[0]
  {
    assert a[0] in a && b[0] in b;
    if a[0] != b[0] {
      OldestFirst(t, a, b[0]);
      OldestFirst(t, b, a[0]);
    }
  }

  lemma BothEmpty<K, V>(t: Table<K, V>, a: seq<K>, b: seq<K>)
    requires InOrder(t, a) && InOrder(t, b)
    ensures a == [] <==> b == []
  {
    assert a != [] ==> a[0] in a;
    assert b != [] ==> b[0] in b;
  }

  lemma HeadAndTail<T>(a: seq<T>, b: seq<T>)
    requires a != [] && b != [] && a[0] == b[0] && a[1..] == b[1..]
    ensures a == b
  {
    assert a == [a[0]] + a[1..] && b == [b[0]] + b[1..];
  }

  /** Two listings in order of touch are the same. */
  lemma {:induction false} OrderUnique<K, V>(t: Table<K, V>, a: seq<K>, b: seq<K>)
    requires InOrder(t, a) && InOrder(t, b)
    ensures a == b
  {
    BothEmpty(t, a, b);
    if a != [] {
      SameHead(t, a, b);
      OrderTail(t, a);
      OrderTail(t, b);
      OrderUnique(t - {a[0]}, a[1..], b[1..]);
      HeadAndTail(a, b);
    }
  }

  // ---------- How a list represents a table ----------

  function Rank<K, V>(t: Table<K, V>, k: K): int {
    if k in t then t[k].touched else -1
  }

  ghost predicate Holds<K, V>(t: Table<K, V>, e: Entry<K, V>) {
    e.key in t && t[e.key].value == e.value && t[e.key].expiry == e.expiresAt
  }

  ghost predicate Has<K, V>(es: seq<Entry<K, V>>, k: K) {
    exists e :: e in es && e.key == k
  }

  /** The entries are the slots of the table, in the order they were touched, all before call `n`. */
  ghost predicate Represents<K, V>(es: seq<Entry<K, V>>, t: Table<K, V>, n: nat) {
    && Ascending(k => Rank(t, k), es)
    && (forall e :: e in es ==> Holds(t, e))
    && (forall k :: k in t ==> Has(es, k) && t[k].touched < n)
  }

  lemma BeforeIsLt(now: real, expiry: Stamp)
    ensures Before(now, expiry) <==> Lt(Fin(now), expiry)
  {
  }

  lemma AskedIsResolved(now: NowArg, at: Reading, expiry: Stamp)
    ensures now.BadNow? <==> Resolve(now, at).None?
    ensures !now.BadNow? ==> (AskedBefore(now, at, expiry) <==> Lt(Resolve(now, at).value, expiry))
  {
  }

  lemma ExpiryIsPlus(default: Stamp, ttl: TtlArg, now: real)
    ensures ExpiryFor(default, ttl, now) == if Lifetime(default, ttl).None? then None else Some(Plus(now, Lifetime(default, ttl).value))
  {
  }

  lemma FindHolds<K, V>(es: seq<Entry<K, V>>, t: Table<K, V>, n: nat, k: K)
    requires Represents(es, t, n)
    ensures Find(es, k).Some? <==> k in t
    ensures Find(es, k).Some? ==> Find(es, k).value == Entry(k, t[k].value, t[k].expiry)
  {
    if k in t {
      assert Has(es, k);
    }
    if Find(es, k).Some? {
      assert Holds(t, Find(es, k).value);
    }
  }

  lemma {:induction false} SameRanks<K, V>(t: Table<K, V>, t': Table<K, V>, es: seq<Entry<K, V>>)
    requires Ascending(k => Rank(t, k), es) && forall e :: e in es ==> Rank(t', e.key) == Rank(t, e.key)
    ensures Ascending(k => Rank(t', k), es)
  {
    forall i | 0 <= i < |es| ensures Rank(t', es[i].key) == Rank(t, es[i].key) {
      assert es[i] in es;
    }
  }

  /** Keeping some entries keeps the same slots. */
  lemma FilterRepresents<K, V>(p: Entry<K, V> -> bool, es: seq<Entry<K, V>>, t: Table<K, V>, t': Table<K, V>, n: nat)
    requires Represents(es, t, n)
    requires forall k :: k in t' <==> k in t && p(Entry(k, t[k].value, t[k].expiry))
    requires forall k :: k in t' ==> t'[k] == t[k]
    ensures Represents(Filter(p, es), t', n)
  {
    FilterAscending(k => Rank(t, k), p, es);
    forall e | e in Filter(p, es) ensures Holds(t', e) && Rank(t', e.key) == Rank(t, e.key) {
      assert e in es && Holds(t, e) && e == Entry(e.key, t[e.key].value, t[e.key].expiry);
    }
    SameRanks(t, t', Filter(p, es));
    forall k | k in t' ensures Has(Filter(p, es), k) {
      assert Has(es, k);
      var e :| e in es && e.key == k;
      assert Holds(t, e) && e == Entry(k, t[k].value, t[k].expiry);
    }
  }

  lemma RemoveRepresents<K, V>(es: seq<Entry<K, V>>, t: Table<K, V>, n: nat, k: K)
    requires Represents(es, t, n)
    ensures Represents(Remove(es, k), t - {k}, n)
  {
    FilterRepresents((e: Entry<K, V>) => e.key != k, es, t, t - {k}, n);
  }

  lemma LiveRepresents<K, V>(es: seq<Entry<K, V>>, t: Table<K, V>, n: nat, now: real)
    requires Represents(es, t, n)
    ensures Represents(Live(es, now), LiveTable(t, now), n)
  {
    forall k | k in t ensures Before(now, t[k].expiry) <==> Lt(Fin(now), t[k].expiry) {
      BeforeIsLt(now, t[k].expiry);
    }
    FilterRepresents((e: Entry<K, V>) => Lt(Fin(now), e.expiresAt), es, t, LiveTable(t, now), n);
  }

  /** A touched entry goes last. */
  lemma AppendRepresents<K, V>(es: seq<Entry<K, V>>, t: Table<K, V>, n: nat, e: Entry<K, V>)
    requires Represents(es, t, n) && e.key !in t
    ensures Represents(es + [e], t[e.key := Slot(e.value, e.expiresAt, n)], n + 1)
  {
    var t', all := t[e.key := Slot(e.value, e.expiresAt, n)], es + [e];
    forall x | x in es ensures x.key != e.key && Rank(t', x.key) == Rank(t, x.key) < n {
      assert Holds(t, x);
    }
    SameRanks(t, t', es);
    forall i, j | 0 <= i < j < |all| ensures Rank(t', all[i].key) < Rank(t', all[j].key) {
      assert all[i] in es;
    }
    forall k | k in t' ensures Has(all, k) {
      if k == e.key {
        assert e in all;
      } else {
        assert Has(es, k);
        var x :| x in es && x.key == k;
        assert x in all;
      }
    }
  }

  lemma {:induction false} KeyCount<K, V>(es: seq<Entry<K, V>>)
    requires Unique(es)
    ensures |set e | e in es :: e.key| == |es|
  {
    var ks := set e | e in es :: e.key;
    if es == [] {
      assert ks == {};
    } else {
      var rest := es[1..];
      KeyCount(rest);
      var rs := set e | e in rest :: e.key;
      assert ks == rs + {es[0].key} by {
        forall k ensures k in ks <==> k in rs || k == es[0].key {
          if k in ks {
            var e :| e in es && e.key == k;
            assert e == es[0] || e in rest;
          }
          if k in rs {
            var e :| e in rest && e.key == k;
            assert e in es;
          }
          assert es[0] in es;
        }
      }
      assert es[0].key !in rs;
    }
  }

  lemma AscendingUnique<K, V>(rank: K -> int, es: seq<Entry<K, V>>)
    requires Ascending(rank, es)
    ensures Unique(es)
  {
  }

  lemma SameSize<K, V>(es: seq<Entry<K, V>>, t: Table<K, V>, n: nat)
    requires Represents(es, t, n)
    ensures |t| == |es|
  {
    AscendingUnique(k => Rank(t, k), es);
    KeyCount(es);
    var ks := set e | e in es :: e.key;
    forall k ensures k in ks <==> k in t.Keys {
      if k in ks {
        var e :| e in es && e.key == k;
        assert Holds(t, e);
      }
      if k in t.Keys {
        assert Has(es, k);
      }
    }
    assert ks == t.Keys;
  }

  lemma HeadIsOldest<K, V>(es: seq<Entry<K, V>>, t: Table<K, V>, n: nat)
    requires Represents(es, t, n) && es != []
    ensures Oldest(t, es[0].key)
  {
    assert es[0] in es && Holds(t, es[0]);
    forall j | j in t ensures t[es[0].key].touched <= t[j].touched {
      assert Has(es, j);
      var e :| e in es && e.key == j;
      var i :| 0 <= i < |es| && es[i] == e;
      assert i > 0 ==> Rank(t, es[0].key) < Rank(t, es[i].key);
    }
  }

  lemma TailRepresents<K, V>(es: seq<Entry<K, V>>, t: Table<K, V>, n: nat)
    requires Represents(es, t, n) && es != []
    ensures Represents(es[1..], t - {es[0].key}, n)
  {
    RemoveRepresents(es, t, n, es[0].key);
    AscendingUnique(k => Rank(t, k), es);
    assert es == [es[0]] + es[1..];
    assert Remove(es, es[0].key) == es[1..] by {
      FilterAll((e: Entry<K, V>) => e.key != es[0].key, es[1..]);
    }
  }

  /** Eviction from the front of the list removes the oldest slot of the table. */
  lemma EvictRepresents<K, V>(all: seq<Entry<K, V>>, t: Table<K, V>, n: nat, cap: nat) returns (t': Table<K, V>)
    requires Represents(all, t, n) && |all| <= cap + 1 && cap > 0
    ensures Represents(Evict(all, cap), t', n) && Stored(cap, t, t')
  {
    SameSize(all, t, n);
    t' := t;
    if |all| > cap {
      HeadIsOldest(all, t, n);
      TailRepresents(all, t, n);
      t' := t - {all[0].key};
      assert Evict(all, cap) == all[1..];
    }
  }

  lemma SetRefines<K, V>(c: Cache<K, V>, t: Table<K, V>, n: nat, k: K, v: V, ttl: TtlArg, at: Reading) returns (t': Table<K, V>)
    requires Valid(c) && Represents(c.entries, t, n)
    ensures TableStep(c.cap, c.default, t, n, Set(k, v, ttl), at, t', SetStep(c, k, v, ttl, at.mono).1)
    ensures Represents(SetStep(c, k, v, ttl, at.mono).0.entries, t', n + 1)
  {
    ExpiryIsPlus(c.default, ttl, at.mono);
    if Lifetime(c.default, ttl).None? {
      t' := t;
    } else {
      var e := Entry(k, v, Plus(at.mono, Lifetime(c.default, ttl).value));
      SetClosedForm(c, k, v, ttl, at.mono);
      RemoveRepresents(c.entries, t, n, k);
      LiveRepresents(Remove(c.entries, k), t - {k}, n, at.mono);
      var kept := Live(Remove(c.entries, k), at.mono);
      AppendRepresents(kept, LiveTable(t - {k}, at.mono), n, e);
      t' := EvictRepresents(kept + [e], LiveTable(t - {k}, at.mono)[k := Slot(v, e.expiresAt, n)], n + 1, c.cap);
    }
  }

  lemma TouchRepresents<K, V>(es: seq<Entry<K, V>>, t: Table<K, V>, n: nat, k: K, e: Entry<K, V>) returns (t': Table<K, V>)
    requires Represents(es, t, n) && Find(es, k) == Some(e) && k in t && e.key == k
    requires Represents(Remove(es, k), t - {k}, n) && e.value == t[k].value && e.expiresAt == t[k].expiry
    ensures t' == t[k := t[k].(touched := n)] && Represents(Remove(es, k) + [e], t', n + 1)
  {
    AppendRepresents(Remove(es, k), t - {k}, n, e);
    t' := t[k := t[k].(touched := n)];
    assert (t - {k})[k := Slot(e.value, e.expiresAt, n)] == t';
  }

  lemma GetRefines<K, V>(c: Cache<K, V>, t: Table<K, V>, n: nat, k: K, now: NowArg, at: Reading) returns (t': Table<K, V>)
    requires Represents(c.entries, t, n)
    ensures TableStep(c.cap, c.default, t, n, Get(k, now), at, t', GetStep(c, k, now, at).1)
    ensures Represents(GetStep(c, k, now, at).0.entries, t', n + 1)
  {
    FindHolds(c.entries, t, n, k);
    t' := t;
    if k in t {
      AskedIsResolved(now, at, t[k].expiry);
      RemoveRepresents(c.entries, t, n, k);
      if !now.BadNow? && AskedBefore(now, at, t[k].expiry) {
        var e := Find(c.entries, k).value;
        t' := TouchRepresents(c.entries, t, n, k, e);
      } else if !now.BadNow? {
        t' := t - {k};
      }
    }
  }

  lemma FlagRefines<K, V>(c: Cache<K, V>, t: Table<K, V>, n: nat, k: K, op: Op<K, V>, at: Reading) returns (t': Table<K, V>)
    requires Represents(c.entries, t, n) && (op == Delete(k) || op == Contains(k))
    ensures TableStep(c.cap, c.default, t, n, op, at, t', Step(c, op, at).1) && Represents(Step(c, op, at).0.entries, t', n + 1)
  {
    FindHolds(c.entries, t, n, k);
    RemoveRepresents(c.entries, t, n, k);
    t' := t;
    if k in t {
      BeforeIsLt(at.mono, t[k].expiry);
      if op.Delete? || !Before(at.mono, t[k].expiry) {
        t' := t - {k};
      }
    } else {
      assert t - {k} == t;
    }
  }

  lemma ListRefines<K, V>(c: Cache<K, V>, t: Table<K, V>, n: nat, op: Op<K, V>, at: Reading) returns (t': Table<K, V>)
    requires Valid(c) && Represents(c.entries, t, n) && (op.Len? || op.Keys?)
    ensures TableStep(c.cap, c.default, t, n, op, at, t', Step(c, op, at).1) && Represents(Step(c, op, at).0.entries, t', n + 1)
  {
    PurgeIsScan(c, at.mono);
    LiveRepresents(c.entries, t, n, at.mono);
    t' := LiveTable(t, at.mono);
    var es := Live(c.entries, at.mono);
    SameSize(es, t', n);
    ListsInOrder(es, t', n);
  }

  lemma ListsInOrder<K, V>(es: seq<Entry<K, V>>, t: Table<K, V>, n: nat)
    requires Represents(es, t, n)
    ensures InOrder(t, KeysOf(es))
  {
    var ks := KeysOf(es);
    forall k ensures k in ks <==> k in t {
      if k in ks {
        var i :| 0 <= i < |ks| && ks[i] == k;
        assert es[i] in es && Holds(t, es[i]);
      }
      if k in t {
        assert Has(es, k);
        var e :| e in es && e.key == k;
        var i :| 0 <= i < |es| && es[i] == e;
        assert ks[i] == k;
      }
    }
    forall i, j | 0 <= i < j < |ks| ensures ks[i] in t && ks[j] in t && t[ks[i]].touched < t[ks[j]].touched {
      assert es[i] in es && es[j] in es && Holds(t, es[i]) && Holds(t, es[j]);
      assert Rank(t, es[i].key) < Rank(t, es[j].key);
    }
  }

  /** One call: the cache answers as the table does and goes on representing it. */
  lemma StepRefines<K, V>(c: Cache<K, V>, t: Table<K, V>, n: nat, op: Op<K, V>, at: Reading) returns (t': Table<K, V>)
    requires Valid(c) && Represents(c.entries, t, n)
    ensures TableStep(c.cap, c.default, t, n, op, at, t', Step(c, op, at).1) && Represents(Step(c, op, at).0.entries, t', n + 1)
  {
    match op
    case Set(k, v, ttl) => t' := SetRefines(c, t, n, k, v, ttl, at);
    case Get(k, now) => t' := GetRefines(c, t, n, k, now, at);
    case Delete(k) => t' := FlagRefines(c, t, n, k, op, at);
    case Clear => t' := map[];
    case Contains(k) => t' := FlagRefines(c, t, n, k, op, at);
    case Len => t' := ListRefines(c, t, n, op, at);
    case Keys => t' := ListRefines(c, t, n, op, at);
  }

  /** The answer of the cache to the last call of a program. */
  function LastAnswer<K(==), V>(cap: nat, default: Stamp, h: History<K, V>): Reply<K, V>
    requires h != []
  {
    Step(Run(Empty(cap, default), Init(h)), Last(h).op, Last(h).at).1
  }

  /** The table `t`, reached by the calls before the last one, goes on to `t'` with the answer of the cache. */
  ghost predicate TableCall<K, V>(cap: nat, default: Stamp, h: History<K, V>, t: Table<K, V>, t': Table<K, V>)
    requires h != []
  {
    TableStep(cap, default, t, |h| - 1, Last(h).op, Last(h).at, t', LastAnswer(cap, default, h))
  }

  /** A program answered call by call by the table, from empty on. */
  ghost predicate TableReaches<K, V>(cap: nat, default: Stamp, h: History<K, V>, ts: seq<Table<K, V>>) {
    && |ts| == |h| + 1 && ts[0] == map[]
    && forall i {:trigger ts[i + 1]} :: 0 <= i < |h| ==> TableCall(cap, default, h[..i + 1], ts[i], ts[i + 1])
  }

  lemma NextTable<K, V>(cap: nat, default: Stamp, h: History<K, V>, t: Table<K, V>) returns (t': Table<K, V>)
    requires Config(cap, default) && h != [] && Represents(Run(Empty(cap, default), Init(h)).entries, t, |h| - 1)
    ensures TableCall(cap, default, h, t, t') && Represents(Run(Empty(cap, default), h).entries, t', |h|)
  {
    var c: Cache<K, V> := Empty(cap, default);
    RunKeepsValid(c, Init(h));
    t' := StepRefines(Run(c, Init(h)), t, |h| - 1, Last(h).op, Last(h).at);
  }

  lemma ReachesNext<K, V>(cap: nat, default: Stamp, h: History<K, V>, ts: seq<Table<K, V>>, t: Table<K, V>)
    requires h != [] && TableReaches(cap, default, Init(h), ts) && TableCall(cap, default, h, ts[|h| - 1], t)
    ensures TableReaches(cap, default, h, ts + [t])
  {
    var all := ts + [t];
    forall i | 0 <= i < |h| ensures TableCall(cap, default, h[..i + 1], all[i], all[i + 1]) {
      if i < |h| - 1 {
        assert all[i] == ts[i] && all[i + 1] == ts[i + 1] && Init(h)[..i + 1] == h[..i + 1];
      } else {
        assert h[..i + 1] == h;
      }
    }
  }

  /** Every program: the table, from empty, can give exactly the answers of the cache. */
  lemma {:induction false} CacheRefinesTable<K, V>(cap: nat, default: Stamp, h: History<K, V>) returns (ts: seq<Table<K, V>>)
    requires Config(cap, default)
    ensures TableReaches(cap, default, h, ts) && Represents(Run(Empty(cap, default), h).entries, ts[|h|], |h|)
  {
    if h == [] {
      ts := [map[]];
    } else {
      var before := CacheRefinesTable<K, V>(cap, default, Init(h));
      var t := NextTable(cap, default, h, before[|h| - 1]);
      ReachesNext(cap, default, h, before, t);
      ts := before + [t];
    }
  }
}
