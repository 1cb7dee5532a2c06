/**
 What the cache means in terms of the calls made so far: least-recently-used order,
 last-writer values, who may be evicted, and how long an entry is guaranteed to stay.
 */
module TtlCacheHistory {
  import opened Sequences
  import opened Wrappers
  import opened TtlCache
  import opened TtlCacheLaws

  type History<K, V> = seq<Event<K, V>>

  predicate Stores<K(==), V>(ev: Event<K, V>, k: K, default: Stamp) {
    ev.op.Set? && ev.op.k == k && Lifetime(default, ev.op.ttl).Some?
  }

  /** Index of the `set` whose value the key should hold: the last accepted one, unless erased since; else -1. */
  function StoredBy<K(==), V>(h: History<K, V>, k: K, default: Stamp): (i: int)
    ensures -1 <= i < |h|
    ensures i >= 0 ==> Stores(h[i], k, default)
  {
    if h == [] then -1
    else if Stores(Last(h), k, default) then |h| - 1
    else if Last(h).op.Clear? || (Last(h).op.Delete? && Last(h).op.k == k) then -1
    else StoredBy(Init(h), k, default)
  }

  /** Whether the event is an accepted `set` of the key or a `get` of it that hits. */
  predicate Touches<K(==), V>(c: Cache<K, V>, ev: Event<K, V>, k: K) {
    Stores(ev, k, c.default) || (ev.op.Get? && ev.op.k == k && Step(c, ev.op, ev.at).1.Value?)
  }

  /** Index of the last touch of the key, or -1. */
  function LastTouch<K(==), V>(c: Cache<K, V>, h: History<K, V>, k: K): (i: int)
    ensures -1 <= i < |h|
  {
    if h == [] then -1
    else if Touches(Run(c, Init(h)), Last(h), k) then |h| - 1
    else LastTouch(c, Init(h), k)
  }

  ghost function ExpiryOf<K, V>(h: History<K, V>, i: int, default: Stamp): Stamp
    requires 0 <= i < |h| && h[i].op.Set? && Lifetime(default, h[i].op.ttl).Some?
  {
    Plus(h[i].at.mono, Lifetime(default, h[i].op.ttl).value)
  }

  /** An entry is exactly what the last writer of its key stored. */
  ghost predicate FromLastWriter<K, V>(h: History<K, V>, e: Entry<K, V>, default: Stamp) {
    var i := StoredBy(h, e.key, default);
    i >= 0 && e.value == h[i].op.v && e.expiresAt == ExpiryOf(h, i, default)
  }

  /** Ranks are nonnegative and strictly increasing along the list. */
  ghost predicate Ascending<K, V>(rank: K -> int, es: seq<Entry<K, V>>) {
    && (forall i :: 0 <= i < |es| ==> rank(es[i].key) >= 0)
    && (forall i, j :: 0 <= i < j < |es| ==> rank(es[i].key) < rank(es[j].key))
  }

  ghost predicate OrderedByTouch<K, V>(c: Cache<K, V>, h: History<K, V>, es: seq<Entry<K, V>>) {
    Ascending(k => LastTouch(c, h, k), es)
  }

  ghost predicate Explained<K, V>(c: Cache<K, V>, h: History<K, V>, es: seq<Entry<K, V>>) {
    && OrderedByTouch(c, h, es)
    && forall e :: e in es ==> FromLastWriter(h, e, c.default)
  }

  lemma HeadRanksFirst<K, V>(rank: K -> int, es: seq<Entry<K, V>>, e: Entry<K, V>)
    requires Ascending(rank, es) && es != [] && e in es[1..]
    ensures rank(es[0].key) < rank(e.key)
  {
    var j :| 0 <= j < |es| - 1 && es[1..][j] == e;
    assert es[j + 1] == e;
  }

  lemma AscendingCons<K, V>(rank: K -> int, e: Entry<K, V>, rest: seq<Entry<K, V>>)
    requires Ascending(rank, rest) && rank(e.key) >= 0
    requires forall x :: x in rest ==> rank(e.key) < rank(x.key)
    ensures Ascending(rank, [e] + rest)
  {
    var all := [e] + rest;
    forall i, j | 0 <= i < j < |all| ensures rank(all[i].key) < rank(all[j].key) {
      assert all[j] == rest[j - 1] && rest[j - 1] in rest;
    }
  }

  lemma {:induction false} FilterAscending<K, V>(rank: K -> int, p: Entry<K, V> -> bool, es: seq<Entry<K, V>>)
    requires Ascending(rank, es)
    ensures Ascending(rank, Filter(p, es))
  {
    if es != [] {
      FilterAscending(rank, p, es[1..]);
      if p(es[0]) {
        forall e | e in Filter(p, es[1..]) ensures rank(es[0].key) < rank(e.key) {
          HeadRanksFirst(rank, es, e);
        }
        AscendingCons(rank, es[0], Filter(p, es[1..]));
      }
    }
  }

  /** Entries of keys the new event does not touch stay explained by the longer history. */
  lemma CarryOver<K, V>(c: Cache<K, V>, h: History<K, V>, es: seq<Entry<K, V>>)
    requires h != [] && Explained(c, Init(h), es)
    requires Run(c, Init(h)).default == c.default
    requires forall e :: e in es ==> !Touches(Run(c, Init(h)), Last(h), e.key)
    requires !Last(h).op.Clear?
    requires Last(h).op.Delete? ==> forall e :: e in es ==> e.key != Last(h).op.k
    ensures Explained(c, h, es)
  {
    forall e | e in es
      ensures LastTouch(c, h, e.key) == LastTouch(c, Init(h), e.key) && FromLastWriter(h, e, c.default)
    {
      assert FromLastWriter(Init(h), e, c.default);
      assert StoredBy(h, e.key, c.default) == StoredBy(Init(h), e.key, c.default);
    }
    forall i | 0 <= i < |es| ensures LastTouch(c, h, es[i].key) == LastTouch(c, Init(h), es[i].key) {
      assert es[i] in es;
    }
  }

  /** The touched entry goes last: its touch is the newest of all. */
  lemma AppendTouched<K, V>(c: Cache<K, V>, h: History<K, V>, es: seq<Entry<K, V>>, e: Entry<K, V>)
    requires h != [] && Explained(c, h, es) && FromLastWriter(h, e, c.default)
    requires Touches(Run(c, Init(h)), Last(h), e.key)
    requires forall x :: x in es ==> !Touches(Run(c, Init(h)), Last(h), x.key)
    ensures Explained(c, h, es + [e])
  {
    forall i | 0 <= i < |es| ensures LastTouch(c, h, es[i].key) < |h| - 1 {
      assert es[i] in es;
    }
  }

  lemma FilterExplained<K, V>(c: Cache<K, V>, h: History<K, V>, p: Entry<K, V> -> bool, es: seq<Entry<K, V>>)
    requires Explained(c, h, es)
    ensures Explained(c, h, Filter(p, es))
  {
    FilterAscending(k => LastTouch(c, h, k), p, es);
  }

  ghost predicate EndsInSet<K, V>(c: Cache<K, V>, h: History<K, V>) {
    h != [] && Last(h).op.Set? && Lifetime(c.default, Last(h).op.ttl).Some?
  }

  /** The live entries of a `set`, the new one last, before the eviction loop runs. */
  ghost function Candidates<K, V>(c: Cache<K, V>, h: History<K, V>): seq<Entry<K, V>>
    requires EndsInSet(c, h)
  {
    var ev := Last(h);
    Live(Remove(Run(c, Init(h)).entries, ev.op.k), ev.at.mono)
    + [Entry(ev.op.k, ev.op.v, Plus(ev.at.mono, Lifetime(c.default, ev.op.ttl).value))]
  }

  lemma CandidatesExplained<K, V>(c: Cache<K, V>, h: History<K, V>)
    requires Valid(c) && EndsInSet(c, h)
    requires Explained(c, Init(h), Run(c, Init(h)).entries)
    ensures Explained(c, h, Candidates(c, h)) && Unique(Candidates(c, h))
    ensures Run(c, h).entries == Evict(Candidates(c, h), c.cap) && |Candidates(c, h)| <= c.cap + 1
  {
    RunKeepsValid(c, Init(h));
    var s, ev := Run(c, Init(h)), Last(h);
    var k, now := ev.op.k, ev.at.mono;
    SetClosedForm(s, k, ev.op.v, ev.op.ttl, now);
    FilterExplained(c, Init(h), (x: Entry<K, V>) => x.key != k, s.entries);
    FilterExplained(c, Init(h), (x: Entry<K, V>) => Lt(Fin(now), x.expiresAt), Remove(s.entries, k));
    var kept := Live(Remove(s.entries, k), now);
    CarryOver(c, h, kept);
    AppendTouched(c, h, kept, Last(Candidates(c, h)));
  }

  lemma GetExplained<K, V>(c: Cache<K, V>, h: History<K, V>)
    requires h != [] && Last(h).op.Get? && Valid(c)
    requires Explained(c, Init(h), Run(c, Init(h)).entries)
    ensures Explained(c, h, Run(c, h).entries)
  {
    RunKeepsValid(c, Init(h));
    var s, ev := Run(c, Init(h)), Last(h);
    FilterExplained(c, Init(h), (x: Entry<K, V>) => x.key != ev.op.k, s.entries);
    if Step(s, ev.op, ev.at).1.Value? {
      HitExplained(c, h);
    } else {
      CarryOver(c, h, Step(s, ev.op, ev.at).0.entries);
    }
  }

  lemma HitExplained<K, V>(c: Cache<K, V>, h: History<K, V>)
    requires h != [] && Last(h).op.Get? && Run(c, Init(h)).default == c.default
    requires Explained(c, Init(h), Run(c, Init(h)).entries) && Explained(c, Init(h), Remove(Run(c, Init(h)).entries, Last(h).op.k))
    requires Step(Run(c, Init(h)), Last(h).op, Last(h).at).1.Value?
    ensures Explained(c, h, Run(c, h).entries)
  {
    var s, k := Run(c, Init(h)), Last(h).op.k;
    var e := Find(s.entries, k).value;
    CarryOver(c, h, Remove(s.entries, k));
    assert FromLastWriter(Init(h), e, c.default);
    assert StoredBy(h, k, c.default) == StoredBy(Init(h), k, c.default);
    AppendTouched(c, h, Remove(s.entries, k), e);
  }

  /** Operations that touch nothing only ever filter the entry list. */
  lemma FilteringExplained<K, V>(c: Cache<K, V>, h: History<K, V>, p: Entry<K, V> -> bool)
    requires h != [] && Valid(c) && !Last(h).op.Get? && !Last(h).op.Clear? && !EndsInSet(c, h)
    requires Explained(c, Init(h), Run(c, Init(h)).entries)
    requires Last(h).op.Delete? ==> forall e :: e in Filter(p, Run(c, Init(h)).entries) ==> e.key != Last(h).op.k
    ensures Explained(c, h, Filter(p, Run(c, Init(h)).entries))
  {
    RunKeepsValid(c, Init(h));
    FilterExplained(c, Init(h), p, Run(c, Init(h)).entries);
    CarryOver(c, h, Filter(p, Run(c, Init(h)).entries));
  }

  lemma UntouchingExplained<K, V>(c: Cache<K, V>, h: History<K, V>)
    requires h != [] && Valid(c) && !Last(h).op.Get? && !EndsInSet(c, h)
    requires Explained(c, Init(h), Run(c, Init(h)).entries)
    ensures Explained(c, h, Run(c, h).entries)
  {
    RunKeepsValid(c, Init(h));
    var s, ev := Run(c, Init(h)), Last(h);
    var now := ev.at.mono;
    match ev.op
    case Clear =>
    case Set(_, _, _) => CarryOver(c, h, s.entries);
    case Delete(k) =>
      FilteringExplained(c, h, (x: Entry<K, V>) => x.key != k);
      if Find(s.entries, k).None? {
        RemoveAbsent(s.entries, k);
      }
    case Contains(k) =>
      FilteringExplained(c, h, (x: Entry<K, V>) => x.key != k);
      CarryOver(c, h, s.entries);
    case Len =>
      PurgeIsScan(s, now);
      FilteringExplained(c, h, (x: Entry<K, V>) => Lt(Fin(now), x.expiresAt));
    case Keys =>
      PurgeIsScan(s, now);
      FilteringExplained(c, h, (x: Entry<K, V>) => Lt(Fin(now), x.expiresAt));
  }

  lemma EvictExplained<K, V>(c: Cache<K, V>, h: History<K, V>, es: seq<Entry<K, V>>)
    requires Explained(c, h, es)
    ensures Explained(c, h, Evict(es, c.cap))
  {
    var kept := Evict(es, c.cap);
    var gone := |es| - |kept|;
    assert kept == es[gone..];
    forall i | 0 <= i < |kept| ensures kept[i] == es[gone + i] {
    }
  }

  /**
   After every program: entries are in order of their last touch, and each holds the
   value and expiry written by the last `set` of its key, not deleted or cleared since.
   */
  lemma {:induction false} HistoryExplains<K, V>(c: Cache<K, V>, h: History<K, V>)
    requires Valid(c) && c.entries == []
    ensures Explained(c, h, Run(c, h).entries)
  {
    if h != [] {
      HistoryExplains(c, Init(h));
      if EndsInSet(c, h) {
        CandidatesExplained(c, h);
        EvictExplained(c, h, Candidates(c, h));
      } else if Last(h).op.Get? {
        GetExplained(c, h);
      } else {
        UntouchingExplained(c, h);
      }
    }
  }

  /** A hit returns the value of the last writer, strictly before that writer's expiry. */
  lemma HitReturnsLastWrite<K, V>(cap: nat, default: Stamp, h: History<K, V>, k: K, now: NowArg, at: Reading)
    requires Config(cap, default)
    requires Step(Run(Empty(cap, default), h), Get(k, now), at).1.Value?
    ensures var i := StoredBy(h, k, default);
            && i >= 0
            && Step(Run(Empty(cap, default), h), Get(k, now), at).1.v == h[i].op.v
            && Resolve(now, at).Some? && Lt(Resolve(now, at).value, ExpiryOf(h, i, default))
  {
    var c: Cache<K, V> := Empty(cap, default);
    HistoryExplains(c, h);
    RunKeepsValid(c, h);
    var f := Find(Run(c, h).entries, k);
    assert FromLastWriter(h, f.value, default);
  }

  /**
   A `set` evicts at most one entry; it is live, it is not the key just set, and
   every entry that stays was touched more recently.
   */
  lemma SetEvictsLeastRecentlyTouched<K, V>(c: Cache<K, V>, h: History<K, V>)
    requires Valid(c) && c.entries == [] && EndsInSet(c, h)
    ensures var candidates, after := Candidates(c, h), Run(c, h).entries;
            && 0 < |after| <= c.cap && Last(after) == Last(candidates)
            && (|candidates| <= c.cap ==> after == candidates)
            && (|candidates| > c.cap ==>
                  && candidates == [candidates[0]] + after
                  && candidates[0].key != Last(h).op.k
                  && Lt(Fin(Last(h).at.mono), candidates[0].expiresAt)
                  && forall e :: e in after ==> LastTouch(c, h, candidates[0].key) < LastTouch(c, h, e.key))
  {
    SetLeaves(c, h);
    DropsHead(Candidates(c, h), Run(c, h).entries, c.cap);
    if |Candidates(c, h)| > c.cap {
      OthersLive(c, h);
    }
  }

  lemma DropsHead<T>(all: seq<T>, after: seq<T>, cap: nat)
    requires after == (if |all| > cap then all[1..] else all) && 0 < |after|
    ensures Last(after) == Last(all) && (|all| > cap ==> all == [all[0]] + after)
  {
  }

  lemma SetLeaves<K, V>(c: Cache<K, V>, h: History<K, V>)
    requires Valid(c) && c.entries == [] && EndsInSet(c, h)
    ensures var all, after := Candidates(c, h), Run(c, h).entries;
            && after == (if |all| > c.cap then all[1..] else all) && 0 < |after| <= c.cap
            && forall e :: e in all[1..] ==> LastTouch(c, h, all[0].key) < LastTouch(c, h, e.key)
  {
    HistoryExplains(c, Init(h));
    CandidatesExplained(c, h);
    HeadTouchedFirst(c, h, Candidates(c, h));
  }

  lemma OthersLive<K, V>(c: Cache<K, V>, h: History<K, V>)
    requires EndsInSet(c, h) && |Candidates(c, h)| > 1
    ensures Candidates(c, h)[0].key != Last(h).op.k && Lt(Fin(Last(h).at.mono), Candidates(c, h)[0].expiresAt)
  {
    var others := Live(Remove(Run(c, Init(h)).entries, Last(h).op.k), Last(h).at.mono);
    assert Candidates(c, h)[0] == others[0] && others[0] in others;
  }

  lemma HeadTouchedFirst<K, V>(c: Cache<K, V>, h: History<K, V>, all: seq<Entry<K, V>>)
    requires Explained(c, h, all) && all != []
    ensures forall e :: e in all[1..] ==> LastTouch(c, h, all[0].key) < LastTouch(c, h, e.key)
  {
    forall e | e in all[1..] ensures LastTouch(c, h, all[0].key) < LastTouch(c, h, e.key) {
      HeadRanksFirst(k => LastTouch(c, h, k), all, e);
    }
  }

  // ---------- How long an entry stays ----------

  /** No call after the storing `set` saw a time at or past the entry's expiry. */
  ghost predicate Unexpired<K, V>(h: History<K, V>, k: K, default: Stamp)
    requires StoredBy(h, k, default) >= 0
  {
    var i := StoredBy(h, k, default);
    forall j :: i < j < |h| ==> SeenBefore(h[j], k, ExpiryOf(h, i, default))
  }

  predicate SeenBefore<K(==), V>(ev: Event<K, V>, k: K, expiry: Stamp) {
    && Lt(Fin(ev.at.mono), expiry)
    && (ev.op.Get? && ev.op.k == k && Resolve(ev.op.now, ev.at).Some? ==> Lt(Resolve(ev.op.now, ev.at).value, expiry))
  }

  /** At least `cap` other keys were touched after the last touch of `k`. */
  ghost predicate Overtaken<K(!new), V>(c: Cache<K, V>, h: History<K, V>, k: K) {
    exists others: seq<K> :: |others| == c.cap && OvertakenBy(c, h, k, others)
  }

  ghost predicate OvertakenBy<K, V>(c: Cache<K, V>, h: History<K, V>, k: K, others: seq<K>) {
    && (forall i, j :: 0 <= i < j < |others| ==> others[i] != others[j])
    && forall o :: o in others ==> LastTouch(c, h, k) < LastTouch(c, h, o)
  }

  ghost predicate Present<K, V>(es: seq<Entry<K, V>>, k: K) {
    Find(es, k).Some?
  }

  lemma KeptPresent<K, V>(es: seq<Entry<K, V>>, p: Entry<K, V> -> bool, k: K)
    requires Unique(es) && Present(es, k) && p(Find(es, k).value)
    ensures Present(Filter(p, es), k)
  {
    assert Find(es, k).value in Filter(p, es);
  }

  lemma SetRetains<K(!new), V>(c: Cache<K, V>, h: History<K, V>, k: K)
    requires Valid(c) && c.entries == [] && EndsInSet(c, h)
    requires Last(h).op.k != k && Present(Run(c, Init(h)).entries, k)
    requires Lt(Fin(Last(h).at.mono), Find(Run(c, Init(h)).entries, k).value.expiresAt)
    ensures Present(Run(c, h).entries, k) || Overtaken(c, h, k)
  {
    HistoryExplains(c, Init(h));
    CandidatesExplained(c, h);
    var all, f := Candidates(c, h), Find(Run(c, Init(h)).entries, k).value;
    assert f in all[..|all| - 1];
    if |all| > c.cap {
      if all[0] == f {
        HeadOvertaken(c, h, all);
      } else {
        var j :| 0 <= j < |all| && all[j] == f;
        assert all[1..][j - 1] == f;
      }
    }
  }

  lemma HeadOvertaken<K(!new), V>(c: Cache<K, V>, h: History<K, V>, all: seq<Entry<K, V>>)
    requires OrderedByTouch(c, h, all) && Unique(all) && |all| == c.cap + 1
    ensures Overtaken(c, h, all[0].key)
  {
    var others := KeysOf(all[1..]);
    forall o | o in others ensures LastTouch(c, h, all[0].key) < LastTouch(c, h, o) {
      var j :| 0 <= j < |others| && others[j] == o;
      HeadRanksFirst(k => LastTouch(c, h, k), all, all[1..][j]);
    }
    forall i, j | 0 <= i < j < |others| ensures others[i] != others[j] {
      assert all[i + 1].key != all[j + 1].key;
    }
    assert OvertakenBy(c, h, all[0].key, others);
  }

  /** A key that was overtaken stays overtaken until it is touched again. */
  lemma StaysOvertaken<K(!new), V>(c: Cache<K, V>, h: History<K, V>, k: K)
    requires h != [] && Overtaken(c, Init(h), k) && !Touches(Run(c, Init(h)), Last(h), k)
    ensures Overtaken(c, h, k)
  {
    var others: seq<K> :| |others| == c.cap && OvertakenBy(c, Init(h), k, others);
    assert OvertakenBy(c, h, k, others);
  }

  /**
   The LRU guarantee: a key that was stored, not erased and not seen expired is still in
   the cache, unless at least `cap` distinct other keys were touched since its last touch.
   */
  lemma {:induction false} LruRetention<K(!new), V>(c: Cache<K, V>, h: History<K, V>, k: K)
    requires Valid(c) && c.entries == []
    requires StoredBy(h, k, c.default) >= 0 && Unexpired(h, k, c.default)
    ensures Present(Run(c, h).entries, k) || Overtaken(c, h, k)
  {
    RunKeepsValid(c, Init(h));
    RunKeepsValid(c, h);
    var s, ev := Run(c, Init(h)), Last(h);
    if Stores(ev, k, c.default) {
      SetClosedForm(s, k, ev.op.v, ev.op.ttl, ev.at.mono);
      var e := Entry(k, ev.op.v, Plus(ev.at.mono, Lifetime(c.default, ev.op.ttl).value));
      assert Last(Run(c, h).entries) == e;
    } else {
      assert StoredBy(h, k, c.default) == StoredBy(Init(h), k, c.default);
      var i := StoredBy(h, k, c.default);
      assert forall j :: i < j < |Init(h)| ==> h[j] == Init(h)[j];
      assert SeenBefore(h[|h| - 1], k, ExpiryOf(h, i, c.default));
      LruRetention(c, Init(h), k);
      if Present(s.entries, k) {
        HistoryExplains(c, Init(h));
        assert FromLastWriter(Init(h), Find(s.entries, k).value, c.default);
        StepRetains(c, h, k);
      } else {
        assert !Touches(s, ev, k);
        StaysOvertaken(c, h, k);
      }
    }
  }

  lemma StepRetains<K(!new), V>(c: Cache<K, V>, h: History<K, V>, k: K)
    requires h != [] && Valid(c) && c.entries == []
    requires Present(Run(c, Init(h)).entries, k)
    requires SeenBefore(Last(h), k, Find(Run(c, Init(h)).entries, k).value.expiresAt)
    requires !Stores(Last(h), k, c.default)
    requires !Last(h).op.Clear? && !(Last(h).op.Delete? && Last(h).op.k == k)
    ensures Present(Run(c, h).entries, k) || Overtaken(c, h, k)
  {
    RunKeepsValid(c, Init(h));
    if EndsInSet(c, h) {
      SetRetains(c, h, k);
    } else {
      PlainStepRetains(Run(c, Init(h)), Last(h), k);
    }
  }

  lemma PlainStepRetains<K, V>(s: Cache<K, V>, ev: Event<K, V>, k: K)
    requires Valid(s) && Present(s.entries, k)
    requires SeenBefore(ev, k, Find(s.entries, k).value.expiresAt)
    requires ev.op.Set? ==> Lifetime(s.default, ev.op.ttl).None?
    requires !ev.op.Clear? && !(ev.op.Delete? && ev.op.k == k)
    ensures Present(Step(s, ev.op, ev.at).0.entries, k)
  {
    var f := Find(s.entries, k).value;
    match ev.op
    case Set(_, _, _) =>
    case Get(j, now) =>
      if j == k {
        assert f in Remove(s.entries, k) + [f];
      } else {
        KeptPresent(s.entries, (x: Entry<K, V>) => x.key != j, k);
        assert f in Remove(s.entries, j);
        if Find(s.entries, j).Some? {
          assert f in Remove(s.entries, j) + [Find(s.entries, j).value];
        }
      }
    case Delete(j) => KeptPresent(s.entries, (x: Entry<K, V>) => x.key != j, k);
    case Contains(j) =>
      if j != k {
        KeptPresent(s.entries, (x: Entry<K, V>) => x.key != j, k);
      }
    case Len =>
      PurgeIsScan(s, ev.at.mono);
      KeptPresent(s.entries, (x: Entry<K, V>) => Lt(Fin(ev.at.mono), x.expiresAt), k);
    case Keys =>
      PurgeIsScan(s, ev.at.mono);
      KeptPresent(s.entries, (x: Entry<K, V>) => Lt(Fin(ev.at.mono), x.expiresAt), k);
  }

  // ---------- The answers, over histories ----------

  /** The key was stored and not erased, no call saw its entry expired, and fewer than `cap` other keys were touched since. */
  ghost predicate Kept<K(!new), V>(c: Cache<K, V>, h: History<K, V>, k: K) {
    StoredBy(h, k, c.default) >= 0 && Unexpired(h, k, c.default) && !Overtaken(c, h, k)
  }

  /** Found entries are those of the last writer; kept keys are found. */
  lemma FoundIff<K(!new), V>(c: Cache<K, V>, h: History<K, V>, k: K)
    requires Valid(c) && c.entries == []
    ensures var f := Find(Run(c, h).entries, k);
            && (Kept(c, h, k) ==> f.Some?)
            && (f.Some? ==> FromLastWriter(h, f.value, c.default) && f.value.key == k)
  {
    HistoryExplains(c, h);
    if Kept(c, h, k) {
      LruRetention(c, h, k);
    }
  }

  /**
   When `get` hits: a kept key looked up before its expiry yields the value last stored.  With
   `HitReturnsLastWrite` and the misses below this fixes the answer for every kept or erased key.
   */
  lemma GetAnswers<K(!new), V>(c: Cache<K, V>, h: History<K, V>, k: K, now: NowArg, at: Reading)
    requires Valid(c) && c.entries == []
    ensures var i, r, t := StoredBy(h, k, c.default), Step(Run(c, h), Get(k, now), at).1, Resolve(now, at);
            && (Kept(c, h, k) && t.Some? && Lt(t.value, ExpiryOf(h, i, c.default)) ==> r == Value(h[i].op.v))
            && (Kept(c, h, k) && t.None? ==> r == ValueError)
            && (i < 0 ==> r == Nothing)
            && (i >= 0 && t.Some? && !Lt(t.value, ExpiryOf(h, i, c.default)) ==> r == Nothing)
  {
    FoundIff(c, h, k);
  }

  /** `delete` and membership: true for a kept key before its expiry, false when nothing is stored or the clock has reached it. */
  lemma FlagAnswers<K(!new), V>(c: Cache<K, V>, h: History<K, V>, k: K, op: Op<K, V>, at: Reading)
    requires Valid(c) && c.entries == [] && (op == Delete(k) || op == Contains(k))
    ensures var i, r := StoredBy(h, k, c.default), Step(Run(c, h), op, at).1;
            && r.Flag?
            && (Kept(c, h, k) && Lt(Fin(at.mono), ExpiryOf(h, i, c.default)) ==> r.b)
            && (r.b ==> i >= 0 && Lt(Fin(at.mono), ExpiryOf(h, i, c.default)))
  {
    FoundIff(c, h, k);
  }

  /** What both listings are computed from. */
  lemma ListsLive<K, V>(s: Cache<K, V>, at: Reading)
    requires Valid(s)
    ensures Step(s, Op.Keys, at).1 == KeyList(KeysOf(Live(s.entries, at.mono)))
    ensures Step(s, Op.Len, at).1 == Size(|Live(s.entries, at.mono)|)
  {
    PurgeIsScan(s, at.mono);
  }

  ghost predicate LiveAt<K, V>(h: History<K, V>, k: K, default: Stamp, now: real) {
    StoredBy(h, k, default) >= 0 && Lt(Fin(now), ExpiryOf(h, StoredBy(h, k, default), default))
  }

  lemma ListedIsLive<K, V>(c: Cache<K, V>, h: History<K, V>, es: seq<Entry<K, V>>, now: real, k: K)
    requires Explained(c, h, es) && k in KeysOf(Live(es, now))
    ensures LiveAt(h, k, c.default, now)
  {
    var live := Live(es, now);
    var i :| 0 <= i < |live| && KeysOf(live)[i] == k;
    assert live[i] in live && live[i] in es;
    assert FromLastWriter(h, live[i], c.default);
  }

  lemma KeptIsListed<K(!new), V>(c: Cache<K, V>, h: History<K, V>, now: real, k: K)
    requires Valid(c) && c.entries == [] && Kept(c, h, k) && LiveAt(h, k, c.default, now)
    ensures k in KeysOf(Live(Run(c, h).entries, now))
  {
    FoundIff(c, h, k);
    var e, live := Find(Run(c, h).entries, k).value, Live(Run(c, h).entries, now);
    assert e in live;
    var i :| 0 <= i < |live| && live[i] == e;
    assert KeysOf(live)[i] == k;
  }

  lemma ListedByTouch<K, V>(c: Cache<K, V>, h: History<K, V>, es: seq<Entry<K, V>>, now: real)
    requires Explained(c, h, es)
    ensures var ks := KeysOf(Live(es, now)); forall i, j :: 0 <= i < j < |ks| ==> LastTouch(c, h, ks[i]) < LastTouch(c, h, ks[j])
  {
    FilterExplained(c, h, (x: Entry<K, V>) => Lt(Fin(now), x.expiresAt), es);
    assert OrderedByTouch(c, h, Live(es, now));
  }

  /** Keys are listed once each, by recency, all stored and live; every kept live key is listed; the size is their number. */
  lemma ListAnswers<K(!new), V>(c: Cache<K, V>, h: History<K, V>, at: Reading)
    requires Valid(c) && c.entries == []
    ensures var r := Step(Run(c, h), Op.Keys, at).1;
            && r.KeyList? && Step(Run(c, h), Op.Len, at).1 == Size(|r.ks|)
            && (forall i, j :: 0 <= i < j < |r.ks| ==> LastTouch(c, h, r.ks[i]) < LastTouch(c, h, r.ks[j]))
            && (forall k :: k in r.ks ==> LiveAt(h, k, c.default, at.mono))
            && (forall k :: Kept(c, h, k) && LiveAt(h, k, c.default, at.mono) ==> k in r.ks)
  {
    HistoryExplains(c, h);
    RunKeepsValid(c, h);
    var es := Run(c, h).entries;
    ListsLive(Run(c, h), at);
    ListedByTouch(c, h, es, at.mono);
    forall k | k in KeysOf(Live(es, at.mono)) ensures LiveAt(h, k, c.default, at.mono) {
      ListedIsLive(c, h, es, at.mono, k);
    }
    forall k | Kept(c, h, k) && LiveAt(h, k, c.default, at.mono) ensures k in KeysOf(Live(es, at.mono)) {
      KeptIsListed(c, h, at.mono, k);
    }
  }
}
