/** Partners of the double-collect theorem: a quiet directory is always judged, and an unsteady one deceives. */
module SnapshotLaws {
  import opened Wrappers
  import opened Manifests
  import opened Snapshots

  // ---------- Passes put together from single calls ----------

  lemma {:induction false} HeldIf(s: Session, kids: seq<Entry>, t: Instant)
    requires forall j :: 0 <= j < |kids| ==> HoldsAt(s, kids[j], t + 2 * j)
    ensures HeldFrom(s, kids, t)
  {
    if kids != [] {
      assert HoldsAt(s, kids[0], t + 2 * 0);
      forall j | 0 <= j < |kids[1..]| ensures HoldsAt(s, kids[1..][j], t + 2 + 2 * j) {
        assert HoldsAt(s, kids[j + 1], t + 2 * (j + 1));
      }
      HeldIf(s, kids[1..], t + 2);
    }
  }

  lemma {:induction false} ReadAllIf(s: Session, hash: Hashing, names: seq<string>, t: Instant, r: map<string, string>)
    requires forall i :: 0 <= i < |names| ==> ReadsAt(s, hash, names[i], t + i, r)
    ensures ReadAllFrom(s, hash, names, t, r)
  {
    if names != [] {
      assert ReadsAt(s, hash, names[0], t + 0, r);
      forall i | 0 <= i < |names[1..]| ensures ReadsAt(s, hash, names[1..][i], t + 1 + i, r) {
        assert ReadsAt(s, hash, names[i + 1], t + (i + 1), r);
      }
      ReadAllIf(s, hash, names[1..], t + 1, r);
    }
  }

  lemma {:induction false} RereadIf(s: Session, kids: seq<Entry>, t: Instant, ids: map<string, string>, bytes: map<string, string>)
    requires forall j :: 0 <= j < |kids| ==> RereadsAt(s, kids[j], t + 2 * j, ids, bytes)
    ensures RereadFrom(s, kids, t, ids, bytes)
  {
    if kids != [] {
      assert RereadsAt(s, kids[0], t + 2 * 0, ids, bytes);
      forall j | 0 <= j < |kids[1..]| ensures RereadsAt(s, kids[1..][j], t + 2 + 2 * j, ids, bytes) {
        assert RereadsAt(s, kids[j + 1], t + 2 * (j + 1), ids, bytes);
      }
      RereadIf(s, kids[1..], t + 2, ids, bytes);
    }
  }

  // ---------- A directory that does not change is observed completely ----------

  ghost predicate QuietChild(s: Session, hash: Hashing, e: Entry, contents: map<string, string>) {
    && e.name in contents && hash.child(contents[e.name]).Some?
    && (forall t :: s.holdChild(t, e.name).Answer?)
    && (forall t :: s.heldIdentity(t, e.name) == Answer(e.fileId))
    && (forall t :: s.readChild(t, e.name) == Answer(contents[e.name]))
  }

  ghost predicate AllQuiet(s: Session, hash: Hashing, kids: seq<Entry>, contents: map<string, string>) {
    forall j :: 0 <= j < |kids| ==> QuietChild(s, hash, kids[j], contents)
  }

  /** No call fails, and every call answers the same at every instant. */
  ghost predicate Quiet(s: Session, hash: Hashing, f: Fixture, dirId: string, es: seq<Entry>, contents: map<string, string>) {
    && dirId != "" && (forall t :: s.directoryIdentity(t) == Answer(dirId))
    && (forall t :: s.inventory(t) == Answer(es)) && Clean(es, f, dirId)
    && AllQuiet(s, hash, Children(es), contents) && SameMembers(contents.Keys, Names(es))
    && hash.mutableSet(contents).Some?
  }

  lemma QuietReads(s: Session, hash: Hashing, kids: seq<Entry>, names: seq<string>, order: seq<string>, t: Instant, contents: map<string, string>)
    requires AllQuiet(s, hash, kids, contents) && NamedBy(kids, names)
    requires forall n :: n in order ==> n in names
    ensures ReadAllFrom(s, hash, order, t, contents)
  {
    forall i | 0 <= i < |order| ensures ReadsAt(s, hash, order[i], t + i, contents) {
      assert order[i] in names;
      var j :| 0 <= j < |names| && names[j] == order[i];
      assert QuietChild(s, hash, kids[j], contents);
    }
    ReadAllIf(s, hash, order, t, contents);
  }

  lemma QuietSortedReads(s: Session, hash: Hashing, kids: seq<Entry>, names: seq<string>, t: Instant, contents: map<string, string>)
    requires AllQuiet(s, hash, kids, contents) && NamedBy(kids, names)
    ensures ReadAllFrom(s, hash, Sort(names), t, contents)
  {
    SortMembers(names);
    QuietReads(s, hash, kids, names, Sort(names), t, contents);
  }

  lemma QuietHolds(s: Session, hash: Hashing, kids: seq<Entry>, t: Instant, contents: map<string, string>)
    requires AllQuiet(s, hash, kids, contents)
    ensures HeldFrom(s, kids, t)
  {
    forall j | 0 <= j < |kids| ensures HoldsAt(s, kids[j], t + 2 * j) {
      assert QuietChild(s, hash, kids[j], contents);
    }
    HeldIf(s, kids, t);
  }

  lemma QuietRereads(s: Session, hash: Hashing, kids: seq<Entry>, t: Instant, ids: map<string, string>, contents: map<string, string>)
    requires AllQuiet(s, hash, kids, contents) && DescribesKids(kids, ids)
    ensures RereadFrom(s, kids, t, ids, contents)
  {
    forall j | 0 <= j < |kids| ensures RereadsAt(s, kids[j], t + 2 * j, ids, contents) {
      assert QuietChild(s, hash, kids[j], contents);
    }
    RereadIf(s, kids, t, ids, contents);
  }

  /** A quiet directory is never reported inconclusive: the observation is complete and exact. */
  lemma QuietIsComplete(s: Session, hash: Hashing, f: Fixture, dirId: string, es: seq<Entry>, contents: map<string, string>)
    requires Quiet(s, hash, f, dirId, es, contents)
    ensures Observe(s, hash, f, dirId) == Complete(contents, hash.mutableSet(contents).value)
  {
    var kids := Children(es);
    QuietHolds(s, hash, kids, 2, contents);
    QuietSortedReads(s, hash, kids, Names(es), FirstReadsAt(es), contents);
    IdsLaws(es);
    QuietRereads(s, hash, kids, FinalInventoryAt(es) + 2, Ids(es), contents);
    CompleteIffDoubleCollect(s, hash, f, dirId, contents, hash.mutableSet(contents).value);
  }

  // ---------- What a world looks like through a session ----------

  function HeldIn(ids: map<string, string>): string -> string {
    (n: string) => if n in ids then ids[n] else ""
  }

  function Absent<T>(n: string): Reply<T> {
    Threw(Failure(Native, n, "absent"))
  }

  /** The session that shows the given listings at two instants, and always the files behind the given identities. */
  function WorldSession(w: World, ids: map<string, string>, before: seq<Entry>, at: Instant, after: seq<Entry>, dirId: string): Session {
    Session(
      (t: Instant) => Answer(dirId),
      (t: Instant) => if t == 1 then Answer(before) else if t == at then Answer(after) else Absent("state/"),
      (t: Instant, n: string) => Answer(()),
      (t: Instant, n: string) => if n in ids then Answer(ids[n]) else Absent(n),
      (t: Instant, n: string) => if n in ids then Answer(w(t).content(ids[n])) else Absent(n))
  }

  lemma WorldTruthful(w: World, ids: map<string, string>, before: seq<Entry>, at: Instant, after: seq<Entry>, dirId: string)
    requires at != 1 && Describes(before, w(1).dir) && Describes(after, w(at).dir)
    ensures Truthful(WorldSession(w, ids, before, at, after, dirId), w, HeldIn(ids))
  {
    var s := WorldSession(w, ids, before, at, after, dirId);
    assert TrueListings(s, w) by {
      forall t | s.inventory(t).Answer? ensures Describes(s.inventory(t).value, w(t).dir) {
        assert s.inventory(t) == if t == 1 then Answer(before) else if t == at then Answer(after) else Absent("state/");
      }
    }
    assert TrueHandles(s, HeldIn(ids));
    assert TrueReads(s, w, HeldIn(ids));
  }

  /** Both reads of every child show the given bytes. */
  ghost predicate Shows(w: World, plan: Plan, ids: map<string, string>, bytes: map<string, string>) {
    forall n {:trigger ShowsChild(w, plan, ids, bytes, n)} :: n in bytes ==> ShowsChild(w, plan, ids, bytes, n)
  }

  predicate ShowsChild(w: World, plan: Plan, ids: map<string, string>, bytes: map<string, string>, n: string)
    requires n in bytes
  {
    && n in ids
    && w(plan.FirstReadAt(n)).content(ids[n]) == bytes[n]
    && w(plan.SecondReadAt(n)).content(ids[n]) == bytes[n]
  }

  lemma {:induction false} PositionIndex(names: seq<string>, i: nat)
    requires Distinct(names) && i < |names|
    ensures Position(names, names[i]) == i
  {
    if i > 0 {
      DistinctPair(names, 0, i);
      PositionIndex(names[1..], i - 1);
    }
  }

  lemma WorldHolds(w: World, ids: map<string, string>, before: seq<Entry>, at: Instant, after: seq<Entry>, dirId: string, kids: seq<Entry>)
    requires DescribesKids(kids, ids)
    ensures HeldFrom(WorldSession(w, ids, before, at, after, dirId), kids, 2)
  {
    HeldIf(WorldSession(w, ids, before, at, after, dirId), kids, 2);
  }

  ghost predicate Hashable(hash: Hashing, bytes: map<string, string>) {
    forall n :: n in bytes ==> hash.child(bytes[n]).Some?
  }

  lemma WorldReadsAt(w: World, ids: map<string, string>, before: seq<Entry>, at: Instant, after: seq<Entry>, dirId: string,
                     hash: Hashing, bytes: map<string, string>, plan: Plan, i: nat)
    requires i < |plan.order| && Position(plan.order, plan.order[i]) == i
    requires plan.order[i] in bytes && hash.child(bytes[plan.order[i]]).Some? && ShowsChild(w, plan, ids, bytes, plan.order[i])
    ensures ReadsAt(WorldSession(w, ids, before, at, after, dirId), hash, plan.order[i], 2 + 2 * |plan.order| + i, bytes)
  {
  }

  lemma {:induction false} WorldReads(w: World, ids: map<string, string>, before: seq<Entry>, at: Instant, after: seq<Entry>, dirId: string,
                                      hash: Hashing, bytes: map<string, string>, plan: Plan, i: nat)
    requires Distinct(plan.order) && SameMembers(bytes.Keys, plan.order) && Hashable(hash, bytes) && Shows(w, plan, ids, bytes)
    requires i <= |plan.order|
    ensures ReadAllFrom(WorldSession(w, ids, before, at, after, dirId), hash, plan.order[i..], 2 + 2 * |plan.order| + i, bytes)
    decreases |plan.order| - i
  {
    if i < |plan.order| {
      assert plan.order[i] in bytes && ShowsChild(w, plan, ids, bytes, plan.order[i]);
      PositionIndex(plan.order, i);
      WorldReadsAt(w, ids, before, at, after, dirId, hash, bytes, plan, i);
      WorldReads(w, ids, before, at, after, dirId, hash, bytes, plan, i + 1);
      assert plan.order[i..][1..] == plan.order[i + 1..];
    }
  }

  lemma WorldRereadsAt(w: World, ids: map<string, string>, before: seq<Entry>, at: Instant, after: seq<Entry>, dirId: string,
                       bytes: map<string, string>, plan: Plan, e: Entry, j: nat)
    requires Position(plan.again, e.name) == j && e.name in ids && ids[e.name] == e.fileId
    requires e.name in bytes && ShowsChild(w, plan, ids, bytes, e.name)
    ensures RereadsAt(WorldSession(w, ids, before, at, after, dirId), e, plan.FinalAt() + 2 + 2 * j, ids, bytes)
  {
  }

  lemma {:induction false} WorldRereads(w: World, ids: map<string, string>, before: seq<Entry>, at: Instant, after: seq<Entry>, dirId: string,
                                        bytes: map<string, string>, plan: Plan, kids: seq<Entry>, j: nat)
    requires Distinct(plan.again) && NamedBy(kids, plan.again) && SameMembers(bytes.Keys, plan.again)
    requires DescribesKids(kids, ids) && Shows(w, plan, ids, bytes) && j <= |kids|
    ensures RereadFrom(WorldSession(w, ids, before, at, after, dirId), kids[j..], plan.FinalAt() + 2 + 2 * j, ids, bytes)
    decreases |kids| - j
  {
    if j < |kids| {
      assert plan.again[j] in bytes && ShowsChild(w, plan, ids, bytes, kids[j].name);
      PositionIndex(plan.again, j);
      WorldRereadsAt(w, ids, before, at, after, dirId, bytes, plan, kids[j], j);
      WorldRereads(w, ids, before, at, after, dirId, bytes, plan, kids, j + 1);
      assert kids[j..][1..] == kids[j + 1..];
    }
  }

  // ---------- What acceptance certifies ----------

  /** Two acceptable listings of exactly the latest files, with the same identities. */
  ghost predicate Listings(f: Fixture, dirId: string, before: seq<Entry>, after: seq<Entry>) {
    && dirId != "" && Clean(before, f, dirId) && Clean(after, f, dirId) && Ids(before) == Ids(after)
    && SameMembers(f.latestFiles.Keys, Names(before)) && f.latestFiles != map[]
  }

  function PlanFor(before: seq<Entry>, after: seq<Entry>): Plan {
    Plan(Sort(Names(before)), Names(after))
  }

  lemma ListingsLaws(f: Fixture, dirId: string, before: seq<Entry>, after: seq<Entry>)
    requires Listings(f, dirId, before, after)
    ensures SameNames(before, after)
    ensures DescribesKids(Children(before), Ids(before)) && DescribesKids(Children(after), Ids(before))
  {
    IdsLaws(before);
    IdsLaws(after);
  }

  lemma OrderLaws(keys: set<string>, names: seq<string>)
    requires Distinct(names) && SameMembers(keys, names)
    ensures Distinct(Sort(names)) && SameMembers(keys, Sort(names)) && |Sort(names)| == |names|
  {
    DistinctSort(names);
    SortMembers(names);
  }

  /** The session through which a world is seen by the comparison. */
  function SeenThrough(w: World, dirId: string, before: seq<Entry>, after: seq<Entry>): Session {
    WorldSession(w, Ids(before), before, FinalInventoryAt(before), after, dirId)
  }

  lemma SeenHolds(w: World, f: Fixture, dirId: string, before: seq<Entry>, after: seq<Entry>)
    requires Listings(f, dirId, before, after)
    ensures HeldFrom(SeenThrough(w, dirId, before, after), Children(before), 2)
  {
    ListingsLaws(f, dirId, before, after);
    WorldHolds(w, Ids(before), before, FinalInventoryAt(before), after, dirId, Children(before));
  }

  lemma SeenReads(w: World, hash: Hashing, f: Fixture, dirId: string, before: seq<Entry>, after: seq<Entry>, plan: Plan)
    requires Distinct(plan.order) && SameMembers(f.latestFiles.Keys, plan.order) && Hashable(hash, f.latestFiles)
    requires Shows(w, plan, Ids(before), f.latestFiles)
    ensures ReadAllFrom(SeenThrough(w, dirId, before, after), hash, plan.order, 2 + 2 * |plan.order|, f.latestFiles)
  {
    WorldReads(w, Ids(before), before, FinalInventoryAt(before), after, dirId, hash, f.latestFiles, plan, 0);
    assert plan.order[0..] == plan.order;
  }

  lemma SeenRereads(w: World, f: Fixture, dirId: string, before: seq<Entry>, after: seq<Entry>, kids: seq<Entry>, plan: Plan)
    requires Distinct(plan.again) && SameMembers(f.latestFiles.Keys, plan.again) && NamedBy(kids, plan.again)
    requires DescribesKids(kids, Ids(before)) && Shows(w, plan, Ids(before), f.latestFiles)
    ensures RereadFrom(SeenThrough(w, dirId, before, after), kids, plan.FinalAt() + 2, Ids(before), f.latestFiles)
  {
    WorldRereads(w, Ids(before), before, FinalInventoryAt(before), after, dirId, f.latestFiles, plan, kids, 0);
    assert kids[0..] == kids;
  }

  lemma ListingsReread(w: World, f: Fixture, dirId: string, before: seq<Entry>, after: seq<Entry>)
    requires Listings(f, dirId, before, after) && Shows(w, PlanFor(before, after), Ids(before), f.latestFiles)
    ensures RereadFrom(SeenThrough(w, dirId, before, after), Children(after), FinalInventoryAt(before) + 2, Ids(before), f.latestFiles)
  {
    SortSize(Names(before));
    ListingsLaws(f, dirId, before, after);
    SeenRereads(w, f, dirId, before, after, Children(after), PlanFor(before, after));
  }

  lemma ListingsRead(w: World, hash: Hashing, f: Fixture, dirId: string, before: seq<Entry>, after: seq<Entry>, plan: Plan)
    requires Distinct(Names(before)) && SameMembers(f.latestFiles.Keys, Names(before)) && Hashable(hash, f.latestFiles)
    requires plan.order == Sort(Names(before)) && Shows(w, plan, Ids(before), f.latestFiles)
    ensures ReadAllFrom(SeenThrough(w, dirId, before, after), hash, plan.order, 2 + 2 * |plan.order|, f.latestFiles)
  {
    OrderLaws(f.latestFiles.Keys, Names(before));
    SeenReads(w, hash, f, dirId, before, after, plan);
  }

  lemma SeenFirst(w: World, hash: Hashing, f: Fixture, dirId: string, before: seq<Entry>, after: seq<Entry>)
    requires Listings(f, dirId, before, after) && Hashable(hash, f.latestFiles)
    requires Shows(w, PlanFor(before, after), Ids(before), f.latestFiles)
    ensures FirstCollect(SeenThrough(w, dirId, before, after), hash, f, dirId, before, f.latestFiles)
  {
    SeenHolds(w, f, dirId, before, after);
    ListingsRead(w, hash, f, dirId, before, after, PlanFor(before, after));
    SortSize(Names(before));
  }

  /** Passes over acceptable listings that succeed make a complete observation. */
  lemma PassesComplete(s: Session, hash: Hashing, f: Fixture, dirId: string, before: seq<Entry>, after: seq<Entry>)
    requires Listings(f, dirId, before, after) && Frozen(hash, f)
    requires s.directoryIdentity(0) == Answer(dirId) && s.directoryIdentity(FinalInventoryAt(before) + 1) == Answer(dirId)
    requires s.inventory(1) == Answer(before) && s.inventory(FinalInventoryAt(before)) == Answer(after)
    requires FirstCollect(s, hash, f, dirId, before, f.latestFiles)
    requires RereadFrom(s, Children(after), FinalInventoryAt(before) + 2, Ids(before), f.latestFiles)
    ensures Observe(s, hash, f, dirId) == Complete(f.latestFiles, f.latestDigest)
  {
    ListingsSame(f, dirId, before, after);
    assert SecondCollect(s, f, dirId, before, after, f.latestFiles);
    CompleteIffDoubleCollect(s, hash, f, dirId, f.latestFiles, f.latestDigest);
  }

  lemma ListingsSame(f: Fixture, dirId: string, before: seq<Entry>, after: seq<Entry>)
    requires Listings(f, dirId, before, after)
    ensures SameNames(before, after)
  {
    ListingsLaws(f, dirId, before, after);
  }

  lemma SeenCompletes(w: World, hash: Hashing, f: Fixture, dirId: string, before: seq<Entry>, after: seq<Entry>)
    requires Listings(f, dirId, before, after) && Hashable(hash, f.latestFiles) && Frozen(hash, f)
    requires Shows(w, PlanFor(before, after), Ids(before), f.latestFiles)
    ensures Observe(SeenThrough(w, dirId, before, after), hash, f, dirId) == Complete(f.latestFiles, f.latestDigest)
  {
    SeenFirst(w, hash, f, dirId, before, after);
    ListingsReread(w, f, dirId, before, after);
    SeenPlan(w, dirId, before, after);
    PassesComplete(SeenThrough(w, dirId, before, after), hash, f, dirId, before, after);
  }

  /** A complete observation of a truthful session showed the collected bytes at both reads of every child. */
  lemma CompleteShows(s: Session, w: World, held: string -> string, hash: Hashing, f: Fixture, dirId: string)
    requires Truthful(s, w, held) && Observe(s, hash, f, dirId).Complete?
    ensures Answered(s)
    ensures var plan, bytes := PlanOf(s), Observe(s, hash, f, dirId).bytes;
            forall n :: n in bytes ==> w(plan.FirstReadAt(n)).content(held(n)) == bytes[n] == w(plan.SecondReadAt(n)).content(held(n))
  {
    CompleteFollowsPlan(s, hash, f, dirId, w);
    FollowedShows(s, hash, Observe(s, hash, f, dirId).bytes, w, held);
  }

  lemma FollowedShows(s: Session, hash: Hashing, bytes: map<string, string>, w: World, held: string -> string)
    requires TrueHandles(s, held) && TrueReads(s, w, held) && Answered(s) && FollowsPlan(s, hash, bytes, w)
    ensures var plan := PlanOf(s);
            forall n :: n in bytes ==> w(plan.FirstReadAt(n)).content(held(n)) == bytes[n] == w(plan.SecondReadAt(n)).content(held(n))
  {
    var plan := PlanOf(s);
    var kids, ids, dir := Children(s.inventory(plan.FinalAt()).value), Ids(s.inventory(1).value), w(plan.FinalAt()).dir;
    forall n | n in bytes ensures w(plan.FirstReadAt(n)).content(held(n)) == bytes[n] == w(plan.SecondReadAt(n)).content(held(n)) {
      FirstReadTrue(s, hash, plan, bytes, w, held, n);
      SecondReadTrue(s, plan, kids, dir, ids, bytes, w, held, n);
    }
  }

  lemma SeenPlan(w: World, dirId: string, before: seq<Entry>, after: seq<Entry>)
    ensures var s := SeenThrough(w, dirId, before, after);
            && Answered(s) && PlanOf(s) == PlanFor(before, after)
            && s.inventory(1) == Answer(before) && s.inventory(FinalInventoryAt(before)) == Answer(after)
            && s.directoryIdentity(0) == Answer(dirId) && s.directoryIdentity(FinalInventoryAt(before) + 1) == Answer(dirId)
  {
  }

  lemma SeenAccepts(w: World, hash: Hashing, f: Fixture, dirId: string, before: seq<Entry>, after: seq<Entry>)
    requires forall n :: n in f.latestFiles ==> n in Ids(before)
    requires Truthful(SeenThrough(w, dirId, before, after), w, HeldIn(Ids(before)))
    requires Report(f, Observe(SeenThrough(w, dirId, before, after), hash, f, dirId)).verdict == AcceptCurrent
    ensures Shows(w, PlanFor(before, after), Ids(before), f.latestFiles)
  {
    var s, held, plan := SeenThrough(w, dirId, before, after), HeldIn(Ids(before)), PlanFor(before, after);
    CompleteShows(s, w, held, hash, f, dirId);
    SeenPlan(w, dirId, before, after);
    forall n | n in f.latestFiles ensures ShowsChild(w, plan, Ids(before), f.latestFiles, n) {
      assert held(n) == Ids(before)[n];
    }
  }

  lemma ListedHaveIds(f: Fixture, dirId: string, before: seq<Entry>, after: seq<Entry>)
    requires Listings(f, dirId, before, after)
    ensures forall n :: n in f.latestFiles ==> n in Ids(before)
  {
    IdsLaws(before);
  }

  /** A world that shows the latest bytes is accepted, rightly iff it is steady. */
  lemma ShownIsAccepted(w: World, hash: Hashing, f: Fixture, dirId: string, before: seq<Entry>, after: seq<Entry>)
    requires Listings(f, dirId, before, after) && Hashable(hash, f.latestFiles) && Frozen(hash, f)
    requires Truthful(SeenThrough(w, dirId, before, after), w, HeldIn(Ids(before)))
    requires Shows(w, PlanFor(before, after), Ids(before), f.latestFiles)
    ensures Report(f, Observe(SeenThrough(w, dirId, before, after), hash, f, dirId)).verdict == AcceptCurrent
    ensures var plan := PlanFor(before, after);
            Files(w(plan.FinalAt())) == f.latestFiles <==> AllSteady(w, HeldIn(Ids(before)), plan, f.latestFiles.Keys)
  {
    var s := SeenThrough(w, dirId, before, after);
    SeenCompletes(w, hash, f, dirId, before, after);
    SeenPlan(w, dirId, before, after);
    DoubleCollect(s, hash, f, dirId, w, HeldIn(Ids(before)));
  }

  /**
   Acceptance is exactly this and no more: for every fixture and every world with acceptable listings, a
   truthful session is accepted iff both reads of every child show its latest bytes, and the acceptance is
   right about the final inventory iff every child is steady.  So every unsteady world deceives.
   */
  lemma AcceptanceExact(w: World, hash: Hashing, f: Fixture, dirId: string, before: seq<Entry>, after: seq<Entry>)
    requires Listings(f, dirId, before, after) && Hashable(hash, f.latestFiles) && Frozen(hash, f)
    requires Describes(before, w(1).dir) && Describes(after, w(FinalInventoryAt(before)).dir)
    ensures var s, held, plan := SeenThrough(w, dirId, before, after), HeldIn(Ids(before)), PlanFor(before, after);
            && Truthful(s, w, held)
            && (Report(f, Observe(s, hash, f, dirId)).verdict == AcceptCurrent <==> Shows(w, plan, Ids(before), f.latestFiles))
            && (Shows(w, plan, Ids(before), f.latestFiles) ==>
                  (Files(w(plan.FinalAt())) == f.latestFiles <==> AllSteady(w, held, plan, f.latestFiles.Keys)))
  {
    WorldTruthful(w, Ids(before), before, FinalInventoryAt(before), after, dirId);
    if Shows(w, PlanFor(before, after), Ids(before), f.latestFiles) {
      ShownIsAccepted(w, hash, f, dirId, before, after);
    } else if Report(f, Observe(SeenThrough(w, dirId, before, after), hash, f, dirId)).verdict == AcceptCurrent {
      ListedHaveIds(f, dirId, before, after);
      SeenAccepts(w, hash, f, dirId, before, after);
    }
  }

  // ---------- Every fixture can be deceived ----------

  function Entries(order: seq<string>, dirId: string): (es: seq<Entry>)
    ensures |es| == |order| && forall i :: 0 <= i < |order| ==> es[i] == Entry(order[i], "regular", order[i], dirId, false)
  {
    seq(|order|, i requires 0 <= i < |order| => Entry(order[i], "regular", order[i], dirId, false))
  }

  lemma {:induction false} IncreasingDistinct(order: seq<string>)
    requires Increasing(order)
    ensures Distinct(order)
  {
    if order != [] {
      IncreasingTail(order);
      IncreasingDistinct(order[1..]);
    }
  }

  lemma SortedAlready(order: seq<string>)
    requires Increasing(order)
    ensures Sort(order) == order
  {
    IncreasingDistinct(order);
    DistinctSort(order);
    SortMembers(order);
    ListingUnique(Sort(order), order);
  }

  /** Every file shows its latest bytes at the two instants it is read and spoilt bytes at all others. */
  function Flicker(latest: map<string, string>, plan: Plan): World {
    (t: Instant) => Moment(map n | n in latest :: n, (id: string) => Glimpse(latest, plan, t, id))
  }

  function Glimpse(latest: map<string, string>, plan: Plan, t: Instant, id: string): string {
    if id !in latest then ""
    else if t == plan.FirstReadAt(id) || t == plan.SecondReadAt(id) then latest[id]
    else latest[id] + "!"
  }

  lemma EntriesLaws(f: Fixture, order: seq<string>, dirId: string)
    requires Listing(f.latestFiles, order) && forall n :: n in f.latestFiles ==> ValidName(n)
    ensures var es := Entries(order, dirId);
            Children(es) == es && Names(es) == order && Clean(es, f, dirId) && forall n :: n in order ==> n in Ids(es) && Ids(es)[n] == n
  {
    var es := Entries(order, dirId);
    forall i | 0 <= i < |es| ensures !Dot(es[i]) && Acceptable(es[i], f, dirId) {
      assert order[i] in f.latestFiles;
    }
    AllChildren(es);
    IncreasingDistinct(order);
    assert Names(es) == order;
    IdsLaws(es);
    forall n | n in order ensures n in Ids(es) && Ids(es)[n] == n {
      var i :| 0 <= i < |order| && order[i] == n;
      assert Children(es)[i].name == n;
    }
  }

  lemma FlickerListings(f: Fixture, order: seq<string>, dirId: string)
    requires Listing(f.latestFiles, order) && order != [] && dirId != "" && forall n :: n in f.latestFiles ==> ValidName(n)
    ensures var es := Entries(order, dirId); Listings(f, dirId, es, es) && PlanFor(es, es) == Plan(order, order)
  {
    EntriesLaws(f, order, dirId);
    SortedAlready(order);
    assert order[0] in f.latestFiles;
  }

  lemma FlickerDescribed(f: Fixture, order: seq<string>, dirId: string, t: Instant)
    requires Listing(f.latestFiles, order) && forall n :: n in f.latestFiles ==> ValidName(n)
    ensures Describes(Entries(order, dirId), Flicker(f.latestFiles, Plan(order, order))(t).dir)
  {
    var es, dir := Entries(order, dirId), Flicker(f.latestFiles, Plan(order, order))(t).dir;
    EntriesLaws(f, order, dirId);
    forall j | 0 <= j < |es| ensures es[j].name in dir && dir[es[j].name] == es[j].fileId {
      assert order[j] in f.latestFiles;
    }
  }

  lemma FlickerShows(f: Fixture, order: seq<string>, dirId: string)
    requires Listing(f.latestFiles, order) && forall n :: n in f.latestFiles ==> ValidName(n)
    ensures Shows(Flicker(f.latestFiles, Plan(order, order)), Plan(order, order), Ids(Entries(order, dirId)), f.latestFiles)
  {
    var w, plan, ids := Flicker(f.latestFiles, Plan(order, order)), Plan(order, order), Ids(Entries(order, dirId));
    EntriesLaws(f, order, dirId);
    forall n | n in f.latestFiles ensures ShowsChild(w, plan, ids, f.latestFiles, n) {
      assert n in order && ids[n] == n;
      assert w(plan.FirstReadAt(n)).content(n) == Glimpse(f.latestFiles, plan, plan.FirstReadAt(n), n);
      assert w(plan.SecondReadAt(n)).content(n) == Glimpse(f.latestFiles, plan, plan.SecondReadAt(n), n);
    }
  }

  /** At an instant at which the flickering directory is complete there is only one file. */
  lemma FlickerIsNeverCurrent(latest: map<string, string>, order: seq<string>, t: Instant)
    requires Listing(latest, order) && order != []
    requires Files(Flicker(latest, Plan(order, order))(t)) == latest
    ensures |order| == 1 && t != Plan(order, order).FinalAt()
  {
    var plan := Plan(order, order);
    var files := Files(Flicker(latest, plan)(t));
    IncreasingDistinct(order);
    forall i | 0 <= i < |order| ensures t == 2 + 2 * |order| + i || t == plan.FinalAt() + 3 + 2 * i {
      assert order[i] in latest && files[order[i]] == latest[order[i]];
      assert files[order[i]] == Glimpse(latest, plan, t, order[i]);
      PositionIndex(order, i);
    }
    assert t == 2 + 2 * |order| + 0 || t == plan.FinalAt() + 3 + 2 * 0;
    assert |order| > 1 ==> t == 2 + 2 * |order| + 1 || t == plan.FinalAt() + 3 + 2 * 1;
  }

  lemma FlickerIsAccepted(hash: Hashing, f: Fixture, dirId: string, order: seq<string>)
    requires Listing(f.latestFiles, order) && order != [] && dirId != "" && forall n :: n in f.latestFiles ==> ValidName(n)
    requires Hashable(hash, f.latestFiles) && Frozen(hash, f)
    ensures var es, w := Entries(order, dirId), Flicker(f.latestFiles, Plan(order, order));
            var s := SeenThrough(w, dirId, es, es);
            Truthful(s, w, HeldIn(Ids(es))) && Report(f, Observe(s, hash, f, dirId)).verdict == AcceptCurrent
  {
    var es, w := Entries(order, dirId), Flicker(f.latestFiles, Plan(order, order));
    FlickerListings(f, order, dirId);
    FlickerShows(f, order, dirId);
    FlickerDescribed(f, order, dirId, 1);
    FlickerDescribed(f, order, dirId, FinalInventoryAt(es));
    AcceptanceExact(w, hash, f, dirId, es, es);
  }

  /**
   For every fixture with valid names there is a truthful session that is accepted although the directory
   was not current at the final inventory; with two files or more it was current at no instant at all.
   */
  lemma ReturningContentsDeceive(hash: Hashing, f: Fixture, dirId: string, order: seq<string>)
    returns (s: Session, w: World, held: string -> string)
    requires Listing(f.latestFiles, order) && order != [] && dirId != "" && forall n :: n in f.latestFiles ==> ValidName(n)
    requires Hashable(hash, f.latestFiles) && Frozen(hash, f)
    ensures Truthful(s, w, held) && Report(f, Observe(s, hash, f, dirId)).verdict == AcceptCurrent
    ensures Files(w(2 + 3 * |order|)) != f.latestFiles
    ensures |order| >= 2 ==> forall t :: Files(w(t)) != f.latestFiles
  {
    var es := Entries(order, dirId);
    w := Flicker(f.latestFiles, Plan(order, order));
    s, held := SeenThrough(w, dirId, es, es), HeldIn(Ids(es));
    FlickerIsAccepted(hash, f, dirId, order);
    forall t ensures Files(w(t)) == f.latestFiles ==> |order| == 1 && t != 2 + 3 * |order| {
      if Files(w(t)) == f.latestFiles {
        FlickerIsNeverCurrent(f.latestFiles, order, t);
      }
    }
  }
}
