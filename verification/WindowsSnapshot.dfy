/**
 The comparator over the Windows session: what a complete observation says about the native world, that
 is, about files and directory entries at the moments of native calls.
 */
module WindowsSnapshots {
  import opened Wrappers
  import opened Bytes
  import opened DirectoryPages
  import opened Snapshots
  import opened WindowsSessions
  import opened SnapshotRuns

  /** The native world: the directory and the files at each moment of the native clock. */
  type NativeWorld = nat -> Moment

  /**
   Native answers tell the truth: a handle keeps denoting the file it was opened for, a read shows that
   file at the moment of the call, and a finished enumeration shows the directory when it began.
   */
  ghost predicate NativeTruth(v: View, world: NativeWorld, fileOf: Handle -> string) {
    TrueEnumerations(v.script, v.directory, world) && TrueFiles(v.script, fileOf) && TrueContents(v.script, world, fileOf)
  }

  ghost predicate TrueEnumerations(script: Script, directory: Handle, world: NativeWorld) {
    forall t {:trigger PagesAt(script, directory, t)} ::
      var ns := CollectFrom(PagesAt(script, directory, t), 0, []);
      ns.Ok? ==> NativeDescribes(ns.value, world(t).dir)
  }

  /** The enumerated entries are exactly the names of the directory, each with the identity of its file. */
  ghost predicate NativeDescribes(ns: seq<NativeEntry>, dir: map<string, string>) {
    && (forall n :: n in dir <==> exists i :: 0 <= i < |ns| && ns[i].name == n)
    && (forall i :: 0 <= i < |ns| ==> ns[i].name in dir && dir[ns[i].name] == Hex(ns[i].fileId))
  }

  ghost predicate TrueFiles(script: Script, fileOf: Handle -> string) {
    forall t, h :: script.inspect(t, h).Ok? ==> Hex(script.inspect(t, h).value.fileId) == fileOf(h)
  }

  ghost predicate TrueContents(script: Script, world: NativeWorld, fileOf: Handle -> string) {
    forall t, h :: script.readAll(t, h).Ok? ==> script.readAll(t, h).value == world(t).content(fileOf(h))
  }

  function NoCall<T>(): Reply<T> {
    Threw(Failure(Incomplete, "", "no-call"))
  }

  /** The session that gives exactly the answers of a log. */
  function SessionOf(log: seq<Event>): Session {
    Session(
      (t: Instant) => if t < |log| && log[t].DirectoryCall? then log[t].id else NoCall(),
      (t: Instant) => if t < |log| && log[t].InventoryCall? then log[t].listing else NoCall(),
      (t: Instant, n: string) => if t < |log| && log[t].HoldCall? && log[t].name == n then log[t].done else NoCall(),
      (t: Instant, n: string) => if t < |log| && log[t].HeldCall? && log[t].name == n then log[t].id else NoCall(),
      (t: Instant, n: string) => if t < |log| && log[t].ReadCall? && log[t].name == n then log[t].bytes else NoCall())
  }

  lemma {:induction false} AgreesUpTo(log: seq<Event>, k: nat)
    requires k <= |log|
    ensures Agrees(SessionOf(log), log[..k])
  {
    if k > 0 {
      AgreesUpTo(log, k - 1);
      assert log[..k][..k - 1] == log[..k - 1] && log[..k][k - 1] == log[k - 1];
      assert Gives(SessionOf(log), k - 1, log[k - 1]);
    }
  }

  lemma AgreesWithLog(log: seq<Event>)
    ensures Agrees(SessionOf(log), log)
  {
    AgreesUpTo(log, |log|);
    assert log[..|log|] == log;
  }

  /** The native moment of a session call; the last one stands for those never made. */
  function MomentAt(ms: seq<nat>, t: Instant): nat {
    if ms == [] then 0 else if t < |ms| then ms[t] else ms[|ms| - 1]
  }

  /** The native world as the instants of a comparison see it. */
  function Sampled(world: NativeWorld, ms: seq<nat>): World {
    (t: Instant) => world(MomentAt(ms, t))
  }

  function HeldFile(children: map<string, Child>, fileOf: Handle -> string): string -> string {
    (n: string) => if n in children then fileOf(children[n].handle) else ""
  }

  /** The entries shown for an enumeration are its entries, all of them children. */
  lemma ShownChildren(pages: PageSource, ns: seq<NativeEntry>, key: string)
    requires CollectFrom(pages, 0, []) == Ok(ns)
    ensures Children(Shown(ns, key)) == Shown(ns, key)
  {
    InventoryExact(pages, ns);
    var es := Shown(ns, key);
    forall i | 0 <= i < |es| ensures !Dot(es[i]) {
      assert !DotName(ns[i]);
    }
    AllChildren(es);
  }

  lemma ShownNames(ns: seq<NativeEntry>, key: string, n: string)
    requires Children(Shown(ns, key)) == Shown(ns, key)
    ensures n in Names(Shown(ns, key)) <==> exists i :: 0 <= i < |ns| && ns[i].name == n
  {
    var names := Names(Shown(ns, key));
    assert |names| == |ns| && forall i :: 0 <= i < |ns| ==> names[i] == ns[i].name;
  }

  lemma ShownDescribes(ns: seq<NativeEntry>, key: string, dir: map<string, string>)
    requires Children(Shown(ns, key)) == Shown(ns, key) && NativeDescribes(ns, dir)
    ensures Describes(Shown(ns, key), dir)
  {
    forall n ensures n in dir <==> n in Names(Shown(ns, key)) {
      ShownNames(ns, key, n);
    }
  }

  lemma ListingAt(v: View, m: nat, es: seq<Entry>, world: NativeWorld)
    requires Traces(v, m, InventoryCall(Answer(es))) && TrueEnumerations(v.script, v.directory, world)
    ensures Describes(es, world(m).dir)
  {
    var pages := PagesAt(v.script, v.directory, m);
    var ns, key := CollectFrom(pages, 0, []).value, IdentityKey(v.config.stateDirectory.identity);
    ShownChildren(pages, ns, key);
    ShownDescribes(ns, key, world(m).dir);
  }

  lemma ReadAt(v: View, m: nat, n: string, b: string, world: NativeWorld, fileOf: Handle -> string)
    requires Traces(v, m, ReadCall(n, Answer(b))) && TrueContents(v.script, world, fileOf)
    ensures b == world(m).content(HeldFile(v.children, fileOf)(n))
  {
  }

  lemma TracesAt(v: View, ms: seq<nat>, log: seq<Event>, from: nat, now: nat, t: Instant)
    requires Traced(v, ms, log, from, now) && t < |log|
    ensures |ms| == |log| && MomentAt(ms, t) == ms[t] && from <= ms[t] <= now && Traces(v, ms[t], log[t])
  {
  }

  lemma TracedListings(v: View, ms: seq<nat>, log: seq<Event>, from: nat, now: nat, world: NativeWorld)
    requires Traced(v, ms, log, from, now) && TrueEnumerations(v.script, v.directory, world)
    ensures TrueListings(SessionOf(log), Sampled(world, ms))
  {
    var s, w := SessionOf(log), Sampled(world, ms);
    forall t: Instant | s.inventory(t).Answer? ensures Describes(s.inventory(t).value, w(t).dir) {
      assert s.inventory(t) == if t < |log| && log[t].InventoryCall? then log[t].listing else NoCall();
      TracesAt(v, ms, log, from, now, t);
      ListingAt(v, ms[t], s.inventory(t).value, world);
    }
  }

  lemma TracedHandles(v: View, ms: seq<nat>, log: seq<Event>, from: nat, now: nat, fileOf: Handle -> string)
    requires Traced(v, ms, log, from, now) && TrueFiles(v.script, fileOf)
    ensures TrueHandles(SessionOf(log), HeldFile(v.children, fileOf))
  {
    var s, held := SessionOf(log), HeldFile(v.children, fileOf);
    forall t: Instant, n | s.heldIdentity(t, n).Answer? ensures s.heldIdentity(t, n).value == held(n) {
      assert s.heldIdentity(t, n) == if t < |log| && log[t].HeldCall? && log[t].name == n then log[t].id else NoCall();
      TracesAt(v, ms, log, from, now, t);
    }
  }

  lemma TracedReads(v: View, ms: seq<nat>, log: seq<Event>, from: nat, now: nat, world: NativeWorld, fileOf: Handle -> string)
    requires Traced(v, ms, log, from, now) && TrueContents(v.script, world, fileOf)
    ensures TrueReads(SessionOf(log), Sampled(world, ms), HeldFile(v.children, fileOf))
  {
    var s, w, held := SessionOf(log), Sampled(world, ms), HeldFile(v.children, fileOf);
    forall t: Instant, n | s.readChild(t, n).Answer? ensures s.readChild(t, n).value == w(t).content(held(n)) {
      assert s.readChild(t, n) == if t < |log| && log[t].ReadCall? && log[t].name == n then log[t].bytes else NoCall();
      TracesAt(v, ms, log, from, now, t);
      ReadAt(v, ms[t], n, s.readChild(t, n).value, world, fileOf);
    }
  }

  /** A traced log of truthful native calls is a truthful session. */
  lemma TracedIsTruthful(v: View, ms: seq<nat>, log: seq<Event>, from: nat, now: nat, world: NativeWorld, fileOf: Handle -> string)
    requires Traced(v, ms, log, from, now) && NativeTruth(v, world, fileOf)
    ensures Truthful(SessionOf(log), Sampled(world, ms), HeldFile(v.children, fileOf))
  {
    TracedListings(v, ms, log, from, now, world);
    TracedHandles(v, ms, log, from, now, fileOf);
    TracedReads(v, ms, log, from, now, world, fileOf);
  }

  lemma SampledNoReturn(world: NativeWorld, ms: seq<nat>)
    requires NoReturn(world) && forall j, k :: 0 <= j < k < |ms| ==> ms[j] <= ms[k]
    ensures NoReturn(Sampled(world, ms))
  {
    forall t, u | t <= u ensures MomentAt(ms, t) <= MomentAt(ms, u) {
    }
  }

  /** A complete observation, seen from the native world at moment `m`. */
  ghost predicate ShowsMoment(world: NativeWorld, m: nat, bytes: map<string, string>) {
    (forall n :: n in world(m).dir <==> n in bytes) && (NoReturn(world) ==> Files(world(m)) == bytes)
  }

  /**
   The double-collect theorem for native calls: at the moment the final enumeration began the directory had
   exactly the collected names, and it held exactly the collected bytes iff every file was steady around it.
   */
  lemma NativeDoubleCollect(v: View, ms: seq<nat>, log: seq<Event>, from: nat, now: nat, world: NativeWorld, fileOf: Handle -> string,
                            hash: Hashing, f: Fixture, dirId: string)
    returns (m: nat)
    requires Traced(v, ms, log, from, now) && NativeTruth(v, world, fileOf)
    requires Observe(SessionOf(log), hash, f, dirId).Complete?
    ensures Answered(SessionOf(log)) && PlanOf(SessionOf(log)).FinalAt() < |ms| && m == ms[PlanOf(SessionOf(log)).FinalAt()]
    ensures from <= m <= now && ShowsMoment(world, m, Observe(SessionOf(log), hash, f, dirId).bytes)
    ensures var bytes, plan := Observe(SessionOf(log), hash, f, dirId).bytes, PlanOf(SessionOf(log));
            Files(world(m)) == bytes <==> AllSteady(Sampled(world, ms), HeldFile(v.children, fileOf), plan, bytes.Keys)
  {
    var s, w, held := SessionOf(log), Sampled(world, ms), HeldFile(v.children, fileOf);
    TracedIsTruthful(v, ms, log, from, now, world, fileOf);
    DoubleCollect(s, hash, f, dirId, w, held);
    FinalListed(s, log);
    var t := PlanOf(s).FinalAt();
    TracesAt(v, ms, log, from, now, t);
    m := ms[t];
    assert w(t) == world(m);
    if NoReturn(world) {
      SampledNoReturn(world, ms);
      ObservedIsSteady(s, hash, f, dirId, w, held);
    }
  }

  lemma FinalListed(s: Session, log: seq<Event>)
    requires s == SessionOf(log) && Answered(s)
    ensures PlanOf(s).FinalAt() < |log|
  {
    PlanSize(s);
    var t := PlanOf(s).FinalAt();
    assert s.inventory(t) == if t < |log| && log[t].InventoryCall? then log[t].listing else NoCall();
  }

  lemma ObservedIsSteady(s: Session, hash: Hashing, f: Fixture, dirId: string, w: World, held: string -> string)
    requires TrueListings(s, w) && NoReturn(w) && Observe(s, hash, f, dirId).Complete?
    ensures Answered(s) && AllSteady(w, held, PlanOf(s), Observe(s, hash, f, dirId).bytes.Keys)
  {
    CompleteFollowsPlan(s, hash, f, dirId, w);
    NoReturnIsSteady(w, held, PlanOf(s), Observe(s, hash, f, dirId).bytes.Keys);
  }

  // ---------- What was examined ----------

  /** An expected file, neither a directory nor redirected. */
  predicate PlainEntry(e: NativeEntry, f: Fixture) {
    e.name in f.latestFiles && !DirectoryBit(e.attributes) && !ReparseBit(e.attributes) && e.reparseTag == 0
  }

  /** The enumeration begun at moment `t` showed plain entries only, for exactly these names. */
  ghost predicate PlainListing(v: View, t: nat, f: Fixture, names: set<string>) {
    var ns := CollectFrom(PagesAt(v.script, v.directory, t), 0, []);
    && ns.Ok? && (forall i :: 0 <= i < |ns.value| ==> PlainEntry(ns.value[i], f))
    && forall n :: n in names <==> exists i :: 0 <= i < |ns.value| && ns.value[i].name == n
  }

  /** A protected regular file of the directory under this name, with the described access list. */
  predicate PlainFile(x: Metadata, dir: Metadata, name: string, sddl: string) {
    && !x.directory && !DirectoryBit(x.attributes) && !DeviceBit(x.attributes) && !ReparseBit(x.attributes) && x.reparseTag == 0
    && x.daclProtected && x.sddl == sddl && sddl != ""
    && x.volumeGuid == dir.volumeGuid && x.volumeSerial == dir.volumeSerial
    && (x.finalPath == dir.finalPath + name || x.finalPath == dir.finalPath + "\\" + name)
    && exists i :: 0 <= i < |x.fileId| && x.fileId[i] != 0
  }

  /** Nothing that identifies the object differs. */
  predicate SameObject(x: Metadata, y: Metadata) {
    && x.volumeGuid == y.volumeGuid && x.volumeSerial == y.volumeSerial && x.finalPath == y.finalPath && x.fileId == y.fileId
    && x.sddl == y.sddl && x.daclProtected == y.daclProtected && x.directory == y.directory && x.reparseTag == y.reparseTag
  }

  /** The handle held for a name showed, at moment `m`, the plain file it showed when it was opened. */
  ghost predicate CheckedAt(v: View, n: string, m: nat) {
    && n in v.children && n in v.config.childSddl
    && var x := v.script.inspect(m, v.children[n].handle);
       && x.Ok? && PlainFile(x.value, v.config.stateDirectory.identity, n, v.config.childSddl[n])
       && SameObject(x.value, v.children[n].initial)
  }

  /** From moment `t` on, every watched handle showed the configured directory, not redirected. */
  ghost predicate IntactAt(v: View, t: nat) {
    forall i :: 0 <= i < |v.nodes| ==>
      var x := v.script.inspect(t + i, v.nodes[i].handle);
      && x.Ok? && x.value.directory && SameObject(x.value, v.nodes[i].expected)
      && !ReparseBit(x.value.attributes) && x.value.reparseTag == 0
  }

  lemma NodesIntact(v: View, t: nat)
    requires NodesAt(v, t)
    ensures IntactAt(v, t)
  {
    forall i | 0 <= i < |v.nodes|
      ensures var x := v.script.inspect(t + i, v.nodes[i].handle);
              && x.Ok? && x.value.directory && SameObject(x.value, v.nodes[i].expected)
              && !ReparseBit(x.value.attributes) && x.value.reparseTag == 0
    {
      assert NodeHolds(v.script, t + i, v.nodes[i].handle, v.nodes[i].expected);
    }
  }

  lemma HeldIsChecked(v: View, m: nat, n: string, id: string)
    requires Traces(v, m, HeldCall(n, Answer(id)))
    ensures CheckedAt(v, n, m)
  {
  }

  lemma CleanIsPlain(v: View, m: nat, es: seq<Entry>, f: Fixture, dirId: string, names: set<string>)
    requires Traces(v, m, InventoryCall(Answer(es))) && Clean(es, f, dirId) && SameMembers(names, Names(es))
    ensures PlainListing(v, m, f, names)
  {
    var pages, key := PagesAt(v.script, v.directory, m), IdentityKey(v.config.stateDirectory.identity);
    var ns := CollectFrom(pages, 0, []).value;
    ShownChildren(pages, ns, key);
    forall i | 0 <= i < |ns| ensures PlainEntry(ns[i], f) {
      assert Acceptable(Children(es)[i], f, dirId);
    }
    forall n ensures n in names <==> exists i :: 0 <= i < |ns| && ns[i].name == n {
      ShownNames(ns, key, n);
    }
  }

  lemma ListEvent(log: seq<Event>, t: Instant)
    requires SessionOf(log).inventory(t).Answer?
    ensures t < |log| && log[t] == InventoryCall(SessionOf(log).inventory(t))
  {
    assert SessionOf(log).inventory(t) == if t < |log| && log[t].InventoryCall? then log[t].listing else NoCall();
  }

  lemma DirectoryEvent(log: seq<Event>, t: Instant)
    requires SessionOf(log).directoryIdentity(t).Answer?
    ensures t < |log| && log[t] == DirectoryCall(SessionOf(log).directoryIdentity(t))
  {
    assert SessionOf(log).directoryIdentity(t) == if t < |log| && log[t].DirectoryCall? then log[t].id else NoCall();
  }

  lemma HeldEvent(log: seq<Event>, t: Instant, n: string)
    requires SessionOf(log).heldIdentity(t, n).Answer?
    ensures t < |log| && log[t] == HeldCall(n, SessionOf(log).heldIdentity(t, n))
  {
    assert SessionOf(log).heldIdentity(t, n) == if t < |log| && log[t].HeldCall? && log[t].name == n then log[t].id else NoCall();
  }

  lemma {:induction false} HeldIndex(s: Session, kids: seq<Entry>, t: Instant, j: nat)
    requires HeldFrom(s, kids, t) && j < |kids|
    ensures HoldsAt(s, kids[j], t + 2 * j)
  {
    if j > 0 {
      HeldIndex(s, kids[1..], t + 2, j - 1);
    }
  }

  /** The child of this name was checked at a moment between `lo` and `hi`. */
  ghost predicate CheckedWithin(v: View, n: string, lo: nat, hi: nat) {
    exists m :: lo <= m <= hi && CheckedAt(v, n, m)
  }

  lemma CheckedEvent(v: View, ms: seq<nat>, log: seq<Event>, from: nat, now: nat, t: Instant, n: string, lo: Instant, hi: Instant)
    requires Traced(v, ms, log, from, now) && SessionOf(log).heldIdentity(t, n).Answer? && lo <= t <= hi < |log|
    ensures |ms| == |log| && CheckedWithin(v, n, ms[lo], ms[hi])
  {
    HeldEvent(log, t, n);
    TracesAt(v, ms, log, from, now, t);
    HeldIsChecked(v, ms[t], n, log[t].id.value);
  }

  lemma CheckedFirst(v: View, ms: seq<nat>, log: seq<Event>, from: nat, now: nat, kids: seq<Entry>, at: Instant, n: string, j: nat)
    requires Traced(v, ms, log, from, now) && HeldFrom(SessionOf(log), kids, 2) && j < |kids| && kids[j].name == n
    requires 2 + 2 * |kids| <= at < |log|
    ensures |ms| == |log| && CheckedWithin(v, n, ms[1], ms[at])
  {
    HeldIndex(SessionOf(log), kids, 2, j);
    CheckedEvent(v, ms, log, from, now, 2 + 2 * j + 1, n, 1, at);
  }

  lemma CheckedAgain(v: View, ms: seq<nat>, log: seq<Event>, from: nat, now: nat, kids: seq<Entry>, at: Instant,
                     ids: map<string, string>, bytes: map<string, string>, n: string, j: nat)
    requires Traced(v, ms, log, from, now) && RereadFrom(SessionOf(log), kids, at + 2, ids, bytes) && j < |kids| && kids[j].name == n
    ensures at < |log| == |ms| && CheckedWithin(v, n, ms[at], now)
  {
    RereadIndex(SessionOf(log), kids, at + 2, ids, bytes, j);
    var t := at + 2 + 2 * j;
    HeldEvent(log, t, n);
    CheckedEvent(v, ms, log, from, now, t, n, at, t);
  }

  /** The moments of a complete comparison: directory, first and second listing, directory again. */
  datatype Course = Course(directory: nat, first: nat, second: nat, again: nat)

  /** What a complete comparison examined, in terms of native answers. */
  ghost predicate Examined(v: View, f: Fixture, names: set<string>, c: Course, from: nat, now: nat) {
    && from <= c.directory <= c.first <= c.second <= c.again <= now
    && IntactAt(v, c.directory) && PlainListing(v, c.first, f, names)
    && PlainListing(v, c.second, f, names) && IntactAt(v, c.again)
    && forall n :: n in names ==> CheckedWithin(v, n, c.first, c.second) && CheckedWithin(v, n, c.second, now)
  }

  lemma CompleteIsExamined(v: View, ms: seq<nat>, log: seq<Event>, from: nat, now: nat, hash: Hashing, f: Fixture, dirId: string)
    returns (c: Course)
    requires Traced(v, ms, log, from, now) && Observe(SessionOf(log), hash, f, dirId).Complete?
    ensures Examined(v, f, Observe(SessionOf(log), hash, f, dirId).bytes.Keys, c, from, now)
  {
    var s, o := SessionOf(log), Observe(SessionOf(log), hash, f, dirId);
    CompleteIffDoubleCollect(s, hash, f, dirId, o.bytes, o.digest);
    c := CollectedIsExamined(v, ms, log, from, now, hash, f, dirId, o.bytes, s.inventory(1).value,
                             s.inventory(FinalInventoryAt(s.inventory(1).value)).value);
  }

  lemma CollectedIsExamined(v: View, ms: seq<nat>, log: seq<Event>, from: nat, now: nat, hash: Hashing, f: Fixture, dirId: string,
                            bytes: map<string, string>, before: seq<Entry>, after: seq<Entry>)
    returns (c: Course)
    requires Traced(v, ms, log, from, now)
    requires var s := SessionOf(log);
             && s.directoryIdentity(0) == Answer(dirId) && s.inventory(1) == Answer(before) && s.inventory(FinalInventoryAt(before)) == Answer(after)
             && FirstCollect(s, hash, f, dirId, before, bytes) && SecondCollect(s, f, dirId, before, after, bytes)
    ensures Examined(v, f, bytes.Keys, c, from, now)
  {
    var at := FinalInventoryAt(before);
    DirectoryEvent(log, 0);
    ListEvent(log, 1);
    ListEvent(log, at);
    DirectoryEvent(log, at + 1);
    TracesAt(v, ms, log, from, now, 0);
    TracesAt(v, ms, log, from, now, 1);
    TracesAt(v, ms, log, from, now, at);
    TracesAt(v, ms, log, from, now, at + 1);
    c := Course(ms[0], ms[1], ms[at], ms[at + 1]);
    NodesIntact(v, ms[0]);
    NodesIntact(v, ms[at + 1]);
    CleanIsPlain(v, ms[1], before, f, dirId, bytes.Keys);
    PlanNames(before, after, bytes);
    CleanIsPlain(v, ms[at], after, f, dirId, bytes.Keys);
    forall n | n in bytes.Keys ensures CheckedWithin(v, n, ms[1], ms[at]) && CheckedWithin(v, n, ms[at], now) {
      var j :| 0 <= j < |Names(before)| && Names(before)[j] == n;
      CheckedFirst(v, ms, log, from, now, Children(before), at, n, j);
      assert n in Names(after);
      var k :| 0 <= k < |Names(after)| && Names(after)[k] == n;
      CheckedAgain(v, ms, log, from, now, Children(after), at, Ids(before), bytes, n, k);
    }
  }

  /**
   The comparison over an initialised Windows session.  Whatever truthful native world the calls were made
   in, a complete observation is the state of the directory at one moment of the comparison, provided
   contents did not return to earlier values.
   */
  method ObserveWindows(window: WindowsSession, hash: Hashing, f: Fixture, expectedId: string) returns (o: Outcome)
    requires window.Valid()
    modifies window, window.calls
    ensures window.Valid() && SessionCalls.ViewOf(window) == old(SessionCalls.ViewOf(window)).(children := window.children)
    ensures o.Complete? ==>
              forall world, fileOf ::
                NativeTruth(SessionCalls.ViewOf(window), world, fileOf) ==>
                  exists m :: old(window.calls.clock) <= m <= window.calls.clock && ShowsMoment(world, m, o.bytes)
    ensures o.Complete? ==>
              exists c :: Examined(SessionCalls.ViewOf(window), f, o.bytes.Keys, c, old(window.calls.clock), window.calls.clock)
  {
    var calls := new SessionCalls(Windows(window));
    o := ObserveSession(calls, hash, f, expectedId);
    ghost var v := SessionCalls.ViewOf(window);
    AgreesWithLog(calls.log);
    if o.Complete? {
      ghost var c := CompleteIsExamined(v, calls.moments, calls.log, calls.birth, window.calls.clock, hash, f, expectedId);
      forall world, fileOf | NativeTruth(v, world, fileOf)
        ensures exists m :: old(window.calls.clock) <= m <= window.calls.clock && ShowsMoment(world, m, o.bytes)
      {
        var m := NativeDoubleCollect(v, calls.moments, calls.log, calls.birth, window.calls.clock, world, fileOf, hash, f, expectedId);
      }
    }
  }
}
