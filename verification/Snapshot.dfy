/**
 The snapshot comparator of remediation/round37/stage_a_fixture/src/snapshot.cpp.

 A session is modelled by what each of its calls would answer at each instant; the k-th
 call of a comparison happens at instant k, and answers at different instants are unrelated,
 so the directory may change in any way between calls.
 */
module Snapshots {
  import opened Wrappers
  import opened Manifests

  datatype ErrorKind = Malformed | Incomplete | Reparse | IdentityDrift | UnexpectedEntry | BindingFailure | HashFailure | Native

  datatype Failure = Failure(kind: ErrorKind, subject: string, step: string)

  datatype Verdict = AcceptCurrent | RejectRestoredOld | RejectDeleted | RejectMismatch | StopInconclusive

  datatype Entry = Entry(name: string, kind: string, fileId: string, parentId: string, reparse: bool)

  datatype Fixture = Fixture(id: string, status: string, generation: nat, workerRuns: nat, oldFiles: map<string, string>,
                             latestFiles: map<string, string>, oldDigest: string, latestDigest: string)

  datatype Reply<+T> = Answer(value: T) | Threw(failure: Failure)

  type Instant = nat

  datatype Session = Session(
    directoryIdentity: Instant -> Reply<string>,
    inventory: Instant -> Reply<seq<Entry>>,
    holdChild: (Instant, string) -> Reply<()>,
    heldIdentity: (Instant, string) -> Reply<string>,
    readChild: (Instant, string) -> Reply<string>)

  /** The hash provider; `None` stands for an exception. */
  datatype Hashing = Hashing(p11: string -> Option<string>, child: string -> Option<string>, mutableSet: map<string, string> -> Option<string>)

  // ---------- Listings ----------

  predicate Dot(e: Entry) {
    e.name == "." || e.name == ".."
  }

  /** The listed entries, dot entries apart. */
  function Children(es: seq<Entry>): seq<Entry> {
    if es == [] then [] else (if Dot(es[0]) then [] else [es[0]]) + Children(es[1..])
  }

  lemma {:induction false} AllChildren(es: seq<Entry>)
    requires forall i :: 0 <= i < |es| ==> !Dot(es[i])
    ensures Children(es) == es
  {
    if es != [] {
      AllChildren(es[1..]);
    }
  }

  lemma {:induction false} ChildrenMembers(es: seq<Entry>)
    ensures forall e :: e in Children(es) <==> e in es && !Dot(e)
  {
    if es != [] {
      ChildrenMembers(es[1..]);
      assert es == [es[0]] + es[1..];
    }
  }

  function Names(es: seq<Entry>): (names: seq<string>)
    ensures |names| == |Children(es)| && forall j :: 0 <= j < |names| ==> names[j] == Children(es)[j].name
  {
    seq(|Children(es)|, j requires 0 <= j < |Children(es)| => Children(es)[j].name)
  }

  ghost predicate Distinct(names: seq<string>) {
    names == [] || (names[0] !in names[1..] && Distinct(names[1..]))
  }

  /** No name is followed by a smaller one. */
  ghost predicate Ordered(s: seq<string>) {
    |s| <= 1 || (!Less(s[1], s[0]) && Ordered(s[1..]))
  }

  function InsertSorted(x: string, s: seq<string>): (r: seq<string>)
    ensures r != [] && (r[0] == x || (s != [] && r[0] == s[0]))
  {
    if s == [] || Less(x, s[0]) then [x] + s else [s[0]] + InsertSorted(x, s[1..])
  }

  /** `std::sort`. */
  function Sort(s: seq<string>): seq<string> {
    if s == [] then [] else InsertSorted(s[0], Sort(s[1..]))
  }

  lemma NotLessTransitive(a: string, b: string, c: string)
    requires !Less(b, a) && !Less(c, b)
    ensures !Less(c, a)
  {
    LessTotal(a, b);
    if Less(c, a) && a != b {
      LessTransitive(c, a, b);
    }
  }

  lemma {:induction false} OrderedHead(s: seq<string>, j: nat)
    requires Ordered(s) && j < |s|
    ensures !Less(s[j], s[0])
  {
    if j == 0 {
      LessIrreflexive(s[0]);
    } else {
      OrderedHead(s[1..], j - 1);
      NotLessTransitive(s[0], s[1], s[j]);
    }
  }

  lemma {:induction false} InsertSortedLaws(x: string, s: seq<string>)
    requires Ordered(s)
    ensures multiset(InsertSorted(x, s)) == multiset(s) + multiset{x} && Ordered(InsertSorted(x, s))
  {
    if s != [] {
      assert s == [s[0]] + s[1..];
      if Less(x, s[0]) {
        assert ([x] + s)[1..] == s;
        if Less(s[0], x) {
          LessTransitive(x, s[0], x);
          LessIrreflexive(x);
        }
      } else {
        InsertSortedLaws(x, s[1..]);
        assert ([s[0]] + InsertSorted(x, s[1..]))[1..] == InsertSorted(x, s[1..]);
      }
    }
  }

  /** Sorting keeps every name with its multiplicity and puts the names in order. */
  lemma {:induction false} SortLaws(s: seq<string>)
    ensures multiset(Sort(s)) == multiset(s) && Ordered(Sort(s))
  {
    if s != [] {
      SortLaws(s[1..]);
      InsertSortedLaws(s[0], Sort(s[1..]));
      assert s == [s[0]] + s[1..];
    }
  }

  /** The test `check_entries` makes of one entry, given the names seen before it. */
  function EntryFault(e: Entry, seen: set<string>, f: Fixture, dirId: string, step: string): Option<Failure> {
    if e.name == "" || (exists i :: 0 <= i < |e.name| && ForbiddenChar(e.name[i])) || e.name in seen
    then Some(Failure(Malformed, e.name, step))
    else if e.reparse then Some(Failure(Reparse, e.name, step))
    else if e.kind != "regular" || e.fileId == "" || e.parentId != dirId then Some(Failure(IdentityDrift, e.name, step))
    else if e.name !in f.latestFiles then Some(Failure(UnexpectedEntry, e.name, step))
    else None
  }

  function ListFault(es: seq<Entry>, seen: set<string>, f: Fixture, dirId: string, step: string): Option<Failure> {
    if es == [] then None
    else if Dot(es[0]) then ListFault(es[1..], seen, f, dirId, step)
    else
      var fault := EntryFault(es[0], seen, f, dirId, step);
      if fault.Some? then fault else ListFault(es[1..], seen + {es[0].name}, f, dirId, step)
  }

  method CheckEntries(es: seq<Entry>, f: Fixture, dirId: string, step: string) returns (fault: Option<Failure>)
    ensures fault == ListFault(es, {}, f, dirId, step)
  {
    var seen: set<string> := {};
    assert es[0..] == es;
    for i := 0 to |es|
      invariant ListFault(es, {}, f, dirId, step) == ListFault(es[i..], seen, f, dirId, step)
    {
      var e := es[i];
      assert es[i..][0] == e && es[i..][1..] == es[i + 1..];
      if Dot(e) {
        continue;
      }
      fault := EntryFault(e, seen, f, dirId, step);
      if fault.Some? {
        return;
      }
      seen := seen + {e.name};
    }
    fault := None;
  }

  /** Nothing listed twice, everything a regular unredirected child of the directory, and expected. */
  ghost predicate Clean(es: seq<Entry>, f: Fixture, dirId: string) {
    Distinct(Names(es)) && AllAcceptable(Children(es), f, dirId)
  }

  ghost predicate AllAcceptable(kids: seq<Entry>, f: Fixture, dirId: string) {
    forall j {:trigger Acceptable(kids[j], f, dirId)} :: 0 <= j < |kids| ==> Acceptable(kids[j], f, dirId)
  }

  ghost predicate Acceptable(e: Entry, f: Fixture, dirId: string) {
    && ValidName(e.name) && !e.reparse && e.kind == "regular" && e.fileId != "" && e.parentId == dirId
    && e.name in f.latestFiles
  }

  /** What is wrong with an entry, and how it is reported: the first defect in this order. */
  ghost predicate Blames(e: Entry, seen: set<string>, f: Fixture, dirId: string, failure: Failure) {
    && failure.subject == e.name
    && (failure.kind == Malformed <==> !ValidName(e.name) || e.name in seen)
    && (failure.kind == Reparse <==> ValidName(e.name) && e.name !in seen && e.reparse)
    && (failure.kind == IdentityDrift <==>
          ValidName(e.name) && e.name !in seen && !e.reparse && (e.kind != "regular" || e.fileId == "" || e.parentId != dirId))
    && (failure.kind == UnexpectedEntry <==>
          && ValidName(e.name) && e.name !in seen && !e.reparse && e.kind == "regular" && e.fileId != "" && e.parentId == dirId
          && e.name !in f.latestFiles)
    && failure.kind in {Malformed, Reparse, IdentityDrift, UnexpectedEntry}
  }

  /** A listing is blamed for its first faulty child, by what is wrong with that child. */
  lemma {:induction false} FirstFaultIsBlamed(es: seq<Entry>, seen: set<string>, f: Fixture, dirId: string, step: string) returns (i: nat)
    requires ListFault(es, seen, f, dirId, step).Some?
    ensures i < |es| && !Dot(es[i]) && ListFault(es[..i], seen, f, dirId, step).None?
    ensures var failure := ListFault(es, seen, f, dirId, step).value;
            failure.step == step && Blames(es[i], seen + NameSet(es[..i]), f, dirId, failure)
  {
    if !Dot(es[0]) && EntryFault(es[0], seen, f, dirId, step).Some? {
      i := 0;
      assert es[..0] == [] && seen + NameSet([]) == seen;
    } else {
      var seen' := if Dot(es[0]) then seen else seen + {es[0].name};
      var j := FirstFaultIsBlamed(es[1..], seen', f, dirId, step);
      i := j + 1;
      assert es[..i][0] == es[0] && es[..i][1..] == es[1..][..j];
      assert seen + NameSet(es[..i]) == seen' + NameSet(es[1..][..j]);
    }
  }

  /** The names of the children listed. */
  function NameSet(es: seq<Entry>): set<string> {
    if es == [] then {} else (if Dot(es[0]) then {} else {es[0].name}) + NameSet(es[1..])
  }

  lemma EntryFaultIff(e: Entry, seen: set<string>, f: Fixture, dirId: string, step: string)
    requires !Dot(e)
    ensures EntryFault(e, seen, f, dirId, step).None? <==> Acceptable(e, f, dirId) && e.name !in seen
  {
  }

  ghost predicate CleanAfter(es: seq<Entry>, seen: set<string>, f: Fixture, dirId: string) {
    Clean(es, f, dirId) && Unseen(Names(es), seen)
  }

  ghost predicate Unseen(names: seq<string>, seen: set<string>) {
    forall j :: 0 <= j < |names| ==> names[j] !in seen
  }

  lemma {:induction false} ListFaultIff(es: seq<Entry>, seen: set<string>, f: Fixture, dirId: string, step: string)
    ensures ListFault(es, seen, f, dirId, step).None? <==> CleanAfter(es, seen, f, dirId)
  {
    if es != [] {
      var e, rest := es[0], es[1..];
      if Dot(e) {
        ListFaultIff(rest, seen, f, dirId, step);
        assert Children(es) == Children(rest) && Names(es) == Names(rest);
      } else {
        EntryFaultIff(e, seen, f, dirId, step);
        ListFaultIff(rest, seen + {e.name}, f, dirId, step);
        CleanCons(es, seen, f, dirId);
      }
    }
  }

  lemma CleanCons(es: seq<Entry>, seen: set<string>, f: Fixture, dirId: string)
    requires es != [] && !Dot(es[0])
    ensures CleanAfter(es, seen, f, dirId) <==>
              Acceptable(es[0], f, dirId) && es[0].name !in seen && CleanAfter(es[1..], seen + {es[0].name}, f, dirId)
  {
    NamesCons(es);
    UnseenCons(es[0].name, Names(es[1..]), seen);
    AcceptableCons(es[0], Children(es[1..]), f, dirId);
  }

  lemma AcceptableCons(e: Entry, rest: seq<Entry>, f: Fixture, dirId: string)
    ensures AllAcceptable([e] + rest, f, dirId) <==> Acceptable(e, f, dirId) && AllAcceptable(rest, f, dirId)
  {
    var kids := [e] + rest;
    if AllAcceptable(kids, f, dirId) {
      assert Acceptable(kids[0], f, dirId);
      forall j | 0 <= j < |rest| ensures Acceptable(rest[j], f, dirId) {
        assert Acceptable(kids[j + 1], f, dirId);
      }
    }
    if Acceptable(e, f, dirId) && AllAcceptable(rest, f, dirId) {
      forall j | 0 <= j < |kids| ensures Acceptable(kids[j], f, dirId) {
        assert j == 0 || Acceptable(rest[j - 1], f, dirId);
      }
    }
  }

  lemma NamesCons(es: seq<Entry>)
    requires es != []
    ensures Dot(es[0]) ==> Names(es) == Names(es[1..])
    ensures !Dot(es[0]) ==> Names(es) == [es[0].name] + Names(es[1..]) && Names(es)[1..] == Names(es[1..])
  {
  }

  lemma UnseenCons(n: string, rest: seq<string>, seen: set<string>)
    ensures Unseen([n] + rest, seen) && n !in rest <==> n !in seen && Unseen(rest, seen + {n})
  {
    var names := [n] + rest;
    assert names[0] == n && forall j :: 0 <= j < |rest| ==> rest[j] == names[j + 1];
  }

  // ---------- The comparison as a function of the session ----------

  /** Hold one child and compare its identity with the listing. */
  function HoldStep(s: Session, e: Entry, t: Instant): Option<Failure> {
    var h := s.holdChild(t, e.name);
    if h.Threw? then Some(h.failure)
    else
      var id := s.heldIdentity(t + 1, e.name);
      if id.Threw? then Some(id.failure)
      else if id.value != e.fileId then Some(Failure(IdentityDrift, e.name, "hold-identity"))
      else None
  }

  /** Hold every listed child; answers the next free instant. */
  function HoldFrom(s: Session, es: seq<Entry>, t: Instant): Reply<Instant> {
    if es == [] then Answer(t)
    else if Dot(es[0]) then HoldFrom(s, es[1..], t)
    else
      var f := HoldStep(s, es[0], t);
      if f.Some? then Threw(f.value) else HoldFrom(s, es[1..], t + 2)
  }

  /** The identities recorded while holding; the first entry of a name is the one that stays. */
  function Ids(es: seq<Entry>): map<string, string> {
    if es == [] then map[]
    else if Dot(es[0]) then Ids(es[1..])
    else Ids(es[1..]) + map[es[0].name := es[0].fileId]
  }

  /** First pass: read the named children one instant each, starting at `t`. */
  function ReadFrom(s: Session, hash: Hashing, names: seq<string>, t: Instant, bytes: map<string, string>): Reply<map<string, string>> {
    if names == [] then Answer(bytes)
    else
      var b := s.readChild(t, names[0]);
      if b.Threw? then Threw(b.failure)
      else if hash.child(b.value).None? then Threw(Failure(HashFailure, names[0], "child-hash"))
      else ReadFrom(s, hash, names[1..], t + 1, bytes[names[0] := b.value])
  }

  /** One child again: its identity, and the bytes it showed before. */
  function RereadStep(s: Session, e: Entry, t: Instant, ids: map<string, string>, bytes: map<string, string>): Option<Failure>
    requires e.name in ids && e.name in bytes
  {
    var drift := Some(Failure(IdentityDrift, e.name, "final-child-identity"));
    if ids[e.name] != e.fileId then drift
    else
      var id := s.heldIdentity(t, e.name);
      if id.Threw? then Some(id.failure)
      else if id.value != ids[e.name] then drift
      else
        var b := s.readChild(t + 1, e.name);
        if b.Threw? then Some(b.failure)
        else if b.value != bytes[e.name] then Some(Failure(IdentityDrift, e.name, "final-content"))
        else None
  }

  /** Second pass: every child again. */
  function FinalFrom(s: Session, es: seq<Entry>, t: Instant, ids: map<string, string>, bytes: map<string, string>): Option<Failure>
    requires Covers(es, ids) && Covers(es, bytes)
  {
    if es == [] then None
    else if Dot(es[0]) then FinalFrom(s, es[1..], t, ids, bytes)
    else
      var f := RereadStep(s, es[0], t, ids, bytes);
      if f.Some? then f else FinalFrom(s, es[1..], t + 2, ids, bytes)
  }

  /** The instant of the final inventory: after two calls, two per child held, one per child read. */
  function FinalInventoryAt(before: seq<Entry>): Instant {
    2 + 3 * |Names(before)|
  }

  lemma {:induction false} HoldTakesTwoEach(s: Session, es: seq<Entry>, t: Instant)
    requires HoldFrom(s, es, t).Answer?
    ensures HoldFrom(s, es, t).value == t + 2 * |Names(es)|
  {
    if es != [] {
      HoldTakesTwoEach(s, es[1..], if Dot(es[0]) then t else t + 2);
    }
  }

  /** First half of the protocol: listing, holding, reading. */
  function FirstPass(s: Session, hash: Hashing, f: Fixture, dirId: string): Reply<map<string, string>> {
    var l := s.inventory(1);
    if l.Threw? then Threw(l.failure)
    else
      var before := l.value;
      var fault := ListFault(before, {}, f, dirId, "initial-inventory");
      if fault.Some? then Threw(fault.value)
      else
        HoldAndRead(s, hash, before)
  }

  function HoldAndRead(s: Session, hash: Hashing, before: seq<Entry>): Reply<map<string, string>> {
    var held := HoldFrom(s, before, 2);
    if held.Threw? then Threw(held.failure) else ReadFrom(s, hash, Sort(Names(before)), held.value, map[])
  }

  /** The checks after the second listing: names, the directory itself, then every child. */
  function CheckAgain(s: Session, dirId: string, before: seq<Entry>, after: seq<Entry>, t: Instant, bytes: map<string, string>): Option<Failure> {
    if Sort(Names(before)) != Sort(Names(after)) then Some(Failure(IdentityDrift, "state/", "final-inventory"))
    else
      var d := s.directoryIdentity(t);
      if d.Threw? then Some(d.failure)
      else if d.value != dirId then Some(Failure(IdentityDrift, "state/", "final-directory-identity"))
      else if !Covers(after, Ids(before)) || !Covers(after, bytes) then Some(Failure(Incomplete, "state/", "unclassified-observation"))
      else FinalFrom(s, after, t + 1, Ids(before), bytes)
  }

  /** Second half: listing again, then identities and contents again. */
  function SecondPass(s: Session, f: Fixture, dirId: string, before: seq<Entry>, bytes: map<string, string>): Option<Failure> {
    var at := FinalInventoryAt(before);
    var l := s.inventory(at);
    if l.Threw? then Some(l.failure)
    else
      var fault := ListFault(l.value, {}, f, dirId, "final-inventory");
      if fault.Some? then fault else CheckAgain(s, dirId, before, l.value, at + 1, bytes)
  }

  predicate Covers(es: seq<Entry>, m: map<string, string>) {
    forall i :: 0 <= i < |es| && !Dot(es[i]) ==> es[i].name in m
  }

  datatype Outcome = Stopped(failure: Failure) | Complete(bytes: map<string, string>, digest: string)

  function Observe(s: Session, hash: Hashing, f: Fixture, expectedId: string): Outcome {
    var d := s.directoryIdentity(0);
    if d.Threw? then Stopped(d.failure)
    else if d.value == "" || d.value != expectedId then Stopped(Failure(IdentityDrift, "state/", "directory-identity"))
    else
      var first := FirstPass(s, hash, f, expectedId);
      if first.Threw? then Stopped(first.failure) else Conclude(s, hash, f, expectedId, s.inventory(1).value, first)
  }

  /** The second half of the protocol and the digest, after a first half with the given result. */
  function Conclude(s: Session, hash: Hashing, f: Fixture, dirId: string, before: seq<Entry>, first: Reply<map<string, string>>): Outcome {
    if first.Threw? then Stopped(first.failure)
    else
      var fault := SecondPass(s, f, dirId, before, first.value);
      if fault.Some? then Stopped(fault.value)
      else
        var digest := hash.mutableSet(first.value);
        if digest.None? then Stopped(Failure(HashFailure, "state/", "final-mutable-digest"))
        else Complete(first.value, digest.value)
  }

  function Judge(f: Fixture, bytes: map<string, string>, digest: string): Verdict {
    if bytes == map[] then RejectDeleted
    else if digest == f.latestDigest && bytes == f.latestFiles then AcceptCurrent
    else if digest == f.oldDigest && bytes == f.oldFiles then RejectRestoredOld
    else RejectMismatch
  }

  /** What the comparison reports; `error` is empty exactly for a complete snapshot. */
  datatype Evidence = Evidence(verdict: Verdict, error: Option<Failure>, snapshotComplete: bool, observedDigest: string, p11Sha256: string)

  function Report(f: Fixture, o: Outcome): Evidence {
    match o
    case Stopped(failure) => Evidence(StopInconclusive, Some(failure), false, "", "")
    case Complete(bytes, digest) => Evidence(Judge(f, bytes, digest), None, true, digest, "")
  }

  // ---------- Facts about listings ----------

  lemma SortMembers(a: seq<string>)
    ensures forall n :: n in Sort(a) <==> n in a
    ensures |Sort(a)| == |a|
  {
    SortLaws(a);
    forall n ensures n in Sort(a) <==> n in a {
      assert n in Sort(a) <==> n in multiset(Sort(a));
      assert n in a <==> n in multiset(a);
    }
    assert |multiset(Sort(a))| == |multiset(a)|;
  }

  lemma {:induction false} DistinctCount(a: seq<string>, n: string)
    requires Distinct(a)
    ensures multiset(a)[n] <= 1
  {
    if a != [] {
      DistinctCount(a[1..], n);
      assert a == [a[0]] + a[1..];
      if a[0] == n {
        assert n !in multiset(a[1..]);
      }
    }
  }

  lemma {:induction false} CountDistinct(b: seq<string>)
    requires forall n :: multiset(b)[n] <= 1
    ensures Distinct(b)
  {
    if b != [] {
      assert b == [b[0]] + b[1..];
      assert forall n :: multiset(b[1..])[n] <= multiset(b)[n];
      CountDistinct(b[1..]);
      assert multiset(b)[b[0]] == 1 + multiset(b[1..])[b[0]];
    }
  }

  lemma {:induction false} DistinctPair(a: seq<string>, i: nat, j: nat)
    requires Distinct(a) && i < j < |a|
    ensures a[i] != a[j]
  {
    if i == 0 {
      assert a[j] == a[1..][j - 1];
    } else {
      DistinctPair(a[1..], i - 1, j - 1);
    }
  }

  lemma DistinctSort(a: seq<string>)
    requires Distinct(a)
    ensures Distinct(Sort(a)) && Increasing(Sort(a))
  {
    SortLaws(a);
    forall n ensures multiset(Sort(a))[n] <= 1 {
      DistinctCount(a, n);
    }
    CountDistinct(Sort(a));
    OrderedIncreasing(Sort(a));
  }

  lemma OrderedIncreasing(b: seq<string>)
    requires Distinct(b) && Ordered(b)
    ensures Increasing(b)
  {
    forall i, j | 0 <= i < j < |b| ensures Less(b[i], b[j]) {
      OrderedPair(b, i, j);
      DistinctPair(b, i, j);
      LessTotal(b[i], b[j]);
    }
  }

  lemma {:induction false} OrderedPair(s: seq<string>, i: nat, j: nat)
    requires Ordered(s) && i <= j < |s|
    ensures !Less(s[j], s[i])
  {
    if i == 0 {
      OrderedHead(s, j);
    } else {
      OrderedPair(s[1..], i - 1, j - 1);
    }
  }

  /** Listings of distinct names have the same sorted names iff they list the same names. */
  lemma SortSameIff(a: seq<string>, b: seq<string>)
    requires Distinct(a) && Distinct(b)
    ensures Sort(a) == Sort(b) <==> forall n :: n in a <==> n in b
  {
    SortMembers(a);
    SortMembers(b);
    DistinctSort(a);
    DistinctSort(b);
    if forall n :: n in a <==> n in b {
      ListingUnique(Sort(a), Sort(b));
    }
  }

  ghost predicate SameMembers(keys: set<string>, names: seq<string>) {
    forall n :: n in keys <==> n in names
  }

  ghost predicate DescribesKids(kids: seq<Entry>, dir: map<string, string>) {
    forall j :: 0 <= j < |kids| ==> kids[j].name in dir && dir[kids[j].name] == kids[j].fileId
  }

  /** The recorded identities are those of the listing, for exactly the listed names. */
  lemma {:induction false} IdsLaws(es: seq<Entry>)
    requires Distinct(Names(es))
    ensures SameMembers(Ids(es).Keys, Names(es)) && DescribesKids(Children(es), Ids(es))
  {
    if es != [] {
      NamesCons(es);
      IdsLaws(es[1..]);
      if !Dot(es[0]) {
        var kids, rest, ids := Children(es), Children(es[1..]), Ids(es[1..]);
        forall j | 0 <= j < |kids| ensures kids[j].name in Ids(es) && Ids(es)[kids[j].name] == kids[j].fileId {
          if j > 0 {
            assert kids[j] == rest[j - 1] && Names(es[1..])[j - 1] == rest[j - 1].name;
            assert rest[j - 1].name in ids && ids[rest[j - 1].name] == rest[j - 1].fileId;
          }
        }
      }
    }
  }

  // ---------- What each pass establishes, call by call ----------

  ghost predicate HoldsAt(s: Session, e: Entry, t: Instant) {
    s.holdChild(t, e.name).Answer? && s.heldIdentity(t + 1, e.name) == Answer(e.fileId)
  }

  /** Held one after the other, two calls each. */
  ghost predicate HeldFrom(s: Session, kids: seq<Entry>, t: Instant) {
    kids == [] || (HoldsAt(s, kids[0], t) && HeldFrom(s, kids[1..], t + 2))
  }

  lemma {:induction false} HoldFromIff(s: Session, es: seq<Entry>, t: Instant)
    ensures HoldFrom(s, es, t).Answer? <==> HeldFrom(s, Children(es), t)
  {
    if es != [] {
      if Dot(es[0]) {
        HoldFromIff(s, es[1..], t);
        assert Children(es) == Children(es[1..]);
      } else {
        HoldFromIff(s, es[1..], t + 2);
        assert Children(es)[1..] == Children(es[1..]);
      }
    }
  }

  ghost predicate ReadsAt(s: Session, hash: Hashing, n: string, t: Instant, r: map<string, string>) {
    n in r && s.readChild(t, n) == Answer(r[n]) && hash.child(r[n]).Some?
  }

  /** Read one after the other, one call each. */
  ghost predicate ReadAllFrom(s: Session, hash: Hashing, names: seq<string>, t: Instant, r: map<string, string>) {
    names == [] || (ReadsAt(s, hash, names[0], t, r) && ReadAllFrom(s, hash, names[1..], t + 1, r))
  }

  ghost predicate Grows(acc: map<string, string>, names: seq<string>, r: map<string, string>) {
    (forall n :: n in r <==> n in acc || n in names) && forall n :: n in acc ==> r[n] == acc[n]
  }

  lemma GrowsCons(acc: map<string, string>, n: string, b: string, rest: seq<string>, r: map<string, string>)
    requires n !in acc
    ensures Grows(acc[n := b], rest, r) <==> Grows(acc, [n] + rest, r) && n in r && r[n] == b
  {
    var acc' := acc[n := b];
    if Grows(acc', rest, r) {
      assert n in acc';
      assert forall m :: m in acc ==> m in acc' && acc'[m] == acc[m];
    }
  }

  /** The first pass reads every name once, at its own instant, and keeps what it read. */
  lemma {:induction false} ReadFromIff(s: Session, hash: Hashing, names: seq<string>, t: Instant, acc: map<string, string>, r: map<string, string>)
    requires Distinct(names) && forall i :: 0 <= i < |names| ==> names[i] !in acc
    ensures ReadFrom(s, hash, names, t, acc) == Answer(r) <==> Grows(acc, names, r) && ReadAllFrom(s, hash, names, t, r)
  {
    if names == [] {
      assert Grows(acc, names, r) <==> r == acc;
    } else {
      var n, rest, b := names[0], names[1..], s.readChild(t, names[0]);
      assert names == [n] + rest;
      if b.Answer? && hash.child(b.value).Some? {
        var acc' := acc[n := b.value];
        assert forall i :: 0 <= i < |rest| ==> rest[i] == names[i + 1];
        ReadFromIff(s, hash, rest, t + 1, acc', r);
        GrowsCons(acc, n, b.value, rest, r);
      }
    }
  }

  ghost predicate RereadsAt(s: Session, e: Entry, t: Instant, ids: map<string, string>, bytes: map<string, string>) {
    && e.name in ids && e.name in bytes && ids[e.name] == e.fileId
    && s.heldIdentity(t, e.name) == Answer(e.fileId) && s.readChild(t + 1, e.name) == Answer(bytes[e.name])
  }

  /** Identified and read again one after the other, two calls each. */
  ghost predicate RereadFrom(s: Session, kids: seq<Entry>, t: Instant, ids: map<string, string>, bytes: map<string, string>) {
    kids == [] || (RereadsAt(s, kids[0], t, ids, bytes) && RereadFrom(s, kids[1..], t + 2, ids, bytes))
  }

  lemma {:induction false} FinalFromIff(s: Session, es: seq<Entry>, t: Instant, ids: map<string, string>, bytes: map<string, string>)
    requires Covers(es, ids) && Covers(es, bytes)
    ensures FinalFrom(s, es, t, ids, bytes).None? <==> RereadFrom(s, Children(es), t, ids, bytes)
  {
    if es != [] {
      assert Covers(es[1..], ids) && Covers(es[1..], bytes);
      if Dot(es[0]) {
        FinalFromIff(s, es[1..], t, ids, bytes);
        assert Children(es) == Children(es[1..]);
      } else {
        FinalFromIff(s, es[1..], t + 2, ids, bytes);
        assert Children(es)[1..] == Children(es[1..]);
      }
    }
  }

  // ---------- A complete observation is a double collect ----------

  function FirstReadsAt(before: seq<Entry>): Instant {
    2 + 2 * |Names(before)|
  }

  /** Holding every listed child and then reading all of them. */
  ghost predicate FirstCollect(s: Session, hash: Hashing, f: Fixture, dirId: string, before: seq<Entry>, bytes: map<string, string>) {
    && Clean(before, f, dirId)
    && HeldFrom(s, Children(before), 2)
    && SameMembers(bytes.Keys, Names(before))
    && ReadAllFrom(s, hash, Sort(Names(before)), FirstReadsAt(before), bytes)
  }

  ghost predicate SameNames(before: seq<Entry>, after: seq<Entry>) {
    forall n :: n in Names(before) <==> n in Names(after)
  }

  /** The same names with the same identities again, and every child with the same identity and bytes. */
  ghost predicate SecondCollect(s: Session, f: Fixture, dirId: string, before: seq<Entry>, after: seq<Entry>, bytes: map<string, string>) {
    var at := FinalInventoryAt(before);
    && Clean(after, f, dirId) && SameNames(before, after)
    && s.directoryIdentity(at + 1) == Answer(dirId)
    && RereadFrom(s, Children(after), at + 2, Ids(before), bytes)
  }

  lemma ReadSortedIff(s: Session, hash: Hashing, names: seq<string>, t: Instant, bytes: map<string, string>)
    requires Distinct(names)
    ensures ReadFrom(s, hash, Sort(names), t, map[]) == Answer(bytes) <==>
              SameMembers(bytes.Keys, names) && ReadAllFrom(s, hash, Sort(names), t, bytes)
  {
    SortMembers(names);
    DistinctSort(names);
    ReadFromIff(s, hash, Sort(names), t, map[], bytes);
    assert Grows(map[], Sort(names), bytes) <==> SameMembers(bytes.Keys, names);
  }

  lemma FirstPassParts(s: Session, hash: Hashing, f: Fixture, dirId: string, before: seq<Entry>, bytes: map<string, string>)
    requires s.inventory(1) == Answer(before)
    ensures FirstPass(s, hash, f, dirId) == Answer(bytes) <==>
              && ListFault(before, {}, f, dirId, "initial-inventory").None? && HoldFrom(s, before, 2).Answer?
              && ReadFrom(s, hash, Sort(Names(before)), FirstReadsAt(before), map[]) == Answer(bytes)
  {
    if HoldFrom(s, before, 2).Answer? {
      HoldTakesTwoEach(s, before, 2);
    }
  }

  lemma CleanIff(es: seq<Entry>, f: Fixture, dirId: string, step: string)
    ensures ListFault(es, {}, f, dirId, step).None? <==> Clean(es, f, dirId)
  {
    ListFaultIff(es, {}, f, dirId, step);
  }

  lemma FirstPassIff(s: Session, hash: Hashing, f: Fixture, dirId: string, before: seq<Entry>, bytes: map<string, string>)
    requires s.inventory(1) == Answer(before)
    ensures FirstPass(s, hash, f, dirId) == Answer(bytes) <==> FirstCollect(s, hash, f, dirId, before, bytes)
  {
    FirstPassParts(s, hash, f, dirId, before, bytes);
    CleanIff(before, f, dirId, "initial-inventory");
    HoldFromIff(s, before, 2);
    if Clean(before, f, dirId) {
      ReadSortedIff(s, hash, Names(before), FirstReadsAt(before), bytes);
    }
  }

  lemma SecondPassParts(s: Session, f: Fixture, dirId: string, before: seq<Entry>, after: seq<Entry>, bytes: map<string, string>)
    requires s.inventory(FinalInventoryAt(before)) == Answer(after)
    ensures SecondPass(s, f, dirId, before, bytes).None? <==>
              && ListFault(after, {}, f, dirId, "final-inventory").None? && Sort(Names(before)) == Sort(Names(after))
              && s.directoryIdentity(FinalInventoryAt(before) + 1) == Answer(dirId)
              && Covers(after, Ids(before)) && Covers(after, bytes)
              && FinalFrom(s, after, FinalInventoryAt(before) + 2, Ids(before), bytes).None?
  {
  }

  lemma SameNamesIff(before: seq<Entry>, after: seq<Entry>, f: Fixture, dirId: string)
    requires Clean(before, f, dirId) && Clean(after, f, dirId)
    ensures Sort(Names(before)) == Sort(Names(after)) <==> SameNames(before, after)
  {
    SortSameIff(Names(before), Names(after));
  }

  lemma RereadIff(s: Session, f: Fixture, dirId: string, before: seq<Entry>, after: seq<Entry>, t: Instant, bytes: map<string, string>)
    requires Clean(before, f, dirId) && SameNames(before, after) && SameMembers(bytes.Keys, Names(before))
    ensures Covers(after, Ids(before)) && Covers(after, bytes)
    ensures FinalFrom(s, after, t, Ids(before), bytes).None? <==> RereadFrom(s, Children(after), t, Ids(before), bytes)
  {
    IdsLaws(before);
    ListedIsRecorded(before, after, bytes);
    FinalFromIff(s, after, t, Ids(before), bytes);
  }

  lemma SecondPassIff(s: Session, f: Fixture, dirId: string, before: seq<Entry>, after: seq<Entry>, bytes: map<string, string>)
    requires Clean(before, f, dirId) && SameMembers(bytes.Keys, Names(before))
    requires s.inventory(FinalInventoryAt(before)) == Answer(after)
    ensures SecondPass(s, f, dirId, before, bytes).None? <==> SecondCollect(s, f, dirId, before, after, bytes)
  {
    SecondPassParts(s, f, dirId, before, after, bytes);
    CleanIff(after, f, dirId, "final-inventory");
    if Clean(after, f, dirId) {
      SameNamesIff(before, after, f, dirId);
      if SameNames(before, after) {
        RereadIff(s, f, dirId, before, after, FinalInventoryAt(before) + 2, bytes);
      }
    }
  }

  /** Once the two listings agree, every listed child has a recorded identity and content. */
  lemma ListedIsRecorded(before: seq<Entry>, after: seq<Entry>, bytes: map<string, string>)
    requires SameMembers(Ids(before).Keys, Names(before))
    requires SameNames(before, after)
    requires SameMembers(bytes.Keys, Names(before))
    ensures Covers(after, Ids(before)) && Covers(after, bytes)
  {
    ChildrenMembers(after);
    forall i | 0 <= i < |after| && !Dot(after[i]) ensures after[i].name in Names(after) {
      assert after[i] in Children(after);
      var j :| 0 <= j < |Children(after)| && Children(after)[j] == after[i];
      assert Names(after)[j] == after[i].name;
    }
  }

  /** What a complete observation consists of, without reference to how it is computed. */
  ghost predicate DoubleCollected(s: Session, hash: Hashing, f: Fixture, dirId: string, bytes: map<string, string>) {
    && dirId != "" && s.directoryIdentity(0) == Answer(dirId) && s.inventory(1).Answer?
    && var before := s.inventory(1).value;
       && FirstCollect(s, hash, f, dirId, before, bytes)
       && var l := s.inventory(FinalInventoryAt(before));
          l.Answer? && SecondCollect(s, f, dirId, before, l.value, bytes)
  }

  /** The comparison completes iff it is a double collect around the final inventory, and then with exactly those bytes. */
  lemma CompleteIffDoubleCollect(s: Session, hash: Hashing, f: Fixture, dirId: string, bytes: map<string, string>, digest: string)
    ensures Observe(s, hash, f, dirId) == Complete(bytes, digest)
            <==> DoubleCollected(s, hash, f, dirId, bytes) && hash.mutableSet(bytes) == Some(digest)
  {
    if s.inventory(1).Answer? {
      var before := s.inventory(1).value;
      FirstPassIff(s, hash, f, dirId, before, bytes);
      if FirstCollect(s, hash, f, dirId, before, bytes) {
        if s.inventory(FinalInventoryAt(before)).Answer? {
          SecondPassIff(s, f, dirId, before, s.inventory(FinalInventoryAt(before)).value, bytes);
        }
      }
    }
  }

  // ---------- The double-collect theorem ----------

  /** The truth about the directory at one instant: which file each name denotes, and what each file holds. */
  datatype Moment = Moment(dir: map<string, string>, content: string -> string)

  type World = Instant -> Moment

  /** The names of the directory with the bytes behind them. */
  function Files(m: Moment): map<string, string> {
    map n | n in m.dir :: m.content(m.dir[n])
  }

  /** The listing shows exactly the names of the directory, each with its identity. */
  ghost predicate Describes(es: seq<Entry>, dir: map<string, string>) {
    (forall n :: n in dir <==> n in Names(es)) && DescribesKids(Children(es), dir)
  }


  /**
   Answers tell the truth about their instant: a listing shows names and identities, while identity and
   content are those of the file that was opened for a name, whatever the name denotes by then.
   */
  ghost predicate Truthful(s: Session, w: World, held: string -> string) {
    TrueListings(s, w) && TrueHandles(s, held) && TrueReads(s, w, held)
  }

  ghost predicate TrueListings(s: Session, w: World) {
    forall t :: s.inventory(t).Answer? ==> Describes(s.inventory(t).value, w(t).dir)
  }

  ghost predicate TrueHandles(s: Session, held: string -> string) {
    forall t, n :: s.heldIdentity(t, n).Answer? ==> s.heldIdentity(t, n).value == held(n)
  }

  ghost predicate TrueReads(s: Session, w: World, held: string -> string) {
    forall t, n :: s.readChild(t, n).Answer? ==> s.readChild(t, n).value == w(t).content(held(n))
  }

  /** Where a name first occurs. */
  function Position(names: seq<string>, n: string): (i: nat)
    ensures n in names ==> i < |names| && names[i] == n
  {
    if names == [] || names[0] == n then 0 else 1 + Position(names[1..], n)
  }

  /** The names in the order of the first and of the second reading, which fix the instant of every read. */
  datatype Plan = Plan(order: seq<string>, again: seq<string>) {
    function FinalAt(): Instant {
      2 + 3 * |order|
    }

    function FirstReadAt(n: string): Instant {
      2 + 2 * |order| + Position(order, n)
    }

    function SecondReadAt(n: string): Instant {
      FinalAt() + 3 + 2 * Position(again, n)
    }
  }

  /** Both listings of a comparison are answered. */
  predicate Answered(s: Session) {
    s.inventory(1).Answer? && s.inventory(FinalInventoryAt(s.inventory(1).value)).Answer?
  }

  function PlanOf(s: Session): Plan
    requires Answered(s)
  {
    var before := s.inventory(1).value;
    Plan(Sort(Names(before)), Names(s.inventory(FinalInventoryAt(before)).value))
  }

  /** A file that shows the same bytes at `t` and `u` also shows them at `at`. */
  predicate Steady(w: World, id: string, t: Instant, at: Instant, u: Instant) {
    w(t).content(id) == w(u).content(id) ==> w(at).content(id) == w(t).content(id)
  }

  /** The child is steady from its first read over the final inventory to its second read. */
  predicate SteadyChild(w: World, held: string -> string, plan: Plan, n: string) {
    Steady(w, held(n), plan.FirstReadAt(n), plan.FinalAt(), plan.SecondReadAt(n))
  }

  ghost predicate AllSteady(w: World, held: string -> string, plan: Plan, names: set<string>) {
    forall n {:trigger SteadyChild(w, held, plan, n)} :: n in names ==> SteadyChild(w, held, plan, n)
  }

  /** The name still denotes the file held for it, which holds the collected bytes iff it is steady. */
  ghost predicate CollectedTrue(w: World, held: string -> string, plan: Plan, n: string, b: string) {
    var now := w(plan.FinalAt());
    && n in now.dir && now.dir[n] == held(n)
    && (now.content(now.dir[n]) == b <==> SteadyChild(w, held, plan, n))
  }

  lemma {:induction false} ReadIndex(s: Session, hash: Hashing, names: seq<string>, t: Instant, bytes: map<string, string>, i: nat)
    requires i < |names| && ReadAllFrom(s, hash, names, t, bytes)
    ensures ReadsAt(s, hash, names[i], t + i, bytes)
  {
    if i > 0 {
      ReadIndex(s, hash, names[1..], t + 1, bytes, i - 1);
    }
  }

  lemma {:induction false} RereadIndex(s: Session, kids: seq<Entry>, t: Instant, ids: map<string, string>, bytes: map<string, string>, j: nat)
    requires j < |kids| && RereadFrom(s, kids, t, ids, bytes)
    ensures RereadsAt(s, kids[j], t + 2 * j, ids, bytes)
  {
    if j > 0 {
      RereadIndex(s, kids[1..], t + 2, ids, bytes, j - 1);
    }
  }

  lemma FirstReadAnswers(s: Session, hash: Hashing, plan: Plan, bytes: map<string, string>, n: string)
    requires n in plan.order && ReadAllFrom(s, hash, plan.order, 2 + 2 * |plan.order|, bytes)
    ensures n in bytes && s.readChild(plan.FirstReadAt(n), n) == Answer(bytes[n])
  {
    ReadIndex(s, hash, plan.order, 2 + 2 * |plan.order|, bytes, Position(plan.order, n));
  }

  lemma SecondReadAnswers(s: Session, plan: Plan, kids: seq<Entry>, ids: map<string, string>, bytes: map<string, string>, n: string)
    requires n in plan.again && NamedBy(kids, plan.again) && RereadFrom(s, kids, plan.FinalAt() + 2, ids, bytes)
    ensures n in bytes && s.readChild(plan.SecondReadAt(n), n) == Answer(bytes[n])
    ensures var e := kids[Position(plan.again, n)];
            e.name == n && s.heldIdentity(plan.SecondReadAt(n) - 1, n) == Answer(e.fileId)
  {
    RereadIndex(s, kids, plan.FinalAt() + 2, ids, bytes, Position(plan.again, n));
  }

  predicate NamedBy(kids: seq<Entry>, names: seq<string>) {
    |kids| == |names| && forall j :: 0 <= j < |names| ==> names[j] == kids[j].name
  }

  lemma ReadTrue(s: Session, w: World, held: string -> string, t: Instant, n: string, b: string)
    requires TrueReads(s, w, held) && s.readChild(t, n) == Answer(b)
    ensures w(t).content(held(n)) == b
  {
  }

  lemma HandleTrue(s: Session, kids: seq<Entry>, dir: map<string, string>, held: string -> string, t: Instant, j: nat)
    requires TrueHandles(s, held) && DescribesKids(kids, dir) && j < |kids|
    requires s.heldIdentity(t, kids[j].name) == Answer(kids[j].fileId)
    ensures var n := kids[j].name; n in dir && dir[n] == held(n)
  {
    assert s.heldIdentity(t, kids[j].name).value == held(kids[j].name);
  }

  lemma FirstReadTrue(s: Session, hash: Hashing, plan: Plan, bytes: map<string, string>, w: World, held: string -> string, n: string)
    requires TrueReads(s, w, held) && n in plan.order && ReadAllFrom(s, hash, plan.order, 2 + 2 * |plan.order|, bytes)
    ensures n in bytes && w(plan.FirstReadAt(n)).content(held(n)) == bytes[n]
  {
    FirstReadAnswers(s, hash, plan, bytes, n);
    ReadTrue(s, w, held, plan.FirstReadAt(n), n, bytes[n]);
  }

  lemma SecondReadTrue(s: Session, plan: Plan, kids: seq<Entry>, dir: map<string, string>, ids: map<string, string>,
                       bytes: map<string, string>, w: World, held: string -> string, n: string)
    requires TrueHandles(s, held) && TrueReads(s, w, held) && DescribesKids(kids, dir)
    requires n in plan.again && NamedBy(kids, plan.again) && RereadFrom(s, kids, plan.FinalAt() + 2, ids, bytes)
    ensures n in bytes && w(plan.SecondReadAt(n)).content(held(n)) == bytes[n] && n in dir && dir[n] == held(n)
  {
    SecondReadAnswers(s, plan, kids, ids, bytes, n);
    ReadTrue(s, w, held, plan.SecondReadAt(n), n, bytes[n]);
    HandleTrue(s, kids, dir, held, plan.SecondReadAt(n) - 1, Position(plan.again, n));
  }

  lemma CollectedChild(s: Session, hash: Hashing, plan: Plan, kids: seq<Entry>, ids: map<string, string>, bytes: map<string, string>,
                       w: World, held: string -> string, n: string)
    requires TrueHandles(s, held) && TrueReads(s, w, held) && DescribesKids(kids, w(plan.FinalAt()).dir)
    requires n in plan.order && ReadAllFrom(s, hash, plan.order, 2 + 2 * |plan.order|, bytes)
    requires n in plan.again && NamedBy(kids, plan.again) && RereadFrom(s, kids, plan.FinalAt() + 2, ids, bytes)
    ensures n in bytes && CollectedTrue(w, held, plan, n, bytes[n])
  {
    FirstReadTrue(s, hash, plan, bytes, w, held, n);
    SecondReadTrue(s, plan, kids, w(plan.FinalAt()).dir, ids, bytes, w, held, n);
  }

  /** The collected bytes are those of the final inventory iff all children are steady. */
  lemma CollectedIsCurrent(w: World, held: string -> string, plan: Plan, bytes: map<string, string>)
    requires forall n {:trigger CollectedTrue(w, held, plan, n, bytes[n])} :: n in bytes ==> CollectedTrue(w, held, plan, n, bytes[n])
    requires forall n :: n in w(plan.FinalAt()).dir <==> n in bytes
    ensures Files(w(plan.FinalAt())) == bytes <==> AllSteady(w, held, plan, bytes.Keys)
  {
    var files := Files(w(plan.FinalAt()));
    SameMap(files, bytes);
    forall n | n in bytes ensures files[n] == bytes[n] <==> SteadyChild(w, held, plan, n) {
      assert CollectedTrue(w, held, plan, n, bytes[n]);
    }
  }

  lemma SameMap(a: map<string, string>, b: map<string, string>)
    requires forall n :: n in a <==> n in b
    ensures a == b <==> forall n :: n in b ==> a[n] == b[n]
  {
  }

  lemma CollectedParts(s: Session, hash: Hashing, f: Fixture, dirId: string, bytes: map<string, string>)
    requires DoubleCollected(s, hash, f, dirId, bytes)
    ensures Answered(s)
    ensures var before := s.inventory(1).value;
            && ReadAllFrom(s, hash, Sort(Names(before)), FirstReadsAt(before), bytes)
            && RereadFrom(s, Children(s.inventory(FinalInventoryAt(before)).value), FinalInventoryAt(before) + 2, Ids(before), bytes)
  {
  }

  /** The reads of a double collect, along its plan. */
  lemma PlanReads(s: Session, hash: Hashing, bytes: map<string, string>)
    requires Answered(s) && ReadAllFrom(s, hash, Sort(Names(s.inventory(1).value)), FirstReadsAt(s.inventory(1).value), bytes)
    requires var before := s.inventory(1).value;
             RereadFrom(s, Children(s.inventory(FinalInventoryAt(before)).value), FinalInventoryAt(before) + 2, Ids(before), bytes)
    ensures var plan, before := PlanOf(s), s.inventory(1).value;
            && plan.FinalAt() == FinalInventoryAt(before)
            && ReadAllFrom(s, hash, plan.order, 2 + 2 * |plan.order|, bytes)
            && RereadFrom(s, Children(s.inventory(plan.FinalAt()).value), plan.FinalAt() + 2, Ids(before), bytes)
  {
    PlanSize(s);
  }

  lemma PlanSize(s: Session)
    requires Answered(s)
    ensures var plan, before := PlanOf(s), s.inventory(1).value;
            plan.FinalAt() == FinalInventoryAt(before) && 2 + 2 * |plan.order| == FirstReadsAt(before)
  {
    SortSize(Names(s.inventory(1).value));
  }

  lemma SortSize(a: seq<string>)
    ensures |Sort(a)| == |a|
  {
    SortMembers(a);
  }

  lemma PlanNames(before: seq<Entry>, after: seq<Entry>, bytes: map<string, string>)
    requires SameMembers(bytes.Keys, Names(before)) && SameNames(before, after)
    ensures SameMembers(bytes.Keys, Sort(Names(before))) && SameMembers(bytes.Keys, Names(after))
  {
    SortMembers(Names(before));
  }

  /**
   The double-collect theorem.  A complete observation of a truthful session shows the names of the
   directory at the instant of the final inventory, each still denoting the file that was read; it shows
   all their bytes at that one instant iff every child is steady around it.
   */
  lemma DoubleCollect(s: Session, hash: Hashing, f: Fixture, dirId: string, w: World, held: string -> string)
    requires Truthful(s, w, held) && Observe(s, hash, f, dirId).Complete?
    ensures Answered(s)
    ensures var plan, bytes := PlanOf(s), Observe(s, hash, f, dirId).bytes;
            var now := w(plan.FinalAt());
            && (forall n :: n in now.dir <==> n in bytes)
            && (forall n :: n in bytes ==> now.dir[n] == held(n))
            && (Files(now) == bytes <==> AllSteady(w, held, plan, bytes.Keys))
  {
    CompleteFollowsPlan(s, hash, f, dirId, w);
    FollowedIsTrue(s, hash, Observe(s, hash, f, dirId).bytes, w, held);
  }

  /** A complete observation read every child along its plan, and truthful listings describe the directory. */
  ghost predicate FollowsPlan(s: Session, hash: Hashing, bytes: map<string, string>, w: World)
    requires Answered(s)
  {
    var plan := PlanOf(s);
    && s.inventory(plan.FinalAt()).Answer? && Names(s.inventory(plan.FinalAt()).value) == plan.again
    && Describes(s.inventory(plan.FinalAt()).value, w(plan.FinalAt()).dir)
    && SameMembers(bytes.Keys, plan.order) && SameMembers(bytes.Keys, plan.again)
    && ReadAllFrom(s, hash, plan.order, 2 + 2 * |plan.order|, bytes)
    && RereadFrom(s, Children(s.inventory(plan.FinalAt()).value), plan.FinalAt() + 2, Ids(s.inventory(1).value), bytes)
  }

  lemma CompleteFollowsPlan(s: Session, hash: Hashing, f: Fixture, dirId: string, w: World)
    requires TrueListings(s, w) && Observe(s, hash, f, dirId).Complete?
    ensures Answered(s) && FollowsPlan(s, hash, Observe(s, hash, f, dirId).bytes, w)
  {
    var o := Observe(s, hash, f, dirId);
    CompleteIffDoubleCollect(s, hash, f, dirId, o.bytes, o.digest);
    CollectedParts(s, hash, f, dirId, o.bytes);
    PlanReads(s, hash, o.bytes);
    PlanListing(s, hash, f, dirId, o.bytes, w);
  }

  lemma FollowedIsTrue(s: Session, hash: Hashing, bytes: map<string, string>, w: World, held: string -> string)
    requires TrueHandles(s, held) && TrueReads(s, w, held) && Answered(s) && FollowsPlan(s, hash, bytes, w)
    ensures var plan := PlanOf(s);
            var now := w(plan.FinalAt());
            && (forall n :: n in now.dir <==> n in bytes)
            && (forall n :: n in bytes ==> now.dir[n] == held(n))
            && (Files(now) == bytes <==> AllSteady(w, held, plan, bytes.Keys))
  {
    var plan := PlanOf(s);
    CollectedAll(s, hash, plan, s.inventory(plan.FinalAt()).value, Ids(s.inventory(1).value), bytes, w, held);
  }

  lemma PlanListing(s: Session, hash: Hashing, f: Fixture, dirId: string, bytes: map<string, string>, w: World)
    requires DoubleCollected(s, hash, f, dirId, bytes) && TrueListings(s, w)
    requires Answered(s) && PlanOf(s).FinalAt() == FinalInventoryAt(s.inventory(1).value)
    ensures var plan := PlanOf(s);
            && Describes(s.inventory(plan.FinalAt()).value, w(plan.FinalAt()).dir)
            && SameMembers(bytes.Keys, plan.order) && SameMembers(bytes.Keys, plan.again)
  {
    var before := s.inventory(1).value;
    PlanNames(before, s.inventory(FinalInventoryAt(before)).value, bytes);
  }

  lemma CollectedAll(s: Session, hash: Hashing, plan: Plan, after: seq<Entry>, ids: map<string, string>, bytes: map<string, string>,
                     w: World, held: string -> string)
    requires TrueHandles(s, held) && TrueReads(s, w, held) && Describes(after, w(plan.FinalAt()).dir)
    requires ReadAllFrom(s, hash, plan.order, 2 + 2 * |plan.order|, bytes)
    requires Names(after) == plan.again && RereadFrom(s, Children(after), plan.FinalAt() + 2, ids, bytes)
    requires SameMembers(bytes.Keys, plan.order) && SameMembers(bytes.Keys, plan.again)
    ensures forall n :: n in w(plan.FinalAt()).dir <==> n in bytes
    ensures forall n :: n in bytes ==> w(plan.FinalAt()).dir[n] == held(n)
    ensures Files(w(plan.FinalAt())) == bytes <==> AllSteady(w, held, plan, bytes.Keys)
  {
    forall n | n in bytes ensures CollectedTrue(w, held, plan, n, bytes[n]) {
      CollectedChild(s, hash, plan, Children(after), ids, bytes, w, held, n);
    }
    assert forall n :: n in w(plan.FinalAt()).dir <==> n in bytes;
    CollectedIsCurrent(w, held, plan, bytes);
  }

  /** No file ever returns to an earlier content. */
  ghost predicate NoReturn(w: World) {
    forall id, i, j, k :: i <= j <= k && w(i).content(id) == w(k).content(id) ==> w(j).content(id) == w(i).content(id)
  }

  /** In particular contents that never return are steady. */
  lemma NoReturnIsSteady(w: World, held: string -> string, plan: Plan, names: set<string>)
    requires NoReturn(w) && forall n :: n in names ==> n in plan.order
    ensures AllSteady(w, held, plan, names)
  {
  }

  // ---------- The verdicts ----------

  /** The provider of snapshot.cpp: contents and mutable sets hashed as contracts.cpp does. */
  ghost predicate HashesBy(hash: Hashing, p: Provider) {
    && (forall b :: hash.p11(b) == hash.child(b) == if p.delivers(b) then Some(p.digest(b)) else None)
    && forall m, order :: Listing(m, order) ==>
         hash.mutableSet(m) == if Digestible(p, m, order) then Some(p.digest(Manifest(p.digest, m, order))) else None
  }

  /** The fixture carries the digests of its two file sets. */
  ghost predicate Frozen(hash: Hashing, f: Fixture) {
    hash.mutableSet(f.latestFiles) == Some(f.latestDigest) && hash.mutableSet(f.oldFiles) == Some(f.oldDigest)
  }

  /** The digests of a fixture case are computed from its files. */
  method FreezeFixture(p: Provider, draft: Fixture, oldOrder: seq<string>, latestOrder: seq<string>) returns (r: Option<Fixture>)
    requires Listing(draft.oldFiles, oldOrder) && Listing(draft.latestFiles, latestOrder)
    ensures r.Some? <==> Digestible(p, draft.oldFiles, oldOrder) && Digestible(p, draft.latestFiles, latestOrder)
    ensures r.Some? ==> r.value == draft.(oldDigest := r.value.oldDigest, latestDigest := r.value.latestDigest)
    ensures r.Some? ==> forall hash :: HashesBy(hash, p) ==> Frozen(hash, r.value)
  {
    var oldDigest := MutableDigest(p, draft.oldFiles, oldOrder);
    if oldDigest.None? {
      return None;
    }
    var latestDigest := MutableDigest(p, draft.latestFiles, latestOrder);
    if latestDigest.None? {
      return None;
    }
    r := Some(draft.(oldDigest := oldDigest.value, latestDigest := latestDigest.value));
  }

  /** Each conclusive verdict holds iff the directory was in the corresponding state at the final inventory. */
  lemma VerdictIff(s: Session, hash: Hashing, f: Fixture, dirId: string, w: World, held: string -> string)
    requires Truthful(s, w, held) && Observe(s, hash, f, dirId).Complete? && Frozen(hash, f)
    ensures Answered(s)
    ensures AllSteady(w, held, PlanOf(s), Observe(s, hash, f, dirId).bytes.Keys) ==>
              var now := Files(w(PlanOf(s).FinalAt()));
              var v := Report(f, Observe(s, hash, f, dirId)).verdict;
              && (v == RejectDeleted <==> now == map[])
              && (v == AcceptCurrent <==> now == f.latestFiles && now != map[])
              && (v == RejectRestoredOld <==> now == f.oldFiles && now != f.latestFiles && now != map[])
              && (v == RejectMismatch <==> now != f.oldFiles && now != f.latestFiles && now != map[])
  {
    DoubleCollect(s, hash, f, dirId, w, held);
    DigestOfComplete(s, hash, f, dirId);
  }

  lemma DigestOfComplete(s: Session, hash: Hashing, f: Fixture, dirId: string)
    requires Observe(s, hash, f, dirId).Complete?
    ensures var o := Observe(s, hash, f, dirId); hash.mutableSet(o.bytes) == Some(o.digest)
  {
  }
}
