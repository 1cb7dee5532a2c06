/**
 `compare_impl` of remediation/round37/stage_a_fixture/src/snapshot.cpp as it runs: every session call goes
 through one object that keeps the log of calls with their answers.  Behind the object is either an
 arbitrary session or the Windows session, so what is proved of the log holds of both.
 */
module SnapshotRuns {
  import opened Wrappers
  import opened Bytes
  import opened Manifests
  import opened Snapshots
  import opened WindowsSessions
  import opened Markers

  /** A session call with its answer; call `t` of a comparison happens at instant `t`. */
  datatype Event =
    | DirectoryCall(id: Reply<string>)
    | InventoryCall(listing: Reply<seq<Entry>>)
    | HoldCall(name: string, done: Reply<()>)
    | HeldCall(name: string, id: Reply<string>)
    | ReadCall(name: string, bytes: Reply<string>)

  ghost predicate Gives(s: Session, t: Instant, e: Event) {
    match e
    case DirectoryCall(r) => s.directoryIdentity(t) == r
    case InventoryCall(r) => s.inventory(t) == r
    case HoldCall(n, r) => s.holdChild(t, n) == r
    case HeldCall(n, r) => s.heldIdentity(t, n) == r
    case ReadCall(n, r) => s.readChild(t, n) == r
  }

  /** The session would have given every answer of the log. */
  ghost predicate Agrees(s: Session, log: seq<Event>) {
    log == [] || (Agrees(s, log[..|log| - 1]) && Gives(s, |log| - 1, log[|log| - 1]))
  }

  lemma AgreesSnoc(s: Session, log: seq<Event>, e: Event)
    ensures Agrees(s, log + [e]) <==> Agrees(s, log) && Gives(s, |log|, e)
  {
    assert (log + [e])[..|log|] == log;
  }

  lemma {:induction false} AgreesAt(s: Session, log: seq<Event>, t: Instant)
    requires Agrees(s, log) && t < |log|
    ensures Gives(s, t, log[t])
  {
    if t < |log| - 1 {
      AgreesAt(s, log[..|log| - 1], t);
    }
  }

  lemma {:induction false} AgreesPrefix(s: Session, a: seq<Event>, b: seq<Event>)
    requires a <= b && Agrees(s, b)
    ensures Agrees(s, a)
  {
    if a == b {
    } else {
      AgreesPrefix(s, a, b[..|b| - 1]);
    }
  }

  // ---------- The session object ----------

  datatype Backend = Scripted(session: Session) | Windows(window: WindowsSession)

  function AsReply<T>(r: Result<T, Failure>): Reply<T> {
    if r.Ok? then Answer(r.value) else Threw(r.error)
  }

  /** What is known about the Windows session: its native script, configuration, watched nodes and held children. */
  datatype View = View(script: Script, config: Config, nodes: seq<Verified>, directory: Handle, children: map<string, Child>)

  /** Every watched node held its identity when re-checked from moment `t` on. */
  ghost predicate NodesAt(v: View, t: nat) {
    forall i :: 0 <= i < |v.nodes| ==> NodeHolds(v.script, t + i, v.nodes[i].handle, v.nodes[i].expected)
  }

  /** What an answer of the Windows session says about the native calls at moment `m`. */
  ghost predicate Traces(v: View, m: nat, e: Event) {
    match e
    case DirectoryCall(Answer(_)) => NodesAt(v, m)
    case InventoryCall(Answer(es)) =>
      var ns := CollectFrom(PagesAt(v.script, v.directory, m), 0, []);
      ns.Ok? && es == Shown(ns.value, IdentityKey(v.config.stateDirectory.identity))
    case HeldCall(n, Answer(id)) =>
      && n in v.children && n in v.config.childSddl
      && var x := v.script.inspect(m, v.children[n].handle);
         && x.Ok? && id == Hex(x.value.fileId) && IdentityHolds(x.value, v.children[n].initial)
         && ChildHolds(x.value, v.config.stateDirectory.identity, n, v.config.childSddl[n])
    case ReadCall(n, Answer(b)) => n in v.children && v.script.readAll(m, v.children[n].handle) == Ok(b)
    case _ => true
  }

  /** Every answer is explained by the native calls at its moment, and moments do not decrease. */
  ghost predicate Traced(v: View, ms: seq<nat>, log: seq<Event>, from: nat, now: nat) {
    && |ms| == |log| && from <= now
    && (forall k {:trigger ms[k]} :: 0 <= k < |log| ==> from <= ms[k] <= now && Traces(v, ms[k], log[k]))
    && (forall j, k :: 0 <= j < k < |ms| ==> ms[j] <= ms[k])
  }

  lemma TracedSnoc(v: View, v': View, ms: seq<nat>, log: seq<Event>, from: nat, earlier: nat, m: nat, e: Event, now: nat)
    requires Traced(v, ms, log, from, earlier) && earlier <= m <= now
    requires v' == v.(children := v'.children) && forall n :: n in v.children ==> n in v'.children && v'.children[n] == v.children[n]
    requires Traces(v', m, e)
    ensures Traced(v', ms + [m], log + [e], from, now)
  {
    var ms', log' := ms + [m], log + [e];
    forall k | 0 <= k < |log'| ensures from <= ms'[k] <= now && Traces(v', ms'[k], log'[k]) {
      if k < |log| {
        assert ms'[k] == ms[k] && log'[k] == log[k];
        TracesGrow(v, v', ms[k], log[k]);
      }
    }
  }

  lemma TracesGrow(v: View, v': View, m: nat, e: Event)
    requires Traces(v, m, e)
    requires v' == v.(children := v'.children) && forall n :: n in v.children ==> n in v'.children && v'.children[n] == v.children[n]
    ensures Traces(v', m, e)
  {
  }

  class SessionCalls {
    const backend: Backend
    var count: nat
    ghost var log: seq<Event>
    ghost var moments: seq<nat>
    ghost const birth: nat
    ghost const origin: View

    ghost function Footprint(): set<object> {
      match backend
      case Scripted(_) => {}
      case Windows(w) => {w, w.calls}
    }

    ghost predicate Valid()
      reads this, Footprint()
    {
      && count == |log|
      && match backend
         case Scripted(s) => Agrees(s, log)
         case Windows(w) =>
           && w.Valid() && ViewOf(w) == origin.(children := w.children)
           && Traced(ViewOf(w), moments, log, birth, w.calls.clock)
    }

    static ghost function ViewOf(w: WindowsSession): View
      reads w
    {
      View(w.calls.script, w.config, w.verified, w.directory, w.children)
    }

    constructor (b: Backend)
      requires b.Windows? ==> b.window.Valid()
      ensures Valid() && backend == b && log == [] && (b.Windows? ==> birth == b.window.calls.clock && origin == ViewOf(b.window))
    {
      backend, count := b, 0;
      birth := if b.Windows? then b.window.calls.clock else 0;
      if b.Windows? {
        origin := ViewOf(b.window);
      }
      log, moments := [], [];
    }

    method Directory() returns (r: Reply<string>)
      requires Valid()
      modifies this, Footprint()
      ensures Valid() && log == old(log) + [DirectoryCall(r)]
    {
      match backend {
        case Scripted(s) =>
          r := s.directoryIdentity(count);
          AgreesSnoc(s, log, DirectoryCall(r));
        case Windows(w) =>
          ghost var was, earlier := ViewOf(w), w.calls.clock;
          var x := w.DirectoryIdentity();
          r := AsReply(x);
          ghost var m := earlier;
          TracedSnoc(was, ViewOf(w), moments, log, birth, earlier, m, DirectoryCall(r), w.calls.clock);
          moments := moments + [m];
      }
      log, count := log + [DirectoryCall(r)], count + 1;
    }

    method Inventory() returns (r: Reply<seq<Entry>>)
      requires Valid()
      modifies this, Footprint()
      ensures Valid() && log == old(log) + [InventoryCall(r)]
    {
      match backend {
        case Scripted(s) =>
          r := s.inventory(count);
          AgreesSnoc(s, log, InventoryCall(r));
          log, count := log + [InventoryCall(r)], count + 1;
        case Windows(w) =>
          r := ListWindows(w);
      }
    }

    method ListWindows(w: WindowsSession) returns (r: Reply<seq<Entry>>)
      requires Valid() && backend == Windows(w)
      modifies this, Footprint()
      ensures Valid() && log == old(log) + [InventoryCall(r)]
    {
      ghost var was, earlier := ViewOf(w), w.calls.clock;
      var x := w.Inventory();
      r := AsReply(x);
      ghost var m := if x.Ok? then earlier + |w.verified| else earlier;
      assert Traces(ViewOf(w), m, InventoryCall(r));
      TracedSnoc(was, ViewOf(w), moments, log, birth, earlier, m, InventoryCall(r), w.calls.clock);
      log, moments, count := log + [InventoryCall(r)], moments + [m], count + 1;
    }

    method Hold(name: string) returns (r: Reply<()>)
      requires Valid()
      modifies this, Footprint()
      ensures Valid() && log == old(log) + [HoldCall(name, r)]
    {
      match backend {
        case Scripted(s) =>
          r := s.holdChild(count, name);
          AgreesSnoc(s, log, HoldCall(name, r));
        case Windows(w) =>
          ghost var was, earlier := ViewOf(w), w.calls.clock;
          var x := w.HoldChild(name);
          r := if x.Some? then Threw(x.value) else Answer(());
          ghost var m := earlier;
          TracedSnoc(was, ViewOf(w), moments, log, birth, earlier, m, HoldCall(name, r), w.calls.clock);
          moments := moments + [m];
      }
      log, count := log + [HoldCall(name, r)], count + 1;
    }

    method Held(name: string) returns (r: Reply<string>)
      requires Valid()
      modifies this, Footprint()
      ensures Valid() && log == old(log) + [HeldCall(name, r)]
    {
      match backend {
        case Scripted(s) =>
          r := s.heldIdentity(count, name);
          AgreesSnoc(s, log, HeldCall(name, r));
        case Windows(w) =>
          ghost var was, earlier := ViewOf(w), w.calls.clock;
          var x := w.HeldIdentity(name);
          r := AsReply(x);
          ghost var m := earlier;
          TracedSnoc(was, ViewOf(w), moments, log, birth, earlier, m, HeldCall(name, r), w.calls.clock);
          moments := moments + [m];
      }
      log, count := log + [HeldCall(name, r)], count + 1;
    }

    method Read(name: string) returns (r: Reply<string>)
      requires Valid()
      modifies this, Footprint()
      ensures Valid() && log == old(log) + [ReadCall(name, r)]
    {
      match backend {
        case Scripted(s) =>
          r := s.readChild(count, name);
          AgreesSnoc(s, log, ReadCall(name, r));
        case Windows(w) =>
          ghost var was, earlier := ViewOf(w), w.calls.clock;
          var x := w.ReadChild(name);
          r := AsReply(x);
          ghost var m := earlier;
          TracedSnoc(was, ViewOf(w), moments, log, birth, earlier, m, ReadCall(name, r), w.calls.clock);
          moments := moments + [m];
      }
      log, count := log + [ReadCall(name, r)], count + 1;
    }
  }

  // ---------- The protocol ----------

  ghost predicate NoReads(log: seq<Event>) {
    forall i :: 0 <= i < |log| ==> !log[i].ReadCall?
  }

  /** Every one of the names has been held successfully. */
  ghost predicate AllHeld(log: seq<Event>, names: seq<string>) {
    forall n :: n in names ==> HoldCall(n, Answer(())) in log
  }

  /** Nothing is read before every one of the names is held. */
  ghost predicate HeldBeforeRead(log: seq<Event>, names: seq<string>) {
    forall i :: 0 <= i < |log| && log[i].ReadCall? ==> AllHeld(log[..i], names)
  }

  lemma ReadsAfterHolding(start: seq<Event>, log: seq<Event>, names: seq<string>)
    requires NoReads(start) && AllHeld(start, names) && start <= log
    ensures HeldBeforeRead(log, names)
  {
    forall i | 0 <= i < |log| && log[i].ReadCall? ensures AllHeld(log[..i], names) {
      assert i >= |start| && start <= log[..i];
    }
  }

  predicate Throws(e: Event) {
    match e
    case DirectoryCall(r) => r.Threw?
    case InventoryCall(r) => r.Threw?
    case HoldCall(_, r) => r.Threw?
    case HeldCall(_, r) => r.Threw?
    case ReadCall(_, r) => r.Threw?
  }

  function FailureOf(e: Event): Failure
    requires Throws(e)
  {
    match e
    case DirectoryCall(r) => r.failure
    case InventoryCall(r) => r.failure
    case HoldCall(_, r) => r.failure
    case HeldCall(_, r) => r.failure
    case ReadCall(_, r) => r.failure
  }

  /** No call has failed. */
  ghost predicate Smooth(log: seq<Event>) {
    log == [] || (Smooth(log[..|log| - 1]) && !Throws(log[|log| - 1]))
  }

  /** At most the last call failed, and then its failure is the one reported. */
  ghost predicate StopsAt(log: seq<Event>, failure: Failure) {
    Smooth(log) || (log != [] && Smooth(log[..|log| - 1]) && Throws(log[|log| - 1]) && FailureOf(log[|log| - 1]) == failure)
  }

  lemma SmoothSnoc(log: seq<Event>, e: Event)
    requires Smooth(log)
    ensures Throws(e) ==> StopsAt(log + [e], FailureOf(e))
    ensures !Throws(e) ==> Smooth(log + [e])
  {
    assert (log + [e])[..|log|] == log;
  }

  /** Ask for the identity of a held child and compare it with the listed one. */
  method IdentifyHeld(calls: SessionCalls, name: string, fileId: string, step: string) returns (f: Option<Failure>)
    requires calls.Valid() && Smooth(calls.log)
    modifies calls, calls.Footprint()
    ensures calls.Valid() && old(calls.log) <= calls.log && |calls.log| == |old(calls.log)| + 1
    ensures !calls.log[|calls.log| - 1].ReadCall?
    ensures if f.Some? then StopsAt(calls.log, f.value) else Smooth(calls.log)
    ensures forall s :: Agrees(s, calls.log) ==>
              && Agrees(s, old(calls.log))
              && var id := s.heldIdentity(|old(calls.log)|, name);
                 f == if id.Threw? then Some(id.failure) else if id.value != fileId then Some(Failure(IdentityDrift, name, step)) else None
  {
    ghost var log := calls.log;
    var id := calls.Held(name);
    SmoothSnoc(log, HeldCall(name, id));
    AgreesLast(log, HeldCall(name, id));
    f := if id.Threw? then Some(id.failure)
    else if id.value != fileId then Some(Failure(IdentityDrift, name, step))
    else None;
  }

  /** Hold one listed child. */
  method HoldOne(calls: SessionCalls, e: Entry) returns (f: Option<Failure>)
    requires calls.Valid() && NoReads(calls.log) && Smooth(calls.log)
    modifies calls, calls.Footprint()
    ensures calls.Valid() && old(calls.log) <= calls.log && NoReads(calls.log)
    ensures if f.Some? then StopsAt(calls.log, f.value) else Smooth(calls.log)
    ensures forall s :: Agrees(s, calls.log) ==> Agrees(s, old(calls.log)) && f == HoldStep(s, e, |old(calls.log)|)
    ensures f.None? ==> |calls.log| == |old(calls.log)| + 2 && HoldCall(e.name, Answer(())) in calls.log
  {
    ghost var log := calls.log;
    var h := calls.Hold(e.name);
    SmoothSnoc(log, HoldCall(e.name, h));
    AgreesLast(log, HoldCall(e.name, h));
    if h.Threw? {
      return Some(h.failure);
    }
    assert h.value == ();
    assert calls.log[|log|] == HoldCall(e.name, Answer(()));
    f := IdentifyHeld(calls, e.name, e.fileId, "hold-identity");
    assert calls.log[|log|] == HoldCall(e.name, Answer(()));
  }

  lemma IdsTurn(es: seq<Entry>, i: nat, ids: map<string, string>)
    requires i < |es| && !Dot(es[i])
    ensures Ids(es[i..]) + ids == Ids(es[i + 1..]) + (map[es[i].name := es[i].fileId] + ids)
  {
    assert es[i..][0] == es[i] && es[i..][1..] == es[i + 1..];
  }

  lemma ChildrenTurn(es: seq<Entry>, i: nat)
    requires i < |es| && !Dot(es[i])
    ensures |Children(es[i..])| == 1 + |Children(es[i + 1..])|
  {
    assert es[i..][0] == es[i] && es[i..][1..] == es[i + 1..];
  }

  ghost predicate HeldUpTo(log: seq<Event>, es: seq<Entry>, i: nat)
    requires i <= |es|
  {
    forall j {:trigger es[j]} :: 0 <= j < i && !Dot(es[j]) ==> HoldCall(es[j].name, Answer(())) in log
  }

  lemma HeldGrows(log: seq<Event>, log': seq<Event>, es: seq<Entry>, i: nat)
    requires i < |es| && HeldUpTo(log, es, i) && log <= log' && (Dot(es[i]) || HoldCall(es[i].name, Answer(())) in log')
    ensures HeldUpTo(log', es, i + 1)
  {
  }

  lemma NamesHeld(log: seq<Event>, es: seq<Entry>)
    requires HeldUpTo(log, es, |es|)
    ensures AllHeld(log, Names(es))
  {
    ChildrenMembers(es);
    forall n | n in Names(es) ensures HoldCall(n, Answer(())) in log {
      var j :| 0 <= j < |Names(es)| && Names(es)[j] == n;
      assert Children(es)[j] in es;
    }
  }

  /** Whatever session gave the answers so far, holding `es` from instant `t` comes down to holding `rest` now. */
  ghost predicate HoldsOn(log: seq<Event>, es: seq<Entry>, t: Instant, rest: seq<Entry>) {
    forall s :: Agrees(s, log) ==> HoldFrom(s, es, t) == HoldFrom(s, rest, |log|)
  }

  lemma HoldTurn(log: seq<Event>, log': seq<Event>, es: seq<Entry>, t: Instant, i: nat, f: Option<Failure>)
    requires i < |es| && !Dot(es[i]) && HoldsOn(log, es, t, es[i..]) && (f.None? ==> |log'| == |log| + 2)
    requires forall s :: Agrees(s, log') ==> Agrees(s, log) && f == HoldStep(s, es[i], |log|)
    ensures f.Some? ==> forall s :: Agrees(s, log') ==> HoldFrom(s, es, t) == Threw(f.value)
    ensures f.None? ==> HoldsOn(log', es, t, es[i + 1..])
  {
    assert es[i..][0] == es[i] && es[i..][1..] == es[i + 1..];
  }

  method HoldAll(calls: SessionCalls, es: seq<Entry>) returns (r: Reply<Instant>, ids: map<string, string>)
    requires calls.Valid() && NoReads(calls.log) && Smooth(calls.log)
    modifies calls, calls.Footprint()
    ensures calls.Valid() && old(calls.log) <= calls.log && NoReads(calls.log)
    ensures if r.Threw? then StopsAt(calls.log, r.failure) else Smooth(calls.log)
    ensures forall s :: Agrees(s, calls.log) ==> r == HoldFrom(s, es, |old(calls.log)|)
    ensures r.Answer? ==> ids == Ids(es) && r.value == |calls.log| && AllHeld(calls.log, Names(es))
    ensures r.Answer? ==> |calls.log| == |old(calls.log)| + 2 * |Names(es)|
  {
    ids := map[];
    assert es[0..] == es;
    for i := 0 to |es|
      invariant calls.Valid() && old(calls.log) <= calls.log && NoReads(calls.log) && Smooth(calls.log)
      invariant HoldsOn(calls.log, es, |old(calls.log)|, es[i..])
      invariant Ids(es) == Ids(es[i..]) + ids
      invariant |calls.log| + 2 * |Children(es[i..])| == |old(calls.log)| + 2 * |Children(es)|
      invariant HeldUpTo(calls.log, es, i)
    {
      if Dot(es[i]) {
        assert es[i..][0] == es[i] && es[i..][1..] == es[i + 1..];
        continue;
      }
      IdsTurn(es, i, ids);
      ChildrenTurn(es, i);
      ghost var log := calls.log;
      var f := HoldOne(calls, es[i]);
      HoldTurn(log, calls.log, es, |old(calls.log)|, i, f);
      if f.Some? {
        return Threw(f.value), ids;
      }
      HeldGrows(log, calls.log, es, i);
      ids := map[es[i].name := es[i].fileId] + ids;
    }
    assert es[|es|..] == [];
    NamesHeld(calls.log, es);
    r := Answer(calls.count);
  }

  ghost predicate ReadsOn(log: seq<Event>, hash: Hashing, names: seq<string>, t: Instant, rest: seq<string>, bytes: map<string, string>) {
    forall s :: Agrees(s, log) ==> ReadFrom(s, hash, names, t, map[]) == ReadFrom(s, hash, rest, |log|, bytes)
  }

  lemma ReadTurn(log: seq<Event>, hash: Hashing, names: seq<string>, t: Instant, i: nat, bytes: map<string, string>, b: Reply<string>)
    requires i < |names| && ReadsOn(log, hash, names, t, names[i..], bytes)
    ensures var log', n := log + [ReadCall(names[i], b)], names[i];
            && (b.Threw? ==> forall s :: Agrees(s, log') ==> ReadFrom(s, hash, names, t, map[]) == Threw(b.failure))
            && (b.Answer? && hash.child(b.value).None? ==>
                  forall s :: Agrees(s, log') ==> ReadFrom(s, hash, names, t, map[]) == Threw(Failure(HashFailure, n, "child-hash")))
            && (b.Answer? && hash.child(b.value).Some? ==> ReadsOn(log', hash, names, t, names[i + 1..], bytes[n := b.value]))
  {
    var log' := log + [ReadCall(names[i], b)];
    assert names[i..][0] == names[i] && names[i..][1..] == names[i + 1..];
    forall s | Agrees(s, log') ensures Agrees(s, log) && s.readChild(|log|, names[i]) == b {
      AgreesSnoc(s, log, ReadCall(names[i], b));
    }
  }

  lemma MembersTurn(bytes: map<string, string>, names: seq<string>, i: nat, b: string)
    requires i < |names| && SameMembers(bytes.Keys, names[..i])
    ensures SameMembers(bytes[names[i] := b].Keys, names[..i + 1])
  {
    assert names[..i + 1] == names[..i] + [names[i]];
  }

  /** Read one child and hash what the session answered. */
  method ReadOne(calls: SessionCalls, hash: Hashing, name: string) returns (b: Reply<string>, ghost raw: Reply<string>)
    requires calls.Valid() && Smooth(calls.log)
    modifies calls, calls.Footprint()
    ensures calls.Valid() && calls.log == old(calls.log) + [ReadCall(name, raw)]
    ensures if b.Threw? then StopsAt(calls.log, b.failure) else Smooth(calls.log)
    ensures b == if raw.Answer? && hash.child(raw.value).None? then Threw(Failure(HashFailure, name, "child-hash")) else raw
  {
    ghost var log := calls.log;
    b := calls.Read(name);
    raw := b;
    SmoothSnoc(log, ReadCall(name, raw));
    if b.Answer? && hash.child(b.value).None? {
      b := Threw(Failure(HashFailure, name, "child-hash"));
    }
  }

  /** Read the held children in order, hashing each. */
  method ReadAll(calls: SessionCalls, hash: Hashing, names: seq<string>) returns (r: Reply<map<string, string>>)
    requires calls.Valid() && Smooth(calls.log)
    modifies calls, calls.Footprint()
    ensures calls.Valid() && old(calls.log) <= calls.log
    ensures if r.Threw? then StopsAt(calls.log, r.failure) else Smooth(calls.log)
    ensures forall s :: Agrees(s, calls.log) ==> r == ReadFrom(s, hash, names, |old(calls.log)|, map[])
    ensures r.Answer? ==> |calls.log| == |old(calls.log)| + |names| && SameMembers(r.value.Keys, names)
  {
    var bytes: map<string, string> := map[];
    assert names[0..] == names;
    for i := 0 to |names|
      invariant calls.Valid() && old(calls.log) <= calls.log && |calls.log| == |old(calls.log)| + i && Smooth(calls.log)
      invariant ReadsOn(calls.log, hash, names, |old(calls.log)|, names[i..], bytes)
      invariant SameMembers(bytes.Keys, names[..i])
    {
      ghost var log := calls.log;
      ghost var raw;
      var b;
      b, raw := ReadOne(calls, hash, names[i]);
      ReadTurn(log, hash, names, |old(calls.log)|, i, bytes, raw);
      if b.Threw? {
        return Threw(b.failure);
      }
      MembersTurn(bytes, names, i, b.value);
      bytes := bytes[names[i] := b.value];
    }
    assert names[|names|..] == [] && names[..|names|] == names;
    r := Answer(bytes);
  }

  /** Read one child again. */
  method ReadAgain(calls: SessionCalls, name: string, bytes: string) returns (f: Option<Failure>)
    requires calls.Valid() && Smooth(calls.log)
    modifies calls, calls.Footprint()
    ensures calls.Valid() && old(calls.log) <= calls.log && |calls.log| == |old(calls.log)| + 1
    ensures if f.Some? then StopsAt(calls.log, f.value) else Smooth(calls.log)
    ensures forall s :: Agrees(s, calls.log) ==>
              && Agrees(s, old(calls.log))
              && var b := s.readChild(|old(calls.log)|, name);
                 f == if b.Threw? then Some(b.failure) else if b.value != bytes then Some(Failure(IdentityDrift, name, "final-content")) else None
  {
    ghost var log := calls.log;
    var b := calls.Read(name);
    SmoothSnoc(log, ReadCall(name, b));
    AgreesLast(log, ReadCall(name, b));
    f := if b.Threw? then Some(b.failure)
    else if b.value != bytes then Some(Failure(IdentityDrift, name, "final-content"))
    else None;
  }

  /** Identify and read one child again. */
  method RereadOne(calls: SessionCalls, e: Entry, ids: map<string, string>, bytes: map<string, string>) returns (f: Option<Failure>)
    requires calls.Valid() && e.name in ids && e.name in bytes && Smooth(calls.log)
    modifies calls, calls.Footprint()
    ensures calls.Valid() && old(calls.log) <= calls.log
    ensures if f.Some? then StopsAt(calls.log, f.value) else Smooth(calls.log)
    ensures forall s :: Agrees(s, calls.log) ==> Agrees(s, old(calls.log)) && f == RereadStep(s, e, |old(calls.log)|, ids, bytes)
    ensures f.None? ==> |calls.log| == |old(calls.log)| + 2
  {
    if ids[e.name] != e.fileId {
      return Some(Failure(IdentityDrift, e.name, "final-child-identity"));
    }
    f := IdentifyHeld(calls, e.name, e.fileId, "final-child-identity");
    if f.None? {
      f := ReadAgain(calls, e.name, bytes[e.name]);
    }
  }

  ghost predicate RereadsOn(log: seq<Event>, es: seq<Entry>, t: Instant, rest: seq<Entry>, ids: map<string, string>, bytes: map<string, string>)
    requires Covers(es, ids) && Covers(es, bytes) && Covers(rest, ids) && Covers(rest, bytes)
  {
    forall s :: Agrees(s, log) ==> FinalFrom(s, es, t, ids, bytes) == FinalFrom(s, rest, |log|, ids, bytes)
  }

  lemma RereadTurn(log: seq<Event>, log': seq<Event>, es: seq<Entry>, t: Instant, i: nat, ids: map<string, string>,
                   bytes: map<string, string>, f: Option<Failure>)
    requires i < |es| && !Dot(es[i]) && Covers(es, ids) && Covers(es, bytes) && Covers(es[i..], ids) && Covers(es[i..], bytes)
    requires RereadsOn(log, es, t, es[i..], ids, bytes) && (f.None? ==> |log'| == |log| + 2)
    requires forall s :: Agrees(s, log') ==> Agrees(s, log) && f == RereadStep(s, es[i], |log|, ids, bytes)
    ensures Covers(es[i + 1..], ids) && Covers(es[i + 1..], bytes)
    ensures f.Some? ==> forall s :: Agrees(s, log') ==> FinalFrom(s, es, t, ids, bytes) == f
    ensures f.None? ==> RereadsOn(log', es, t, es[i + 1..], ids, bytes)
  {
    assert es[i..][0] == es[i] && es[i..][1..] == es[i + 1..];
  }

  method FinalAll(calls: SessionCalls, es: seq<Entry>, ids: map<string, string>, bytes: map<string, string>) returns (r: Option<Failure>)
    requires calls.Valid() && Covers(es, ids) && Covers(es, bytes) && Smooth(calls.log)
    modifies calls, calls.Footprint()
    ensures calls.Valid() && old(calls.log) <= calls.log
    ensures if r.Some? then StopsAt(calls.log, r.value) else Smooth(calls.log)
    ensures forall s :: Agrees(s, calls.log) ==> r == FinalFrom(s, es, |old(calls.log)|, ids, bytes)
  {
    assert es[0..] == es;
    for i := 0 to |es|
      invariant calls.Valid() && old(calls.log) <= calls.log && Covers(es[i..], ids) && Covers(es[i..], bytes) && Smooth(calls.log)
      invariant RereadsOn(calls.log, es, |old(calls.log)|, es[i..], ids, bytes)
    {
      if Dot(es[i]) {
        assert es[i..][0] == es[i] && es[i..][1..] == es[i + 1..];
        continue;
      }
      ghost var log := calls.log;
      var f := RereadOne(calls, es[i], ids, bytes);
      RereadTurn(log, calls.log, es, |old(calls.log)|, i, ids, bytes, f);
      if f.Some? {
        return f;
      }
    }
    assert es[|es|..] == [];
    r := None;
  }

  lemma AgreesLast(log: seq<Event>, e: Event)
    ensures forall s :: Agrees(s, log + [e]) ==> Agrees(s, log) && Gives(s, |log|, e)
  {
    forall s | Agrees(s, log + [e]) ensures Agrees(s, log) && Gives(s, |log|, e) {
      AgreesSnoc(s, log, e);
    }
  }

  lemma AgreesEarlier(log: seq<Event>, log': seq<Event>)
    requires log <= log'
    ensures forall s :: Agrees(s, log') ==> Agrees(s, log)
  {
    forall s | Agrees(s, log') ensures Agrees(s, log) {
      AgreesPrefix(s, log, log');
    }
  }

  /** A listing with the same names lists only children whose identity and bytes were recorded. */
  ghost predicate Recorded(before: seq<Entry>, after: seq<Entry>, bytes: map<string, string>) {
    Sort(Names(before)) == Sort(Names(after)) ==> Covers(after, Ids(before)) && Covers(after, bytes)
  }

  method Recheck(calls: SessionCalls, dirId: string, before: seq<Entry>, after: seq<Entry>, ids: map<string, string>, bytes: map<string, string>)
    returns (fault: Option<Failure>)
    requires calls.Valid() && ids == Ids(before)
    requires Recorded(before, after, bytes) && Smooth(calls.log)
    modifies calls, calls.Footprint()
    ensures calls.Valid() && old(calls.log) <= calls.log
    ensures if fault.Some? then StopsAt(calls.log, fault.value) else Smooth(calls.log)
    ensures forall s :: Agrees(s, calls.log) ==>
              Agrees(s, old(calls.log)) && fault == CheckAgain(s, dirId, before, after, |old(calls.log)|, bytes)
  {
    if Sort(Names(before)) != Sort(Names(after)) {
      return Some(Failure(IdentityDrift, "state/", "final-inventory"));
    }
    ghost var log := calls.log;
    var d := calls.Directory();
    AgreesLast(log, DirectoryCall(d));
    SmoothSnoc(log, DirectoryCall(d));
    if d.Threw? {
      return Some(d.failure);
    }
    if d.value != dirId {
      return Some(Failure(IdentityDrift, "state/", "final-directory-identity"));
    }
    ghost var log' := calls.log;
    fault := FinalAll(calls, after, ids, bytes);
    AgreesEarlier(log', calls.log);
  }

  /** What the second listing leaves to do, whatever session gave the answers. */
  lemma ListTurn(log: seq<Event>, f: Fixture, dirId: string, before: seq<Entry>, bytes: map<string, string>, l: Reply<seq<Entry>>)
    requires |log| == FinalInventoryAt(before)
    ensures var log' := log + [InventoryCall(l)];
            forall s :: Agrees(s, log') ==>
              && Agrees(s, log)
              && (l.Threw? ==> SecondPass(s, f, dirId, before, bytes) == Some(l.failure))
              && (l.Answer? ==>
                    var fault := ListFault(l.value, {}, f, dirId, "final-inventory");
                    SecondPass(s, f, dirId, before, bytes)
                    == if fault.Some? then fault else CheckAgain(s, dirId, before, l.value, |log'|, bytes))
  {
    AgreesLast(log, InventoryCall(l));
  }

  /** List again, compare with the first listing, and check every child again. */
  method SecondHalf(calls: SessionCalls, f: Fixture, dirId: string, before: seq<Entry>, ids: map<string, string>, bytes: map<string, string>)
    returns (fault: Option<Failure>)
    requires calls.Valid() && |calls.log| == FinalInventoryAt(before) && ids == Ids(before)
    requires (forall after :: Recorded(before, after, bytes)) && Smooth(calls.log)
    modifies calls, calls.Footprint()
    ensures calls.Valid() && old(calls.log) <= calls.log
    ensures if fault.Some? then StopsAt(calls.log, fault.value) else Smooth(calls.log)
    ensures forall s :: Agrees(s, calls.log) ==> Agrees(s, old(calls.log)) && fault == SecondPass(s, f, dirId, before, bytes)
  {
    ghost var log := calls.log;
    var l := calls.Inventory();
    ListTurn(log, f, dirId, before, bytes, l);
    SmoothSnoc(log, InventoryCall(l));
    if l.Threw? {
      return Some(l.failure);
    }
    fault := CheckEntries(l.value, f, dirId, "final-inventory");
    if fault.Some? {
      return;
    }
    assert Recorded(before, l.value, bytes);
    fault := Recheck(calls, dirId, before, l.value, ids, bytes);
  }

  lemma NamesRecorded(f: Fixture, dirId: string, before: seq<Entry>, bytes: map<string, string>)
    requires Clean(before, f, dirId) && SameMembers(bytes.Keys, Names(before))
    ensures forall after :: Recorded(before, after, bytes)
  {
    IdsLaws(before);
    SortMembers(Names(before));
    forall after ensures Recorded(before, after, bytes) {
      if Sort(Names(before)) == Sort(Names(after)) {
        SortMembers(Names(after));
        ListedIsRecorded(before, after, bytes);
      }
    }
  }

  // ---------- The whole comparison ----------

  /** The reads of the log, if any, come after every child of the first listing is held. */
  ghost predicate Disciplined(log: seq<Event>) {
    if |log| > 1 && log[1].InventoryCall? && log[1].listing.Answer? then HeldBeforeRead(log, Names(log[1].listing.value)) else NoReads(log)
  }

  /** Hold, read and hash every listed child. */
  method FirstHalf(calls: SessionCalls, hash: Hashing, before: seq<Entry>)
    returns (r: Reply<map<string, string>>, ids: map<string, string>, ghost holding: seq<Event>)
    requires calls.Valid() && |calls.log| == 2 && NoReads(calls.log) && Smooth(calls.log)
    modifies calls, calls.Footprint()
    ensures calls.Valid() && old(calls.log) <= holding <= calls.log && NoReads(holding)
    ensures if r.Threw? then StopsAt(calls.log, r.failure) else Smooth(calls.log)
    ensures (r.Threw? && holding == calls.log) || AllHeld(holding, Names(before))
    ensures forall s :: Agrees(s, calls.log) ==> Agrees(s, old(calls.log)) && r == HoldAndRead(s, hash, before)
    ensures r.Answer? ==> |calls.log| == FinalInventoryAt(before) && ids == Ids(before) && SameMembers(r.value.Keys, Names(before))
  {
    ghost var log := calls.log;
    var held;
    held, ids := HoldAll(calls, before);
    holding := calls.log;
    AgreesEarlier(log, holding);
    if held.Threw? {
      return Threw(held.failure), ids, holding;
    }
    r := ReadAll(calls, hash, Sort(Names(before)));
    AgreesEarlier(holding, calls.log);
    SortMembers(Names(before));
  }

  /** What the first listing leaves to do, whatever session gave the answers. */
  lemma OpenTurn(d: Reply<string>, l: Reply<seq<Entry>>, hash: Hashing, f: Fixture, dirId: string)
    requires d == Answer(dirId) && dirId != ""
    ensures forall s :: Agrees(s, [DirectoryCall(d), InventoryCall(l)]) ==>
              && s.inventory(1) == l
              && (l.Threw? ==> Observe(s, hash, f, dirId) == Stopped(l.failure))
              && (l.Answer? ==>
                    var fault := ListFault(l.value, {}, f, dirId, "initial-inventory");
                    if fault.Some? then Observe(s, hash, f, dirId) == Stopped(fault.value)
                    else Observe(s, hash, f, dirId) == Conclude(s, hash, f, dirId, l.value, HoldAndRead(s, hash, l.value)))
  {
    forall s | Agrees(s, [DirectoryCall(d), InventoryCall(l)]) ensures s.directoryIdentity(0) == d && s.inventory(1) == l {
      AgreesAt(s, [DirectoryCall(d), InventoryCall(l)], 0);
      AgreesAt(s, [DirectoryCall(d), InventoryCall(l)], 1);
    }
  }

  /** The comparison after the first listing was accepted. */
  method ObserveListed(calls: SessionCalls, hash: Hashing, f: Fixture, dirId: string, before: seq<Entry>) returns (o: Outcome)
    requires calls.Valid() && |calls.log| == 2 && NoReads(calls.log) && Smooth(calls.log) && Clean(before, f, dirId)
    modifies calls, calls.Footprint()
    ensures if o.Stopped? then StopsAt(calls.log, o.failure) else Smooth(calls.log)
    ensures calls.Valid() && old(calls.log) <= calls.log && HeldBeforeRead(calls.log, Names(before))
    ensures forall s :: Agrees(s, calls.log) ==>
              Agrees(s, old(calls.log)) && o == Conclude(s, hash, f, dirId, before, HoldAndRead(s, hash, before))
  {
    var first, ids;
    ghost var holding;
    first, ids, holding := FirstHalf(calls, hash, before);
    HeldFirst(holding, calls.log, before);
    if first.Threw? {
      return Stopped(first.failure);
    }
    NamesRecorded(f, dirId, before, first.value);
    ghost var log := calls.log;
    var fault := SecondHalf(calls, f, dirId, before, ids, first.value);
    HeldFirst(holding, calls.log, before);
    if fault.Some? {
      return Stopped(fault.value);
    }
    var digest := hash.mutableSet(first.value);
    o := if digest.None? then Stopped(Failure(HashFailure, "state/", "final-mutable-digest")) else Complete(first.value, digest.value);
  }

  lemma HeldFirst(holding: seq<Event>, log: seq<Event>, before: seq<Entry>)
    requires NoReads(holding) && holding <= log && (holding == log || AllHeld(holding, Names(before)))
    ensures HeldBeforeRead(log, Names(before))
  {
    if AllHeld(holding, Names(before)) {
      ReadsAfterHolding(holding, log, Names(before));
    }
  }

  /** The comparison after the directory answered with the expected identity. */
  method ObserveDirectory(calls: SessionCalls, hash: Hashing, f: Fixture, dirId: string) returns (o: Outcome)
    requires calls.Valid() && calls.log == [DirectoryCall(Answer(dirId))] && Smooth(calls.log) && dirId != ""
    modifies calls, calls.Footprint()
    ensures calls.Valid() && Disciplined(calls.log)
    ensures if o.Stopped? then StopsAt(calls.log, o.failure) else Smooth(calls.log)
    ensures forall s :: Agrees(s, calls.log) ==> o == Observe(s, hash, f, dirId)
  {
    var d := DirectoryCall(Answer(dirId));
    var l := calls.Inventory();
    SmoothSnoc([d], InventoryCall(l));
    assert calls.log == [d, InventoryCall(l)];
    OpenTurn(Answer(dirId), l, hash, f, dirId);
    if l.Threw? {
      return Stopped(l.failure);
    }
    var fault := CheckEntries(l.value, f, dirId, "initial-inventory");
    if fault.Some? {
      return Stopped(fault.value);
    }
    CleanIff(l.value, f, dirId, "initial-inventory");
    o := ObserveListed(calls, hash, f, dirId, l.value);
  }

  /** The body of `compare_impl` once a session is open. */
  method ObserveSession(calls: SessionCalls, hash: Hashing, f: Fixture, expectedId: string) returns (o: Outcome)
    requires calls.Valid() && calls.log == []
    modifies calls, calls.Footprint()
    ensures calls.Valid() && Disciplined(calls.log)
    ensures if o.Stopped? then StopsAt(calls.log, o.failure) else Smooth(calls.log)
    ensures forall s :: Agrees(s, calls.log) ==> o == Observe(s, hash, f, expectedId)
  {
    var d := calls.Directory();
    SmoothSnoc([], DirectoryCall(d));
    forall s | Agrees(s, calls.log) ensures s.directoryIdentity(0) == d {
      AgreesAt(s, calls.log, 0);
    }
    if d.Threw? {
      return Stopped(d.failure);
    }
    if d.value == "" || d.value != expectedId {
      return Stopped(Failure(IdentityDrift, "state/", "directory-identity"));
    }
    o := ObserveDirectory(calls, hash, f, expectedId);
  }

  datatype Reach = Reach(process: bool, brokerRead: bool)

  /** The protected marker is the one of this case and P10 document. */
  predicate Bound(f: Fixture, p11: string, p10: string) {
    Renderable(f, p10) && p11 == Marker(f, p10)
  }

  /** The checks made before a session is opened, in order. */
  method CheckMarker(hash: Hashing, f: Fixture, reach: Reach, p11: string, p10: string) returns (r: Option<Failure>, digest: string)
    ensures r.None? <==> reach.process && reach.brokerRead && hash.p11(p11).Some? && Bound(f, p11, p10)
    ensures r.None? ==> hash.p11(p11) == Some(digest)
    ensures !(reach.process && reach.brokerRead) ==> r == Some(Failure(BindingFailure, "", "reach"))
    ensures reach.process && reach.brokerRead && hash.p11(p11).None? ==> r == Some(Failure(HashFailure, "P11", "p11-hash"))
    ensures reach.process && reach.brokerRead && hash.p11(p11).Some? && !Bound(f, p11, p10) ==>
              r == Some(Failure(BindingFailure, "P11", "head-binding"))
  {
    if !reach.process || !reach.brokerRead {
      return Some(Failure(BindingFailure, "", "reach")), "";
    }
    if hash.p11(p11).None? {
      return Some(Failure(HashFailure, "P11", "p11-hash")), "";
    }
    digest := hash.p11(p11).value;
    var rendered := RenderP11(f, p10);
    r := if rendered.None? || p11 != rendered.value then Some(Failure(BindingFailure, "P11", "head-binding")) else None;
  }

  function Opened(open: Reply<Option<SessionCalls>>): Option<SessionCalls> {
    if open.Answer? then open.value else None
  }

  ghost function LogOf(open: Reply<Option<SessionCalls>>): seq<Event>
    reads if Opened(open).Some? then {Opened(open).value} else {}
  {
    if Opened(open).Some? then Opened(open).value.log else []
  }

  /** How a comparison ends that was refused, could not open a session, or used one with the given log. */
  ghost predicate Ends(refusal: Option<Failure>, open: Reply<Option<SessionCalls>>, log: seq<Event>, hash: Hashing, f: Fixture, expectedId: string, o: Outcome) {
    if refusal.Some? then o == Stopped(refusal.value) && log == []
    else if open.Threw? then o == Stopped(open.failure)
    else if open.value.None? then o == Stopped(Failure(Incomplete, "state/", "open"))
    else forall s :: Agrees(s, log) ==> o == Observe(s, hash, f, expectedId)
  }

  /** The evidence of a comparison that stopped. */
  predicate Stops(e: Evidence, failure: Failure) {
    e.verdict == StopInconclusive && !e.snapshotComplete && e.error == Some(failure)
  }

  /** The evidence follows the outcome: a stop is reported as it is, a complete observation with its verdict. */
  predicate Reports(e: Evidence, f: Fixture, o: Outcome) {
    match o
    case Stopped(failure) => Stops(e, failure)
    case Complete(bytes, digest) =>
      e.snapshotComplete && e.error.None? && e.observedDigest == digest && e.verdict == Judge(f, bytes, digest) && e.verdict != StopInconclusive
  }

  /** Use the session if nothing stands against it and there is one. */
  method Use(refusal: Option<Failure>, open: Reply<Option<SessionCalls>>, hash: Hashing, f: Fixture, expectedId: string) returns (o: Outcome)
    requires Opened(open).Some? ==> Opened(open).value.Valid() && Opened(open).value.log == []
    modifies if Opened(open).Some? then {Opened(open).value} + Opened(open).value.Footprint() else {}
    ensures Opened(open).Some? ==> Opened(open).value.Valid() && Disciplined(Opened(open).value.log)
    ensures Ends(refusal, open, LogOf(open), hash, f, expectedId, o)
    ensures if o.Stopped? then StopsAt(LogOf(open), o.failure) else Smooth(LogOf(open))
  {
    if refusal.Some? {
      return Stopped(refusal.value);
    }
    if open.Threw? {
      return Stopped(open.failure);
    }
    if open.value.None? {
      return Stopped(Failure(Incomplete, "state/", "open"));
    }
    o := ObserveSession(open.value.value, hash, f, expectedId);
  }

  /** `compare_impl`; `open` is what opening the source would answer. */
  method Compare(open: Reply<Option<SessionCalls>>, hash: Hashing, f: Fixture, expectedId: string, reach: Reach, p11: string, p10: string)
    returns (e: Evidence)
    requires Opened(open).Some? ==> Opened(open).value.Valid() && Opened(open).value.log == []
    modifies if Opened(open).Some? then {Opened(open).value} + Opened(open).value.Footprint() else {}
    ensures Opened(open).Some? ==> Opened(open).value.Valid() && Disciplined(Opened(open).value.log)
    ensures e.snapshotComplete ==> reach.process && reach.brokerRead && Bound(f, p11, p10) && hash.p11(p11) == Some(e.p11Sha256)
    ensures !(reach.process && reach.brokerRead) ==> Stops(e, Failure(BindingFailure, "", "reach")) && LogOf(open) == []
    ensures reach.process && reach.brokerRead && hash.p11(p11).None? ==>
              Stops(e, Failure(HashFailure, "P11", "p11-hash")) && LogOf(open) == []
    ensures reach.process && reach.brokerRead && hash.p11(p11).Some? && !Bound(f, p11, p10) ==>
              Stops(e, Failure(BindingFailure, "P11", "head-binding")) && LogOf(open) == []
    ensures reach.process && reach.brokerRead && hash.p11(p11).Some? && Bound(f, p11, p10) ==>
              if open.Threw? then Stops(e, open.failure)
              else if open.value.None? then Stops(e, Failure(Incomplete, "state/", "open"))
              else forall s :: Agrees(s, LogOf(open)) ==> Reports(e, f, Observe(s, hash, f, expectedId))
    ensures if e.error.Some? then StopsAt(LogOf(open), e.error.value) else Smooth(LogOf(open))
  {
    var refusal, digest := CheckMarker(hash, f, reach, p11, p10);
    var o := Use(refusal, open, hash, f, expectedId);
    e := Report(f, o).(p11Sha256 := digest);
    ReportLaws(f, o);
  }

  lemma ReportLaws(f: Fixture, o: Outcome)
    ensures Reports(Report(f, o), f, o)
  {
  }
}
