/**
 The session of remediation/round37/stage_a_fixture/src/windows_snapshot.cpp: paged
 enumeration, held children and handle ownership, against native calls that may answer
 anything.  `Script` gives the answer of each native call at each moment; names are reviewed
 ASCII components, for which the UTF-16 conversions are the identity.
 */
module WindowsSessions {
  import opened Wrappers
  import opened Bytes
  import opened DecimalText
  import opened DirectoryPages
  import opened Snapshots

  const MAX_PAGES: nat := 16
  const MAX_ENTRIES: nat := 32

  // ---------- Paged enumeration ----------

  datatype Page = End | Data(entries: seq<NativeEntry>)

  type PageSource = nat -> Result<Page, Failure>

  predicate DotName(e: NativeEntry) {
    e.name == "." || e.name == ".."
  }

  function NonDot(es: seq<NativeEntry>): seq<NativeEntry> {
    if es == [] then [] else (if DotName(es[0]) then [] else [es[0]]) + NonDot(es[1..])
  }

  predicate Listed(es: seq<NativeEntry>, name: string) {
    exists i :: 0 <= i < |es| && es[i].name == name
  }

  /** Take one entry of a page into the result, or fail. */
  function Admit(acc: seq<NativeEntry>, e: NativeEntry): Result<seq<NativeEntry>, Failure> {
    if DotName(e) then Ok(acc)
    else if DeviceBit(e.attributes) then Err(Failure(IdentityDrift, e.name, "enumeration-type"))
    else if |acc| >= MAX_ENTRIES then Err(Failure(Incomplete, "state/", "enumeration-limit"))
    else if e.name == "" || Listed(acc, e.name) then Err(Failure(Malformed, e.name, "enumeration-entry"))
    else Ok(acc + [e])
  }

  function AdmitAll(acc: seq<NativeEntry>, es: seq<NativeEntry>): Result<seq<NativeEntry>, Failure>
    decreases |es|
  {
    if es == [] then Ok(acc)
    else
      var r := Admit(acc, es[0]);
      if r.Err? then r else AdmitAll(r.value, es[1..])
  }

  /** Pages `k`, `k + 1`, ... up to an explicit end, at most 16 calls in all. */
  function CollectFrom(pages: PageSource, k: nat, acc: seq<NativeEntry>): Result<seq<NativeEntry>, Failure>
    requires k <= MAX_PAGES
    decreases MAX_PAGES - k
  {
    if k == MAX_PAGES then Err(Failure(Incomplete, "state/", "enumeration-limit"))
    else
      var p := pages(k);
      if p.Err? then Err(p.error)
      else if p.value.End? then Ok(acc)
      else if p.value.entries == [] then Err(Failure(Incomplete, "state/", "enumeration-page"))
      else
        var r := AdmitAll(acc, p.value.entries);
        if r.Err? then r else CollectFrom(pages, k + 1, r.value)
  }

  /** An enumeration a session may return: bounded, no device, no empty or repeated name. */
  ghost predicate Listable(es: seq<NativeEntry>) {
    && |es| <= MAX_ENTRIES
    && (forall i :: 0 <= i < |es| ==> es[i].name != "" && !DeviceBit(es[i].attributes) && !DotName(es[i]))
    && (forall i, j :: 0 <= i < j < |es| ==> es[i].name != es[j].name)
  }

  lemma ListablePrefix(a: seq<NativeEntry>, b: seq<NativeEntry>)
    requires Listable(a + b)
    ensures Listable(a)
  {
    assert forall i :: 0 <= i < |a| ==> a[i] == (a + b)[i];
  }

  lemma ListableSnoc(acc: seq<NativeEntry>, e: NativeEntry)
    requires Listable(acc) && !DotName(e)
    ensures Listable(acc + [e]) <==> !DeviceBit(e.attributes) && |acc| < MAX_ENTRIES && e.name != "" && !Listed(acc, e.name)
  {
    var all := acc + [e];
    assert all[|acc|] == e && forall i :: 0 <= i < |acc| ==> all[i] == acc[i];
  }

  lemma {:induction false} AdmitAllIff(acc: seq<NativeEntry>, es: seq<NativeEntry>)
    requires Listable(acc)
    ensures AdmitAll(acc, es).Ok? <==> Listable(acc + NonDot(es))
    ensures AdmitAll(acc, es).Ok? ==> AdmitAll(acc, es).value == acc + NonDot(es)
    decreases |es|
  {
    if es == [] {
      assert acc + NonDot(es) == acc;
    } else if DotName(es[0]) {
      AdmitAllIff(acc, es[1..]);
      assert NonDot(es) == NonDot(es[1..]);
    } else {
      var e, rest := es[0], NonDot(es[1..]);
      ListableSnoc(acc, e);
      assert acc + NonDot(es) == (acc + [e]) + rest;
      if Admit(acc, e).Ok? {
        AdmitAllIff(acc + [e], es[1..]);
      } else if Listable(acc + NonDot(es)) {
        ListablePrefix(acc + [e], rest);
      }
    }
  }

  /** The entries of the data pages `k .. m`, without the dot entries. */
  function Entries(pages: PageSource, k: nat, m: nat): seq<NativeEntry>
    requires k <= m
    decreases m - k
  {
    if k == m then []
    else
      var p := pages(k);
      (if p.Ok? && p.value.Data? then NonDot(p.value.entries) else []) + Entries(pages, k + 1, m)
  }

  /** Pages `k .. m` hold data and page `m` is the explicit end. */
  ghost predicate EndsAt(pages: PageSource, k: nat, m: nat) {
    && k <= m
    && (forall i :: k <= i < m ==> pages(i).Ok? && pages(i).value.Data? && pages(i).value.entries != [])
    && pages(m) == Ok(End)
  }

  /** Collecting from page `k` on top of `acc` ends at page `m` with the sequence `r`. */
  ghost predicate Yields(pages: PageSource, k: nat, acc: seq<NativeEntry>, r: seq<NativeEntry>, m: nat) {
    m < MAX_PAGES && EndsAt(pages, k, m) && r == acc + Entries(pages, k, m) && Listable(r)
  }

  lemma {:induction false} CollectIff(pages: PageSource, k: nat, acc: seq<NativeEntry>, r: seq<NativeEntry>)
    requires k <= MAX_PAGES && Listable(acc)
    ensures CollectFrom(pages, k, acc) == Ok(r) <==> exists m: nat :: Yields(pages, k, acc, r, m)
    decreases MAX_PAGES - k
  {
    if k < MAX_PAGES && pages(k).Ok? {
      var p := pages(k).value;
      if p.End? {
        assert acc + Entries(pages, k, k) == acc;
        assert r == acc ==> Yields(pages, k, acc, r, k);
      } else if p.entries != [] {
        AdmitAllIff(acc, p.entries);
        var acc' := acc + NonDot(p.entries);
        forall m: nat ensures Yields(pages, k, acc, r, m) <==> Yields(pages, k + 1, acc', r, m) {
          CollectStep(pages, k, acc, r, p.entries, m);
        }
        if Listable(acc') {
          CollectIff(pages, k + 1, acc', r);
          var k' := k + 1;
          if m: nat :| Yields(pages, k', acc', r, m) {
            assert Yields(pages, k, acc, r, m);
          }
          if m: nat :| Yields(pages, k, acc, r, m) {
            assert Yields(pages, k', acc', r, m);
          }
        } else {
          forall m: nat ensures !Yields(pages, k, acc, r, m) {
            if Yields(pages, k + 1, acc', r, m) {
              ListablePrefix(acc', Entries(pages, k + 1, m));
            }
          }
        }
      }
    }
  }

  lemma EndsLater(pages: PageSource, k: nat, es: seq<NativeEntry>, m: nat)
    requires es != [] && pages(k) == Ok(Data(es))
    ensures EndsAt(pages, k, m) <==> EndsAt(pages, k + 1, m)
    ensures EndsAt(pages, k, m) ==> k < m
  {
  }

  /** Moving the first data page into the accumulator describes the same results. */
  lemma CollectStep(pages: PageSource, k: nat, acc: seq<NativeEntry>, r: seq<NativeEntry>, es: seq<NativeEntry>, m: nat)
    requires es != [] && pages(k) == Ok(Data(es))
    ensures Yields(pages, k, acc, r, m) <==> Yields(pages, k + 1, acc + NonDot(es), r, m)
  {
    EndsLater(pages, k, es, m);
    if k < m {
      assert Entries(pages, k, m) == NonDot(es) + Entries(pages, k + 1, m);
      assert acc + Entries(pages, k, m) == acc + NonDot(es) + Entries(pages, k + 1, m);
    }
  }

  /**
   An enumeration is returned iff an explicit end follows at most 15 nonempty data pages whose
   entries, dot entries apart, form one listable sequence; it is then exactly that sequence.
   */
  lemma InventoryExact(pages: PageSource, r: seq<NativeEntry>)
    ensures CollectFrom(pages, 0, []) == Ok(r) <==>
              exists m: nat :: m <= 15 && EndsAt(pages, 0, m) && r == Entries(pages, 0, m) && Listable(r)
    ensures CollectFrom(pages, 0, []) == Ok(r) ==> |r| <= 32
  {
    CollectIff(pages, 0, [], r);
    forall m: nat ensures Yields(pages, 0, [], r, m) <==> m <= 15 && EndsAt(pages, 0, m) && r == Entries(pages, 0, m) && Listable(r) {
      assert [] + Entries(pages, 0, m) == Entries(pages, 0, m);
    }
  }

  // ---------- The session object ----------

  type Handle = int

  datatype Metadata = Metadata(volumeGuid: string, finalPath: string, sddl: string, volumeSerial: nat, fileId: seq<byte>,
                               attributes: uint32, reparseTag: uint32, directory: bool, daclProtected: bool)

  datatype Node = Node(component: string, identity: Metadata)

  datatype Config = Config(root: Metadata, ancestors: seq<Node>, stateDirectory: Node, childSddl: map<string, string>)

  /** What each native call answers at each moment; arbitrary, and independent from one moment to the next. */
  datatype Script = Script(
    openRoot: nat -> Result<Handle, Failure>,
    openRelative: (nat, Handle, string) -> Result<Handle, Failure>,
    inspect: (nat, Handle) -> Result<Metadata, Failure>,
    nextPage: (nat, Handle, bool) -> Result<Page, Failure>,
    readAll: (nat, Handle) -> Result<string, Failure>)

  predicate ComponentChar(c: char) {
    'a' <= c <= 'z' || 'A' <= c <= 'Z' || '0' <= c <= '9' || c == '_' || c == '-' || c == '.'
  }

  predicate ValidComponent(s: string) {
    && 0 < |s| <= 255 && s != "." && s != ".." && s[|s| - 1] != '.'
    && forall i :: 0 <= i < |s| ==> ComponentChar(s[i])
  }

  /** A name that is no path: no separator, drive or stream, and neither dot entry. */
  predicate StaysInside(s: string) {
    s != "." && s != ".." && forall c :: c in s ==> c != '\\' && c != '/' && c != ':'
  }

  predicate NonzeroId(id: seq<byte>) {
    exists i :: 0 <= i < |id| && id[i] != 0
  }

  predicate SameIdentity(a: Metadata, b: Metadata) {
    && a.volumeGuid == b.volumeGuid && a.finalPath == b.finalPath && a.sddl == b.sddl
    && a.volumeSerial == b.volumeSerial && a.fileId == b.fileId && a.directory == b.directory
    && a.daclProtected == b.daclProtected && ReparseBit(a.attributes) == ReparseBit(b.attributes)
    && a.reparseTag == b.reparseTag
  }

  predicate IdentityHolds(actual: Metadata, expected: Metadata) {
    && SameIdentity(actual, expected) && actual.finalPath != "" && actual.volumeGuid != "" && actual.sddl != ""
    && NonzeroId(actual.fileId) && !ReparseBit(actual.attributes) && actual.reparseTag == 0
  }

  function ChildFinalPath(parent: string, component: string): string {
    parent + (if parent == "" || parent[|parent| - 1] == '\\' then "" else "\\") + component
  }

  predicate ParentBinding(actual: Metadata, parent: Metadata, component: string) {
    && actual.volumeGuid == parent.volumeGuid && actual.volumeSerial == parent.volumeSerial
    && actual.finalPath == ChildFinalPath(parent.finalPath, component)
  }

  predicate ChildHolds(actual: Metadata, parent: Metadata, component: string, sddl: string) {
    && !actual.directory && !DirectoryBit(actual.attributes) && !DeviceBit(actual.attributes)
    && actual.daclProtected && actual.sddl != "" && !ReparseBit(actual.attributes) && actual.reparseTag == 0
    && ParentBinding(actual, parent, component) && NonzeroId(actual.fileId) && actual.sddl == sddl
  }

  function IdentityKey(m: Metadata): string {
    Decimal(m.volumeSerial) + ":" + Hex(m.fileId) + ":" + m.finalPath
  }

  /** The key of a directory determines its volume serial, file identifier and path. */
  lemma IdentityKeyBinds(a: Metadata, b: Metadata)
    requires IdentityKey(a) == IdentityKey(b)
    ensures a.volumeSerial == b.volumeSerial && a.fileId == b.fileId && a.finalPath == b.finalPath
  {
    var x, y := Hex(a.fileId) + ":" + a.finalPath, Hex(b.fileId) + ":" + b.finalPath;
    DecimalIsCanonical(a.volumeSerial);
    DecimalIsCanonical(b.volumeSerial);
    assert IdentityKey(a) == Decimal(a.volumeSerial) + ":" + x && IdentityKey(b) == Decimal(b.volumeSerial) + ":" + y;
    SplitAtColon(Decimal(a.volumeSerial), x, Decimal(b.volumeSerial), y);
    HexHasNoColon(a.fileId);
    HexHasNoColon(b.fileId);
    SplitAtColon(Hex(a.fileId), a.finalPath, Hex(b.fileId), b.finalPath);
    HexInjective(a.fileId, b.fileId);
  }

  predicate NoColon(s: string) {
    forall i :: 0 <= i < |s| ==> s[i] != ':'
  }

  lemma {:induction false} HexHasNoColon(bs: seq<byte>)
    ensures NoColon(Hex(bs))
  {
    if bs != [] {
      HexHasNoColon(bs[1..]);
    }
  }

  lemma SplitAtColon(a: string, x: string, b: string, y: string)
    requires NoColon(a) && NoColon(b) && a + ":" + x == b + ":" + y
    ensures a == b && x == y
  {
    var s, t := a + ":" + x, b + ":" + y;
    assert s[|a|] == ':' && t[|b|] == ':';
    assert a == s[..|a|] && b == t[..|b|];
    assert x == s[|a| + 1..] && y == t[|b| + 1..];
  }

  function Show(e: NativeEntry, parentKey: string): Entry {
    Entry(e.name, if DirectoryBit(e.attributes) then "directory" else "regular", Hex(e.fileId), parentKey,
          ReparseBit(e.attributes) || e.reparseTag != 0)
  }

  function Shown(es: seq<NativeEntry>, parentKey: string): (vs: seq<Entry>)
    ensures |vs| == |es| && forall i :: 0 <= i < |es| ==> vs[i] == Show(es[i], parentKey)
  {
    seq(|es|, i requires 0 <= i < |es| => Show(es[i], parentKey))
  }

  function Reverse<T>(s: seq<T>): seq<T> {
    if s == [] then [] else Reverse(s[1..]) + [s[0]]
  }

  /** The node behind `h` is a directory with the expected identity at moment `t`. */
  predicate NodeHolds(s: Script, t: nat, h: Handle, expected: Metadata) {
    var m := s.inspect(t, h);
    m.Ok? && IdentityHolds(m.value, expected) && m.value.directory
  }

  /** Opening `node` under `parent` at moment `t` yields `h`, which holds and binds to its parent. */
  predicate StepHolds(s: Script, t: nat, parent: Handle, parentIdentity: Metadata, node: Node, h: Handle) {
    && s.openRelative(t, parent, node.component) == Ok(h) && NodeHolds(s, t + 1, h, node.identity)
    && ParentBinding(node.identity, parentIdentity, node.component)
  }

  /** The components below the volume root, the state directory last. */
  function Nodes(c: Config): seq<Node> {
    c.ancestors + [c.stateDirectory]
  }

  function IdentityAt(c: Config, i: nat): Metadata
    requires i <= |Nodes(c)|
  {
    if i == 0 then c.root else Nodes(c)[i - 1].identity
  }

  predicate StepAt(s: Script, c: Config, t: nat, i: nat, parent: Handle, h: Handle)
    requires i < |Nodes(c)|
  {
    StepHolds(s, t + 2 + 2 * i, parent, IdentityAt(c, i), Nodes(c)[i], h)
  }

  predicate RootAt(s: Script, c: Config, t: nat, h: Handle) {
    s.openRoot(t) == Ok(h) && NodeHolds(s, t + 1, h, c.root)
  }

  /** From moment `t` on, `hs` are the handles of the root and the first components, each checked as it is opened. */
  ghost predicate PathOpen(s: Script, c: Config, t: nat, hs: seq<Handle>) {
    && 1 <= |hs| <= |Nodes(c)| + 1 && RootAt(s, c, t, hs[0])
    && forall i :: 0 <= i < |hs| - 1 ==> StepAt(s, c, t, i, hs[i], hs[i + 1])
  }

  /** `h` is what opening the next component after `hs` yields. */
  predicate Extends(s: Script, c: Config, t: nat, hs: seq<Handle>, h: Handle)
    requires 1 <= |hs| <= |Nodes(c)|
  {
    StepAt(s, c, t, |hs| - 1, hs[|hs| - 1], h)
  }

  lemma StepUnique(s: Script, c: Config, t: nat, i: nat, parent: Handle, h: Handle, h': Handle)
    requires i < |Nodes(c)| && StepAt(s, c, t, i, parent, h) && StepAt(s, c, t, i, parent, h')
    ensures h == h'
  {
  }

  /** The answers of the native calls leave no choice of handles. */
  lemma {:induction false} PathUnique(s: Script, c: Config, t: nat, hs: seq<Handle>, all: seq<Handle>, n: nat)
    requires PathOpen(s, c, t, hs) && PathOpen(s, c, t, all) && n < |hs| <= |all|
    ensures hs[n] == all[n]
  {
    if n > 0 {
      PathUnique(s, c, t, hs, all, n - 1);
      StepUnique(s, c, t, n - 1, hs[n - 1], hs[n], all[n]);
    }
  }

  lemma PathSnoc(s: Script, c: Config, t: nat, hs: seq<Handle>, h: Handle)
    requires PathOpen(s, c, t, hs) && |hs| <= |Nodes(c)| && Extends(s, c, t, hs, h)
    ensures PathOpen(s, c, t, hs + [h])
  {
  }

  /** A whole path can be opened only if the part opened so far can be extended. */
  lemma PathExtends(s: Script, c: Config, t: nat, hs: seq<Handle>, all: seq<Handle>)
    requires PathOpen(s, c, t, hs) && PathOpen(s, c, t, all) && |hs| < |all|
    ensures Extends(s, c, t, hs, all[|hs|])
  {
    PathUnique(s, c, t, hs, all, |hs| - 1);
  }

  /** The page answers an enumeration of directory `d` starting at moment `t` would see. */
  function PagesAt(s: Script, d: Handle, t: nat): PageSource {
    (k: nat) => s.nextPage(t + k, d, k == 0)
  }

  /** The call at moment `t`, restarting the listing or going on with it, yields entries. */
  predicate GivesEntries(s: Script, d: Handle, t: nat, restart: bool) {
    var p := s.nextPage(t, d, restart);
    p.Ok? && p.value.Data? && p.value.entries != []
  }

  predicate Continues(s: Script, d: Handle, t: nat, i: nat) {
    GivesEntries(s, d, t + i, false)
  }

  /** From moment `t` on, directory `d` is listed from its start, page after page without a gap, up to the explicit end. */
  ghost predicate Streams(s: Script, d: Handle, t: nat, m: nat) {
    if m == 0 then s.nextPage(t, d, true) == Ok(End)
    else GivesEntries(s, d, t, true) && (forall i :: 0 < i < m ==> Continues(s, d, t, i)) && s.nextPage(t + m, d, false) == Ok(End)
  }

  ghost predicate Streamed(s: Script, d: Handle, t: nat) {
    exists m: nat :: m <= 15 && Streams(s, d, t, m)
  }

  lemma EndsStream(s: Script, d: Handle, t: nat, m: nat)
    requires EndsAt(PagesAt(s, d, t), 0, m)
    ensures Streams(s, d, t, m)
  {
    var pages := PagesAt(s, d, t);
    assert pages(0) == s.nextPage(t, d, true) && pages(m) == s.nextPage(t + m, d, m == 0);
    forall i | 0 < i < m ensures Continues(s, d, t, i) {
      assert pages(i) == s.nextPage(t + i, d, false);
    }
  }

  lemma CollectedStreams(s: Script, d: Handle, t: nat, r: seq<NativeEntry>)
    requires CollectFrom(PagesAt(s, d, t), 0, []) == Ok(r)
    ensures Listable(r) && Streamed(s, d, t)
  {
    var pages := PagesAt(s, d, t);
    InventoryExact(pages, r);
    var m: nat :| m <= 15 && EndsAt(pages, 0, m) && r == Entries(pages, 0, m);
    EndsStream(s, d, t, m);
  }

  /** The native adapter: it answers from the script and keeps account of handles. */
  class NativeCalls {
    const script: Script
    var clock: nat
    ghost var acquired: seq<Handle>
    ghost var released: seq<Handle>

    constructor (s: Script)
      ensures script == s && acquired == [] && released == []
    {
      script := s;
      clock := 0;
      acquired, released := [], [];
    }

    method OpenRoot() returns (r: Result<Handle, Failure>)
      modifies this
      ensures r == script.openRoot(old(clock)) && clock == old(clock) + 1
      ensures released == old(released) && acquired == old(acquired) + if r.Ok? then [r.value] else []
    {
      r := script.openRoot(clock);
      clock := clock + 1;
      acquired := acquired + if r.Ok? then [r.value] else [];
    }

    method OpenRelative(parent: Handle, component: string) returns (r: Result<Handle, Failure>)
      modifies this
      ensures r == script.openRelative(old(clock), parent, component) && clock == old(clock) + 1
      ensures released == old(released) && acquired == old(acquired) + if r.Ok? then [r.value] else []
    {
      r := script.openRelative(clock, parent, component);
      clock := clock + 1;
      acquired := acquired + if r.Ok? then [r.value] else [];
    }

    method Inspect(h: Handle) returns (r: Result<Metadata, Failure>)
      modifies this
      ensures acquired == old(acquired) && released == old(released) && clock == old(clock) + 1
      ensures r == script.inspect(old(clock), h)
    {
      r := script.inspect(clock, h);
      clock := clock + 1;
    }

    method NextPage(directory: Handle, restart: bool) returns (r: Result<Page, Failure>)
      modifies this
      ensures acquired == old(acquired) && released == old(released) && clock == old(clock) + 1
      ensures r == script.nextPage(old(clock), directory, restart)
    {
      r := script.nextPage(clock, directory, restart);
      clock := clock + 1;
    }

    method ReadAll(h: Handle) returns (r: Result<string, Failure>)
      modifies this
      ensures acquired == old(acquired) && released == old(released)
      ensures r == script.readAll(old(clock), h) && clock == old(clock) + 1
    {
      r := script.readAll(clock, h);
      clock := clock + 1;
    }

    method Close(h: Handle)
      modifies this
      ensures acquired == old(acquired) && released == old(released) + [h]
    {
      clock := clock + 1;
      released := released + [h];
    }
  }

  datatype Verified = Verified(handle: Handle, expected: Metadata, subject: string)

  datatype Child = Child(handle: Handle, initial: Metadata)

  class WindowsSession {
    const config: Config
    const calls: NativeCalls
    var handles: seq<Handle>
    var verified: seq<Verified>
    var directory: Handle
    var initialInventory: Option<map<string, NativeEntry>>
    var children: map<string, Child>

    /** The session owns every open handle, and every held child is the file its first listing named. */
    ghost predicate Valid()
      reads this, calls
    {
      && calls.acquired == handles && calls.released == []
      && (forall n :: n in children ==>
            && initialInventory.Some? && n in initialInventory.value && n in config.childSddl
            && children[n].handle in handles
            && children[n].initial.fileId == initialInventory.value[n].fileId
            && ChildHolds(children[n].initial, config.stateDirectory.identity, n, config.childSddl[n]))
    }

    constructor (c: Config, n: NativeCalls)
      requires n.acquired == [] && n.released == []
      ensures Valid() && config == c && calls == n
      ensures handles == [] && verified == [] && initialInventory.None? && children == map[]
    {
      config, calls := c, n;
      handles, verified, directory := [], [], 0;
      initialInventory, children := None, map[];
    }

    /** The destructor: close everything held, newest first. */
    method Destroy()
      requires Valid()
      modifies calls
      ensures calls.acquired == old(calls.acquired) && calls.released == Reverse(calls.acquired)
    {
      var i := |handles|;
      assert handles[i..] == [];
      while i > 0
        invariant 0 <= i <= |handles|
        invariant calls.acquired == handles && calls.released == Reverse(handles[i..])
      {
        i := i - 1;
        calls.Close(handles[i]);
        assert handles[i..][0] == handles[i] && handles[i..][1..] == handles[i + 1..];
      }
      assert handles[0..] == handles;
    }

    method VerifyNode(node: Verified, step: string) returns (f: Option<Failure>)
      requires Valid()
      modifies calls
      ensures Valid() && calls.acquired == old(calls.acquired) && calls.clock == old(calls.clock) + 1
      ensures f.None? <==> NodeHolds(calls.script, old(calls.clock), node.handle, node.expected)
      ensures f.Some? ==> var m := calls.script.inspect(old(calls.clock), node.handle);
                          f.value == if m.Err? then m.error else Failure(IdentityDrift, node.subject, step)
    {
      var m := calls.Inspect(node.handle);
      if m.Err? {
        return Some(m.error);
      }
      if !IdentityHolds(m.value, node.expected) || !m.value.directory {
        return Some(Failure(IdentityDrift, node.subject, step));
      }
      f := None;
    }

    /** Open one component under the current node, take ownership at once, then verify it. */
    method Descend(parent: Handle, parentIdentity: Metadata, node: Node, subject: string, step: string)
      returns (r: Result<Handle, Failure>)
      requires Valid()
      modifies this, calls
      ensures Valid() && initialInventory == old(initialInventory) && children == old(children)
      ensures r.Ok? ==> StepHolds(calls.script, old(calls.clock), parent, parentIdentity, node, r.value)
      ensures r.Err? ==> forall h :: !StepHolds(calls.script, old(calls.clock), parent, parentIdentity, node, h)
      ensures r.Ok? ==> && calls.clock == old(calls.clock) + 2 && handles == old(handles) + [r.value]
                        && verified == old(verified) + [Verified(r.value, node.identity, subject)]
    {
      var h := calls.OpenRelative(parent, node.component);
      if h.Err? {
        return Err(h.error);
      }
      handles := handles + [h.value];
      verified := verified + [Verified(h.value, node.identity, subject)];
      var f := VerifyNode(Verified(h.value, node.identity, subject), step);
      if f.Some? {
        return Err(f.value);
      }
      if !ParentBinding(node.identity, parentIdentity, node.component) {
        return Err(Failure(IdentityDrift, subject, "parent-binding"));
      }
      r := Ok(h.value);
    }

    /** What the session re-checks: the held root and components, against the configured identities. */
    ghost predicate Watches()
      reads this
    {
      && |verified| == |handles| <= |Nodes(config)| + 1
      && forall i :: 0 <= i < |handles| ==> verified[i].handle == handles[i] && verified[i].expected == IdentityAt(config, i)
    }

    method OpenVolume() returns (f: Option<Failure>)
      requires Valid() && handles == [] && verified == []
      modifies this, calls
      ensures Valid()
      ensures f.None? ==> |handles| == 1 && RootAt(calls.script, config, old(calls.clock), handles[0]) && Watches()
      ensures f.None? ==> calls.clock == old(calls.clock) + 2
      ensures f.Some? ==> forall h :: !RootAt(calls.script, config, old(calls.clock), h)
    {
      var root := calls.OpenRoot();
      if root.Err? {
        return Some(root.error);
      }
      handles := handles + [root.value];
      verified := verified + [Verified(root.value, config.root, "volume-root")];
      f := VerifyNode(Verified(root.value, config.root, "volume-root"), "root-identity");
    }

    /** One component further along the configured path. */
    method OpenNext(subject: string, step: string, ghost t: nat) returns (f: Option<Failure>)
      requires Valid() && PathOpen(calls.script, config, t, handles) && Watches() && |handles| <= |Nodes(config)|
      requires calls.clock == t + 2 * |handles|
      modifies this, calls
      ensures Valid()
      ensures f.None? ==> && |handles| == |old(handles)| + 1 && calls.clock == t + 2 * |handles|
                          && PathOpen(calls.script, config, t, handles) && Watches()
      ensures f.Some? ==> forall h :: !Extends(calls.script, config, t, old(handles), h)
    {
      ghost var hs := handles;
      var i := |handles| - 1;
      var parent := if i == 0 then config.root else Nodes(config)[i - 1].identity;
      var r := Descend(handles[i], parent, Nodes(config)[i], subject, step);
      if r.Err? {
        return Some(r.error);
      }
      PathSnoc(calls.script, config, t, hs, r.value);
      f := None;
    }

    /** Succeeds iff the whole configured path can be opened and checked component by component. */
    method Initialize() returns (f: Option<Failure>)
      requires Valid() && handles == [] && verified == []
      modifies this, calls
      ensures Valid()
      ensures f.None? ==> && PathOpen(calls.script, config, old(calls.clock), handles) && |handles| == |Nodes(config)| + 1
                          && Watches() && directory == handles[|handles| - 1]
      ensures f.Some? ==> forall hs :: |hs| == |Nodes(config)| + 1 ==> !PathOpen(calls.script, config, old(calls.clock), hs)
    {
      ghost var t := calls.clock;
      f := OpenVolume();
      if f.Some? {
        return;
      }
      for i := 0 to |config.ancestors|
        invariant Valid() && PathOpen(calls.script, config, t, handles) && Watches()
        invariant |handles| == i + 1 && calls.clock == t + 2 * |handles|
      {
        ghost var before := handles;
        f := OpenNext(config.ancestors[i].component, "ancestor-identity", t);
        if f.Some? {
          CannotOpen(t, before);
          return;
        }
      }
      ghost var before := handles;
      f := OpenNext("state/", "state-directory-identity", t);
      if f.Some? {
        CannotOpen(t, before);
        return;
      }
      directory := handles[|handles| - 1];
    }

    lemma CannotOpen(t: nat, hs: seq<Handle>)
      requires PathOpen(calls.script, config, t, hs) && |hs| <= |Nodes(config)|
      requires forall h :: !Extends(calls.script, config, t, hs, h)
      ensures forall all :: |all| == |Nodes(config)| + 1 ==> !PathOpen(calls.script, config, t, all)
    {
      forall all | |all| == |Nodes(config)| + 1 ensures !PathOpen(calls.script, config, t, all) {
        if PathOpen(calls.script, config, t, all) {
          PathExtends(calls.script, config, t, hs, all);
        }
      }
    }

    ghost predicate NodesHold(t: nat)
      reads this
    {
      forall i :: 0 <= i < |verified| ==> NodeHolds(calls.script, t + i, verified[i].handle, verified[i].expected)
    }

    method DirectoryIdentity() returns (r: Result<string, Failure>)
      requires Valid()
      modifies calls
      ensures Valid() && calls.acquired == old(calls.acquired)
      ensures r.Ok? <==> NodesHold(old(calls.clock))
      ensures calls.clock >= old(calls.clock)
      ensures r.Ok? ==> r.value == IdentityKey(config.stateDirectory.identity) && calls.clock == old(calls.clock) + |verified|
    {
      for i := 0 to |verified|
        invariant Valid() && calls.acquired == old(calls.acquired) && calls.clock == old(calls.clock) + i
        invariant forall j :: 0 <= j < i ==>
                    NodeHolds(calls.script, old(calls.clock) + j, verified[j].handle, verified[j].expected)
      {
        var f := VerifyNode(verified[i], "held-identity");
        if f.Some? {
          return Err(f.value);
        }
      }
      r := Ok(IdentityKey(config.stateDirectory.identity));
    }

    /** The page answers an enumeration starting at moment `t` would see. */
    ghost function PagesFrom(t: nat): PageSource
      reads this
    {
      PagesAt(calls.script, directory, t)
    }

    /** The enumeration loop over pages. */
    method Enumerate() returns (r: Result<seq<NativeEntry>, Failure>)
      requires Valid()
      modifies calls
      ensures Valid() && calls.acquired == old(calls.acquired)
      ensures r == CollectFrom(PagesFrom(old(calls.clock)), 0, []) && calls.clock > old(calls.clock)
    {
      var entries: seq<NativeEntry> := [];
      ghost var pages := PagesFrom(calls.clock);
      for k := 0 to MAX_PAGES
        invariant Valid() && calls.acquired == old(calls.acquired) && calls.clock == old(calls.clock) + k
        invariant CollectFrom(pages, 0, []) == CollectFrom(pages, k, entries)
      {
        var page := calls.NextPage(directory, k == 0);
        assert page == pages(k);
        if page.Err? {
          return Err(page.error);
        }
        if page.value.End? {
          return Ok(entries);
        }
        if page.value.entries == [] {
          return Err(Failure(Incomplete, "state/", "enumeration-page"));
        }
        ghost var before := entries;
        var es := page.value.entries;
        assert es[0..] == es;
        for i := 0 to |es|
          invariant Valid() && calls.acquired == old(calls.acquired) && calls.clock == old(calls.clock) + k + 1
          invariant AdmitAll(before, es) == AdmitAll(entries, es[i..])
        {
          assert es[i..][0] == es[i] && es[i..][1..] == es[i + 1..];
          var a := Admit(entries, es[i]);
          if a.Err? {
            return Err(a.error);
          }
          entries := a.value;
        }
        assert es[|es|..] == [];
      }
      r := Err(Failure(Incomplete, "state/", "enumeration-limit"));
    }

    /** What a successful first listing records. */
    ghost predicate Recorded(inv: map<string, NativeEntry>, es: seq<NativeEntry>) {
      && (forall i :: 0 <= i < |es| ==> es[i].name in inv && inv[es[i].name] == es[i])
      && (forall n :: n in inv ==> Listed(es, n))
    }

    /** The enumeration that follows a re-check of every held node started at moment `t`. */
    ghost function Listing(t: nat): Result<seq<NativeEntry>, Failure>
      reads this
    {
      CollectFrom(PagesFrom(t + |verified|), 0, [])
    }

    /** Re-check, then enumerate. */
    method ListNow() returns (r: Result<seq<NativeEntry>, Failure>)
      requires Valid()
      modifies calls
      ensures Valid() && calls.acquired == old(calls.acquired) && calls.clock >= old(calls.clock)
      ensures r.Ok? <==> NodesHold(old(calls.clock)) && Listing(old(calls.clock)).Ok?
      ensures r.Ok? ==> r == Listing(old(calls.clock)) && Listable(r.value) && calls.clock > old(calls.clock) + |verified|
      ensures r.Ok? ==> Streamed(calls.script, directory, old(calls.clock) + |verified|)
    {
      var id := DirectoryIdentity();
      if id.Err? {
        return Err(id.error);
      }
      ghost var t := calls.clock;
      r := Enumerate();
      if r.Ok? {
        CollectedStreams(calls.script, directory, t, r.value);
      }
    }

    method Inventory() returns (r: Result<seq<Entry>, Failure>)
      requires Valid()
      modifies this, calls
      ensures Valid() && handles == old(handles) && children == old(children) && directory == old(directory)
      ensures verified == old(verified) && calls.clock >= old(calls.clock) && (r.Ok? ==> calls.clock > old(calls.clock) + |verified|)
      ensures r.Ok? <==> old(NodesHold(calls.clock)) && old(Listing(calls.clock)).Ok?
      ensures r.Ok? ==> r.value == Shown(old(Listing(calls.clock)).value, IdentityKey(config.stateDirectory.identity))
      ensures r.Ok? ==>
                var ns := old(Listing(calls.clock)).value;
                && |r.value| == |ns|
                && forall i :: 0 <= i < |ns| ==>
                     && r.value[i].name == ns[i].name && r.value[i].fileId == Hex(ns[i].fileId)
                     && r.value[i].parentId == IdentityKey(config.stateDirectory.identity)
                     && (r.value[i].kind == "directory" <==> DirectoryBit(ns[i].attributes))
                     && (r.value[i].kind == "regular" <==> !DirectoryBit(ns[i].attributes))
                     && (r.value[i].reparse <==> ReparseBit(ns[i].attributes) || ns[i].reparseTag != 0)
      ensures r.Ok? && old(initialInventory).None? ==>
                initialInventory.Some? && Recorded(initialInventory.value, old(Listing(calls.clock)).value)
      ensures old(initialInventory).Some? || r.Err? ==> initialInventory == old(initialInventory)
    {
      var listed := ListNow();
      if listed.Err? {
        return Err(listed.error);
      }
      if initialInventory.None? {
        var inv := RecordAll(listed.value);
        initialInventory := Some(inv);
      }
      r := Ok(Shown(listed.value, IdentityKey(config.stateDirectory.identity)));
    }

    method RecordAll(es: seq<NativeEntry>) returns (inv: map<string, NativeEntry>)
      requires Listable(es)
      ensures Recorded(inv, es)
    {
      inv := map[];
      for i := 0 to |es|
        invariant forall j :: 0 <= j < i ==> es[j].name in inv && inv[es[j].name] == es[j]
        invariant forall n :: n in inv ==> exists j :: 0 <= j < i && es[j].name == n
      {
        inv := inv[es[i].name := es[i]];
      }
    }

    /** The name was in the first listing, is described, is a plain component and is not held yet. */
    predicate Holdable(name: string)
      reads this
    {
      && initialInventory.Some? && name in initialInventory.value && name !in children
      && name in config.childSddl && ValidComponent(name)
    }

    /** Opening `name` at moment `t` gives a regular file that binds to the directory and is the one first listed. */
    predicate Opens(name: string, t: nat, child: Child)
      requires Holdable(name)
      reads this
    {
      && calls.script.openRelative(t, directory, name) == Ok(child.handle)
      && calls.script.inspect(t + 1, child.handle) == Ok(child.initial)
      && ChildHolds(child.initial, config.stateDirectory.identity, name, config.childSddl[name])
      && child.initial.fileId == initialInventory.value[name].fileId
    }

    method HoldChild(name: string) returns (f: Option<Failure>)
      requires Valid()
      modifies this, calls
      ensures Valid() && initialInventory == old(initialInventory) && directory == old(directory) && verified == old(verified)
      ensures calls.clock >= old(calls.clock)
      ensures f.None? ==> && old(Holdable(name)) && name in children
                          && var child := children[name];
                             && old(Opens(name, calls.clock, child)) && children == old(children)[name := child]
                             && handles == old(handles) + [child.handle]
      ensures f.None? ==> 0 < |name| <= 255 && name[|name| - 1] != '.' && StaysInside(name)
      ensures f.Some? ==> children == old(children)
      ensures old(initialInventory).None? || name !in old(initialInventory).value || name in old(children) ==>
                f == Some(Failure(Incomplete, name, "hold-child"))
      ensures old(initialInventory).Some? && name in old(initialInventory).value && name !in old(children) && name !in config.childSddl ==>
                f == Some(Failure(UnexpectedEntry, name, "hold-child"))
      ensures f.Some? && old(Holdable(name)) ==>
                var h := calls.script.openRelative(old(calls.clock), directory, name);
                if h.Err? then f.value == h.error && handles == old(handles)
                else
                  && handles == old(handles) + [h.value]
                  && var m := calls.script.inspect(old(calls.clock) + 1, h.value);
                     f.value == if m.Err? then m.error else Failure(IdentityDrift, name, "hold-child-identity")
      ensures f.Some? && old(Holdable(name)) ==> forall child :: !old(Opens(name, calls.clock, child))
    {
      if initialInventory.None? || name !in initialInventory.value || name in children {
        return Some(Failure(Incomplete, name, "hold-child"));
      }
      if name !in config.childSddl {
        return Some(Failure(UnexpectedEntry, name, "hold-child"));
      }
      if !ValidComponent(name) {
        return Some(Failure(Malformed, name, "hold-child-name"));
      }
      var h := calls.OpenRelative(directory, name);
      if h.Err? {
        return Some(h.error);
      }
      handles := handles + [h.value];
      var actual := calls.Inspect(h.value);
      if actual.Err? {
        return Some(actual.error);
      }
      if !ChildHolds(actual.value, config.stateDirectory.identity, name, config.childSddl[name])
         || Hex(actual.value.fileId) != Hex(initialInventory.value[name].fileId) {
        return Some(Failure(IdentityDrift, name, "hold-child-identity"));
      }
      HexInjective(actual.value.fileId, initialInventory.value[name].fileId);
      children := children[name := Child(h.value, actual.value)];
      f := None;
    }

    /** Succeeds iff the name is held and its handle still shows the same acceptable file. */
    method HeldIdentity(name: string) returns (r: Result<string, Failure>)
      requires Valid()
      modifies calls
      ensures Valid() && calls.acquired == old(calls.acquired)
      ensures r.Ok? <==> && name in children
                         && var m := calls.script.inspect(old(calls.clock), children[name].handle);
                            && m.Ok? && IdentityHolds(m.value, children[name].initial)
                            && ChildHolds(m.value, config.stateDirectory.identity, name, config.childSddl[name])
      ensures r.Ok? ==> r.value == Hex(initialInventory.value[name].fileId) && calls.clock == old(calls.clock) + 1
      ensures calls.clock >= old(calls.clock)
      ensures name !in children ==> r == Err(Failure(Incomplete, name, "held-child"))
      ensures name in children && r.Err? ==>
                var m := calls.script.inspect(old(calls.clock), children[name].handle);
                r.error == if m.Err? then m.error else Failure(IdentityDrift, name, "held-child-identity")
    {
      if name !in children {
        return Err(Failure(Incomplete, name, "held-child"));
      }
      var child := children[name];
      var actual := calls.Inspect(child.handle);
      if actual.Err? {
        return Err(actual.error);
      }
      if !ChildHolds(actual.value, config.stateDirectory.identity, name, config.childSddl[name])
         || !IdentityHolds(actual.value, child.initial) {
        return Err(Failure(IdentityDrift, name, "held-child-identity"));
      }
      r := Ok(Hex(actual.value.fileId));
    }

    /** Reads the handle that was opened and checked for this name, never a fresh one. */
    method ReadChild(name: string) returns (r: Result<string, Failure>)
      requires Valid()
      modifies calls
      ensures Valid() && calls.acquired == old(calls.acquired)
      ensures name in children ==> r == calls.script.readAll(old(calls.clock), children[name].handle) && calls.clock > old(calls.clock)
      ensures calls.clock >= old(calls.clock)
      ensures name !in children ==> r == Err(Failure(Incomplete, name, "held-child"))
    {
      if name !in children {
        return Err(Failure(Incomplete, name, "held-child"));
      }
      r := calls.ReadAll(children[name].handle);
    }
  }

  datatype Use = UseDirectory | UseInventory | UseHold(name: string) | UseHeld(name: string) | UseRead(name: string)

  /**
   A whole session: opened, used in any way up to the first failure, and destroyed.  On every
   path each opened handle is closed exactly once, in reverse order of opening.
   */
  method Lifetime(script: Script, config: Config, uses: seq<Use>) returns (calls: NativeCalls)
    ensures calls.released == Reverse(calls.acquired)
  {
    calls := new NativeCalls(script);
    var s := new WindowsSession(config, calls);
    var f := s.Initialize();
    var i := 0;
    while f.None? && i < |uses|
      invariant s.Valid() && s.calls == calls && fresh(s) && fresh(calls)
      decreases |uses| - i
    {
      match uses[i] {
      case UseDirectory =>
        var r := s.DirectoryIdentity();
        f := if r.Err? then Some(r.error) else None;
      case UseInventory =>
        var r := s.Inventory();
        f := if r.Err? then Some(r.error) else None;
      case UseHold(n) =>
        f := s.HoldChild(n);
      case UseHeld(n) =>
        var r := s.HeldIdentity(n);
        f := if r.Err? then Some(r.error) else None;
      case UseRead(n) =>
        var r := s.ReadChild(n);
        f := if r.Err? then Some(r.error) else None;
      }
      i := i + 1;
    }
    s.Destroy();
  }
}
