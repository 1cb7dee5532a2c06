/**
 The raw directory-page parser of remediation/round37/stage_a_fixture/src/windows_snapshot.cpp:
 a chain of FILE_ID_EXTD_DIR_INFO records inside one bounded buffer.  UTF-16 to UTF-8
 conversion is a parameter whose `None` stands for a conversion failure.
 */
module DirectoryPages {
  import opened Wrappers
  import opened Bytes

  const HEADER_BYTES: nat := 88
  const BUFFER_BYTES: nat := 65536
  const NEXT_AT: nat := 0
  const ATTRIBUTES_AT: nat := 56
  const NAME_LENGTH_AT: nat := 60
  const REPARSE_TAG_AT: nat := 68
  const FILE_ID_AT: nat := 72

  /** FILE_ATTRIBUTE_DIRECTORY (0x10), FILE_ATTRIBUTE_DEVICE (0x40), FILE_ATTRIBUTE_REPARSE_POINT (0x400). */
  predicate DirectoryBit(attributes: uint32) { attributes / 0x10 % 2 == 1 }
  predicate DeviceBit(attributes: uint32) { attributes / 0x40 % 2 == 1 }
  predicate ReparseBit(attributes: uint32) { attributes / 0x400 % 2 == 1 }

  datatype NativeEntry = NativeEntry(name: string, fileId: seq<byte>, attributes: uint32, reparseTag: uint32)

  datatype PageError = EmptyPage | BadBuffer | BadName | Device(name: string)

  type Conversion = seq<uint16> -> Option<string>

  function Units(b: seq<byte>): seq<uint16>
    requires |b| % 2 == 0
  {
    seq(|b| / 2, i requires 0 <= i < |b| / 2 => Get16(b, 2 * i))
  }

  // ---------- One record at the front of the remaining bytes ----------

  predicate NameFits(s: seq<byte>)
    requires |s| >= HEADER_BYTES
  {
    var n := Get32(s, NAME_LENGTH_AT);
    n != 0 && n % 2 == 0 && n <= |s| - HEADER_BYTES
  }

  function NameBytes(s: seq<byte>): seq<byte>
    requires |s| >= HEADER_BYTES && NameFits(s)
  {
    s[HEADER_BYTES..HEADER_BYTES + Get32(s, NAME_LENGTH_AT)]
  }

  function ReadEntry(s: seq<byte>, name: string): NativeEntry
    requires |s| >= HEADER_BYTES
  {
    NativeEntry(name, s[FILE_ID_AT..HEADER_BYTES], Get32(s, ATTRIBUTES_AT), Get32(s, REPARSE_TAG_AT))
  }

  predicate NextFits(s: seq<byte>, next: nat)
    requires |s| >= HEADER_BYTES && NameFits(s)
  {
    next % 8 == 0 && HEADER_BYTES + Get32(s, NAME_LENGTH_AT) <= next <= |s|
  }

  /** One decoded record; `next` is 0 for the last of a chain. */
  datatype Front = Front(entry: NativeEntry, next: nat)

  function ParseFront(s: seq<byte>, utf8: Conversion): Result<Front, PageError> {
    if |s| < HEADER_BYTES || !NameFits(s) then Err(BadBuffer)
    else
      var name := utf8(Units(NameBytes(s)));
      if name.None? then Err(BadName)
      else
        var e := ReadEntry(s, name.value);
        var next := Get32(s, NEXT_AT);
        if DeviceBit(e.attributes) then Err(Device(e.name))
        else if next != 0 && !NextFits(s, next) then Err(BadBuffer)
        else Ok(Front(e, next))
  }

  type FrontParser = seq<byte> -> Result<Front, PageError>

  /** The chain of records starting at the front of `s`, each telling where the next one starts. */
  function Chain(s: seq<byte>, front: FrontParser): Result<seq<NativeEntry>, PageError> {
    var f := front(s);
    if f.Err? then Err(f.error)
    else if f.value.next == 0 then Ok([f.value.entry])
    else if f.value.next > |s| then Err(BadBuffer)
    else
      var rest := Chain(s[f.value.next..], front);
      if rest.Err? then rest else Ok([f.value.entry] + rest.value)
  }

  function FrontOf(utf8: Conversion): FrontParser {
    s => ParseFront(s, utf8)
  }

  function ParseSpec(bytes: seq<byte>, utf8: Conversion): Result<seq<NativeEntry>, PageError> {
    if |bytes| == 0 then Err(EmptyPage)
    else if |bytes| > BUFFER_BYTES || |bytes| < HEADER_BYTES then Err(BadBuffer)
    else Chain(bytes, FrontOf(utf8))
  }

  /** `front` decodes records as the parser does, at every offset of the buffer. */
  ghost predicate Decodes(front: FrontParser, bytes: seq<byte>, utf8: Conversion) {
    forall o: nat {:trigger DecodesAt(front, bytes, utf8, o)} :: o <= |bytes| ==> DecodesAt(front, bytes, utf8, o)
  }

  ghost predicate DecodesAt(front: FrontParser, bytes: seq<byte>, utf8: Conversion, o: nat)
    requires o <= |bytes|
  {
    front(bytes[o..]) == ParseFront(bytes[o..], utf8)
  }

  /** One turn of the parser loop: decode the record at `offset`, reading only inside the buffer. */
  method ReadRecord(bytes: seq<byte>, offset: nat, utf8: Conversion, ghost front: FrontParser)
    returns (r: Result<Front, PageError>)
    requires HEADER_BYTES <= |bytes| && offset <= |bytes| && Decodes(front, bytes, utf8)
    ensures r == front(bytes[offset..])
    ensures r.Ok? && r.value.next != 0 ==> 0 < r.value.next <= |bytes| - offset
  {
    var size := |bytes|;
    ghost var s := bytes[offset..];
    assert DecodesAt(front, bytes, utf8, offset);
    if offset > size - HEADER_BYTES {
      return Err(BadBuffer);
    }
    var nameBytes := Get32(bytes, offset + NAME_LENGTH_AT);
    assert nameBytes == Get32(s, NAME_LENGTH_AT);
    if nameBytes == 0 || nameBytes % 2 != 0 || nameBytes > size - offset - HEADER_BYTES {
      return Err(BadBuffer);
    }
    var raw := bytes[offset + HEADER_BYTES..offset + HEADER_BYTES + nameBytes];
    assert raw == NameBytes(s);
    var name := utf8(Units(raw));
    if name.None? {
      return Err(BadName);
    }
    var entry := ReadEntry(bytes[offset..offset + HEADER_BYTES], name.value);
    assert bytes[offset..offset + HEADER_BYTES] == s[..HEADER_BYTES];
    assert s[..HEADER_BYTES][FILE_ID_AT..HEADER_BYTES] == s[FILE_ID_AT..HEADER_BYTES];
    assert entry == ReadEntry(s, name.value);
    if DeviceBit(entry.attributes) {
      return Err(Device(entry.name));
    }
    var next := Get32(bytes, offset + NEXT_AT);
    assert next == Get32(s, NEXT_AT);
    if next != 0 && (next % 8 != 0 || next < HEADER_BYTES + nameBytes || next > size - offset) {
      return Err(BadBuffer);
    }
    r := Ok(Front(entry, next));
  }

  /** The parser loop; the unread part shrinks each time round. */
  method ParsePage(bytes: seq<byte>, utf8: Conversion) returns (r: Result<seq<NativeEntry>, PageError>)
    ensures r == ParseSpec(bytes, utf8)
  {
    var size := |bytes|;
    if size == 0 {
      return Err(EmptyPage);
    }
    if size > BUFFER_BYTES || size < HEADER_BYTES {
      return Err(BadBuffer);
    }
    r := ParseLoop(bytes, utf8, FrontOf(utf8));
  }

  method ParseLoop(bytes: seq<byte>, utf8: Conversion, ghost front: FrontParser)
    returns (r: Result<seq<NativeEntry>, PageError>)
    requires HEADER_BYTES <= |bytes| && Decodes(front, bytes, utf8)
    ensures r == Chain(bytes, front)
  {
    var entries: seq<NativeEntry> := [];
    var offset: nat := 0;
    assert bytes[0..] == bytes;
    ghost var rest := Chain(bytes, front);
    assert rest.Ok? ==> entries + rest.value == rest.value;
    while true
      invariant offset <= |bytes|
      invariant rest == Chain(bytes[offset..], front)
      invariant Chain(bytes, front) == if rest.Err? then rest else Ok(entries + rest.value)
      decreases |bytes| - offset
    {
      var record := ReadRecord(bytes, offset, utf8, front);
      if record.Err? {
        return Err(record.error);
      }
      ghost var before := entries;
      entries := entries + [record.value.entry];
      if record.value.next == 0 {
        return Ok(entries);
      }
      ChainAdvance(bytes, offset, front);
      offset := offset + record.value.next;
      rest := Chain(bytes[offset..], front);
      assert rest.Ok? ==> before + ([record.value.entry] + rest.value) == entries + rest.value;
    }
  }

  lemma ChainAdvance(bytes: seq<byte>, offset: nat, front: FrontParser)
    requires offset <= |bytes| && front(bytes[offset..]).Ok?
    requires 0 < front(bytes[offset..]).value.next <= |bytes| - offset
    ensures var f := front(bytes[offset..]).value;
            var rest := Chain(bytes[offset + f.next..], front);
            Chain(bytes[offset..], front) == if rest.Err? then rest else Ok([f.entry] + rest.value)
  {
    var next := front(bytes[offset..]).value.next;
    assert bytes[offset..][next..] == bytes[offset + next..];
  }

  // ---------- Where the accepted records lie ----------

  lemma FrontBounds(s: seq<byte>, utf8: Conversion)
    requires ParseFront(s, utf8).Ok?
    ensures var n, next := Get32(s, NAME_LENGTH_AT), ParseFront(s, utf8).value.next;
            && 2 <= n && HEADER_BYTES + n <= |s|
            && (next != 0 ==> next % 8 == 0 && 96 <= next && HEADER_BYTES + n <= next <= |s|)
  {
  }

  /** Offsets of the records of an accepted chain, relative to `base`. */
  function Offsets(s: seq<byte>, front: FrontParser, base: nat): seq<nat>
    requires Chain(s, front).Ok?
  {
    var next := front(s).value.next;
    [base] + if next == 0 then [] else Offsets(s[next..], front, base + next)
  }

  /** Consecutive offsets are linked by the next field of the earlier record. */
  ghost predicate Linked(bytes: seq<byte>, os: seq<nat>, front: FrontParser) {
    && (forall i :: 0 <= i < |os| ==> os[i] <= |bytes| && front(bytes[os[i]..]).Ok?)
    && (forall i :: 0 <= i < |os| - 1 ==> os[i + 1] == os[i] + front(bytes[os[i]..]).value.next)
    && (forall i :: 0 <= i < |os| - 1 ==> front(bytes[os[i]..]).value.next != 0)
  }

  lemma {:induction false} OffsetsLinked(bytes: seq<byte>, base: nat, front: FrontParser)
    requires base <= |bytes| && Chain(bytes[base..], front).Ok?
    ensures var os := Offsets(bytes[base..], front, base);
            os != [] && os[0] == base && |os| == |Chain(bytes[base..], front).value| && Linked(bytes, os, front)
    decreases |bytes| - base
  {
    var next := front(bytes[base..]).value.next;
    if next != 0 {
      assert bytes[base..][next..] == bytes[base + next..];
      OffsetsLinked(bytes, base + next, front);
      var inner := Offsets(bytes[base + next..], front, base + next);
      var os := [base] + inner;
      assert Offsets(bytes[base..], front, base) == os;
      forall i | 0 <= i < |os|
        ensures os[i] <= |bytes| && front(bytes[os[i]..]).Ok?
        ensures i < |os| - 1 ==> os[i + 1] == os[i] + front(bytes[os[i]..]).value.next && front(bytes[os[i]..]).value.next != 0
      {
        if i > 0 {
          assert os[i] == inner[i - 1];
          assert i < |os| - 1 ==> os[i + 1] == inner[i];
        }
      }
    }
  }

  /** The record at an offset ends here. */
  function RecordEnd(bytes: seq<byte>, at: nat): nat
    requires at + HEADER_BYTES <= |bytes|
  {
    at + HEADER_BYTES + Get32(bytes, at + NAME_LENGTH_AT)
  }

  lemma RecordInside(bytes: seq<byte>, at: nat, utf8: Conversion)
    requires at <= |bytes| && ParseFront(bytes[at..], utf8).Ok?
    ensures at + HEADER_BYTES <= |bytes| && at + 90 <= RecordEnd(bytes, at) <= |bytes|
    ensures var next := ParseFront(bytes[at..], utf8).value.next;
            next != 0 ==> next % 8 == 0 && RecordEnd(bytes, at) <= at + next && 96 <= next
  {
    var s := bytes[at..];
    FrontBounds(s, utf8);
    assert Get32(s, NAME_LENGTH_AT) == Get32(bytes, at + NAME_LENGTH_AT);
  }

  /** Record `i` of an accepted page lies inside the buffer and clear of the record after it. */
  ghost predicate Separate(bytes: seq<byte>, os: seq<nat>, i: nat)
    requires i < |os|
  {
    && os[i] + HEADER_BYTES <= |bytes| && os[i] + 90 <= RecordEnd(bytes, os[i]) <= |bytes|
    && (i + 1 < |os| ==> RecordEnd(bytes, os[i]) <= os[i + 1] && os[i] + 96 <= os[i + 1])
  }

  lemma LinkedSeparate(bytes: seq<byte>, os: seq<nat>, utf8: Conversion, i: nat)
    requires i < |os| && Linked(bytes, os, FrontOf(utf8))
    ensures Separate(bytes, os, i)
    ensures i + 1 < |os| ==> (os[i + 1] - os[i]) % 8 == 0
  {
    var at := os[i];
    assert FrontOf(utf8)(bytes[at..]) == ParseFront(bytes[at..], utf8);
    RecordInside(bytes, at, utf8);
  }

  lemma {:induction false} Aligned(os: seq<nat>, i: nat)
    requires i < |os| && os[0] == 0
    requires forall j :: 0 <= j < |os| - 1 ==> os[j] + 96 <= os[j + 1] && (os[j + 1] - os[j]) % 8 == 0
    ensures os[i] % 8 == 0 && 96 * i <= os[i]
  {
    if i > 0 {
      Aligned(os, i - 1);
      assert os[i - 1] + 96 <= os[i - 1 + 1] && (os[i - 1 + 1] - os[i - 1]) % 8 == 0;
    }
  }

  /**
   On arbitrary bytes: the records of an accepted page lie inside the buffer, disjoint, at strictly
   increasing 8-aligned offsets, so n records need at least 96 (n - 1) + 90 bytes.
   */
  lemma AcceptedRecordsPlaced(bytes: seq<byte>, utf8: Conversion)
    requires ParseSpec(bytes, utf8).Ok?
    ensures var os := Offsets(bytes, FrontOf(utf8), 0);
            && |os| == |ParseSpec(bytes, utf8).value| >= 1 && os[0] == 0
            && (forall i :: 0 <= i < |os| ==> os[i] % 8 == 0 && Separate(bytes, os, i))
            && 96 * (|os| - 1) + 90 <= |bytes| <= BUFFER_BYTES
  {
    assert bytes[0..] == bytes;
    OffsetsLinked(bytes, 0, FrontOf(utf8));
    var os := Offsets(bytes, FrontOf(utf8), 0);
    forall i | 0 <= i < |os|
      ensures Separate(bytes, os, i)
      ensures i + 1 < |os| ==> os[i] + 96 <= os[i + 1] && (os[i + 1] - os[i]) % 8 == 0
    {
      LinkedSeparate(bytes, os, utf8, i);
    }
    forall i | 0 <= i < |os| ensures os[i] % 8 == 0 && 96 * i <= os[i] {
      Aligned(os, i);
    }
    assert Separate(bytes, os, |os| - 1);
  }

  // ---------- The accepted buffers are exactly the laid-out ones ----------

  /** A record before layout: its fields, the bytes the parser ignores, and padding up to the next record. */
  datatype Record = Record(ignored: seq<byte>, attributes: uint32, ea: seq<byte>, reparseTag: uint32,
                           fileId: seq<byte>, name: seq<byte>, padding: seq<byte>)
  {
    predicate Valid(utf8: Conversion) {
      && |ignored| == 52 && |ea| == 4 && |fileId| == 16
      && |name| > 0 && |name| % 2 == 0 && HEADER_BYTES + |name| + |padding| < 0x1_0000_0000
      && !DeviceBit(attributes)
      && utf8(Units(name)).Some?
    }

    function View(utf8: Conversion): NativeEntry
      requires Valid(utf8)
    {
      NativeEntry(utf8(Units(name)).value, fileId, attributes, reparseTag)
    }

    function Span(): nat {
      HEADER_BYTES + |name| + |padding|
    }

    function Layout(next: uint32): seq<byte>
      requires |name| < 0x1_0000_0000
    {
      Le32(next) + ignored + Le32(attributes) + Le32(|name|) + ea + Le32(reparseTag) + fileId + name + padding
    }
  }

  /** All records but the last are padded to a multiple of 8; the last one has a zero next offset. */
  ghost predicate Chainable(rs: seq<Record>, utf8: Conversion) {
    && rs != []
    && (forall i :: 0 <= i < |rs| ==> rs[i].Valid(utf8))
    && (forall i :: 0 <= i < |rs| - 1 ==> rs[i].Span() % 8 == 0)
  }

  ghost function Page(rs: seq<Record>, utf8: Conversion): seq<byte>
    requires Chainable(rs, utf8)
  {
    if |rs| == 1 then rs[0].Layout(0)
    else rs[0].Layout(rs[0].Span()) + Page(rs[1..], utf8)
  }

  ghost function Views(rs: seq<Record>, utf8: Conversion): seq<NativeEntry>
    requires forall i :: 0 <= i < |rs| ==> rs[i].Valid(utf8)
  {
    seq(|rs|, i requires 0 <= i < |rs| => rs[i].View(utf8))
  }

  /** The header fields of a laid-out record, read back. */
  lemma LayoutFields(r: Record, next: uint32, tail: seq<byte>, utf8: Conversion)
    requires r.Valid(utf8)
    ensures var s := r.Layout(next) + tail;
            && |r.Layout(next)| == r.Span()
            && Get32(s, NEXT_AT) == next && Get32(s, ATTRIBUTES_AT) == r.attributes
            && Get32(s, NAME_LENGTH_AT) == |r.name| && Get32(s, REPARSE_TAG_AT) == r.reparseTag
            && s[FILE_ID_AT..HEADER_BYTES] == r.fileId
            && s[HEADER_BYTES..HEADER_BYTES + |r.name|] == r.name
            && s[r.Span()..] == tail
  {
    var s := r.Layout(next) + tail;
    assert s[0..4] == Le32(next) && s[56..60] == Le32(r.attributes) && s[60..64] == Le32(|r.name|) && s[68..72] == Le32(r.reparseTag);
    Get32Iff(s, 0, next);
    Get32Iff(s, 56, r.attributes);
    Get32Iff(s, 60, |r.name|);
    Get32Iff(s, 68, r.reparseTag);
  }

  lemma LayoutParses(r: Record, next: uint32, tail: seq<byte>, utf8: Conversion)
    requires r.Valid(utf8) && (next == 0 || (next == r.Span() && next % 8 == 0))
    ensures ParseFront(r.Layout(next) + tail, utf8) == Ok(Front(r.View(utf8), next))
    ensures (r.Layout(next) + tail)[r.Span()..] == tail
  {
    LayoutFields(r, next, tail, utf8);
  }

  /** Round trip: a laid-out chain followed by anything parses to exactly its entries. */
  lemma {:induction false} LaidOutParses(rs: seq<Record>, tail: seq<byte>, utf8: Conversion)
    requires Chainable(rs, utf8)
    ensures Chain(Page(rs, utf8) + tail, FrontOf(utf8)) == Ok(Views(rs, utf8))
  {
    if |rs| == 1 {
      LayoutParses(rs[0], 0, tail, utf8);
      assert FrontOf(utf8)(Page(rs, utf8) + tail) == Ok(Front(rs[0].View(utf8), 0));
      assert Views(rs, utf8) == [rs[0].View(utf8)];
    } else {
      assert Chainable(rs[1..], utf8);
      LaidOutParses(rs[1..], tail, utf8);
      ChainOver(rs[0], Page(rs[1..], utf8) + tail, utf8);
      assert Page(rs, utf8) + tail == rs[0].Layout(rs[0].Span()) + (Page(rs[1..], utf8) + tail);
      assert Views(rs, utf8) == [rs[0].View(utf8)] + Views(rs[1..], utf8);
    }
  }

  lemma ChainOver(r: Record, rest: seq<byte>, utf8: Conversion)
    requires r.Valid(utf8) && r.Span() % 8 == 0 && Chain(rest, FrontOf(utf8)).Ok?
    ensures Chain(r.Layout(r.Span()) + rest, FrontOf(utf8)) == Ok([r.View(utf8)] + Chain(rest, FrontOf(utf8)).value)
  {
    var s := r.Layout(r.Span()) + rest;
    LayoutParses(r, r.Span(), rest, utf8);
    FrontBounds(s, utf8);
    assert FrontOf(utf8)(s) == Ok(Front(r.View(utf8), r.Span()));
  }

  /** The record an accepted front decodes to, spanning `span` bytes. */
  ghost function FrontRecord(s: seq<byte>, span: nat): Record
    requires |s| >= HEADER_BYTES && NameFits(s) && HEADER_BYTES + Get32(s, NAME_LENGTH_AT) <= span <= |s|
  {
    Record(s[4..56], Get32(s, ATTRIBUTES_AT), s[64..68], Get32(s, REPARSE_TAG_AT), s[FILE_ID_AT..HEADER_BYTES],
           NameBytes(s), s[HEADER_BYTES + Get32(s, NAME_LENGTH_AT)..span])
  }

  lemma FrontLayout(s: seq<byte>, span: nat, next: uint32)
    requires |s| >= HEADER_BYTES && NameFits(s) && HEADER_BYTES + Get32(s, NAME_LENGTH_AT) <= span <= |s|
    requires Get32(s, NEXT_AT) == next
    ensures FrontRecord(s, span).Layout(next) == s[..span]
  {
    var n := Get32(s, NAME_LENGTH_AT);
    FrontHeader(s);
    assert s[..span] == s[..HEADER_BYTES] + s[HEADER_BYTES..HEADER_BYTES + n] + s[HEADER_BYTES + n..span];
  }

  lemma FrontHeader(s: seq<byte>)
    requires |s| >= HEADER_BYTES
    ensures s[..HEADER_BYTES] == Le32(Get32(s, NEXT_AT)) + s[4..56] + Le32(Get32(s, ATTRIBUTES_AT)) + Le32(Get32(s, NAME_LENGTH_AT))
                                 + s[64..68] + Le32(Get32(s, REPARSE_TAG_AT)) + s[72..88]
  {
    Get32Iff(s, 0, Get32(s, 0));
    Get32Iff(s, 56, Get32(s, 56));
    Get32Iff(s, 60, Get32(s, 60));
    Get32Iff(s, 68, Get32(s, 68));
    assert s[..88] == s[0..4] + s[4..56] + s[56..60] + s[60..64] + s[64..68] + s[68..72] + s[72..88];
  }

  lemma FrontValid(s: seq<byte>, span: nat, utf8: Conversion)
    requires ParseFront(s, utf8).Ok? && |s| <= BUFFER_BYTES
    requires HEADER_BYTES + Get32(s, NAME_LENGTH_AT) <= span <= |s|
    ensures FrontRecord(s, span).Valid(utf8) && FrontRecord(s, span).Span() == span
    ensures FrontRecord(s, span).View(utf8) == ParseFront(s, utf8).value.entry
    ensures FrontRecord(s, span).Layout(ParseFront(s, utf8).value.next) == s[..span]
  {
    FrontLayout(s, span, ParseFront(s, utf8).value.next);
  }

  ghost predicate LaidOut(s: seq<byte>, rs: seq<Record>, tail: seq<byte>, es: seq<NativeEntry>, utf8: Conversion) {
    Chainable(rs, utf8) && s == Page(rs, utf8) + tail && es == Views(rs, utf8)
  }

  lemma PrependRecord(r: Record, rs: seq<Record>, tail: seq<byte>, es: seq<NativeEntry>, utf8: Conversion)
    requires r.Valid(utf8) && r.Span() % 8 == 0
    requires Chainable(rs, utf8) && es == Views(rs, utf8)
    ensures LaidOut(r.Layout(r.Span()) + (Page(rs, utf8) + tail), [r] + rs, tail, [r.View(utf8)] + es, utf8)
  {
    var all := [r] + rs;
    assert all[1..] == rs;
    assert Chainable(all, utf8) by {
      assert forall i :: 0 < i < |all| ==> all[i] == rs[i - 1];
    }
    assert Page(all, utf8) == r.Layout(r.Span()) + Page(rs, utf8);
    assert Page(all, utf8) + tail == r.Layout(r.Span()) + (Page(rs, utf8) + tail);
  }

  /** Conversely, whatever the parser accepts is a laid-out chain of the returned entries plus trailing bytes. */
  lemma {:induction false} AcceptedIsLaidOut(s: seq<byte>, utf8: Conversion) returns (rs: seq<Record>, tail: seq<byte>)
    requires Chain(s, FrontOf(utf8)).Ok? && |s| <= BUFFER_BYTES
    ensures LaidOut(s, rs, tail, Chain(s, FrontOf(utf8)).value, utf8)
  {
    var f := ParseFront(s, utf8);
    assert FrontOf(utf8)(s) == f;
    if f.value.next == 0 {
      rs, tail := LastIsLaidOut(s, utf8);
    } else {
      FrontBounds(s, utf8);
      var inner, t := AcceptedIsLaidOut(s[f.value.next..], utf8);
      rs, tail := FrontIsLaidOut(s, utf8, inner, t, Chain(s[f.value.next..], FrontOf(utf8)).value);
    }
  }

  lemma LastIsLaidOut(s: seq<byte>, utf8: Conversion) returns (rs: seq<Record>, tail: seq<byte>)
    requires ParseFront(s, utf8).Ok? && ParseFront(s, utf8).value.next == 0 && |s| <= BUFFER_BYTES
    ensures LaidOut(s, rs, tail, [ParseFront(s, utf8).value.entry], utf8)
  {
    FrontBounds(s, utf8);
    var span := HEADER_BYTES + Get32(s, NAME_LENGTH_AT);
    FrontValid(s, span, utf8);
    rs, tail := [FrontRecord(s, span)], s[span..];
    assert s == s[..span] + s[span..];
  }

  lemma FrontIsLaidOut(s: seq<byte>, utf8: Conversion, inner: seq<Record>, t: seq<byte>, es: seq<NativeEntry>)
    returns (rs: seq<Record>, tail: seq<byte>)
    requires ParseFront(s, utf8).Ok? && |s| <= BUFFER_BYTES && 0 < ParseFront(s, utf8).value.next <= |s|
    requires LaidOut(s[ParseFront(s, utf8).value.next..], inner, t, es, utf8)
    ensures LaidOut(s, rs, tail, [ParseFront(s, utf8).value.entry] + es, utf8)
  {
    FrontBounds(s, utf8);
    var next := ParseFront(s, utf8).value.next;
    FrontValid(s, next, utf8);
    var r := FrontRecord(s, next);
    PrependRecord(r, inner, t, es, utf8);
    assert s == s[..next] + s[next..];
    rs, tail := [r] + inner, t;
  }

  /** The parser accepts a buffer with a given entry list iff the buffer lays out such a chain. */
  lemma PageRoundTrip(bytes: seq<byte>, utf8: Conversion, es: seq<NativeEntry>)
    ensures ParseSpec(bytes, utf8) == Ok(es) <==>
              |bytes| <= BUFFER_BYTES && exists rs: seq<Record>, tail: seq<byte> :: LaidOut(bytes, rs, tail, es, utf8)
  {
    if ParseSpec(bytes, utf8) == Ok(es) {
      var rs, tail := AcceptedIsLaidOut(bytes, utf8);
    }
    if |bytes| <= BUFFER_BYTES {
      forall rs: seq<Record>, tail: seq<byte> | LaidOut(bytes, rs, tail, es, utf8)
        ensures ParseSpec(bytes, utf8) == Ok(es)
      {
        LaidOutParses(rs, tail, utf8);
        PageNonempty(rs, utf8);
      }
    }
  }

  lemma PageNonempty(rs: seq<Record>, utf8: Conversion)
    requires Chainable(rs, utf8)
    ensures |Page(rs, utf8)| >= HEADER_BYTES
  {
    LayoutFields(rs[0], if |rs| == 1 then 0 else rs[0].Span(), [], utf8);
  }
}
