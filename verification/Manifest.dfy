/**
 The canonical mutable-set manifest of remediation/round37/stage_a_fixture/src/contracts.cpp.
 A `std::map` is modelled as a map together with its iteration order; the hash is a parameter
 of which only the fixed output length is used.
 */
module Manifests {
  import opened Wrappers
  import opened DecimalText

  type Hash = string -> string

  /** The hash provider: the digest of each input, and whether the provider delivers it or throws. */
  datatype Provider = Provider(digest: Hash, delivers: string -> bool)

  ghost predicate FixedLength(h: Hash) {
    forall b :: |h(b)| == 64
  }

  const HEADING := "S1PF-MUTABLE-SET-V1\n"

  predicate ForbiddenChar(c: char) {
    c == '/' || c == '\\' || c == '\r' || c == '\n' || c == '\t'
  }

  predicate ValidName(name: string) {
    name != "" && name != "." && name != ".." && forall i :: 0 <= i < |name| ==> !ForbiddenChar(name[i])
  }

  function Line(h: Hash, name: string, bytes: string): string {
    name + "\tregular\t" + Decimal(|bytes|) + "\t" + h(bytes) + "\n"
  }

  function Body(h: Hash, files: map<string, string>, order: seq<string>): string
    requires forall n :: n in order ==> n in files
  {
    if order == [] then "" else Line(h, order[0], files[order[0]]) + Body(h, files, order[1..])
  }

  function Manifest(h: Hash, files: map<string, string>, order: seq<string>): string
    requires forall n :: n in order ==> n in files
  {
    HEADING + Body(h, files, order)
  }

  // ---------- Iteration order ----------

  predicate Less(a: string, b: string) {
    b != "" && (a == "" || a[0] < b[0] || (a[0] == b[0] && Less(a[1..], b[1..])))
  }

  lemma {:induction false} LessIrreflexive(a: string)
    ensures !Less(a, a)
  {
    if a != "" {
      LessIrreflexive(a[1..]);
    }
  }

  lemma {:induction false} LessTransitive(a: string, b: string, c: string)
    requires Less(a, b) && Less(b, c)
    ensures Less(a, c)
  {
    if a != "" && a[0] == b[0] == c[0] {
      LessTransitive(a[1..], b[1..], c[1..]);
    }
  }

  lemma {:induction false} LessTotal(a: string, b: string)
    ensures a == b || Less(a, b) || Less(b, a)
  {
    if a != "" && b != "" && a[0] == b[0] {
      LessTotal(a[1..], b[1..]);
      assert a == [a[0]] + a[1..] && b == [b[0]] + b[1..];
    }
  }

  /** The strictly increasing listing of the keys. */
  ghost predicate Listing(files: map<string, string>, order: seq<string>) {
    && (forall n :: n in order ==> n in files)
    && (forall n :: n in files ==> n in order)
    && Increasing(order)
  }

  ghost predicate Increasing(order: seq<string>) {
    forall i, j :: 0 <= i < j < |order| ==> Less(order[i], order[j])
  }

  lemma IncreasingHead(a: seq<string>, x: string)
    requires Increasing(a) && a != [] && x in a
    ensures x == a[0] || Less(a[0], x)
  {
  }

  lemma IncreasingTail(a: seq<string>)
    requires Increasing(a) && a != []
    ensures Increasing(a[1..]) && a[0] !in a[1..]
  {
    LessIrreflexive(a[0]);
  }

  /** Two increasing listings of the same names are the same sequence. */
  lemma {:induction false} ListingUnique(a: seq<string>, b: seq<string>)
    requires Increasing(a) && Increasing(b)
    requires forall n :: n in a <==> n in b
    ensures a == b
  {
    assert b != [] ==> b[0] in b;
    if a != [] {
      assert a[0] in a && a[0] in b;
      assert b[0] in b && b[0] in a;
      IncreasingHead(a, b[0]);
      IncreasingHead(b, a[0]);
      if a[0] != b[0] {
        LessTransitive(a[0], b[0], a[0]);
        LessIrreflexive(a[0]);
      }
      IncreasingTail(a);
      IncreasingTail(b);
      forall n ensures n in a[1..] <==> n in b[1..] {
        assert n in a <==> n == a[0] || n in a[1..];
        assert n in b <==> n == b[0] || n in b[1..];
      }
      ListingUnique(a[1..], b[1..]);
    }
  }

  // ---------- The digest ----------

  /** The names are valid and the provider delivers every hash that goes into the digest. */
  ghost predicate Digestible(p: Provider, files: map<string, string>, order: seq<string>)
    requires Listing(files, order)
  {
    (forall n :: n in files ==> ValidName(n) && p.delivers(files[n])) && p.delivers(Manifest(p.digest, files, order))
  }

  /** `mutable_digest`; `None` stands for an exception. */
  method MutableDigest(p: Provider, files: map<string, string>, order: seq<string>) returns (r: Option<string>)
    requires Listing(files, order)
    ensures r.Some? <==> Digestible(p, files, order)
    ensures r.Some? ==> r.value == p.digest(Manifest(p.digest, files, order))
  {
    var h, manifest := p.digest, HEADING;
    for i := 0 to |order|
      invariant forall j :: 0 <= j < i ==> ValidName(order[j]) && p.delivers(files[order[j]])
      invariant manifest + Body(h, files, order[i..]) == Manifest(h, files, order)
    {
      if !ValidName(order[i]) || !p.delivers(files[order[i]]) {
        return None;
      }
      BodyStep(h, files, order, i, manifest);
      manifest := manifest + Line(h, order[i], files[order[i]]);
    }
    assert order[|order|..] == [];
    assert manifest + "" == manifest;
    r := if p.delivers(manifest) then Some(h(manifest)) else None;
  }

  lemma BodyStep(h: Hash, files: map<string, string>, order: seq<string>, i: nat, done: string)
    requires i < |order| && forall n :: n in order ==> n in files
    ensures done + Body(h, files, order[i..]) == done + Line(h, order[i], files[order[i]]) + Body(h, files, order[i + 1..])
  {
    assert order[i..][0] == order[i] && order[i..][1..] == order[i + 1..];
  }

  // ---------- Unambiguity ----------

  predicate NoTab(s: string) {
    forall i :: 0 <= i < |s| ==> s[i] != '\t'
  }

  lemma SplitAtTab(a: string, x: string, b: string, y: string)
    requires NoTab(a) && NoTab(b) && a + "\t" + x == b + "\t" + y
    ensures a == b && x == y
  {
    var s, t := a + "\t" + x, b + "\t" + y;
    assert s[|a|] == '\t' && t[|b|] == '\t';
    assert a == s[..|a|] && b == t[..|b|];
    assert x == s[|a| + 1..] && y == t[|b| + 1..];
  }

  /** A manifest line can be read back: name, length and hash, and where it ends. */
  lemma LineUnambiguous(h: Hash, m: string, b: string, rest: string, n: string, c: string, rest': string)
    requires FixedLength(h) && ValidName(m) && ValidName(n)
    requires Line(h, m, b) + rest == Line(h, n, c) + rest'
    ensures m == n && |b| == |c| && h(b) == h(c) && rest == rest'
  {
    LineShape(h, m, b, rest);
    LineShape(h, n, c, rest');
    var u, v := RecordTail(h, b, rest), RecordTail(h, c, rest');
    SplitAtTab(m, REGULAR + u, n, REGULAR + v);
    assert u == (REGULAR + u)[|REGULAR|..] && v == (REGULAR + v)[|REGULAR|..];
    RecordTailUnambiguous(h, b, rest, c, rest');
  }

  const REGULAR := "regular\t"

  lemma LineShape(h: Hash, name: string, bytes: string, rest: string)
    ensures Line(h, name, bytes) + rest == name + "\t" + (REGULAR + RecordTail(h, bytes, rest))
  {
    var d := Decimal(|bytes|);
    assert "\tregular\t" == "\t" + REGULAR;
    assert Line(h, name, bytes) == name + "\t" + (REGULAR + (d + "\t" + (h(bytes) + "\n")));
  }

  function RecordTail(h: Hash, bytes: string, rest: string): string {
    Decimal(|bytes|) + "\t" + (h(bytes) + "\n" + rest)
  }

  lemma RecordTailUnambiguous(h: Hash, b: string, rest: string, c: string, rest': string)
    requires FixedLength(h) && RecordTail(h, b, rest) == RecordTail(h, c, rest')
    ensures |b| == |c| && h(b) == h(c) && rest == rest'
  {
    var x, y := h(b) + "\n" + rest, h(c) + "\n" + rest';
    DecimalIsCanonical(|b|);
    DecimalIsCanonical(|c|);
    SplitAtTab(Decimal(|b|), x, Decimal(|c|), y);
    assert h(b) == x[..64] && h(c) == y[..64];
    assert rest == x[65..] && rest' == y[65..];
  }

  /** What a manifest records of a file. */
  ghost predicate SameRecord(h: Hash, f: map<string, string>, g: map<string, string>, n: string)
    requires n in f && n in g
  {
    |f[n]| == |g[n]| && h(f[n]) == h(g[n])
  }

  lemma {:induction false} BodyUnambiguous(h: Hash, f: map<string, string>, a: seq<string>, g: map<string, string>, b: seq<string>)
    requires FixedLength(h)
    requires forall n :: n in a ==> n in f && ValidName(n)
    requires forall n :: n in b ==> n in g && ValidName(n)
    requires Body(h, f, a) == Body(h, g, b)
    ensures a == b && forall n :: n in a ==> SameRecord(h, f, g, n)
  {
    if a != [] && b != [] {
      LineUnambiguous(h, a[0], f[a[0]], Body(h, f, a[1..]), b[0], g[b[0]], Body(h, g, b[1..]));
      BodyUnambiguous(h, f, a[1..], g, b[1..]);
      assert a == [a[0]] + a[1..] && b == [b[0]] + b[1..];
    }
  }

  lemma {:induction false} BodyDetermined(h: Hash, f: map<string, string>, g: map<string, string>, order: seq<string>)
    requires forall n :: n in order ==> n in f && n in g && SameRecord(h, f, g, n)
    ensures Body(h, f, order) == Body(h, g, order)
  {
    if order != [] {
      assert order[0] in order;
      BodyDetermined(h, f, g, order[1..]);
    }
  }

  ghost predicate SameSummary(h: Hash, f: map<string, string>, g: map<string, string>) {
    f.Keys == g.Keys && forall n :: n in f ==> SameRecord(h, f, g, n)
  }

  /** Two valid file sets have the same manifest iff they have the same names, lengths and content hashes. */
  lemma ManifestUnambiguous(h: Hash, f: map<string, string>, a: seq<string>, g: map<string, string>, b: seq<string>)
    requires FixedLength(h) && Listing(f, a) && Listing(g, b)
    requires forall n :: n in f ==> ValidName(n)
    requires forall n :: n in g ==> ValidName(n)
    ensures Manifest(h, f, a) == Manifest(h, g, b) <==> SameSummary(h, f, g)
  {
    if Manifest(h, f, a) == Manifest(h, g, b) {
      assert Body(h, f, a) == Manifest(h, f, a)[|HEADING|..];
      assert Body(h, g, b) == Manifest(h, g, b)[|HEADING|..];
      BodyUnambiguous(h, f, a, g, b);
      assert forall n :: n in f <==> n in g;
    }
    if SameSummary(h, f, g) {
      forall n ensures n in a <==> n in b {
        assert n in f <==> n in g;
      }
      ListingUnique(a, b);
      BodyDetermined(h, f, g, a);
    }
  }

  /** Neither the two manifests nor any two contents of the same name collide under the hash. */
  ghost predicate NoCollision(h: Hash, f: map<string, string>, a: seq<string>, g: map<string, string>, b: seq<string>)
    requires Listing(f, a) && Listing(g, b)
  {
    && (Manifest(h, f, a) != Manifest(h, g, b) ==> h(Manifest(h, f, a)) != h(Manifest(h, g, b)))
    && forall n :: n in f && n in g && f[n] != g[n] ==> h(f[n]) != h(g[n])
  }

  /**
   Digests of two valid file sets differ iff their summaries differ, unless these very manifests
   collide; and a digest binds the contents themselves iff equal digests involve no collision at all.
   */
  lemma DigestBinds(h: Hash, f: map<string, string>, a: seq<string>, g: map<string, string>, b: seq<string>)
    requires FixedLength(h) && Listing(f, a) && Listing(g, b)
    requires forall n :: n in f ==> ValidName(n)
    requires forall n :: n in g ==> ValidName(n)
    ensures h(Manifest(h, f, a)) == h(Manifest(h, g, b)) <==>
              SameSummary(h, f, g) || (Manifest(h, f, a) != Manifest(h, g, b) && h(Manifest(h, f, a)) == h(Manifest(h, g, b)))
    ensures h(Manifest(h, f, a)) == h(Manifest(h, g, b)) ==> (f == g <==> NoCollision(h, f, a, g, b))
  {
    ManifestUnambiguous(h, f, a, g, b);
    if h(Manifest(h, f, a)) == h(Manifest(h, g, b)) && NoCollision(h, f, a, g, b) {
      assert SameSummary(h, f, g);
      forall n | n in f ensures n in g && f[n] == g[n] {
        assert n in f.Keys && n in g.Keys && SameRecord(h, f, g, n);
      }
    }
    if f == g {
      assert SameSummary(h, f, g);
    }
  }
}
