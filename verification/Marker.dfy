/**
 The protected P11 marker of remediation/round37/stage_a_fixture/src/contracts.cpp: a canonical JSON line
 that ties the P10 hash to the head of a fixture case.
 */
module Markers {
  import opened Wrappers
  import opened DecimalText
  import opened WriterResults
  import opened Snapshots

  /** Printable enough to be quoted. */
  predicate Quotable(s: string) {
    forall i :: 0 <= i < |s| ==> s[i] as int >= 0x20
  }

  predicate Special(c: char) {
    c == '"' || c == '\\'
  }

  function EscapedChar(c: char): string {
    if Special(c) then ['\\', c] else [c]
  }

  function Escaped(s: string): string {
    if s == "" then "" else EscapedChar(s[0]) + Escaped(s[1..])
  }

  function Quoted(s: string): string {
    "\"" + Escaped(s) + "\""
  }

  lemma {:induction false} EscapedSnoc(a: string, c: char)
    ensures Escaped(a + [c]) == Escaped(a) + EscapedChar(c)
  {
    if a == "" {
      assert a + [c] == [c] && [c][1..] == "";
    } else {
      EscapedSnoc(a[1..], c);
      assert (a + [c])[0] == a[0] && (a + [c])[1..] == a[1..] + [c];
    }
  }

  /** `quoted`; `None` stands for the exception at a control character. */
  method Quote(s: string) returns (r: Option<string>)
    ensures r.Some? <==> Quotable(s)
    ensures r.Some? ==> r.value == Quoted(s)
  {
    var out := "\"";
    for i := 0 to |s|
      invariant Quotable(s[..i]) && out == "\"" + Escaped(s[..i])
    {
      assert s[..i + 1] == s[..i] + [s[i]];
      EscapedSnoc(s[..i], s[i]);
      if Special(s[i]) {
        out := out + "\\";
      }
      if s[i] as int < 0x20 {
        return None;
      }
      out := out + [s[i]];
    }
    assert s[..|s|] == s;
    r := Some(out + "\"");
  }

  lemma CharHead(c: char, rest: string)
    ensures var u := EscapedChar(c) + rest;
            var k := if u[0] == '\\' then 2 else 1;
            u[0] != '"' && |u| >= k && c == u[k - 1] && rest == u[k..]
  {
  }

  lemma EscapedRest(a: string, x: string)
    requires a != ""
    ensures Escaped(a) + "\"" + x == EscapedChar(a[0]) + (Escaped(a[1..]) + "\"" + x)
  {
    var c, e, q := EscapedChar(a[0]), Escaped(a[1..]), "\"" + x;
    assert (c + e) + q == c + (e + q);
    assert Escaped(a) + "\"" + x == Escaped(a) + q;
    assert e + "\"" + x == e + q;
  }

  /** A quoted string can be read back, together with where it ends. */
  lemma {:induction false} EscapedUnambiguous(a: string, x: string, b: string, y: string)
    requires Escaped(a) + "\"" + x == Escaped(b) + "\"" + y
    ensures a == b && x == y
  {
    var u := Escaped(a) + "\"" + x;
    EndsOrGoesOn(a, x);
    EndsOrGoesOn(b, y);
    if a == "" {
      assert x == u[1..] && y == u[1..];
    } else {
      EscapedRest(a, x);
      EscapedRest(b, y);
      CharHead(a[0], Escaped(a[1..]) + "\"" + x);
      CharHead(b[0], Escaped(b[1..]) + "\"" + y);
      EscapedUnambiguous(a[1..], x, b[1..], y);
      assert a == [a[0]] + a[1..] && b == [b[0]] + b[1..];
    }
  }

  lemma EndsOrGoesOn(a: string, x: string)
    ensures a == "" <==> (Escaped(a) + "\"" + x)[0] == '"'
  {
    if a != "" {
      EscapedRest(a, x);
      CharHead(a[0], Escaped(a[1..]) + "\"" + x);
    }
  }

  lemma QuotedUnambiguous(a: string, x: string, b: string, y: string)
    requires Quoted(a) + x == Quoted(b) + y
    ensures a == b && x == y
  {
    assert Escaped(a) + "\"" + x == (Quoted(a) + x)[1..];
    assert Escaped(b) + "\"" + y == (Quoted(b) + y)[1..];
    EscapedUnambiguous(a, x, b, y);
  }

  const MARKER_HEAD := "{\"schema_version\":1,\"marker\":\"S1PF-260926-A-STAGE-A-V1\",\"p10_sha256\":"
  const CASE_ID := ",\"case_id\":"
  const LATEST_DIGEST := ",\"latest_digest\":"
  const GENERATION := ",\"generation\":"
  const WORKER_RUNS := ",\"worker_runs\":"
  const TERMINAL := ",\"terminal\":"

  function Flag(f: Fixture): string {
    if f.status == "FAILED" then "true" else "false"
  }

  function TailOf(f: Fixture): string {
    GENERATION + (Decimal(f.generation) + (WORKER_RUNS + (Decimal(f.workerRuns) + (TERMINAL + (Flag(f) + "}")))))
  }

  /** The rendered marker. */
  function Marker(f: Fixture, p10: string): string {
    MARKER_HEAD + (Quoted(p10) + (CASE_ID + (Quoted(f.id) + (LATEST_DIGEST + (Quoted(f.latestDigest) + TailOf(f))))))
  }

  predicate Renderable(f: Fixture, p10: string) {
    Hex64(p10) && Quotable(f.id) && Quotable(f.latestDigest)
  }

  lemma HexQuotable(s: string)
    requires Hex64(s)
    ensures Quotable(s)
  {
  }

  /** `render_p11`; `None` stands for an exception. */
  method RenderP11(f: Fixture, p10: string) returns (r: Option<string>)
    ensures r.Some? <==> Renderable(f, p10)
    ensures r.Some? ==> r.value == Marker(f, p10)
  {
    if !Hex64(p10) {
      return None;
    }
    HexQuotable(p10);
    var a := Quote(p10);
    var b := Quote(f.id);
    var c := Quote(f.latestDigest);
    if b.None? || c.None? {
      return None;
    }
    r := Some(MARKER_HEAD + (a.value + (CASE_ID + (b.value + (LATEST_DIGEST + (c.value + TailOf(f)))))));
  }

  lemma CutPrefix(p: string, x: string, y: string)
    requires p + x == p + y
    ensures x == y
  {
    assert x == (p + x)[|p|..] && y == (p + y)[|p|..];
  }

  /** A number followed by something that starts with a comma. */
  lemma {:induction false} DigitsUnambiguous(a: string, x: string, b: string, y: string)
    requires AllDigits(a) && AllDigits(b) && x != "" && y != "" && !IsDigit(x[0]) && !IsDigit(y[0]) && a + x == b + y
    ensures a == b && x == y
  {
    var u := a + x;
    assert a == "" <==> !IsDigit(u[0]);
    assert b == "" <==> !IsDigit(u[0]) by {
      assert u == b + y;
    }
    if a == "" {
      assert u == x && u == y;
    } else {
      assert u[1..] == a[1..] + x && u[1..] == b[1..] + y;
      DigitsUnambiguous(a[1..], x, b[1..], y);
      assert a == [a[0]] + a[1..] && b == [b[0]] + b[1..];
    }
  }

  lemma NumberUnambiguous(m: nat, x: string, n: nat, y: string)
    requires x != "" && y != "" && !IsDigit(x[0]) && !IsDigit(y[0]) && Decimal(m) + x == Decimal(n) + y
    ensures m == n && x == y
  {
    DecimalIsCanonical(m);
    DecimalIsCanonical(n);
    DigitsUnambiguous(Decimal(m), x, Decimal(n), y);
  }

  lemma TailUnambiguous(f: Fixture, g: Fixture)
    requires TailOf(f) == TailOf(g)
    ensures f.generation == g.generation && f.workerRuns == g.workerRuns && Flag(f) == Flag(g)
  {
    var fr, gr := TERMINAL + (Flag(f) + "}"), TERMINAL + (Flag(g) + "}");
    var fw, gw := WORKER_RUNS + (Decimal(f.workerRuns) + fr), WORKER_RUNS + (Decimal(g.workerRuns) + gr);
    CutPrefix(GENERATION, Decimal(f.generation) + fw, Decimal(g.generation) + gw);
    NumberUnambiguous(f.generation, fw, g.generation, gw);
    CutPrefix(WORKER_RUNS, Decimal(f.workerRuns) + fr, Decimal(g.workerRuns) + gr);
    NumberUnambiguous(f.workerRuns, fr, g.workerRuns, gr);
    CutPrefix(TERMINAL, Flag(f) + "}", Flag(g) + "}");
    assert Flag(f) == (Flag(f) + "}")[..|Flag(f) + "}"| - 1];
    assert Flag(g) == (Flag(g) + "}")[..|Flag(g) + "}"| - 1];
  }

  /** The marker determines the P10 hash and the whole head of the case. */
  lemma MarkerBinds(f: Fixture, p: string, g: Fixture, q: string)
    requires Marker(f, p) == Marker(g, q)
    ensures p == q && f.id == g.id && f.latestDigest == g.latestDigest
    ensures f.generation == g.generation && f.workerRuns == g.workerRuns && (f.status == "FAILED" <==> g.status == "FAILED")
  {
    var fl, gl := LATEST_DIGEST + (Quoted(f.latestDigest) + TailOf(f)), LATEST_DIGEST + (Quoted(g.latestDigest) + TailOf(g));
    var fc, gc := CASE_ID + (Quoted(f.id) + fl), CASE_ID + (Quoted(g.id) + gl);
    CutPrefix(MARKER_HEAD, Quoted(p) + fc, Quoted(q) + gc);
    QuotedUnambiguous(p, fc, q, gc);
    CutPrefix(CASE_ID, Quoted(f.id) + fl, Quoted(g.id) + gl);
    QuotedUnambiguous(f.id, fl, g.id, gl);
    CutPrefix(LATEST_DIGEST, Quoted(f.latestDigest) + TailOf(f), Quoted(g.latestDigest) + TailOf(g));
    QuotedUnambiguous(f.latestDigest, TailOf(f), g.latestDigest, TailOf(g));
    TailUnambiguous(f, g);
  }
}
