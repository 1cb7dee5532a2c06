/** The writer-result parser of remediation/round37/stage_a_fixture/src/contracts.cpp. */
module WriterResults {
  import opened Wrappers
  import opened DecimalText

  const MAX_ARTIFACT_BYTES: nat := 1048576
  const MAX_RESULT_BYTES: nat := 256
  const PREFIX := "{\"schema_version\":1,\"artifact_sha256\":\""
  const MIDDLE := "\",\"artifact_bytes\":"

  predicate Hex64(s: string) {
    |s| == 64 && forall i :: 0 <= i < 64 ==> '0' <= s[i] <= '9' || 'a' <= s[i] <= 'f'
  }

  datatype WriterResult = WriterResult(sha256: string, bytes: nat) {
    predicate Valid() { Hex64(sha256) && bytes <= MAX_ARTIFACT_BYTES }
  }

  /** `std::length_error` and `std::invalid_argument`. */
  datatype ParseError = Oversized | Malformed

  function Print(w: WriterResult): string {
    PREFIX + w.sha256 + MIDDLE + Decimal(w.bytes) + "}"
  }

  /** The unsigned guard of the accumulation loop is exactly the range test, without overflow. */
  lemma GuardExact(r: nat, d: nat)
    requires d <= 9
    ensures r <= (MAX_ARTIFACT_BYTES - d) / 10 <==> r * 10 + d <= MAX_ARTIFACT_BYTES
    ensures r <= (MAX_ARTIFACT_BYTES - d) / 10 ==> r * 10 + d < 0x1_0000_0000
  {
  }

  /** The part after the field name: a bounded canonical decimal and the closing brace, nothing else. */
  method ParseCount(text: string) returns (r: Option<nat>)
    ensures r.Some? ==> r.value <= MAX_ARTIFACT_BYTES && text == Decimal(r.value) + "}"
    ensures r.None? ==> forall n :: 0 <= n <= MAX_ARTIFACT_BYTES ==> text != Decimal(n) + "}"
  {
    if |text| < 2 || text[|text| - 1] != '}' || (text[0] == '0' && |text| != 2) {
      forall n | 0 <= n <= MAX_ARTIFACT_BYTES ensures text != Decimal(n) + "}" {
        DecimalIsCanonical(n);
      }
      return None;
    }
    var digits := text[..|text| - 1];
    assert text == digits + "}";
    var value: nat := 0;
    for i := 0 to |digits|
      invariant AllDigits(digits[..i]) && value == Value(digits[..i]) && value <= MAX_ARTIFACT_BYTES
    {
      var c := digits[i];
      if !IsDigit(c) || value > (MAX_ARTIFACT_BYTES - DigitValue(c)) / 10 {
        forall n | 0 <= n <= MAX_ARTIFACT_BYTES ensures text != Decimal(n) + "}" {
          if text == Decimal(n) + "}" {
            Rejected(digits, i, n);
          }
        }
        return None;
      }
      GuardExact(value, DigitValue(c));
      value := value * 10 + DigitValue(c);
      assert digits[..i + 1][..i] == digits[..i];
    }
    assert digits[..|digits|] == digits;
    CanonicalIsDecimal(digits);
    r := Some(value);
  }

  /** A rejected digit rules out every in-range number. */
  lemma Rejected(digits: string, i: nat, n: nat)
    requires i < |digits| && AllDigits(digits[..i])
    requires digits + "}" == Decimal(n) + "}" && n <= MAX_ARTIFACT_BYTES
    ensures IsDigit(digits[i]) && Value(digits[..i]) <= (MAX_ARTIFACT_BYTES - DigitValue(digits[i])) / 10
  {
    var d := Decimal(n);
    assert digits == (digits + "}")[..|digits|] && d == (d + "}")[..|d|] && |digits| == |d|;
    DecimalIsCanonical(n);
    ValueGrows(digits, i + 1);
    assert digits[..i + 1][..i] == digits[..i];
    GuardExact(Value(digits[..i]), DigitValue(digits[i]));
  }

  function Take(s: string, n: nat): string {
    if n <= |s| then s[..n] else s
  }

  lemma PrintParts(w: WriterResult)
    requires Hex64(w.sha256)
    ensures var p := Print(w);
            && |p| == |PREFIX| + 64 + |MIDDLE| + |Decimal(w.bytes)| + 1
            && Take(p, |PREFIX|) == PREFIX
            && p[|PREFIX|..][..64] == w.sha256
            && Take(p[|PREFIX| + 64..], |MIDDLE|) == MIDDLE
            && p[|PREFIX| + 64 + |MIDDLE|..] == Decimal(w.bytes) + "}"
            && |Decimal(w.bytes)| >= 1
            && (w.bytes <= MAX_ARTIFACT_BYTES ==> |p| <= MAX_RESULT_BYTES)
  {
    DecimalIsCanonical(w.bytes);
    if w.bytes <= MAX_ARTIFACT_BYTES {
      DecimalLength(w.bytes);
    }
    var p, d := Print(w), Decimal(w.bytes);
    assert p == PREFIX + (w.sha256 + (MIDDLE + (d + "}")));
    assert p[|PREFIX|..] == w.sha256 + (MIDDLE + (d + "}"));
    assert p[|PREFIX| + 64..] == MIDDLE + (d + "}");
  }

  /**
   Parser and printer are mutually inverse: the accepted strings are exactly the printed
   forms of (64 lowercase hex digits, n <= 1048576), each with its own value.
   */
  method ParseWriterResult(input: string) returns (r: Result<WriterResult, ParseError>)
    ensures r.Ok? ==> r.value.Valid() && input == Print(r.value)
    ensures forall w: WriterResult :: w.Valid() && input == Print(w) ==> r == Ok(w)
    ensures r == Err(Oversized) <==> |input| > MAX_RESULT_BYTES
  {
    forall w: WriterResult | w.Valid() && input == Print(w)
      ensures Accepted(input, w)
    {
      PrintParts(w);
    }
    if |input| > MAX_RESULT_BYTES {
      return Err(Oversized);
    }
    if Take(input, |PREFIX|) != PREFIX {
      return Err(Malformed);
    }
    var rest := input[|PREFIX|..];
    if |rest| < 64 + |MIDDLE| + 2 || !Hex64(rest[..64]) {
      return Err(Malformed);
    }
    var sha := rest[..64];
    rest := rest[64..];
    assert rest == input[|PREFIX| + 64..];
    if Take(rest, |MIDDLE|) != MIDDLE {
      return Err(Malformed);
    }
    rest := rest[|MIDDLE|..];
    assert rest == input[|PREFIX| + 64 + |MIDDLE|..];
    var n := ParseCount(rest);
    if n.None? {
      return Err(Malformed);
    }
    r := Ok(WriterResult(sha, n.value));
    assert input == PREFIX + sha + MIDDLE + rest;
    assert input == Print(r.value);
    forall w: WriterResult | w.Valid() && input == Print(w)
      ensures w == r.value
    {
      assert Accepted(input, w);
      DecimalInjective(w.bytes, n.value);
    }
  }

  ghost predicate Accepted(input: string, w: WriterResult) {
    && |PREFIX| + 64 + |MIDDLE| + 2 <= |input| <= MAX_RESULT_BYTES
    && Take(input, |PREFIX|) == PREFIX
    && input[|PREFIX|..][..64] == w.sha256
    && Take(input[|PREFIX| + 64..], |MIDDLE|) == MIDDLE
    && input[|PREFIX| + 64 + |MIDDLE|..] == Decimal(w.bytes) + "}"
  }

  lemma DecimalInjective(m: nat, n: nat)
    requires Decimal(m) + "}" == Decimal(n) + "}"
    ensures m == n
  {
    DecimalIsCanonical(m);
    DecimalIsCanonical(n);
    var a, b := Decimal(m), Decimal(n);
    assert |a + "}"| == |b + "}"|;
    assert a == (a + "}")[..|a|] && b == (b + "}")[..|b|];
  }

  /** No two valid results print alike. */
  lemma PrintInjective(v: WriterResult, w: WriterResult)
    requires v.Valid() && w.Valid() && Print(v) == Print(w)
    ensures v == w
  {
    PrintParts(v);
    PrintParts(w);
    DecimalInjective(v.bytes, w.bytes);
  }
}
