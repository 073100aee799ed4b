/** Evidence truncation in the reporter. */
module Truncation {
  import opened Utf8

  const TRUNCATE_SUFFIX := "\n...[truncated]"

  /** The cut the range loop reaches from byte `index`, with `cut` the last one it accepted. */
  function CutFrom(value: string, limit: int, index: nat, cut: int): int
    decreases |value| - index
  {
    if index >= |value| then cut
    else
      var size := RuneLen(value[index..]);
      if index + size > limit then cut
      else CutFrom(value, limit, index + RangeStep(value[index..]), index + size)
  }

  function TruncatedUTF8(value: string, limit: int): string {
    if limit <= 0 || value == "" then ""
    else if |value| <= limit then value
    else
      CutIsWithin(value, limit, 0, 0);
      value[..CutFrom(value, limit, 0, 0)]
  }

  function TruncatedEvidenceRaw(raw: string, limit: int): (string, bool) {
    if limit <= 0 || |raw| <= limit then (raw, false)
    else if |TRUNCATE_SUFFIX| >= limit then (TruncatedUTF8(raw, limit), true)
    else (TruncatedUTF8(raw, limit - |TRUNCATE_SUFFIX|) + TRUNCATE_SUFFIX, true)
  }

  method TruncateUTF8(value: string, limit: int) returns (r: string)
    ensures r == TruncatedUTF8(value, limit)
  {
    if limit <= 0 || value == "" { return ""; }
    if |value| <= limit { return value; }
    var cut := 0;
    var index := 0;
    while index < |value|
      invariant 0 <= index && CutFrom(value, limit, index, cut) == CutFrom(value, limit, 0, 0)
    {
      var size := RuneLen(value[index..]);
      if index + size > limit { break; }
      cut := index + size;
      index := index + RangeStep(value[index..]);
    }
    CutIsWithin(value, limit, 0, 0);
    return value[..cut];
  }

  /** Even on ill-formed bytes the cut stays inside the limit. */
  lemma {:induction false} CutIsWithin(value: string, limit: int, index: nat, cut: int)
    requires 0 <= cut <= limit
    ensures 0 <= CutFrom(value, limit, index, cut) <= limit
    decreases |value| - index
  {
    if index < |value| && index + RuneLen(value[index..]) <= limit {
      CutIsWithin(value, limit, index + RangeStep(value[index..]), index + RuneLen(value[index..]));
    }
  }

  /** From a character boundary of valid text the loop ends on the last boundary within the limit. */
  lemma {:induction false} CutIsLastBoundary(value: string, limit: int, index: nat, k: nat)
    requires index <= k <= |value| && index <= limit && Valid(value[index..])
    ensures var cut := CutFrom(value, limit, index, index);
            && index <= cut <= |value| && cut <= limit
            && Valid(value[index..cut])
            && (Valid(value[index..k]) && k <= limit ==> k <= cut)
    decreases |value| - index
  {
    hide CharLength;
    var rest := value[index..];
    if index < |value| && index + CharLength(rest) <= limit {
      var next := index + CharLength(rest);
      assert rest[CharLength(rest)..] == value[next..];
      var cut := CutFrom(value, limit, next, next);
      CutIsLastBoundary(value, limit, next, if next <= k then k else next);
      CharLengthSuffix(value, index, cut, next);
      if index < k && Valid(value[index..k]) {
        assert value[index..k] <= rest;
        CharLengthIsLocal(value[index..k], rest);
        assert value[index..k][CharLength(rest)..] == value[next..k];
      }
    } else {
      assert value[index..index] == "";
      if index < k && Valid(value[index..k]) {
        assert value[index..k] <= rest;
        CharLengthIsLocal(value[index..k], rest);
      }
    }
  }

  lemma CharLengthSuffix(value: string, index: nat, cut: nat, next: nat)
    requires index < next <= cut <= |value| && next == index + CharLength(value[index..])
    requires Valid(value[next..cut])
    ensures Valid(value[index..cut])
  {
    var piece := value[index..cut];
    CharLengthStays(value[index..], cut - index);
    assert value[index..][..cut - index] == piece;
    assert piece[CharLength(piece)..] == value[next..cut];
  }

  /** On valid UTF-8, TruncatedUTF8 is the longest valid prefix of at most `limit` bytes. */
  lemma TruncatedIsLongestValidPrefix(value: string, limit: int, k: nat)
    requires Valid(value)
    ensures var r := TruncatedUTF8(value, limit);
            && r <= value && Valid(r) && |r| <= (if limit < 0 then 0 else limit)
            && (k <= |value| && k <= limit && Valid(value[..k]) ==> k <= |r|)
  {
    if 0 < limit < |value| && k <= |value| {
      assert value[0..] == value;
      CutIsLastBoundary(value, limit, 0, k);
      assert value[0..k] == value[..k];
    } else if 0 < limit < |value| {
      assert value[0..] == value;
      CutIsLastBoundary(value, limit, 0, 0);
    }
  }

  /** Any bytes: a positive limit is respected and the flag says exactly whether something was cut. */
  lemma TruncationRespectsLimit(raw: string, limit: int)
    requires limit > 0
    ensures var (r, truncated) := TruncatedEvidenceRaw(raw, limit);
            && |r| <= limit
            && (truncated <==> |raw| > limit)
            && (!truncated ==> r == raw)
  {
    CutIsWithin(raw, limit, 0, 0);
    CutIsWithin(raw, if limit > |TRUNCATE_SUFFIX| then limit - |TRUNCATE_SUFFIX| else 0, 0, 0);
  }

  /** What is shown of cut evidence: a beginning of it and, when the limit has room, the mark. */
  lemma TruncationShowsABeginning(raw: string, limit: int) returns (cut: nat)
    requires 0 < limit < |raw|
    ensures cut <= limit && cut <= |raw|
    ensures TruncatedEvidenceRaw(raw, limit) ==
            (raw[..cut] + (if limit > |"\n...[truncated]"| then "\n...[truncated]" else ""), true)
  {
    var visible := if limit > |TRUNCATE_SUFFIX| then limit - |TRUNCATE_SUFFIX| else limit;
    CutIsWithin(raw, visible, 0, 0);
    cut := CutFrom(raw, visible, 0, 0);
    assert TruncatedUTF8(raw, visible) == raw[..cut];
    assert raw[..cut] + "" == raw[..cut];
  }

  lemma TruncationKeepsValidity(raw: string, limit: int)
    requires Valid(raw)
    ensures Valid(TruncatedEvidenceRaw(raw, limit).0)
  {
    hide TruncatedUTF8, Valid;
    TruncatedIsLongestValidPrefix(raw, limit, 0);
    TruncatedIsLongestValidPrefix(raw, limit - |TRUNCATE_SUFFIX|, 0);
    AsciiIsValid(TRUNCATE_SUFFIX);
    ValidConcat(TruncatedUTF8(raw, limit - |TRUNCATE_SUFFIX|), TRUNCATE_SUFFIX);
  }

  // ---- ill-formed input ----

  /** Where the first byte stands at which no well-formed character starts; the length when there is none. */
  function FirstIllFormed(s: string): (e: nat)
    ensures e <= |s|
    decreases |s|
  {
    if CharLength(s) == 0 then 0 else CharLength(s) + FirstIllFormed(s[CharLength(s)..])
  }

  lemma {:induction false} ValidUpToFirstIllFormed(s: string)
    ensures Valid(s[..FirstIllFormed(s)])
    ensures Valid(s) <==> FirstIllFormed(s) == |s|
    ensures FirstIllFormed(s) < |s| ==> CharLength(s[FirstIllFormed(s)..]) == 0
    decreases |s|
  {
    var n := CharLength(s);
    if n > 0 {
      var rest := s[n..];
      ValidUpToFirstIllFormed(rest);
      var e := FirstIllFormed(rest);
      CharLengthStays(s, n + e);
      assert s[..n + e][n..] == rest[..e];
      assert s[n + e..] == rest[e..];
    } else {
      assert s[..0] == "";
      assert s[0..] == s;
    }
  }

  /** A prefix that ends behind an ill-formed byte is ill-formed. */
  lemma PrefixBeyondIsIllFormed(s: string, cut: nat)
    requires FirstIllFormed(s) < cut <= |s|
    ensures !Valid(s[..cut])
  {
    hide CharLength, FirstIllFormed;
    var e := FirstIllFormed(s);
    ValidUpToFirstIllFormed(s);
    if Valid(s[..cut]) {
      var prefix, rest := s[..cut], s[..cut][e..];
      assert prefix[..e] == s[..e];
      ValidRest(prefix, e);
      assert rest != "" && rest <= s[e..];
      CharLengthIsLocal(rest, s[e..]);
    }
  }

  /** From a bad byte that is let in, the cut stays behind it. */
  lemma {:induction false} CutStaysBehind(value: string, limit: int, index: nat, cut: int, e: int)
    requires e < cut && e < index
    ensures e < CutFrom(value, limit, index, cut)
    decreases |value| - index
  {
    if index < |value| && index + RuneLen(value[index..]) <= limit {
      CutStaysBehind(value, limit, index + RangeStep(value[index..]), index + RuneLen(value[index..]), e);
    }
  }

  /** From a boundary at or before the first ill-formed byte, the cut passes that byte exactly when the three bytes
      counted for it fit; otherwise what was taken is well formed. */
  lemma {:induction false} CutAtIllFormed(value: string, limit: int, index: nat)
    requires index <= |value| && index <= limit < |value|
    ensures var e, cut := index + FirstIllFormed(value[index..]), CutFrom(value, limit, index, index);
            && (e < |value| && e + 3 <= limit ==> e < cut)
            && (e == |value| || e + 3 > limit ==> index <= cut <= e && Valid(value[index..cut]))
    decreases |value| - index
  {
    hide CharLength, Valid;
    var rest := value[index..];
    var n := CharLength(rest);
    ValidUpToFirstIllFormed("");
    if index < |value| && n > 0 && index + n <= limit {
      var next := index + n;
      assert rest[n..] == value[next..];
      CutAtIllFormed(value, limit, next);
      var e, cut := next + FirstIllFormed(value[next..]), CutFrom(value, limit, next, next);
      assert e == index + FirstIllFormed(rest);
      if e == |value| || e + 3 > limit {
        CharLengthSuffix(value, index, cut, next);
      }
    } else {
      assert value[index..index] == "";
      if n == 0 && index + 3 <= limit {
        CutStaysBehind(value, limit, index + 1, index + 3, index);
      }
    }
  }

  /** How much of the evidence is kept when it is cut. */
  function VisibleLimit(limit: int): int {
    if |TRUNCATE_SUFFIX| >= limit then limit else limit - |TRUNCATE_SUFFIX|
  }

  lemma CutEvidenceIsValidIff(raw: string, limit: int)
    requires 0 < limit < |raw|
    ensures Valid(TruncatedEvidenceRaw(raw, limit).0) <==> Valid(TruncatedUTF8(raw, VisibleLimit(limit)))
  {
    hide TruncatedUTF8, Valid;
    if |TRUNCATE_SUFFIX| < limit {
      var kept := TruncatedUTF8(raw, VisibleLimit(limit));
      AsciiIsValid(TRUNCATE_SUFFIX[1..]);
      assert kept + TRUNCATE_SUFFIX == kept + ['\n'] + TRUNCATE_SUFFIX[1..];
      AsciiSeparates(kept, '\n', TRUNCATE_SUFFIX[1..]);
    }
  }

  /** Whether one call keeps evidence valid: it is well formed throughout, or it is cut and the first byte where it is
      not, counted as three bytes, no longer fits. */
  lemma TruncatedEvidenceIsValidIff(raw: string, limit: int)
    requires limit > 0
    ensures var e := FirstIllFormed(raw);
            Valid(TruncatedEvidenceRaw(raw, limit).0) <==>
            e == |raw| || (|raw| > limit && e + 3 > VisibleLimit(limit))
  {
    hide CharLength;
    var e, v := FirstIllFormed(raw), VisibleLimit(limit);
    ValidUpToFirstIllFormed(raw);
    if |raw| > limit {
      assert raw[0..] == raw;
      CutEvidenceIsValidIff(raw, limit);
      CutIsWithin(raw, v, 0, 0);
      CutAtIllFormed(raw, v, 0);
      var cut := CutFrom(raw, v, 0, 0);
      assert TruncatedUTF8(raw, v) == raw[..cut] == raw[0..cut];
      if e < cut { PrefixBeyondIsIllFormed(raw, cut); }
    }
  }

  // ---- the default limit ----

  const DEFAULT_EVIDENCE_RAW_LIMIT := 4096

  function Repeat(c: char, n: nat): string {
    seq(n, i => c)
  }

  lemma {:induction false} AsciiRunIsTaken(c: char, n: nat, rest: string, limit: int, index: nat)
    requires Ascii(c) && index <= n <= limit
    ensures var value := Repeat(c, n) + rest; CutFrom(value, limit, index, index) == CutFrom(value, limit, n, n)
    decreases n - index
  {
    if index < n {
      assert (Repeat(c, n) + rest)[index..][0] == c;
      AsciiRunIsTaken(c, n, rest, limit, index + 1);
    }
  }

  lemma {:induction false} IllFormedAfterAscii(c: char, n: nat, rest: string)
    requires Ascii(c)
    ensures FirstIllFormed(Repeat(c, n) + rest) == n + FirstIllFormed(rest)
    decreases n
  {
    var s := Repeat(c, n) + rest;
    if n > 0 {
      assert s[1..] == Repeat(c, n - 1) + rest;
      IllFormedAfterAscii(c, n - 1, rest);
    } else {
      assert s == rest;
    }
  }

  /** One byte FF and then a euro sign, with text around them: at the default limit the cut falls inside the euro
      sign, because the bad byte counts three for the one it is. */
  const SPLIT_EVIDENCE := Repeat('a', 4078) + (['\U{FF}', '\U{E2}', '\U{82}', '\U{AC}'] + Repeat('a', 15))

  lemma DefaultLimitCanSplit()
    ensures !Valid(TruncatedEvidenceRaw(SPLIT_EVIDENCE, DEFAULT_EVIDENCE_RAW_LIMIT).0)
    ensures TruncatedEvidenceRaw(SPLIT_EVIDENCE, DEFAULT_EVIDENCE_RAW_LIMIT).0 ==
            Repeat('a', 4078) + ['\U{FF}', '\U{E2}', '\U{82}'] + TRUNCATE_SUFFIX
  {
    hide Repeat;
    var raw, bad := SPLIT_EVIDENCE, ['\U{FF}', '\U{E2}', '\U{82}', '\U{AC}'] + Repeat('a', 15);
    RepeatLength('a', 4078);
    RepeatLength('a', 15);
    IllFormedAfterAscii('a', 4078, bad);
    assert FirstIllFormed(bad) == 0;
    TruncatedEvidenceIsValidIff(raw, DEFAULT_EVIDENCE_RAW_LIMIT);
    AsciiRunIsTaken('a', 4078, bad, 4081, 0);
    assert raw[4078..] == bad && raw[4079..] == bad[1..];
    assert CharLength(bad) == 0 && CharLength(bad[1..]) == 3;
    assert CutFrom(raw, 4081, 4079, 4081) == 4081;
    assert CutFrom(raw, 4081, 4078, 4078) == 4081;
    assert raw[..4081] == Repeat('a', 4078) + ['\U{FF}', '\U{E2}', '\U{82}'];
  }

  lemma RepeatLength(c: char, n: nat)
    ensures |Repeat(c, n)| == n
  {
  }
}
