/** Quoted scalars: the accepted language, the inverse of decoding, and how quoting shields a mapping key. */
module QuotingTheorems {
  import opened Text
  import opened Quoting

  // ---- the accepted language (sections 7.3.1 and 7.3.2 of YAML 1.2.2, restricted to five escapes) ----

  predicate EscapeLetter(c: char) {
    c in {'"', '\\', 'n', 'r', 't'}
  }

  /** Bytes that are neither quote nor backslash, or one of the five escapes. */
  predicate DoubleBody(s: string) {
    s == "" ||
    (s[0] != '"' && s[0] != '\\' && DoubleBody(s[1..])) ||
    (|s| >= 2 && s[0] == '\\' && EscapeLetter(s[1]) && DoubleBody(s[2..]))
  }

  /** Bytes other than the single quote, or doubled single quotes. */
  predicate SingleBody(s: string) {
    s == "" ||
    (s[0] != '\'' && SingleBody(s[1..])) ||
    (|s| >= 2 && s[0] == '\'' && s[1] == '\'' && SingleBody(s[2..]))
  }

  predicate QuotedGrammar(raw: string) {
    |raw| >= 2 && raw[0] == raw[|raw| - 1] &&
    ((raw[0] == '"' && DoubleBody(raw[1..|raw| - 1])) || (raw[0] == '\'' && SingleBody(raw[1..|raw| - 1])))
  }

  /** Decoding succeeds from `i` on and every quote there is escaped by backward parity, exactly on the grammar. */
  lemma {:induction false} ParityMeetsDecoder(raw: string, i: nat)
    requires |raw| >= 2 && 1 <= i <= |raw| - 1 && !Escaped(raw, i)
    ensures DoubleBody(raw[i..|raw| - 1]) <==>
            DecodeDouble(raw[i..|raw| - 1]).Decoded? &&
            forall k | i <= k < |raw| - 1 && raw[k] == '"' :: Escaped(raw, k)
    decreases |raw| - i
  {
    var n := |raw| - 1;
    var s := raw[i..n];
    if i == n {
    } else if raw[i] == '"' {
      assert s[0] == '"';
    } else if raw[i] != '\\' {
      assert s[1..] == raw[i + 1..n];
      assert !Escaped(raw, i + 1);
      ParityMeetsDecoder(raw, i + 1);
    } else if i + 1 < n {
      assert s[1] == raw[i + 1] && s[2..] == raw[i + 2..n];
      assert Escaped(raw, i + 1) && !Escaped(raw, i + 2);
      ParityMeetsDecoder(raw, i + 2);
    }
  }

  lemma {:induction false} PairsMeetGrammar(raw: string, i: nat)
    requires |raw| >= 2 && 1 <= i <= |raw| - 1
    ensures SingleBody(raw[i..|raw| - 1]) <==> PairedFrom(raw, i)
    decreases |raw| - i
  {
    var n := |raw| - 1;
    var s := raw[i..n];
    if i < n && raw[i] != '\'' {
      assert s[1..] == raw[i + 1..n];
      PairsMeetGrammar(raw, i + 1);
    } else if i + 1 < n && raw[i + 1] == '\'' {
      assert s[1] == raw[i + 1] && s[2..] == raw[i + 2..n];
      PairsMeetGrammar(raw, i + 2);
    } else if i + 1 < n {
      assert s[1] == raw[i + 1];
    }
  }

  /** parseQuotedString accepts exactly the quoted grammar, passes on exactly the text with no quote at either end,
      and rejects the rest. */
  lemma ParseAcceptsGrammar(raw: string)
    ensures ParseQuotedString(raw).Quoted? <==> QuotedGrammar(raw)
    ensures ParseQuotedString(raw) == Bare(raw) <==>
            raw == "" || (raw[0] !in {'"', '\''} && raw[|raw| - 1] !in {'"', '\''})
    ensures ParseQuotedString(raw).Bare? ==> ParseQuotedString(raw) == Bare(raw)
  {
    if |raw| >= 2 {
      assert !Escaped(raw, 1) || raw[0] == '\\' by { assert BackslashesBefore(raw, 0) == 0; }
      if raw[0] == '"' {
        ParityMeetsDecoder(raw, 1);
      } else if raw[0] == '\'' {
        PairsMeetGrammar(raw, 1);
      }
    }
  }

  // ---- quoting and its inverse ----

  function EscapeByte(c: char): string {
    if c == '"' then "\\\"" else if c == '\\' then "\\\\"
    else if c == '\n' then "\\n" else if c == '\r' then "\\r" else if c == '\t' then "\\t"
    else [c]
  }

  function DoubleByte(c: char): string {
    if c == '\'' then "''" else [c]
  }

  /** Every byte replaced by what the style writes for it. */
  function Expand(s: string, byte: char -> string): string {
    if s == "" then "" else byte(s[0]) + Expand(s[1..], byte)
  }

  function Escape(s: string): string {
    Expand(s, EscapeByte)
  }

  function DoubleSingles(s: string): string {
    Expand(s, DoubleByte)
  }

  datatype Style = Double | Single

  function Quote(s: string, style: Style): (r: string)
    ensures |r| >= 2
  {
    if style == Double then "\"" + Escape(s) + "\"" else "'" + DoubleSingles(s) + "'"
  }

  lemma DecodeOneByte(c: char, rest: string)
    ensures DoubleBody(EscapeByte(c) + rest) <==> DoubleBody(rest)
    ensures DecodeDouble(EscapeByte(c) + rest) == Prepend([c], DecodeDouble(rest))
  {
    var e := EscapeByte(c) + rest;
    if |EscapeByte(c)| == 2 {
      assert e[0] == '\\' && e[2..] == rest;
    } else {
      assert e[0] == c && e[1..] == rest;
    }
  }

  lemma {:induction false} DecodeEscape(s: string)
    ensures DoubleBody(Escape(s)) && DecodeDouble(Escape(s)) == Decoded(s)
  {
    if s != "" {
      DecodeEscape(s[1..]);
      DecodeOneByte(s[0], Escape(s[1..]));
      assert s == [s[0]] + s[1..];
    }
  }

  lemma {:induction false} UndoubleDoubles(s: string)
    ensures SingleBody(DoubleSingles(s)) && Undouble(DoubleSingles(s)) == s
  {
    if s != "" {
      UndoubleDoubles(s[1..]);
      var d := DoubleSingles(s);
      if s[0] == '\'' {
        assert d[2..] == DoubleSingles(s[1..]);
      } else {
        assert d[1..] == DoubleSingles(s[1..]);
      }
      assert s == [s[0]] + s[1..];
    }
  }

  /** Decoding inverts quoting, for every string and in both styles. */
  lemma ParseInvertsQuote(s: string, style: Style)
    ensures ParseQuotedString(Quote(s, style)) == Quoted(s)
  {
    var raw := Quote(s, style);
    ParseAcceptsGrammar(raw);
    if style == Double {
      DecodeEscape(s);
      assert raw[1..|raw| - 1] == Escape(s);
    } else {
      UndoubleDoubles(s);
      assert raw[1..|raw| - 1] == DoubleSingles(s);
    }
  }

  // ---- quoting shields a key ----

  /** Inside the body of a quoted string the automaton is inside quotes at every byte but a single quote. */
  ghost predicate Shields(q: QuoteState, body: string) {
    && Scan(q, body) == q
    && forall i | 0 <= i < |body| && body[i] != '\'' :: !Outside(Scan(q, body[..i]))
  }

  lemma {:induction false} ShieldsConcat(q: QuoteState, a: string, b: string)
    requires Shields(q, a) && Shields(q, b)
    ensures Shields(q, a + b)
  {
    ScanConcat(q, a, b);
    forall i | 0 <= i < |a + b| && (a + b)[i] != '\'' ensures !Outside(Scan(q, (a + b)[..i])) {
      if i < |a| {
        assert (a + b)[..i] == a[..i];
      } else {
        assert (a + b)[..i] == a + b[..i - |a|];
        ScanConcat(q, a, b[..i - |a|]);
      }
    }
  }

  lemma ScanOne(q: QuoteState, c: char)
    ensures Scan(q, [c]) == Step(q, c)
  {
    assert [c][..0] == "";
  }

  lemma OneByteShields(q: QuoteState, c: char)
    requires !Outside(q) && Step(q, c) == q
    ensures Shields(q, [c])
  {
    assert [c][..0] == "";
  }

  lemma PairShields(q: QuoteState, c: char, d: char)
    requires !Outside(q) && Step(Step(q, c), d) == q
    requires d == '\'' || !Outside(Step(q, c))
    ensures Shields(q, [c, d])
  {
    assert [c, d] == [c] + [d] && [c, d][..0] == "" && [c, d][..1] == [c];
    ScanOne(q, c);
    ScanOne(Step(q, c), d);
    ScanConcat(q, [c], [d]);
  }

  lemma {:induction false} EscapeShields(s: string)
    ensures Shields(IN_DOUBLE, Escape(s))
  {
    if s != "" {
      EscapeShields(s[1..]);
      var e := EscapeByte(s[0]);
      if |e| == 2 {
        PairShields(IN_DOUBLE, e[0], e[1]);
        assert e == [e[0], e[1]];
      } else {
        OneByteShields(IN_DOUBLE, s[0]);
      }
      ShieldsConcat(IN_DOUBLE, e, Escape(s[1..]));
    }
  }

  lemma {:induction false} DoubleSinglesShields(s: string)
    ensures Shields(IN_SINGLE, DoubleSingles(s))
  {
    if s != "" {
      DoubleSinglesShields(s[1..]);
      if s[0] == '\'' {
        PairShields(IN_SINGLE, '\'', '\'');
        ShieldsConcat(IN_SINGLE, "''", DoubleSingles(s[1..]));
      } else {
        OneByteShields(IN_SINGLE, s[0]);
        ShieldsConcat(IN_SINGLE, [s[0]], DoubleSingles(s[1..]));
      }
    }
  }

  lemma MarkedBodyIsOpaque(q: QuoteState, mark: char, body: string)
    requires Step(PLAIN, mark) == q && Step(q, mark) == PLAIN && Shields(q, body)
    requires mark == '"' || mark == '\''
    ensures var raw := [mark] + body + [mark];
            && Scan(PLAIN, raw) == PLAIN
            && forall i | 0 <= i < |raw| && raw[i] in {':', '#'} :: !Outside(Scan(PLAIN, raw[..i]))
  {
    var raw := [mark] + body + [mark];
    ScanOne(PLAIN, mark);
    ScanOne(q, mark);
    ScanConcat(PLAIN, [mark], body);
    ScanConcat(PLAIN, [mark] + body, [mark]);
    forall i | 0 <= i < |raw| && raw[i] in {':', '#'} ensures !Outside(Scan(PLAIN, raw[..i])) {
      assert raw[..i] == [mark] + body[..i - 1];
      ScanConcat(PLAIN, [mark], body[..i - 1]);
    }
  }

  /** From outside quotes, a quoted string leads back outside, and no colon or hash in it is seen outside. */
  lemma QuoteIsOpaque(s: string, style: Style)
    ensures Scan(PLAIN, Quote(s, style)) == PLAIN
    ensures forall i | 0 <= i < |Quote(s, style)| && Quote(s, style)[i] in {':', '#'} ::
              !Outside(Scan(PLAIN, Quote(s, style)[..i]))
  {
    if style == Double {
      EscapeShields(s);
      MarkedBodyIsOpaque(IN_DOUBLE, '"', Escape(s));
      assert Quote(s, style) == ['"'] + Escape(s) + ['"'];
    } else {
      DoubleSinglesShields(s);
      MarkedBodyIsOpaque(IN_SINGLE, '\'', DoubleSingles(s));
      assert Quote(s, style) == ['\''] + DoubleSingles(s) + ['\''];
    }
  }

  lemma {:induction false} EscapedOnlyInDouble(s: string)
    ensures Scan(PLAIN, s).escaped ==> Scan(PLAIN, s).inDouble
    ensures Outside(Scan(PLAIN, s)) ==> Scan(PLAIN, s) == PLAIN
  {
    if s != "" {
      EscapedOnlyInDouble(s[..|s| - 1]);
    }
  }

  /** The two scanners agree where the value starts: behind the delimiter found by keyValueDelimiter, the automaton
      of hasUnsupportedInlineComment goes on exactly as in a fresh scan of the value. */
  lemma ValueScansAfresh(content: string, k: nat)
    requires KeyValueDelimiterOf(content).At?
    requires KeyValueDelimiterOf(content).index + 1 + k <= |content|
    ensures var i := KeyValueDelimiterOf(content).index;
            Scan(PLAIN, content[..i + 1 + k]) == Scan(PLAIN, content[i + 1..][..k])
  {
    var i := KeyValueDelimiterOf(content).index;
    EscapedOnlyInDouble(content[..i]);
    assert content[..i + 1] == content[..i] + ":";
    ScanConcat(PLAIN, content[..i], ":");
    ScanOne(PLAIN, ':');
    assert content[..i + 1 + k] == content[..i + 1] + content[i + 1..][..k];
    ScanConcat(PLAIN, content[..i + 1], content[i + 1..][..k]);
  }

  /** So a line has an inline comment exactly when its key part or its value has one. */
  lemma CommentIsInKeyOrValue(content: string)
    requires KeyValueDelimiterOf(content).At?
    ensures var i := KeyValueDelimiterOf(content).index;
            HasInlineComment(content) <==> HasInlineComment(content[..i]) || HasInlineComment(content[i + 1..])
  {
    var i := KeyValueDelimiterOf(content).index;
    var key, value := content[..i], content[i + 1..];
    forall k | 0 <= k < |key| ensures IsInlineComment(key, k) <==> IsInlineComment(content, k) {
      assert key[..k] == content[..k];
    }
    forall k | 0 <= k < |value| ensures IsInlineComment(value, k) <==> IsInlineComment(content, i + 1 + k) {
      ValueScansAfresh(content, k);
    }
    if HasInlineComment(content) {
      var k :| 0 <= k < |content| && IsInlineComment(content, k);
      if k < i {
        assert IsInlineComment(key, k);
      } else {
        assert IsInlineComment(value, k - (i + 1));
      }
    }
  }
}
