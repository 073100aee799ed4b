/** Quoted scalars of the contract format: the quote automaton both line scanners step, the validator, the decoder
    and the canonical quoting they undo. */
module Quoting {
  import opened Text

  // ---- the automaton ----

  datatype QuoteState = QuoteState(inSingle: bool, inDouble: bool, escaped: bool)

  const PLAIN := QuoteState(false, false, false)
  const IN_DOUBLE := QuoteState(false, true, false)
  const IN_SINGLE := QuoteState(true, false, false)

  function Step(q: QuoteState, ch: char): QuoteState {
    if ch == '\\' then q.(escaped := q.inDouble && !q.escaped)
    else if ch == '\'' then q.(inSingle := if q.inDouble then q.inSingle else !q.inSingle, escaped := false)
    else if ch == '"' && !q.inSingle && !q.escaped then q.(inDouble := !q.inDouble)
    else q.(escaped := false)
  }

  /** The state after reading all of `s`. */
  function Scan(q: QuoteState, s: string): QuoteState {
    if s == "" then q else Step(Scan(q, s[..|s| - 1]), s[|s| - 1])
  }

  predicate Outside(q: QuoteState) {
    !q.inSingle && !q.inDouble
  }

  lemma {:induction false} ScanConcat(q: QuoteState, a: string, b: string)
    ensures Scan(q, a + b) == Scan(Scan(q, a), b)
  {
    if b == "" {
      assert a + b == a;
    } else {
      ScanConcat(q, a, b[..|b| - 1]);
      assert (a + b)[..|a + b| - 1] == a + b[..|b| - 1];
    }
  }

  /** A colon outside quotes that ends the line or is followed by a space. */
  predicate IsDelimiter(content: string, i: nat)
    requires i < |content|
  {
    content[i] == ':' && Outside(Scan(PLAIN, content[..i])) && (i + 1 == |content| || content[i + 1] == ' ')
  }

  /** A colon outside quotes that is not a delimiter. */
  predicate IsPlainColon(content: string, i: nat)
    requires i < |content|
  {
    content[i] == ':' && Outside(Scan(PLAIN, content[..i])) && i + 1 < |content| && content[i + 1] != ' '
  }

  /** A '#' outside quotes right after a space. */
  predicate IsInlineComment(content: string, i: nat)
    requires i < |content|
  {
    content[i] == '#' && Outside(Scan(PLAIN, content[..i])) && i > 0 && content[i - 1] == ' '
  }

  datatype Delimiter = Unterminated | Missing | At(index: nat, sawPlainColon: bool)

  /** The first delimiter at or after `i`. */
  function FirstDelimiter(content: string, i: nat, sawPlainColon: bool): (d: Delimiter)
    requires i <= |content|
    ensures d.At? ==> i <= d.index < |content| && IsDelimiter(content, d.index)
    ensures d.At? ==> forall k | i <= k < d.index :: !IsDelimiter(content, k)
    ensures !d.At? ==> forall k | i <= k < |content| :: !IsDelimiter(content, k)
    decreases |content| - i
  {
    if i == |content| then
      if Outside(Scan(PLAIN, content)) then Missing else Unterminated
    else if IsDelimiter(content, i) then At(i, sawPlainColon)
    else FirstDelimiter(content, i + 1, sawPlainColon || IsPlainColon(content, i))
  }

  function KeyValueDelimiterOf(content: string): Delimiter {
    FirstDelimiter(content, 0, false)
  }

  predicate HasInlineComment(content: string) {
    exists i | 0 <= i < |content| :: IsInlineComment(content, i)
  }

  method KeyValueDelimiter(content: string) returns (d: Delimiter)
    ensures d == KeyValueDelimiterOf(content)
  {
    var inSingle, inDouble, escaped, sawPlainColon := false, false, false, false;
    var i := 0;
    while i < |content|
      invariant 0 <= i <= |content|
      invariant QuoteState(inSingle, inDouble, escaped) == Scan(PLAIN, content[..i])
      invariant FirstDelimiter(content, i, sawPlainColon) == KeyValueDelimiterOf(content)
    {
      assert content[..i + 1][..i] == content[..i];
      var ch := content[i];
      if ch == '\\' {
        escaped := inDouble && !escaped;
      } else if ch == '\'' {
        if !inDouble { inSingle := !inSingle; }
        escaped := false;
      } else if ch == '"' {
        if !inSingle && !escaped { inDouble := !inDouble; } else { escaped := false; }
      } else if ch == ':' {
        if !(inSingle || inDouble) {
          if i + 1 == |content| || content[i + 1] == ' ' {
            return At(i, sawPlainColon);
          }
          sawPlainColon := true;
        }
        escaped := false;
      } else {
        escaped := false;
      }
      i := i + 1;
    }
    assert content[..i] == content;
    return if inSingle || inDouble then Unterminated else Missing;
  }

  method HasUnsupportedInlineComment(content: string) returns (found: bool)
    ensures found <==> HasInlineComment(content)
  {
    var inSingle, inDouble, escaped := false, false, false;
    var i := 0;
    while i < |content|
      invariant 0 <= i <= |content|
      invariant QuoteState(inSingle, inDouble, escaped) == Scan(PLAIN, content[..i])
      invariant forall k | 0 <= k < i :: !IsInlineComment(content, k)
    {
      assert content[..i + 1][..i] == content[..i];
      var ch := content[i];
      if ch == '\\' {
        escaped := inDouble && !escaped;
      } else if ch == '\'' {
        if !inDouble { inSingle := !inSingle; }
        escaped := false;
      } else if ch == '"' {
        if !inSingle && !escaped { inDouble := !inDouble; } else { escaped := false; }
      } else if ch == '#' {
        if !inSingle && !inDouble && i > 0 && content[i - 1] == ' ' {
          assert IsInlineComment(content, i);
          return true;
        }
        escaped := false;
      } else {
        escaped := false;
      }
      i := i + 1;
    }
    return false;
  }

  // ---- quoted strings ----

  datatype Quoted = Malformed | Bare(text: string) | Quoted(value: string)

  datatype Decoded = BadEscape | Decoded(text: string)

  /** escapedByBackslash: an odd run of backslashes ends right before `index`. */
  function BackslashesBefore(raw: string, index: nat): nat
    requires index <= |raw|
  {
    if index > 0 && raw[index - 1] == '\\' then 1 + BackslashesBefore(raw, index - 1) else 0
  }

  predicate Escaped(raw: string, index: nat)
    requires index <= |raw|
  {
    BackslashesBefore(raw, index) % 2 == 1
  }

  /** The pairs the single-quote loop of validQuotedString insists on, from byte `i` up to the closing quote. */
  predicate PairedFrom(raw: string, i: nat)
    decreases |raw| - i
  {
    if i >= |raw| - 1 then true
    else if raw[i] != '\'' then PairedFrom(raw, i + 1)
    else i + 1 < |raw| - 1 && raw[i + 1] == '\'' && PairedFrom(raw, i + 2)
  }

  predicate ValidQuoted(raw: string)
    requires raw != ""
  {
    if raw[0] == '"' then forall i | 1 <= i < |raw| - 1 && raw[i] == '"' :: Escaped(raw, i)
    else raw[0] == '\'' && PairedFrom(raw, 1)
  }

  function EscapeMeaning(c: char): Decoded {
    if c == '"' || c == '\\' then Decoded([c])
    else if c == 'n' then Decoded("\n")
    else if c == 'r' then Decoded("\r")
    else if c == 't' then Decoded("\t")
    else BadEscape
  }

  function Prepend(front: string, rest: Decoded): Decoded {
    if rest.Decoded? then Decoded(front + rest.text) else BadEscape
  }

  function DecodeDouble(raw: string): Decoded {
    if raw == "" then Decoded("")
    else if raw[0] != '\\' then Prepend([raw[0]], DecodeDouble(raw[1..]))
    else if |raw| == 1 || EscapeMeaning(raw[1]).BadEscape? then BadEscape
    else Prepend(EscapeMeaning(raw[1]).text, DecodeDouble(raw[2..]))
  }

  /** strings.ReplaceAll(raw, "''", "'"). */
  function Undouble(raw: string): string {
    if raw == "" then ""
    else if |raw| >= 2 && raw[0] == raw[1] == '\'' then "'" + Undouble(raw[2..])
    else [raw[0]] + Undouble(raw[1..])
  }

  function ParseQuotedString(raw: string): Quoted {
    if raw == "" then Bare("")
    else if raw[0] == '"' || raw[0] == '\'' then
      if |raw| < 2 || raw[|raw| - 1] != raw[0] || !ValidQuoted(raw) then Malformed
      else
        var inner := raw[1..|raw| - 1];
        if raw[0] == '\'' then Quoted(Undouble(inner))
        else
          var decoded := DecodeDouble(inner);
          if decoded.Decoded? then Quoted(decoded.text) else Malformed
    else if raw[|raw| - 1] == '"' || raw[|raw| - 1] == '\'' then Malformed
    else Bare(raw)
  }

  method EscapedByBackslash(raw: string, index: nat) returns (r: bool)
    requires index <= |raw|
    ensures r <==> Escaped(raw, index)
  {
    var backslashes := 0;
    var i := index - 1;
    while i >= 0 && raw[i] == '\\'
      invariant -1 <= i < index
      invariant backslashes + BackslashesBefore(raw, i + 1) == BackslashesBefore(raw, index)
    {
      backslashes := backslashes + 1;
      i := i - 1;
    }
    return backslashes % 2 == 1;
  }

  method ValidQuotedString(raw: string) returns (valid: bool)
    requires raw != ""
    ensures valid <==> ValidQuoted(raw)
  {
    if raw[0] == '"' {
      var i := 1;
      while i < |raw| - 1
        invariant 1 <= i
        invariant forall k | 1 <= k < i && k < |raw| - 1 && raw[k] == '"' :: Escaped(raw, k)
      {
        if raw[i] == '"' {
          var escaped := EscapedByBackslash(raw, i);
          if !escaped { return false; }
        }
        i := i + 1;
      }
      return true;
    } else if raw[0] == '\'' {
      var i := 1;
      while i < |raw| - 1
        invariant 1 <= i
        invariant PairedFrom(raw, i) <==> PairedFrom(raw, 1)
      {
        if raw[i] == '\'' {
          if i + 1 >= |raw| - 1 || raw[i + 1] != '\'' { return false; }
          i := i + 1;
        }
        i := i + 1;
      }
      return true;
    } else {
      return false;
    }
  }

  lemma DecodeStep(raw: string, i: nat, builder: string)
    requires i < |raw|
    ensures raw[i] != '\\' ==>
              Prepend(builder, DecodeDouble(raw[i..])) == Prepend(builder + [raw[i]], DecodeDouble(raw[i + 1..]))
    ensures raw[i] == '\\' && (i + 1 == |raw| || EscapeMeaning(raw[i + 1]).BadEscape?) ==>
              DecodeDouble(raw[i..]) == BadEscape
    ensures raw[i] == '\\' && i + 1 < |raw| && EscapeMeaning(raw[i + 1]).Decoded? ==>
              Prepend(builder, DecodeDouble(raw[i..])) ==
              Prepend(builder + EscapeMeaning(raw[i + 1]).text, DecodeDouble(raw[i + 2..]))
  {
    assert raw[i..][1..] == raw[i + 1..];
    if i + 1 < |raw| {
      assert raw[i..][1] == raw[i + 1] && raw[i..][2..] == raw[i + 2..];
    }
  }

  method DecodeDoubleQuotedString(raw: string) returns (r: Decoded)
    ensures r == DecodeDouble(raw)
  {
    var builder := "";
    var i := 0;
    while i < |raw|
      invariant 0 <= i <= |raw|
      invariant Prepend(builder, DecodeDouble(raw[i..])) == DecodeDouble(raw)
    {
      DecodeStep(raw, i, builder);
      var ch := raw[i];
      if ch != '\\' {
        builder := builder + [ch];
        i := i + 1;
        continue;
      }
      if i + 1 >= |raw| { return BadEscape; }
      i := i + 1;
      if raw[i] == '"' || raw[i] == '\\' {
        builder := builder + [raw[i]];
      } else if raw[i] == 'n' {
        builder := builder + "\n";
      } else if raw[i] == 'r' {
        builder := builder + "\r";
      } else if raw[i] == 't' {
        builder := builder + "\t";
      } else {
        return BadEscape;
      }
      i := i + 1;
    }
    return Decoded(builder);
  }
}
