/** The round trip at the level of whole documents, UTF-8 check included. */
module DocumentRoundTrip {
  import opened Text
  import opened Quoting
  import opened QuotingTheorems
  import opened Parser
  import opened Printer
  import opened RoundTrip
  import opened Utf8

  lemma {:induction false} AsciiFront(a: string, b: string)
    requires forall i | 0 <= i < |a| :: Ascii(a[i])
    ensures Valid(a + b) <==> Valid(b)
  {
    if a == "" {
      assert a + b == b;
    } else {
      assert a + b == "" + [a[0]] + (a[1..] + b);
      AsciiSeparates("", a[0], a[1..] + b);
      AsciiFront(a[1..], b);
    }
  }

  /** A style writes a byte below 128 as such bytes, at least one, and any other byte as itself. */
  ghost predicate KeepsHighBytes(byte: char -> string) {
    forall c :: if Ascii(c) then byte(c) != "" && forall i | 0 <= i < |byte(c)| :: Ascii(byte(c)[i]) else byte(c) == [c]
  }

  lemma StylesKeepHighBytes()
    ensures KeepsHighBytes(EscapeByte) && KeepsHighBytes(DoubleByte)
  {
  }

  lemma ExpandStart(s: string, byte: char -> string)
    requires KeepsHighBytes(byte)
    ensures s == "" <==> Expand(s, byte) == ""
    ensures s != "" ==> Expand(s, byte) == byte(s[0]) + Expand(s[1..], byte)
    ensures s != "" && (!Ascii(s[0]) || !Ascii(Expand(s, byte)[0])) ==> Expand(s, byte) == [s[0]] + Expand(s[1..], byte)
  {
    if s != "" {
      assert byte(s[0]) != "" && Expand(s, byte)[0] == byte(s[0])[0];
      if Ascii(s[0]) { assert Ascii(byte(s[0])[0]); }
    }
  }

  lemma FrontShifts(s: string, rest: string, n: nat)
    requires s != "" && 0 < n <= |s| && n - 1 <= |rest| && s[1..][..n - 1] == rest[..n - 1]
    ensures s[..n] == ([s[0]] + rest)[..n] && ([s[0]] + rest)[n..] == rest[n - 1..] && s[1..][n - 1..] == s[n..]
  {
    assert s[..n] == [s[0]] + s[1..][..n - 1];
  }

  /** The bytes of a written string from 128 up are those of the string. */
  lemma {:induction false} ExpandKeepsHighBytes(s: string, byte: char -> string, n: nat)
    requires KeepsHighBytes(byte)
    requires n <= |Expand(s, byte)| && forall i | 0 <= i < n :: !Ascii(Expand(s, byte)[i])
    ensures n <= |s| && s[..n] == Expand(s, byte)[..n] && Expand(s, byte)[n..] == Expand(s[n..], byte)
    decreases n
  {
    hide Expand, Ascii, KeepsHighBytes;
    ExpandStart(s, byte);
    if n == 0 {
      assert Expand(s, byte)[0..] == Expand(s, byte) && s[0..] == s;
    } else {
      var rest := Expand(s[1..], byte);
      assert !Ascii(Expand(s, byte)[0]);
      forall i | 0 <= i < n - 1 ensures !Ascii(rest[i]) { assert rest[i] == Expand(s, byte)[i + 1]; }
      ExpandKeepsHighBytes(s[1..], byte, n - 1);
      FrontShifts(s, rest, n);
    }
  }

  lemma {:induction false} HighBytesAreKept(s: string, byte: char -> string, n: nat)
    requires KeepsHighBytes(byte)
    requires n <= |s| && forall i | 0 <= i < n :: !Ascii(s[i])
    ensures n <= |Expand(s, byte)| && Expand(s, byte)[..n] == s[..n] && Expand(s, byte)[n..] == Expand(s[n..], byte)
    decreases n
  {
    hide Expand, Ascii, KeepsHighBytes;
    ExpandStart(s, byte);
    if n == 0 {
      assert Expand(s, byte)[0..] == Expand(s, byte) && s[0..] == s;
    } else {
      HighBytesAreKept(s[1..], byte, n - 1);
      FrontShifts(s, Expand(s[1..], byte), n);
    }
  }

  lemma LongCharsAreHigh(s: string, i: nat)
    requires i < CharLength(s) && !Ascii(s[0])
    ensures !Ascii(s[i])
  {
  }

  lemma ExpandKeepsCharLength(s: string, byte: char -> string)
    requires KeepsHighBytes(byte) && s != "" && !Ascii(s[0])
    ensures var e := Expand(s, byte);
            CharLength(e) == CharLength(s) <= |e| && e[CharLength(s)..] == Expand(s[CharLength(s)..], byte)
  {
    ExpandStart(s, byte);
    hide Expand, KeepsHighBytes;
    var e := Expand(s, byte);
    assert e[0] == s[0];
    var n, m := CharLength(s), CharLength(e);
    forall i | 0 <= i < n ensures !Ascii(s[i]) { LongCharsAreHigh(s, i); }
    HighBytesAreKept(s, byte, n);
    forall i | 0 <= i < m ensures !Ascii(e[i]) { LongCharsAreHigh(e, i); }
    ExpandKeepsHighBytes(s, byte, m);
    if n > 0 {
      CharLengthStays(s, n);
      CharLengthIsLocal(s[..n], e);
    }
    if m > 0 {
      CharLengthStays(e, m);
      CharLengthIsLocal(e[..m], s);
    }
  }

  /** Writing a string in either style neither breaks nor repairs UTF-8. */
  lemma {:induction false} ExpandKeepsValidity(s: string, byte: char -> string)
    requires KeepsHighBytes(byte)
    ensures Valid(Expand(s, byte)) <==> Valid(s)
    decreases |s|
  {
    ExpandStart(s, byte);
    if s == "" {
    } else if Ascii(s[0]) {
      ExpandKeepsValidity(s[1..], byte);
      AsciiFront(byte(s[0]), Expand(s[1..], byte));
      AsciiFront([s[0]], s[1..]);
      assert s == [s[0]] + s[1..];
    } else {
      ExpandKeepsCharLength(s, byte);
      if CharLength(s) > 0 {
        ExpandKeepsValidity(s[CharLength(s)..], byte);
      }
    }
  }

  lemma EscapeKeepsValidity(s: string)
    ensures Valid(Escape(s)) <==> Valid(s)
    ensures Valid(DoubleSingles(s)) <==> Valid(s)
  {
    StylesKeepHighBytes();
    ExpandKeepsValidity(s, EscapeByte);
    ExpandKeepsValidity(s, DoubleByte);
  }

  // ---- documents ----

  predicate ScalarIsUtf8(s: Scalar) {
    s.Str? ==> Valid(s.text)
  }

  /** Every key and string of the tree is valid UTF-8. */
  predicate AllUtf8(d: Doc) {
    match d
    case DMap(entries) => AllEntriesUtf8(entries)
    case DList(items) => forall s | s in items :: ScalarIsUtf8(s)
    case DScalar(value) => ScalarIsUtf8(value)
  }

  predicate AllEntriesUtf8(entries: Entries) {
    match entries
    case End => true
    case Entry(key, _, value, rest) => Valid(key) && AllUtf8(value) && AllEntriesUtf8(rest)
  }

  /** A tail that begins below 128 splits validity in two. */
  lemma AsciiTail(a: string, tail: string)
    requires tail != "" && Ascii(tail[0])
    ensures Valid(a + tail) <==> Valid(a) && Valid(tail)
  {
    assert a + tail == a + [tail[0]] + tail[1..];
    AsciiSeparates(a, tail[0], tail[1..]);
    AsciiFront([tail[0]], tail[1..]);
    assert tail == [tail[0]] + tail[1..];
  }

  lemma WrittenUtf8(s: string, style: TextStyle)
    ensures Valid(Written(s, style)) <==> Valid(s)
  {
    EscapeKeepsValidity(s);
    match style {
      case PlainText =>
      case QuotedText(q) =>
        var mark, body := if q == Double then "\"" else "'", if q == Double then Escape(s) else DoubleSingles(s);
        assert Quote(s, q) == mark + body + mark;
        AsciiIsValid(mark);
        AsciiTail(mark + body, mark);
        AsciiFront(mark, body);
    }
  }

  lemma ScalarTextUtf8(s: Scalar)
    ensures Valid(ScalarText(s)) <==> ScalarIsUtf8(s)
  {
    match s {
      case Str(text, style) => WrittenUtf8(text, style);
      case Num(number) =>
        forall i | 0 <= i < |Itoa(number)| ensures Ascii(Itoa(number)[i]) {
          assert Itoa(number)[i] == '-' || IsDigit(Itoa(number)[i]);
        }
        AsciiIsValid(Itoa(number));
      case Flag(flag) => AsciiIsValid(ScalarText(s));
    }
  }

  predicate LinesUtf8(lines: seq<PrintedLine>) {
    forall p | p in lines :: Valid(p.1)
  }

  lemma KeyLinesUtf8(t: string, value: string)
    ensures Valid(KeyLine(t)) <==> Valid(t)
    ensures Valid(PairLine(t, value)) <==> Valid(t) && Valid(value)
  {
    AsciiIsValid(":");
    AsciiTail(t, ":");
    AsciiTail(t, ": " + value);
    AsciiFront(": ", value);
    assert PairLine(t, value) == t + (": " + value);
  }

  lemma ListLinesUtf8(items: seq<Scalar>, indent: nat)
    ensures LinesUtf8(ListLines(items, indent)) <==> forall s | s in items :: ScalarIsUtf8(s)
  {
    hide ScalarText, ScalarIsUtf8, Valid;
    var lines := ListLines(items, indent);
    forall i | 0 <= i < |items| ensures Valid(lines[i].1) <==> ScalarIsUtf8(items[i]) {
      ScalarTextUtf8(items[i]);
      AsciiFront("- ", ScalarText(items[i]));
    }
    if LinesUtf8(lines) {
      forall s | s in items ensures ScalarIsUtf8(s) {
        var i :| 0 <= i < |items| && items[i] == s;
        assert lines[i] in lines;
      }
    }
  }

  lemma LinesUtf8Concat(a: seq<PrintedLine>, b: seq<PrintedLine>)
    ensures LinesUtf8(a + b) <==> LinesUtf8(a) && LinesUtf8(b)
  {
    assert forall p :: p in a + b <==> p in a || p in b;
  }

  lemma {:induction false} EntryLinesUtf8(t: string, value: Doc, indent: nat, step: nat)
    ensures LinesUtf8(EntryLines(t, value, indent, step)) <==> Valid(t) && AllUtf8(value)
    decreases value
  {
    hide KeyLine, PairLine, ScalarText, Valid;
    match value {
      case DScalar(s) =>
        KeyLinesUtf8(t, ScalarText(s));
        ScalarTextUtf8(s);
        assert (indent, PairLine(t, ScalarText(s))) in EntryLines(t, value, indent, step);
      case DList(items) =>
        KeyLinesUtf8(t, "[]");
        AsciiIsValid("[]");
        ListLinesUtf8(items, indent + step);
        LinesUtf8Concat([(indent, KeyLine(t))], ListLines(items, indent + step));
        assert (indent, if items == [] then PairLine(t, "[]") else KeyLine(t)) in EntryLines(t, value, indent, step);
      case DMap(entries) =>
        KeyLinesUtf8(t, "");
        MapLinesUtf8(entries, indent + step, step);
        LinesUtf8Concat([(indent, KeyLine(t))], MapLines(entries, indent + step, step));
        assert (indent, KeyLine(t)) in EntryLines(t, value, indent, step);
    }
  }

  lemma {:induction false} MapLinesUtf8(entries: Entries, indent: nat, step: nat)
    ensures LinesUtf8(MapLines(entries, indent, step)) <==> AllEntriesUtf8(entries)
    decreases entries
  {
    hide Valid, Written;
    match entries {
      case End =>
      case Entry(key, keyStyle, value, rest) =>
        var t := Written(key, keyStyle);
        WrittenUtf8(key, keyStyle);
        EntryLinesUtf8(t, value, indent, step);
        MapLinesUtf8(rest, indent, step);
        LinesUtf8Concat(EntryLines(t, value, indent, step), MapLines(rest, indent, step));
    }
  }

  // ---- lines of text ----

  predicate FillerUtf8(f: Filler) {
    f.Comment? ==> Valid(f.text)
  }

  /** Every comment of a document with `n` printed lines is valid UTF-8. */
  ghost predicate LayoutUtf8(layout: nat -> Layout, from: nat, n: nat) {
    forall i, f | from <= i <= n && f in layout(i).before :: FillerUtf8(f)
  }

  lemma EndOfLineUtf8(s: string, crlf: bool)
    ensures Valid(s + EndOfLine(crlf)) <==> Valid(s)
  {
    AsciiIsValid("\r");
    if crlf {
      AsciiTail(s, "\r");
    } else {
      assert s + "" == s;
    }
  }

  lemma LineTextUtf8(line: PrintedLine, crlf: bool)
    ensures Valid(LineText(line, crlf)) <==> Valid(line.1)
  {
    EndOfLineUtf8(Spaces(line.0) + line.1, crlf);
    AsciiFront(Spaces(line.0), line.1);
  }

  lemma FillerLineUtf8(f: Filler)
    ensures Valid(FillerLine(f)) <==> FillerUtf8(f)
  {
    match f {
      case Blank(spaces, crlf) =>
        EndOfLineUtf8(Spaces(spaces), crlf);
        AsciiIsValid(Spaces(spaces));
      case Comment(spaces, text, crlf) =>
        EndOfLineUtf8(Spaces(spaces) + "#" + text, crlf);
        AsciiFront(Spaces(spaces) + "#", text);
    }
  }

  lemma FillerLinesUtf8(fillers: seq<Filler>)
    ensures (forall line | line in FillerLines(fillers) :: Valid(line)) <==> forall f | f in fillers :: FillerUtf8(f)
  {
    hide Valid, FillerLine, FillerUtf8;
    var lines := FillerLines(fillers);
    forall i | 0 <= i < |fillers| ensures Valid(lines[i]) <==> FillerUtf8(fillers[i]) { FillerLineUtf8(fillers[i]); }
    if forall line | line in lines :: Valid(line) {
      forall f | f in fillers ensures FillerUtf8(f) {
        var i :| 0 <= i < |fillers| && fillers[i] == f;
        assert lines[i] in lines;
      }
    }
  }

  lemma {:induction false} TextLinesUtf8(printed: seq<PrintedLine>, i: nat, layout: nat -> Layout)
    requires i <= |printed|
    ensures (forall line | line in TextLines(printed, i, layout) :: Valid(line)) <==>
            LinesUtf8(printed[i..]) && LayoutUtf8(layout, i, |printed|)
    decreases |printed| - i
  {
    hide Valid, LineText, FillerUtf8, FillerLines;
    FillerLinesUtf8(layout(i).before);
    if i < |printed| {
      LineTextUtf8(printed[i], layout(i).crlf);
      TextLinesUtf8(printed, i + 1, layout);
      LinesUtf8Concat([printed[i]], printed[i + 1..]);
      assert printed[i..] == [printed[i]] + printed[i + 1..];
      assert LinesUtf8([printed[i]]) <==> Valid(printed[i].1) by { assert printed[i] in [printed[i]]; }
      LayoutStep(layout, i, |printed|);
    }
  }

  lemma LayoutStep(layout: nat -> Layout, i: nat, n: nat)
    requires i < n
    ensures LayoutUtf8(layout, i, n) <==> (forall f | f in layout(i).before :: FillerUtf8(f)) && LayoutUtf8(layout, i + 1, n)
  {
  }

  lemma {:induction false} JoinedUtf8(lines: seq<string>)
    ensures Valid(Joined(lines)) <==> forall line | line in lines :: Valid(line)
  {
    if lines != [] {
      JoinedUtf8(lines[1..]);
      AsciiSeparates(lines[0], '\n', Joined(lines[1..]));
      assert Joined(lines) == lines[0] + ['\n'] + Joined(lines[1..]);
      assert lines == [lines[0]] + lines[1..];
    }
  }

  /** A printed document parses exactly when all its keys, strings and comments are valid UTF-8, and then to its own
      tree. */
  lemma ParseUndoesPrint(entries: Entries, step: nat, layout: nat -> Layout)
    requires step > 0 && LegalEntries(entries) && entries != End
    requires LegalLayout(layout, |MapLines(entries, 0, step)|)
    ensures ParsedDocument(Print(entries, step, layout)) ==
            if AllEntriesUtf8(entries) && LayoutUtf8(layout, 0, |MapLines(entries, 0, step)|)
            then Ok(MapNode(MapOf(entries))) else Err
  {
    hide Tokenized, ParsedBlock, Valid, TextLines, LayoutUtf8, LegalLayout, Joined, MapLines;
    var printed := MapLines(entries, 0, step);
    MapLinesUtf8(entries, 0, step);
    assert printed[0..] == printed;
    TextLinesUtf8(printed, 0, layout);
    JoinedUtf8(TextLines(printed, 0, layout));
    TokenizeAndParseUndoPrint(entries, step, layout);
  }

  // ---- every tree has a printed form ----

  /** Trees of maps, lists of scalars and machine-range scalars. */
  ghost predicate Printable(n: Node) {
    match n
    case MapNode(entries) => forall k | k in entries :: Printable(entries[k])
    case ListNode(items) => forall i | 0 <= i < |items| :: !items[i].MapNode? && !items[i].ListNode? && Printable(items[i])
    case IntNode(number) => IsInt64(number)
    case _ => true
  }

  function ScalarOf(n: Node): Scalar
    requires !n.MapNode? && !n.ListNode?
  {
    match n
    case StringNode(text) => Str(text, QuotedText(Double))
    case IntNode(number) => Num(number)
    case BoolNode(flag) => Flag(flag)
  }

  lemma {:induction false} DocOf(n: Node) returns (d: Doc)
    requires Printable(n)
    ensures Legal(d) && TreeOf(d) == n
    decreases n
  {
    match n {
      case MapNode(entries) =>
        var es := EntriesFor(n, entries.Keys);
        assert MapOf(es) == entries;
        d := DMap(es);
      case ListNode(items) =>
        var scalars := seq(|items|, i requires 0 <= i < |items| => ScalarOf(items[i]));
        d := DList(scalars);
        assert ItemsOf(scalars) == items;
      case _ =>
        d := DScalar(ScalarOf(n));
    }
  }

  lemma {:induction false} EntriesFor(n: Node, keys: set<string>) returns (es: Entries)
    requires n.MapNode? && Printable(n) && keys <= n.entries.Keys
    ensures LegalEntries(es) && Keys(es) == keys && forall k | k in keys :: MapOf(es)[k] == n.entries[k]
    decreases n, |keys|
  {
    if keys == {} {
      es := End;
    } else {
      var k :| k in keys;
      assert Printable(n.entries[k]);
      var value := DocOf(n.entries[k]);
      var rest := EntriesFor(n, keys - {k});
      es := Entry(k, QuotedText(Double), value, rest);
      EntryJoins(n.entries, keys, k, value, rest);
    }
  }

  lemma EntryJoins(m: map<string, Node>, keys: set<string>, k: string, value: Doc, rest: Entries)
    requires k in keys && keys <= m.Keys
    requires Legal(value) && TreeOf(value) == m[k]
    requires LegalEntries(rest) && Keys(rest) == keys - {k} && forall x | x in Keys(rest) :: MapOf(rest)[x] == m[x]
    ensures var es := Entry(k, QuotedText(Double), value, rest);
            LegalEntries(es) && Keys(es) == keys && forall x | x in keys :: MapOf(es)[x] == m[x]
  {
    assert {k} + Keys(rest) == keys;
  }

  /** The plainest layout: nothing between the lines. */
  const NO_FILLERS: nat -> Layout := i => Layout([], false)

  /** Every printable nonempty map is the parse of some text, so the parser reaches every such tree. */
  lemma EveryTreeIsParsed(n: Node) returns (entries: Entries)
    requires n.MapNode? && n.entries != map[] && Printable(n)
    ensures forall step: nat | step > 0 && AllEntriesUtf8(entries) ::
              ParsedDocument(Print(entries, step, NO_FILLERS)) == Ok(n)
    ensures forall step: nat | step > 0 :: Tokenized(Print(entries, step, NO_FILLERS)).Ok? &&
              var lines := Tokenized(Print(entries, step, NO_FILLERS)).value; ParsedBlock(lines, 0, 0) == Ok((n, |lines|))
  {
    hide ParsedDocument, Tokenized, ParsedBlock, Print, LegalEntries;
    entries := EntriesFor(n, n.entries.Keys);
    assert MapOf(entries) == n.entries;
    assert entries != End;
    forall step: nat | step > 0
      ensures AllEntriesUtf8(entries) ==> ParsedDocument(Print(entries, step, NO_FILLERS)) == Ok(n)
      ensures Tokenized(Print(entries, step, NO_FILLERS)).Ok? &&
              var lines := Tokenized(Print(entries, step, NO_FILLERS)).value; ParsedBlock(lines, 0, 0) == Ok((n, |lines|))
    {
      ParseUndoesPrint(entries, step, NO_FILLERS);
      TokenizeAndParseUndoPrint(entries, step, NO_FILLERS);
    }
  }
}
