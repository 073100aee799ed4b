/** Parsing undoes printing: for every tree, in every order of its keys, every style of its texts, with every positive
    nesting step and whatever blank lines and comments stand between. */
module RoundTrip {
  import opened Text
  import opened Quoting
  import opened QuotingTheorems
  import opened Parser
  import opened Printer

  // ---- where a key ends ----

  /** The text is a key: a colon behind it is the first delimiter, and it reads as the key. */
  ghost predicate Names(t: string, key: string) {
    && t != "" && Trimmed(t)
    && Scan(PLAIN, t) == PLAIN && (forall i | 0 <= i < |t| && t[i] == ':' :: !Outside(Scan(PLAIN, t[..i])))
    && (ParseQuotedString(t) == Quoted(key) || (ParseQuotedString(t) == Bare(key) && !UnsupportedKey(key)))
  }

  lemma {:induction false} FirstDelimiterIs(content: string, i: nat, k: nat, saw: bool)
    requires i <= k < |content| && IsDelimiter(content, k)
    requires forall m | i <= m < k :: !IsDelimiter(content, m)
    ensures FirstDelimiter(content, i, saw) == At(k, saw || exists m | i <= m < k :: IsPlainColon(content, m))
    decreases k - i
  {
    if i < k {
      FirstDelimiterIs(content, i + 1, k, saw || IsPlainColon(content, i));
    }
  }

  lemma DelimiterAfterName(t: string, key: string, tail: string)
    requires Names(t, key) && (tail == ":" || (|tail| >= 2 && tail[0] == ':' && tail[1] == ' '))
    ensures KeyValueDelimiterOf(t + tail) == At(|t|, false) && (t + tail)[..|t|] == t
  {
    var content := t + tail;
    assert content[..|t|] == t;
    forall m | 0 <= m < |t| ensures !IsDelimiter(content, m) && !IsPlainColon(content, m) {
      assert content[..m] == t[..m];
    }
    FirstDelimiterIs(content, 0, |t|, false);
  }

  lemma PairSplits(t: string, value: string)
    ensures t + ": " + value == t + (": " + value)
    ensures (t + ": " + value)[|t| + 1..] == " " + value && (" " + value)[1..] == value
    ensures (t + ":")[|t| + 1..] == ""
  {
  }

  lemma SplitAfterName(t: string, key: string, value: string)
    requires Names(t, key) && Trimmed(value)
    ensures SplitKeyValue(t + ": " + value) == Ok((key, value))
    ensures SplitKeyValue(t + ":") == Ok((key, ""))
  {
    hide KeyValueDelimiterOf;
    TrimmedIsFixed(t);
    TrimmedIsFixed(value);
    DelimiterAfterName(t, key, ":");
    DelimiterAfterName(t, key, ": " + value);
    PairSplits(t, value);
  }

  lemma QuoteStartsAndEnds(s: string, style: Style)
    ensures var q := Quote(s, style);
            q[0] in {'"', '\''} && q[|q| - 1] == q[0] && Trimmed(q)
  {
  }

  lemma QuoteNames(key: string, style: Style)
    ensures Names(Quote(key, style), key)
  {
    QuoteStartsAndEnds(key, style);
    QuoteIsOpaque(key, style);
    ParseInvertsQuote(key, style);
  }

  /** splitKeyValue finds the quoted key whatever it contains, and leaves the value alone. */
  lemma SplitQuotedKey(key: string, style: Style, value: string)
    requires Trimmed(value)
    ensures SplitKeyValue(Quote(key, style) + ": " + value) == Ok((key, value))
    ensures SplitKeyValue(Quote(key, style) + ":") == Ok((key, ""))
  {
    QuoteNames(key, style);
    SplitAfterName(Quote(key, style), key, value);
  }

  /** A colon outside quotes. */
  ghost predicate ShowsColon(s: string) {
    exists i | 0 <= i < |s| :: s[i] == ':' && Outside(Scan(PLAIN, s[..i]))
  }

  /** A key without quotes at its ends and without a delimiter inside stands for itself, unless it has a colon outside
      quotes or begins like an anchor, an alias, a tag or a merge; then the line is rejected. */
  lemma BareKeyMeans(key: string, value: string)
    requires Unquoted(key) && Trimmed(key) && Trimmed(value) && Scan(PLAIN, key) == PLAIN
    requires forall i | 0 <= i < |key| - 1 && key[i] == ':' && Outside(Scan(PLAIN, key[..i])) :: key[i + 1] != ' '
    ensures SplitKeyValue(key + ": " + value) ==
            if ShowsColon(key) || key == "<<" || key[0] in {'&', '*', '!'} then Err else Ok((key, value))
  {
    hide KeyValueDelimiterOf, ParseQuotedString, Scan, ShowsColon, QuotedGrammar;
    BareDelimiter(key, value);
    PairSplits(key, value);
    ParseAcceptsGrammar(key);
    TrimmedIsFixed(key);
    TrimmedIsFixed(value);
    SplitAtBareKey(key + ": " + value, key, value, ShowsColon(key));
  }

  lemma SplitAtBareKey(content: string, key: string, value: string, saw: bool)
    requires key != "" && |key| < |content| && KeyValueDelimiterOf(content) == At(|key|, saw) && content[..|key|] == key
    requires content[|key| + 1..] == " " + value && TrimSpace(key) == key && TrimSpace(" " + value) == value
    requires ParseQuotedString(key) == Bare(key)
    ensures SplitKeyValue(content) == if saw || UnsupportedKey(key) then Err else Ok((key, value))
    ensures UnsupportedKey(key) <==> key == "<<" || key[0] in {'&', '*', '!'}
  {
    hide KeyValueDelimiterOf, ParseQuotedString, TrimSpace;
  }

  lemma BareDelimiter(key: string, value: string)
    requires Scan(PLAIN, key) == PLAIN
    requires forall i | 0 <= i < |key| - 1 && key[i] == ':' && Outside(Scan(PLAIN, key[..i])) :: key[i + 1] != ' '
    ensures (key + ": " + value)[..|key|] == key
    ensures KeyValueDelimiterOf(key + ": " + value) ==
            At(|key|, ShowsColon(key))
  {
    var content := key + ": " + value;
    PairSplits(key, value);
    assert content[..|key|] == key;
    forall m | 0 <= m < |key|
      ensures !IsDelimiter(content, m)
      ensures IsPlainColon(content, m) <==> key[m] == ':' && Outside(Scan(PLAIN, key[..m]))
    {
      assert content[..m] == key[..m];
    }
    FirstDelimiterIs(content, 0, |key|, false);
  }

  // ---- what may stand in a line ----

  /** The text can begin a line as a key. */
  ghost predicate KeyText(t: string, key: string) {
    Names(t, key) && OneLine(t) && t[0] != '#' && !HasPrefix(t, "- ") && !HasInlineComment(t)
  }

  /** The text can end a line as a value. */
  ghost predicate ValueText(t: string, node: Node) {
    t != "" && Trimmed(t) && OneLine(t) && !HasInlineComment(" " + t) && ParseInlineValue(t) == Ok(node)
  }

  lemma {:induction false} EscapeHasNoBreaks(s: string)
    ensures OneLine(Escape(s))
  {
    if s != "" {
      EscapeHasNoBreaks(s[1..]);
    }
  }

  lemma {:induction false} DoubleSinglesHasNoBreaks(s: string)
    requires OneLine(s)
    ensures OneLine(DoubleSingles(s))
  {
    if s != "" {
      DoubleSinglesHasNoBreaks(s[1..]);
    }
  }

  lemma QuoteIsOneLine(s: string, style: Style)
    requires Quotable(s, QuotedText(style))
    ensures OneLine(Quote(s, style))
  {
    EscapeHasNoBreaks(s);
    if style == Single { DoubleSinglesHasNoBreaks(s); }
  }

  lemma QuoteHasNoComment(s: string, style: Style)
    ensures !HasInlineComment(Quote(s, style)) && !HasInlineComment(" " + Quote(s, style))
  {
    var q := Quote(s, style);
    QuoteIsOpaque(s, style);
    forall i | 0 <= i < |" " + q| ensures !IsInlineComment(" " + q, i) {
      if i > 0 {
        assert (" " + q)[..i] == " " + q[..i - 1];
        SpaceIsInert(q[..i - 1]);
      }
    }
  }

  lemma SpaceIsInert(s: string)
    ensures Scan(PLAIN, " " + s) == Scan(PLAIN, s)
  {
    ScanConcat(PLAIN, " ", s);
    ScanOne(PLAIN, ' ');
  }

  lemma WrittenIsKey(key: string, style: TextStyle)
    requires LegalKey(key, style)
    ensures KeyText(Written(key, style), key)
  {
    match style {
      case PlainText =>
        EscapedOnlyInDouble(key);
        ParseAcceptsGrammar(key);
      case QuotedText(q) =>
        QuoteNames(key, q);
        QuoteStartsAndEnds(key, q);
        QuoteIsOneLine(key, q);
        QuoteHasNoComment(key, q);
    }
  }

  // ---- scalars ----

  /** A value without quotes at its ends: the empty list, a reserved beginning that is rejected, a bool, a 64-bit
      integer, or a string that stands for itself. */
  lemma PlainScalarMeans(raw: string)
    requires Unquoted(raw)
    ensures ParseInlineValue(raw) ==
            if raw == "[]" then Ok(ListNode([]))
            else if raw[0] in {'[', '{', '|', '>', '&', '*', '!'} then Err
            else if raw == "true" then Ok(BoolNode(true))
            else if raw == "false" then Ok(BoolNode(false))
            else if Atoi(raw).Number? then Ok(IntNode(Atoi(raw).value))
            else Ok(StringNode(raw))
  {
    hide Atoi;
    ParseAcceptsGrammar(raw);
  }

  /** A value with a quote at an end is a string exactly when it is one quoted text, and otherwise rejected, unless a
      reserved beginning has it rejected first. */
  lemma QuotedScalarMeans(raw: string)
    requires raw != "" && !Unquoted(raw)
    ensures raw[0] !in {'"', '\''} ==> ParseInlineValue(raw) == Err
    ensures raw[0] in {'"', '\''} && !QuotedGrammar(raw) ==> ParseInlineValue(raw) == Err
    ensures forall s, style | raw == Quote(s, style) :: ParseInlineValue(raw) == Ok(StringNode(s))
  {
    ParseAcceptsGrammar(raw);
    forall s, style | raw == Quote(s, style) ensures ParseInlineValue(raw) == Ok(StringNode(s)) {
      QuotedValueParses(s, style);
    }
  }

  lemma QuotedValueParses(s: string, style: Style)
    ensures ParseInlineValue(Quote(s, style)) == Ok(StringNode(s))
  {
    QuoteStartsAndEnds(s, style);
    ParseInvertsQuote(s, style);
  }

  lemma NumberTextParses(n: int)
    requires IsInt64(n)
    ensures ValueText(Itoa(n), IntNode(n))
  {
    hide ParseInlineValue, Atoi;
    AtoiOfItoa(n);
    forall c | c in Itoa(n) ensures c == '-' || IsDigit(c) {
    }
    PlainScalarMeans(Itoa(n));
  }

  lemma ScalarTextIsValue(s: Scalar)
    requires LegalScalar(s)
    ensures ValueText(ScalarText(s), ScalarNode(s))
  {
    match s {
      case Str(text, PlainText) =>
        PlainScalarMeans(text);
      case Str(text, QuotedText(q)) =>
        QuoteStartsAndEnds(text, q);
        QuotedValueParses(text, q);
        QuoteIsOneLine(text, q);
        QuoteHasNoComment(text, q);
      case Num(number) => NumberTextParses(number);
      case Flag(flag) =>
    }
  }

  lemma EmptyListIsValue()
    ensures ValueText("[]", ListNode([]))
  {
  }

  // ---- blocks ----

  /** The source lines from `index` on are the printed ones. */
  ghost predicate Matches(lines: seq<SourceLine>, index: nat, printed: seq<PrintedLine>) {
    && index + |printed| <= |lines|
    && forall j | index <= j < index + |printed| ::
         lines[j].indent == printed[j - index].0 && lines[j].content == printed[j - index].1
  }

  /** A block at `indent` ends at line `next`. */
  ghost predicate EndsAt(lines: seq<SourceLine>, next: nat, indent: nat) {
    next == |lines| || (next < |lines| && lines[next].indent < indent)
  }

  lemma MatchesConcat(lines: seq<SourceLine>, index: nat, a: seq<PrintedLine>, b: seq<PrintedLine>)
    requires Matches(lines, index, a + b)
    ensures Matches(lines, index, a) && Matches(lines, index + |a|, b)
  {
  }

  lemma ListItemParses(s: Scalar)
    requires LegalScalar(s)
    ensures var content := "- " + ScalarText(s);
            && TrimSpace(content) == content && HasPrefix(content, "- ") && ListItem(content) == Ok(ScalarNode(s))
  {
    ScalarTextIsValue(s);
    hide ScalarText, LegalScalar;
    var content := "- " + ScalarText(s);
    assert content[2..] == ScalarText(s);
    TrimmedIsFixed(content);
    TrimmedIsFixed(ScalarText(s));
  }

  lemma ListFromStep(lines: seq<SourceLine>, index: nat, indent: nat, s: Scalar, done: seq<Node>)
    requires index < |lines| && lines[index].indent == indent && lines[index].content == "- " + ScalarText(s)
    requires LegalScalar(s)
    ensures ListFrom(lines, index, indent, done) == ListFrom(lines, index + 1, indent, done + [ScalarNode(s)])
  {
    ListItemParses(s);
  }

  lemma {:induction false} ListLinesParse(lines: seq<SourceLine>, index: nat, indent: nat, items: seq<Scalar>,
                                          done: seq<Node>)
    requires Matches(lines, index, ListLines(items, indent)) && EndsAt(lines, index + |items|, indent)
    requires forall s | s in items :: LegalScalar(s)
    ensures ListFrom(lines, index, indent, done) == Ok((done + ItemsOf(items), index + |items|))
    decreases |items|
  {
    hide ListItem, ScalarText, LegalScalar;
    if items == [] {
      assert done + ItemsOf(items) == done;
    } else {
      var first, others := ListLines(items, indent)[0], ListLines(items[1..], indent);
      assert ListLines(items, indent) == [first] + others;
      MatchesConcat(lines, index, [first], others);
      assert lines[index].content == [first][0].1;
      ListFromStep(lines, index, indent, items[0], done);
      var done' := done + [ScalarNode(items[0])];
      ListLinesParse(lines, index + 1, indent, items[1..], done');
      assert done + ItemsOf(items) == done' + ItemsOf(items[1..]);
    }
  }

  lemma NameStartsNoItem(t: string, key: string, content: string)
    requires KeyText(t, key) && t + ":" <= content
    ensures !HasPrefix(content, "- ") && !HasPrefix(TrimSpace(content), "- ")
  {
    assert (t + ":")[|t|] == ':' && content[|t|] == ':' && t <= content;
    TrimRightDropsBack(content);
  }

  /** The first line of an entry, whatever its value, splits into the key and the text of the value. */
  lemma EntryLineSplits(t: string, key: string, value: string)
    requires KeyText(t, key) && Trimmed(value)
    ensures var pair := PairLine(t, value);
            value != "" ==> TrimSpace(pair) == pair && !HasPrefix(pair, "- ") && SplitKeyValue(pair) == Ok((key, value))
    ensures var bare := KeyLine(t);
            TrimSpace(bare) == bare && !HasPrefix(bare, "- ") && SplitKeyValue(bare) == Ok((key, ""))
  {
    hide SplitKeyValue;
    SplitAfterName(t, key, value);
    TrimmedIsFixed(KeyLine(t));
    NameStartsNoItem(t, key, KeyLine(t));
    if value != "" {
      TrimmedIsFixed(PairLine(t, value));
      NameStartsNoItem(t, key, PairLine(t, value));
    }
  }

  lemma InlineEntry(lines: seq<SourceLine>, index: nat, indent: nat, t: string, key: string, value: string, node: Node)
    requires index < |lines| && lines[index].indent == indent && lines[index].content == PairLine(t, value)
    requires KeyText(t, key) && ValueText(value, node)
    ensures MapEntry(lines, index, indent) == Ok((key, node, index + 1))
  {
    EntryLineSplits(t, key, value);
  }

  lemma BlockEntry(lines: seq<SourceLine>, index: nat, indent: nat, t: string, key: string, node: Node, next: nat)
    requires index + 1 < |lines| && lines[index].indent == indent && lines[index].content == KeyLine(t)
    requires KeyText(t, key) && lines[index + 1].indent > indent
    requires ParsedBlock(lines, index + 1, lines[index + 1].indent) == Ok((node, next))
    ensures MapEntry(lines, index, indent) == Ok((key, node, next))
  {
    EntryLineSplits(t, key, "");
  }

  lemma EmptyEntry(lines: seq<SourceLine>, index: nat, indent: nat, t: string, key: string)
    requires index < |lines| && lines[index].indent == indent && lines[index].content == KeyLine(t)
    requires KeyText(t, key) && EndsAt(lines, index + 1, indent + 1)
    ensures MapEntry(lines, index, indent) == Ok((key, MapNode(map[]), index + 1))
  {
    EntryLineSplits(t, key, "");
  }

  lemma ListBlockParses(lines: seq<SourceLine>, index: nat, indent: nat, items: seq<Scalar>)
    requires items != [] && forall s | s in items :: LegalScalar(s)
    requires Matches(lines, index, ListLines(items, indent)) && EndsAt(lines, index + |items|, indent)
    ensures lines[index].indent == indent
    ensures ParsedBlock(lines, index, indent) == Ok((ListNode(ItemsOf(items)), index + |items|))
  {
    hide LegalScalar, ScalarText;
    var first := ListLines(items, indent)[0];
    assert lines[index].indent == first.0 && lines[index].content == first.1;
    ListItemParses(items[0]);
    ListLinesParse(lines, index, indent, items, []);
    assert [] + ItemsOf(items) == ItemsOf(items);
  }

  lemma ListEntryParses(lines: seq<SourceLine>, index: nat, indent: nat, step: nat, t: string, key: string,
                        items: seq<Scalar>)
    requires step > 0 && KeyText(t, key) && forall s | s in items :: LegalScalar(s)
    requires Matches(lines, index, EntryLines(t, DList(items), indent, step))
    requires EndsAt(lines, index + |EntryLines(t, DList(items), indent, step)|, indent + 1)
    ensures MapEntry(lines, index, indent) ==
            Ok((key, TreeOf(DList(items)), index + |EntryLines(t, DList(items), indent, step)|))
  {
    hide MapEntry, ParsedBlock, ValueText, KeyText, PairLine, KeyLine, ListLines, LegalScalar;
    var printed := EntryLines(t, DList(items), indent, step);
    assert lines[index].content == printed[0].1 && lines[index].indent == indent;
    if items == [] {
      assert ItemsOf(items) == [];
      EmptyListIsValue();
      InlineEntry(lines, index, indent, t, key, "[]", ListNode([]));
    } else {
      MatchesConcat(lines, index, [printed[0]], ListLines(items, indent + step));
      ListBlockParses(lines, index + 1, indent + step, items);
      BlockEntry(lines, index, indent, t, key, TreeOf(DList(items)), index + |printed|);
    }
  }

  lemma EndPrintsNothing(indent: nat, step: nat)
    ensures MapLines(End, indent, step) == [] && MapOf(End) == map[]
  {
  }

  lemma BlockFollows(lines: seq<SourceLine>, index: nat, indent: nat, t: string, block: seq<PrintedLine>)
    requires Matches(lines, index, [(indent, KeyLine(t))] + block)
    ensures Matches(lines, index + 1, block) && index + 1 + |block| <= |lines|
  {
    MatchesConcat(lines, index, [(indent, KeyLine(t))], block);
  }

  lemma {:induction false} EntryParses(lines: seq<SourceLine>, index: nat, indent: nat, step: nat, t: string, key: string,
                                       value: Doc)
    requires step > 0 && KeyText(t, key) && Legal(value)
    requires Matches(lines, index, EntryLines(t, value, indent, step))
    requires EndsAt(lines, index + |EntryLines(t, value, indent, step)|, indent + 1)
    ensures MapEntry(lines, index, indent) == Ok((key, TreeOf(value), index + |EntryLines(t, value, indent, step)|))
    decreases value
  {
    hide MapEntry, ParsedBlock, ValueText, KeyText, ScalarText, PairLine, KeyLine, ListLines, LegalScalar, MapLines,
         LegalEntries, MapOf;
    var printed := EntryLines(t, value, indent, step);
    assert lines[index].content == printed[0].1 && lines[index].indent == indent;
    match value {
      case DScalar(s) =>
        ScalarTextIsValue(s);
        InlineEntry(lines, index, indent, t, key, ScalarText(s), ScalarNode(s));
      case DList(items) =>
        ListEntryParses(lines, index, indent, step, t, key, items);
      case DMap(entries) =>
        if entries == End {
          EndPrintsNothing(indent + step, step);
          EmptyEntry(lines, index, indent, t, key);
        } else {
          BlockFollows(lines, index, indent, t, MapLines(entries, indent + step, step));
          MapBlockParses(lines, index + 1, indent + step, step, entries);
          BlockEntry(lines, index, indent, t, key, TreeOf(value), index + |printed|);
        }
    }
  }

  lemma {:induction false} MapBlockParses(lines: seq<SourceLine>, index: nat, indent: nat, step: nat, entries: Entries)
    requires step > 0 && LegalEntries(entries) && entries != End
    requires Matches(lines, index, MapLines(entries, indent, step))
    requires EndsAt(lines, index + |MapLines(entries, indent, step)|, indent)
    ensures lines[index].indent == indent
    ensures ParsedBlock(lines, index, indent) ==
            Ok((MapNode(MapOf(entries)), index + |MapLines(entries, indent, step)|))
    decreases entries, 1
  {
    hide LegalKey, MapFrom, Written;
    var printed := MapLines(entries, indent, step);
    assert lines[index].indent == printed[0].0 && lines[index].content == printed[0].1;
    FirstLineIsNoItem(entries, indent, step);
    MapLinesParse(lines, index, indent, step, entries, map[]);
    assert map[] + MapOf(entries) == MapOf(entries);
  }

  lemma FirstLineIsNoItem(entries: Entries, indent: nat, step: nat)
    requires entries != End && LegalKey(entries.key, entries.keyStyle)
    ensures var content := MapLines(entries, indent, step)[0].1; !HasPrefix(TrimSpace(content), "- ")
  {
    hide LegalKey, KeyText;
    var t := Written(entries.key, entries.keyStyle);
    WrittenIsKey(entries.key, entries.keyStyle);
    var content := MapLines(entries, indent, step)[0].1;
    FirstLineHasKey(t, entries.value, indent, step);
    NameStartsNoItem(t, entries.key, content);
  }

  lemma FirstLineHasKey(t: string, value: Doc, indent: nat, step: nat)
    ensures t + ":" <= EntryLines(t, value, indent, step)[0].1
  {
    match value {
      case DScalar(s) => assert t + ":" <= PairLine(t, ScalarText(s));
      case DList(items) => assert t + ":" <= PairLine(t, "[]");
      case DMap(_) =>
    }
  }

  lemma MapFromStep(lines: seq<SourceLine>, index: nat, indent: nat, done: map<string, Node>, key: string, value: Node,
                    next: nat)
    requires index < |lines| && lines[index].indent == indent && key !in done
    requires MapEntry(lines, index, indent) == Ok((key, value, next))
    ensures next <= |lines|
    ensures MapFrom(lines, index, indent, done) == MapFrom(lines, next, indent, done[key := value])
  {
  }

  lemma {:induction false} MapLinesParse(lines: seq<SourceLine>, index: nat, indent: nat, step: nat, entries: Entries,
                                         done: map<string, Node>)
    requires step > 0 && LegalEntries(entries) && done.Keys !! Keys(entries)
    requires Matches(lines, index, MapLines(entries, indent, step))
    requires EndsAt(lines, index + |MapLines(entries, indent, step)|, indent)
    ensures MapFrom(lines, index, indent, done) ==
            Ok((done + MapOf(entries), index + |MapLines(entries, indent, step)|))
    decreases entries, 0
  {
    hide MapEntry, EntryLines, TreeOf, LegalKey, KeyText, Written;
    match entries {
      case End =>
        assert done + MapOf(entries) == done;
      case Entry(key, keyStyle, value, rest) =>
        var t := Written(key, keyStyle);
        var first, others := EntryLines(t, value, indent, step), MapLines(rest, indent, step);
        var next, done' := index + |first|, done[key := TreeOf(value)];
        MatchesConcat(lines, index, first, others);
        assert lines[index].indent == first[0].0;
        RestStartsAt(lines, next, indent, step, rest);
        WrittenIsKey(key, keyStyle);
        EntryParses(lines, index, indent, step, t, key, value);
        MapFromStep(lines, index, indent, done, key, TreeOf(value), next);
        MapLinesParse(lines, next, indent, step, rest, done');
        assert done' + MapOf(rest) == done + MapOf(entries);
    }
  }

  lemma RestStartsAt(lines: seq<SourceLine>, next: nat, indent: nat, step: nat, rest: Entries)
    requires Matches(lines, next, MapLines(rest, indent, step))
    requires EndsAt(lines, next + |MapLines(rest, indent, step)|, indent)
    ensures EndsAt(lines, next, indent + 1)
  {
    if rest != End {
      assert lines[next].indent == MapLines(rest, indent, step)[0].0;
    }
  }

  // ---- printed lines are clean ----

  /** Content the tokenizer passes on as it is. */
  predicate Clean(content: string) {
    && content != "" && Trimmed(content)
    && content[0] != '#' && content != "---" && content != "..."
    && OneLine(content) && !HasInlineComment(content)
  }

  lemma PairHasNoComment(t: string, key: string, value: string)
    requires KeyText(t, key) && !HasInlineComment(" " + value)
    ensures !HasInlineComment(PairLine(t, value)) && !HasInlineComment(KeyLine(t))
  {
    hide HasInlineComment;
    PairSplits(t, value);
    DelimiterAfterName(t, key, ": " + value);
    DelimiterAfterName(t, key, ":");
    CommentIsInKeyOrValue(PairLine(t, value));
    CommentIsInKeyOrValue(KeyLine(t));
    EmptyHasNoComment();
  }

  lemma EmptyHasNoComment()
    ensures !HasInlineComment("")
  {
  }

  lemma KeyLinesAreClean(t: string, key: string, value: string, node: Node)
    requires KeyText(t, key) && ValueText(value, node)
    ensures Clean(KeyLine(t)) && Clean(PairLine(t, value))
  {
    PairHasNoComment(t, key, value);
    hide HasInlineComment, ParseInlineValue, ParseQuotedString, Scan;
    assert KeyLine(t)[|t|] == ':' && PairLine(t, value)[|t|] == ':';
  }

  lemma ItemHasNoComment(v: string)
    requires !HasInlineComment(" " + v)
    ensures !HasInlineComment("- " + v)
  {
    hide Scan;
    forall i | 0 <= i < |"- " + v| ensures !IsInlineComment("- " + v, i) {
      if i > 0 {
        assert ("- " + v)[..i] == "-" + (" " + v)[..i - 1];
        DashIsInert((" " + v)[..i - 1]);
        assert !IsInlineComment(" " + v, i - 1);
      }
    }
  }

  lemma ItemLineIsClean(s: Scalar)
    requires LegalScalar(s)
    ensures Clean("- " + ScalarText(s))
  {
    ScalarTextIsValue(s);
    hide LegalScalar, ScalarText, ParseInlineValue, HasInlineComment;
    var v := ScalarText(s);
    ItemHasNoComment(v);
    assert ("- " + v)[|v| + 1] == v[|v| - 1] && ("- " + v)[1] == ' ';
    assert OneLine("- " + v);
  }

  lemma DashIsInert(s: string)
    ensures Scan(PLAIN, "-" + s) == Scan(PLAIN, s)
  {
    ScanConcat(PLAIN, "-", s);
    ScanOne(PLAIN, '-');
  }

  lemma {:induction false} EntryLinesAreClean(t: string, key: string, value: Doc, indent: nat, step: nat)
    requires KeyText(t, key) && Legal(value)
    ensures forall p | p in EntryLines(t, value, indent, step) :: Clean(p.1)
    decreases value
  {
    hide Clean, KeyLine, PairLine, ScalarText, KeyText, ValueText, LegalScalar;
    EmptyListIsValue();
    KeyLinesAreClean(t, key, "[]", ListNode([]));
    match value {
      case DScalar(s) =>
        ScalarTextIsValue(s);
        KeyLinesAreClean(t, key, ScalarText(s), ScalarNode(s));
      case DList(items) =>
        forall s | s in items ensures Clean("- " + ScalarText(s)) { ItemLineIsClean(s); }
      case DMap(entries) =>
        MapLinesAreClean(entries, indent + step, step);
    }
  }

  lemma {:induction false} MapLinesAreClean(entries: Entries, indent: nat, step: nat)
    requires LegalEntries(entries)
    ensures forall p | p in MapLines(entries, indent, step) :: Clean(p.1)
    decreases entries
  {
    hide Clean, LegalKey, KeyText, Written, EntryLines;
    match entries {
      case End =>
      case Entry(key, keyStyle, value, rest) =>
        WrittenIsKey(key, keyStyle);
        EntryLinesAreClean(Written(key, keyStyle), key, value, indent, step);
        MapLinesAreClean(rest, indent, step);
    }
  }

  // ---- lines of text ----

  lemma SpacesAreSpaces(n: nat)
    ensures |Spaces(n)| == n && OneLine(Spaces(n))
  {
  }

  lemma {:induction false} SpacesAreSkipped(n: nat, content: string)
    requires content == "" || !IsSpace(content[0])
    ensures CountLeading(Spaces(n) + content, ' ') == n
    ensures TrimLeft(Spaces(n) + content) == content
  {
    if n == 0 {
      assert Spaces(0) + content == content;
    } else {
      SpacesAreSkipped(n - 1, content);
      assert (Spaces(n) + content)[1..] == Spaces(n - 1) + content;
    }
  }

  lemma EndOfLineIsTrimmed(s: string, crlf: bool)
    requires s == "" || s[|s| - 1] != '\r'
    ensures TrimSuffixByte(s + EndOfLine(crlf), '\r') == s
  {
  }

  lemma CleanLineTokenizes(line: PrintedLine, crlf: bool, number: nat)
    requires Clean(line.1)
    ensures TokenizeLine(LineText(line, crlf), number) == Line(SourceLine(number, line.0, line.1))
    ensures '\n' !in LineText(line, crlf)
  {
    hide HasInlineComment, TrimLeft, CountLeading, Spaces;
    var raw := Spaces(line.0) + line.1;
    SpacesAreSkipped(line.0, line.1);
    SpacesAreSpaces(line.0);
    assert raw[|raw| - 1] == line.1[|line.1| - 1];
    assert raw[line.0..] == line.1;
    EndOfLineIsTrimmed(raw, crlf);
  }

  lemma BlankIsSkipped(spaces: nat, crlf: bool, number: nat)
    ensures TokenizeLine(FillerLine(Blank(spaces, crlf)), number) == Skip
  {
    SpacesAreSpaces(spaces);
    SpacesAreSkipped(spaces, "");
    hide TrimLeft, Spaces;
    assert Spaces(spaces) + "" == Spaces(spaces);
    SpacesEndInSpace(spaces);
    EndOfLineIsTrimmed(Spaces(spaces), crlf);
  }

  lemma SpacesEndInSpace(n: nat)
    ensures n > 0 ==> Spaces(n)[|Spaces(n)| - 1] == ' '
  {
  }

  /** A comment stays one whatever is trimmed off its end. */
  lemma CommentIsSkipped(spaces: nat, text: string, crlf: bool, number: nat)
    requires OneLine(text)
    ensures TokenizeLine(FillerLine(Comment(spaces, text, crlf)), number) == Skip
  {
    hide Spaces, TrimLeft, TrimRight;
    var line := FillerLine(Comment(spaces, text, crlf));
    var raw := TrimSuffixByte(line, '\r');
    SpacesAreSpaces(spaces);
    assert line[spaces] == '#' && line[..spaces] == Spaces(spaces);
    assert |raw| > spaces && raw[spaces] == '#' && raw[..spaces] == Spaces(spaces);
    var body := raw[spaces..];
    assert raw == Spaces(spaces) + body;
    SpacesAreSkipped(spaces, body);
    HashStays(body);
    assert '\t' !in line;
  }

  lemma {:induction false} HashStays(s: string)
    requires s != "" && s[0] == '#'
    ensures HasPrefix(TrimRight(s), "#")
  {
    if IsSpace(s[|s| - 1]) {
      HashStays(s[..|s| - 1]);
    }
  }

  lemma FillerIsSkipped(f: Filler, number: nat)
    requires LegalFiller(f)
    ensures TokenizeLine(FillerLine(f), number) == Skip && '\n' !in FillerLine(f)
  {
    match f {
      case Blank(spaces, crlf) =>
        BlankIsSkipped(spaces, crlf, number);
        SpacesAreSpaces(spaces);
      case Comment(spaces, text, crlf) =>
        CommentIsSkipped(spaces, text, crlf, number);
        SpacesAreSpaces(spaces);
    }
  }

  lemma {:induction false} FillersAreSkipped(raw: seq<string>, j: nat, fillers: seq<Filler>)
    requires j + |fillers| <= |raw| && raw[j..j + |fillers|] == FillerLines(fillers)
    requires forall f | f in fillers :: LegalFiller(f)
    ensures TokenizeFrom(raw, j) == TokenizeFrom(raw, j + |fillers|)
    decreases |fillers|
  {
    hide TokenizeLine, FillerLine, LegalFiller;
    if fillers != [] {
      assert raw[j] == raw[j..j + |fillers|][0] == FillerLine(fillers[0]);
      FillerIsSkipped(fillers[0], j + 1);
      assert raw[j + 1..j + |fillers|] == FillerLines(fillers)[1..] == FillerLines(fillers[1..]);
      FillersAreSkipped(raw, j + 1, fillers[1..]);
    }
  }

  lemma LastLineIsSkipped(raw: seq<string>, j: nat)
    requires j <= |raw| && raw[j..] == [""]
    ensures TokenizeFrom(raw, j) == Ok([])
  {
    assert raw[j] == raw[j..][0] == "";
    assert TokenizeLine("", j + 1) == Skip;
    assert TokenizeFrom(raw, j + 1) == Ok([]);
  }

  lemma OneLineTokenizes(raw: seq<string>, j: nat, line: SourceLine)
    requires j < |raw| && TokenizeLine(raw[j], j + 1) == Line(line)
    ensures TokenizeFrom(raw, j) == After([line], TokenizeFrom(raw, j + 1))
  {
  }

  /** The source lines are the printed ones, all of them. */
  ghost predicate Tokens(r: Parse<seq<SourceLine>>, printed: seq<PrintedLine>) {
    r.Ok? && |r.value| == |printed| && Matches(r.value, 0, printed)
  }

  lemma TokensStep(line: SourceLine, rest: Parse<seq<SourceLine>>, printed: seq<PrintedLine>)
    requires printed != [] && Tokens(rest, printed[1..])
    requires line.indent == printed[0].0 && line.content == printed[0].1
    ensures Tokens(After([line], rest), printed)
  {
    var lines := [line] + rest.value;
    forall j | 0 <= j < |lines| ensures lines[j].indent == printed[j].0 && lines[j].content == printed[j].1 {
      if j > 0 {
        assert lines[j] == rest.value[j - 1] && printed[1..][j - 1] == printed[j];
      }
    }
  }

  lemma {:induction false} TextTokenizes(printed: seq<PrintedLine>, i: nat, layout: nat -> Layout, raw: seq<string>, j: nat)
    requires i <= |printed| && LegalLayout(layout, |printed|) && forall p | p in printed :: Clean(p.1)
    requires j <= |raw| && raw[j..] == TextLines(printed, i, layout) + [""]
    ensures Tokens(TokenizeFrom(raw, j), printed[i..])
    decreases |printed| - i
  {
    hide TokenizeLine, Clean, TokenizeFrom, Tokens, FillerLines, LineText;
    var fillers := layout(i).before;
    var k := j + |fillers|;
    assert raw[j..][..|fillers|] == FillerLines(fillers);
    FillersAreSkipped(raw, j, fillers);
    assert raw[k..] == raw[j..][|fillers|..];
    if i == |printed| {
      LastLineIsSkipped(raw, k);
      NoTokens();
    } else {
      assert raw[k] == raw[k..][0] == LineText(printed[i], layout(i).crlf);
      CleanLineTokenizes(printed[i], layout(i).crlf, k + 1);
      OneLineTokenizes(raw, k, SourceLine(k + 1, printed[i].0, printed[i].1));
      assert raw[k + 1..] == raw[k..][1..] == TextLines(printed, i + 1, layout) + [""];
      TextTokenizes(printed, i + 1, layout, raw, k + 1);
      assert printed[i..][1..] == printed[i + 1..];
      TokensStep(SourceLine(k + 1, printed[i].0, printed[i].1), TokenizeFrom(raw, k + 1), printed[i..]);
    }
  }

  lemma NoTokens()
    ensures Tokens(Ok([]), [])
  {
  }

  lemma {:induction false} SplitJoined(lines: seq<string>)
    requires forall line | line in lines :: '\n' !in line
    ensures Split(Joined(lines), '\n') == lines + [""]
  {
    if lines != [] {
      SplitJoined(lines[1..]);
      SplitAtSeparator(lines[0], '\n', Joined(lines[1..]));
      assert Joined(lines) == lines[0] + ['\n'] + Joined(lines[1..]);
    }
  }

  lemma {:induction false} TextHasOneLineEach(printed: seq<PrintedLine>, i: nat, layout: nat -> Layout)
    requires i <= |printed| && LegalLayout(layout, |printed|) && forall p | p in printed :: Clean(p.1)
    ensures forall line | line in TextLines(printed, i, layout) :: '\n' !in line
    decreases |printed| - i
  {
    hide Clean, LineText, FillerLine, LegalFiller;
    forall line | line in FillerLines(layout(i).before) ensures '\n' !in line {
      var k :| 0 <= k < |layout(i).before| && FillerLine(layout(i).before[k]) == line;
      FillerIsSkipped(layout(i).before[k], 0);
    }
    if i < |printed| {
      CleanLineTokenizes(printed[i], layout(i).crlf, 0);
      TextHasOneLineEach(printed, i + 1, layout);
    }
  }

  // ---- the round trip ----

  lemma PrintTokenizes(entries: Entries, step: nat, layout: nat -> Layout)
    requires LegalEntries(entries) && LegalLayout(layout, |MapLines(entries, 0, step)|)
    ensures Tokens(Tokenized(Print(entries, step, layout)), MapLines(entries, 0, step))
  {
    hide Clean, MapLines, TokenizeFrom, TextLines, Tokens, Joined, Split, LegalLayout;
    var printed := MapLines(entries, 0, step);
    MapLinesAreClean(entries, 0, step);
    TextHasOneLineEach(printed, 0, layout);
    var lines := TextLines(printed, 0, layout);
    SplitJoined(lines);
    var raw := lines + [""];
    assert raw[0..] == raw && printed[0..] == printed;
    TextTokenizes(printed, 0, layout, raw, 0);
  }

  /** Tokenizing and block-parsing a printed nonempty map gives back exactly its tree and uses up every line, whatever
      the keys and strings contain, however they are written, in whatever order the keys are printed, and whatever
      blank lines, comments and line ends there are. */
  lemma TokenizeAndParseUndoPrint(entries: Entries, step: nat, layout: nat -> Layout)
    requires step > 0 && LegalEntries(entries) && entries != End
    requires LegalLayout(layout, |MapLines(entries, 0, step)|)
    ensures Tokenized(Print(entries, step, layout)).Ok?
    ensures var lines := Tokenized(Print(entries, step, layout)).value;
            lines != [] && lines[0].indent == 0 &&
            ParsedBlock(lines, 0, 0) == Ok((MapNode(MapOf(entries)), |lines|))
  {
    hide ParsedBlock, Clean, Tokenized, Print, MapLines, MapOf, LegalLayout;
    PrintTokenizes(entries, step, layout);
    MapBlockParses(Tokenized(Print(entries, step, layout)).value, 0, 0, step, entries);
  }
}
