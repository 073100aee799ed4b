/** What accepted documents look like, and texts no document may contain. */
module ParsedTrees {
  import opened Text
  import opened Quoting
  import opened Parser
  import opened DocumentRoundTrip

  // ---- trees ----

  ghost predicate IsScalar(n: Node) {
    !n.MapNode? && !n.ListNode? && Printable(n)
  }

  lemma InlineIsPrintable(raw: string)
    requires ParseInlineValue(raw).Ok?
    ensures Printable(ParseInlineValue(raw).value)
    ensures !ParseInlineValue(raw).value.MapNode?
  {
    AtoiIsInt64(raw);
    hide Atoi;
  }

  lemma AtoiIsInt64(raw: string)
    ensures Atoi(raw).Number? ==> IsInt64(Atoi(raw).value)
  {
  }

  lemma {:induction false} ListIsPrintable(lines: seq<SourceLine>, index: nat, indent: nat, items: seq<Node>)
    requires index <= |lines| && ListFrom(lines, index, indent, items).Ok? && forall n | n in items :: IsScalar(n)
    ensures forall n | n in ListFrom(lines, index, indent, items).value.0 :: IsScalar(n)
    decreases |lines| - index
  {
    hide ParseInlineValue, TrimSpace, IsScalar;
    if index < |lines| && lines[index].indent == indent && HasPrefix(TrimSpace(lines[index].content), "- ") {
      var item := ListItem(TrimSpace(lines[index].content)).value;
      ItemIsScalar(TrimSpace(lines[index].content));
      ListIsPrintable(lines, index + 1, indent, items + [item]);
    }
  }

  lemma ItemIsScalar(content: string)
    requires HasPrefix(content, "- ") && ListItem(content).Ok?
    ensures IsScalar(ListItem(content).value)
  {
    hide ParseInlineValue;
    InlineIsPrintable(TrimSpace(content[2..]));
  }

  ghost predicate AllPrintable(entries: map<string, Node>) {
    forall k | k in entries :: Printable(entries[k])
  }

  lemma {:induction false} BlockIsPrintable(lines: seq<SourceLine>, index: nat, indent: nat)
    requires ParsedBlock(lines, index, indent).Ok?
    ensures var n := ParsedBlock(lines, index, indent).value.0;
            Printable(n) && (n.MapNode? ==> n.entries != map[])
    decreases |lines| - index, 2
  {
    hide TrimSpace, ListFrom, MapFrom;
    if HasPrefix(TrimSpace(lines[index].content), "- ") {
      ListIsPrintable(lines, index, indent, []);
      var items := ListFrom(lines, index, indent, []).value.0;
      assert forall i | 0 <= i < |items| :: items[i] in items;
    } else {
      MapIsPrintable(lines, index, indent, map[]);
    }
  }

  lemma {:induction false} MapIsPrintable(lines: seq<SourceLine>, index: nat, indent: nat, entries: map<string, Node>)
    requires index <= |lines| && MapFrom(lines, index, indent, entries).Ok? && AllPrintable(entries)
    ensures AllPrintable(MapFrom(lines, index, indent, entries).value.0)
    ensures (index < |lines| && lines[index].indent == indent) || entries != map[] ==>
              MapFrom(lines, index, indent, entries).value.0 != map[]
    decreases |lines| - index, 1
  {
    hide MapEntry, Printable;
    if index < |lines| && lines[index].indent >= indent {
      EntryIsPrintable(lines, index, indent);
      var (key, value, next) := MapEntry(lines, index, indent).value;
      assert key in entries[key := value];
      MapIsPrintable(lines, next, indent, entries[key := value]);
    }
  }

  lemma {:induction false} EntryIsPrintable(lines: seq<SourceLine>, index: nat, indent: nat)
    requires index < |lines| && lines[index].indent >= indent && MapEntry(lines, index, indent).Ok?
    ensures Printable(MapEntry(lines, index, indent).value.1)
    decreases |lines| - index, 0
  {
    hide SplitKeyValue, ParseInlineValue, TrimSpace, ParsedBlock;
    var (key, rawValue) := SplitKeyValue(TrimSpace(lines[index].content)).value;
    if rawValue != "" {
      InlineIsPrintable(rawValue);
    } else if index + 1 < |lines| && lines[index + 1].indent > indent {
      BlockIsPrintable(lines, index + 1, lines[index + 1].indent);
    }
  }

  /** Only nonempty maps of maps, lists of scalars and machine-range scalars are ever parsed. That every such tree is
      the parse of some text is EveryTreeIsParsed. */
  lemma ParsedIsPrintable(data: string)
    requires ParsedDocument(data).Ok?
    ensures var n := ParsedDocument(data).value; n.MapNode? && n.entries != map[] && Printable(n)
  {
    hide Tokenized, ParsedBlock, Printable;
    BlockIsPrintable(Tokenized(data).value, 0, 0);
  }

  // ---- texts ----

  lemma {:induction false} BadLineFails(raw: seq<string>, i: nat, j: nat)
    requires i <= j < |raw| && TokenizeLine(raw[j], j + 1).Bad?
    ensures TokenizeFrom(raw, i) == Err
    decreases j - i
  {
    hide TokenizeLine;
    if i < j {
      BadLineFails(raw, i + 1, j);
    }
  }

  lemma {:induction false} ByteIsInSomeLine(s: string, c: char)
    requires c in s && c != '\n'
    ensures exists j :: 0 <= j < |Split(s, '\n')| && c in Split(s, '\n')[j]
  {
    var rest := Split(s[1..], '\n');
    if c in s[1..] {
      ByteIsInSomeLine(s[1..], c);
      var j :| 0 <= j < |rest| && c in rest[j];
      if s[0] == '\n' {
        assert Split(s, '\n')[j + 1] == rest[j];
      } else if j > 0 {
        assert Split(s, '\n')[j] == rest[j];
      } else {
        assert c in Split(s, '\n')[0];
      }
    } else {
      assert s[0] == c && Split(s, '\n')[0] == [s[0]] + rest[0];
    }
  }

  /** A tab anywhere, in a comment, a quoted text or an indentation, has the document rejected. */
  lemma TabIsRejected(data: string)
    requires '\t' in data
    ensures ParsedDocument(data) == Err
  {
    hide Split, TokenizeFrom;
    ByteIsInSomeLine(data, '\t');
    var raw := Split(data, '\n');
    var j :| 0 <= j < |raw| && '\t' in raw[j];
    TabLineIsBad(raw[j], j + 1);
    BadLineFails(raw, 0, j);
  }

  lemma TabLineIsBad(text: string, number: nat)
    requires '\t' in text
    ensures TokenizeLine(text, number) == Bad
  {
    if text[|text| - 1] == '\r' {
      var k :| 0 <= k < |text| && text[k] == '\t';
      assert text[..|text| - 1][k] == '\t';
    }
  }

  /** A line that is a document marker has the document rejected. */
  lemma MarkerIsRejected(data: string, j: nat)
    requires j < |Split(data, '\n')|
    requires var raw := TrimSuffixByte(Split(data, '\n')[j], '\r'); TrimSpace(raw) == "---" || TrimSpace(raw) == "..."
    ensures ParsedDocument(data) == Err
  {
    hide TokenizeFrom, TokenizeLine;
    MarkerLineIsBad(Split(data, '\n')[j], j + 1);
    BadLineFails(Split(data, '\n'), 0, j);
  }

  lemma MarkerLineIsBad(text: string, number: nat)
    requires var trimmed := TrimSpace(TrimSuffixByte(text, '\r')); trimmed == "---" || trimmed == "..."
    ensures TokenizeLine(text, number) == Bad
  {
    var trimmed := TrimSpace(TrimSuffixByte(text, '\r'));
    hide TrimSpace;
    assert trimmed[0] != '#';
  }

  /** So has a line whose content shows a comment behind a space, outside quotes. */
  lemma InlineCommentIsRejected(data: string, j: nat)
    requires j < |Split(data, '\n')|
    requires var raw := TrimSuffixByte(Split(data, '\n')[j], '\r');
             && TrimSpace(raw) != "" && !HasPrefix(TrimSpace(raw), "#")
             && HasInlineComment(raw[CountLeading(raw, ' ')..])
    ensures ParsedDocument(data) == Err
  {
    hide TokenizeFrom, TokenizeLine, HasInlineComment, TrimSpace;
    CommentLineIsBad(Split(data, '\n')[j], j + 1);
    BadLineFails(Split(data, '\n'), 0, j);
  }

  lemma CommentLineIsBad(text: string, number: nat)
    requires var raw := TrimSuffixByte(text, '\r');
             && TrimSpace(raw) != "" && !HasPrefix(TrimSpace(raw), "#")
             && HasInlineComment(raw[CountLeading(raw, ' ')..])
    ensures TokenizeLine(text, number) == Bad
  {
    hide HasInlineComment, TrimSpace;
  }
}
