/** Every line a successful parse consumes is one map entry or one list item of the tree. */
module LineConservation {
  import opened Text
  import opened Quoting
  import opened Parser

  /** Map entries plus list items of the whole tree. */
  ghost function Size(n: Node): nat
    decreases n
  {
    match n
    case MapNode(entries) => EntriesSize(n, entries.Keys)
    case ListNode(items) => |items|
    case _ => 0
  }

  ghost function EntriesSize(n: Node, keys: set<string>): nat
    requires n.MapNode? && keys <= n.entries.Keys
    decreases n, |keys|
  {
    if keys == {} then 0
    else
      var k :| k in keys;
      1 + Size(n.entries[k]) + EntriesSize(n, keys - {k})
  }

  lemma {:induction false} SizeWithout(n: Node, keys: set<string>, k: string)
    requires n.MapNode? && keys <= n.entries.Keys && k in keys
    ensures EntriesSize(n, keys) == 1 + Size(n.entries[k]) + EntriesSize(n, keys - {k})
    decreases |keys|
  {
    var p :| p in keys && EntriesSize(n, keys) == 1 + Size(n.entries[p]) + EntriesSize(n, keys - {p});
    if p != k {
      SizeWithout(n, keys - {p}, k);
      SizeWithout(n, keys - {k}, p);
      assert keys - {p} - {k} == keys - {k} - {p};
    }
  }

  lemma {:induction false} SizeAgrees(n: Node, m: Node, keys: set<string>)
    requires n.MapNode? && m.MapNode? && keys <= n.entries.Keys && keys <= m.entries.Keys
    requires forall k | k in keys :: n.entries[k] == m.entries[k]
    ensures EntriesSize(n, keys) == EntriesSize(m, keys)
    decreases |keys|
  {
    if keys != {} {
      var k :| k in keys;
      SizeWithout(n, keys, k);
      SizeWithout(m, keys, k);
      SizeAgrees(n, m, keys - {k});
    }
  }

  lemma NewEntryAddsSize(entries: map<string, Node>, key: string, value: Node)
    requires key !in entries
    ensures Size(MapNode(entries[key := value])) == Size(MapNode(entries)) + 1 + Size(value)
  {
    var n, m := MapNode(entries), MapNode(entries[key := value]);
    SizeWithout(m, m.entries.Keys, key);
    assert m.entries.Keys - {key} == n.entries.Keys;
    SizeAgrees(m, n, n.entries.Keys);
  }

  ghost predicate IndentedFrom(lines: seq<SourceLine>, index: nat, next: nat, indent: nat) {
    index <= next <= |lines| && forall k | index <= k < next :: lines[k].indent >= indent
  }

  /** A block parsed from line `i` to line `j` holds exactly `j - i` map entries and list items, and all its lines
      are indented at least as far as the block. */
  lemma {:induction false} BlockConservesLines(lines: seq<SourceLine>, index: nat, indent: nat)
    requires ParsedBlock(lines, index, indent).Ok?
    ensures var (node, next) := ParsedBlock(lines, index, indent).value;
            index < next && next - index == Size(node) && IndentedFrom(lines, index, next, indent)
    decreases |lines| - index, 2
  {
    if HasPrefix(TrimSpace(lines[index].content), "- ") {
      ListConservesLines(lines, index, indent, []);
    } else {
      MapConservesLines(lines, index, indent, map[]);
    }
  }

  lemma {:induction false} MapConservesLines(lines: seq<SourceLine>, index: nat, indent: nat, entries: map<string, Node>)
    requires index <= |lines| && MapFrom(lines, index, indent, entries).Ok?
    ensures var (all, next) := MapFrom(lines, index, indent, entries).value;
            next - index == Size(MapNode(all)) - Size(MapNode(entries)) && IndentedFrom(lines, index, next, indent)
    decreases |lines| - index, 1
  {
    if index < |lines| && lines[index].indent >= indent {
      EntryConservesLines(lines, index, indent);
      var (key, value, next) := MapEntry(lines, index, indent).value;
      NewEntryAddsSize(entries, key, value);
      MapConservesLines(lines, next, indent, entries[key := value]);
    }
  }

  lemma {:induction false} EntryConservesLines(lines: seq<SourceLine>, index: nat, indent: nat)
    requires index < |lines| && lines[index].indent >= indent && MapEntry(lines, index, indent).Ok?
    ensures var (key, value, next) := MapEntry(lines, index, indent).value;
            next - index == 1 + Size(value) && IndentedFrom(lines, index, next, indent)
    decreases |lines| - index, 0
  {
    var (key, rawValue) := SplitKeyValue(TrimSpace(lines[index].content)).value;
    if rawValue != "" {
      InlineHasNoSize(rawValue);
    } else if index + 1 < |lines| && lines[index + 1].indent > indent {
      BlockConservesLines(lines, index + 1, lines[index + 1].indent);
    }
  }

  lemma InlineHasNoSize(raw: string)
    requires ParseInlineValue(raw).Ok?
    ensures Size(ParseInlineValue(raw).value) == 0
  {
  }

  lemma {:induction false} ListConservesLines(lines: seq<SourceLine>, index: nat, indent: nat, items: seq<Node>)
    requires index <= |lines| && ListFrom(lines, index, indent, items).Ok?
    ensures var (all, next) := ListFrom(lines, index, indent, items).value;
            next - index == |all| - |items| && IndentedFrom(lines, index, next, indent)
    decreases |lines| - index
  {
    if index < |lines| && lines[index].indent == indent {
      var content := TrimSpace(lines[index].content);
      if HasPrefix(content, "- ") {
        ListConservesLines(lines, index + 1, indent, items + [ListItem(content).value]);
      }
    }
  }

  /** A document that parses has one map entry or list item for every line that is not blank or a comment. */
  lemma DocumentConservesLines(data: string)
    requires ParsedDocument(data).Ok?
    ensures Tokenized(data).Ok? && Size(ParsedDocument(data).value) == |Tokenized(data).value|
  {
    hide Tokenized, ParsedBlock;
    BlockConservesLines(Tokenized(data).value, 0, 0);
  }

  // ---- one entry for each line at the block's own indent ----

  /** The lines in the range that are indented exactly as far as the block. */
  function LinesAt(lines: seq<SourceLine>, from: nat, to: nat, indent: nat): nat
    requires from <= to <= |lines|
    decreases |lines| - from
  {
    if from == to then 0 else (if lines[from].indent == indent then 1 else 0) + LinesAt(lines, from + 1, to, indent)
  }

  lemma {:induction false} LinesAtSplits(lines: seq<SourceLine>, from: nat, mid: nat, to: nat, indent: nat)
    requires from <= mid <= to <= |lines|
    ensures LinesAt(lines, from, to, indent) == LinesAt(lines, from, mid, indent) + LinesAt(lines, mid, to, indent)
    decreases mid - from
  {
    if from < mid {
      LinesAtSplits(lines, from + 1, mid, to, indent);
    }
  }

  lemma {:induction false} DeeperLinesAreNotAt(lines: seq<SourceLine>, from: nat, to: nat, indent: nat)
    requires from <= to && IndentedFrom(lines, from, to, indent + 1)
    ensures LinesAt(lines, from, to, indent) == 0
    decreases |lines| - from
  {
    if from < to {
      DeeperLinesAreNotAt(lines, from + 1, to, indent);
    }
  }

  lemma EntryTakesOneLine(lines: seq<SourceLine>, index: nat, indent: nat)
    requires index < |lines| && lines[index].indent >= indent && MapEntry(lines, index, indent).Ok?
    ensures LinesAt(lines, index, MapEntry(lines, index, indent).value.2, indent) == 1
  {
    hide ParsedBlock, SplitKeyValue, ParseInlineValue, TrimSpace;
    var next := MapEntry(lines, index, indent).value.2;
    if next > index + 1 {
      BlockConservesLines(lines, index + 1, lines[index + 1].indent);
    }
    DeeperLinesAreNotAt(lines, index + 1, next, indent);
  }

  lemma {:induction false} MapTakesItsLines(lines: seq<SourceLine>, index: nat, indent: nat, entries: map<string, Node>)
    requires index <= |lines| && MapFrom(lines, index, indent, entries).Ok?
    ensures var (all, next) := MapFrom(lines, index, indent, entries).value;
            LinesAt(lines, index, next, indent) == |all| - |entries|
    decreases |lines| - index
  {
    hide MapEntry;
    if index < |lines| && lines[index].indent >= indent {
      EntryTakesOneLine(lines, index, indent);
      var (key, value, next) := MapEntry(lines, index, indent).value;
      MapTakesItsLines(lines, next, indent, entries[key := value]);
      var (all, end) := MapFrom(lines, index, indent, entries).value;
      LinesAtSplits(lines, index, next, end, indent);
      NewKeyCounts(entries, key, value);
    }
  }

  lemma NewKeyCounts(entries: map<string, Node>, key: string, value: Node)
    requires key !in entries
    ensures |entries[key := value]| == |entries| + 1
  {
    assert entries[key := value].Keys == entries.Keys + {key};
    assert |entries[key := value].Keys| == |entries.Keys| + 1;
  }

  lemma {:induction false} ListTakesItsLines(lines: seq<SourceLine>, index: nat, indent: nat, items: seq<Node>)
    requires index <= |lines| && ListFrom(lines, index, indent, items).Ok?
    ensures var (all, next) := ListFrom(lines, index, indent, items).value;
            LinesAt(lines, index, next, indent) == next - index == |all| - |items|
    decreases |lines| - index
  {
    hide ListItem, TrimSpace;
    if index < |lines| && lines[index].indent == indent {
      var content := TrimSpace(lines[index].content);
      if HasPrefix(content, "- ") {
        ListTakesItsLines(lines, index + 1, indent, items + [ListItem(content).value]);
      }
    }
  }

  /** A block has one entry or item for each of its lines at exactly its own indent; deeper lines belong to the entry
      above them. */
  lemma BlockTakesItsLines(lines: seq<SourceLine>, index: nat, indent: nat)
    requires ParsedBlock(lines, index, indent).Ok?
    ensures var (node, next) := ParsedBlock(lines, index, indent).value;
            && index <= next <= |lines|
            && (node.MapNode? ==> LinesAt(lines, index, next, indent) == |node.entries|)
            && (node.ListNode? ==> LinesAt(lines, index, next, indent) == |node.items|)
            && (node.MapNode? || node.ListNode?)
  {
    hide MapFrom, ListFrom, TrimSpace;
    if HasPrefix(TrimSpace(lines[index].content), "- ") {
      ListTakesItsLines(lines, index, indent, []);
    } else {
      MapTakesItsLines(lines, index, indent, map[]);
    }
  }
}
