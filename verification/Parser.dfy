/** The contract parser up to the node tree: tokenize, parseBlock, parseMap, parseList and parseInlineValue.
    Line numbers of nodes and the wording of errors are left out. */
module Parser {
  import opened Text
  import opened Quoting
  import Utf8

  datatype Node =
    | MapNode(entries: map<string, Node>)
    | ListNode(items: seq<Node>)
    | StringNode(text: string)
    | IntNode(number: int)
    | BoolNode(flag: bool)

  datatype SourceLine = SourceLine(number: nat, indent: nat, content: string)

  datatype Parse<+T> = Ok(value: T) | Err

  // ---- one line ----

  datatype LineToken = Skip | Bad | Line(line: SourceLine)

  function TokenizeLine(text: string, number: nat): LineToken {
    var raw := TrimSuffixByte(text, '\r');
    var trimmed := TrimSpace(raw);
    if '\t' in raw then Bad
    else if trimmed == "" || HasPrefix(trimmed, "#") then Skip
    else if trimmed == "---" || trimmed == "..." then Bad
    else
      var indent := CountLeading(raw, ' ');
      var content := raw[indent..];
      if HasInlineComment(content) then Bad else Line(SourceLine(number, indent, content))
  }

  function After(front: seq<SourceLine>, rest: Parse<seq<SourceLine>>): Parse<seq<SourceLine>> {
    if rest.Ok? then Ok(front + rest.value) else Err
  }

  lemma AfterConcat(front: seq<SourceLine>, more: seq<SourceLine>, rest: Parse<seq<SourceLine>>)
    ensures After(front, After(more, rest)) == After(front + more, rest)
    ensures After([], rest) == rest
  {
    if rest.Ok? {
      assert front + (more + rest.value) == (front + more) + rest.value;
      assert [] + rest.value == rest.value;
    }
  }

  function TokenizeFrom(rawLines: seq<string>, i: nat): Parse<seq<SourceLine>>
    requires i <= |rawLines|
    decreases |rawLines| - i
  {
    if i == |rawLines| then Ok([])
    else
      match TokenizeLine(rawLines[i], i + 1)
      case Bad => Err
      case Skip => TokenizeFrom(rawLines, i + 1)
      case Line(line) => After([line], TokenizeFrom(rawLines, i + 1))
  }

  function Tokenized(data: string): Parse<seq<SourceLine>> {
    TokenizeFrom(Split(data, '\n'), 0)
  }

  predicate UnsupportedScalar(raw: string) {
    HasPrefix(raw, "&") || HasPrefix(raw, "*") || HasPrefix(raw, "!")
  }

  predicate UnsupportedKey(key: string) {
    key == "<<" || UnsupportedScalar(key)
  }

  function SplitKeyValue(content: string): Parse<(string, string)> {
    var d := KeyValueDelimiterOf(content);
    if !d.At? then Err
    else
      var rawKey := TrimSpace(content[..d.index]);
      var value := TrimSpace(content[d.index + 1..]);
      if rawKey == "" then Err
      else
        match ParseQuotedString(rawKey)
        case Malformed => Err
        case Quoted(key) => Ok((key, value))
        case Bare(key) => if d.sawPlainColon || UnsupportedKey(key) then Err else Ok((key, value))
  }

  function ParseInlineValue(raw: string): Parse<Node> {
    if raw == "[]" then Ok(ListNode([]))
    else if HasPrefix(raw, "[") || HasPrefix(raw, "{") || HasPrefix(raw, "|") || HasPrefix(raw, ">") then Err
    else if UnsupportedScalar(raw) then Err
    else
      match ParseQuotedString(raw)
      case Malformed => Err
      case Quoted(text) => Ok(StringNode(text))
      case Bare(_) =>
        if raw == "true" then Ok(BoolNode(true))
        else if raw == "false" then Ok(BoolNode(false))
        else if Atoi(raw).Number? then Ok(IntNode(Atoi(raw).value))
        else Ok(StringNode(raw))
  }

  // ---- blocks ----

  function ParsedBlock(lines: seq<SourceLine>, index: nat, indent: nat): (r: Parse<(Node, nat)>)
    ensures r.Ok? ==> index < r.value.1 <= |lines|
    decreases |lines| - index, 2
  {
    if index >= |lines| || lines[index].indent != indent then Err
    else if HasPrefix(TrimSpace(lines[index].content), "- ") then
      match ListFrom(lines, index, indent, [])
      case Err => Err
      case Ok((items, next)) => Ok((ListNode(items), next))
    else
      match MapFrom(lines, index, indent, map[])
      case Err => Err
      case Ok((entries, next)) => Ok((MapNode(entries), next))
  }

  /** The loop of parseMap from line `index` on, with `entries` read so far. */
  function MapFrom(lines: seq<SourceLine>, index: nat, indent: nat, entries: map<string, Node>)
    : (r: Parse<(map<string, Node>, nat)>)
    requires index <= |lines|
    ensures r.Ok? ==> index <= r.value.1 <= |lines|
    ensures r.Ok? && index < |lines| && lines[index].indent == indent ==> index < r.value.1
    decreases |lines| - index, 1
  {
    if index == |lines| || lines[index].indent < indent then Ok((entries, index))
    else
      match MapEntry(lines, index, indent)
      case Err => Err
      case Ok((key, value, next)) =>
        if key in entries then Err else MapFrom(lines, next, indent, entries[key := value])
  }

  /** One turn of that loop: the key and value of the entry at line `index`, and the line after it. */
  function MapEntry(lines: seq<SourceLine>, index: nat, indent: nat): (r: Parse<(string, Node, nat)>)
    requires index < |lines| && lines[index].indent >= indent
    ensures r.Ok? ==> index < r.value.2 <= |lines| && lines[index].indent == indent
    decreases |lines| - index, 0
  {
    var content := TrimSpace(lines[index].content);
    if lines[index].indent > indent || HasPrefix(content, "- ") then Err
    else
      match SplitKeyValue(content)
      case Err => Err
      case Ok((key, rawValue)) =>
        if rawValue != "" then
          match ParseInlineValue(rawValue)
          case Err => Err
          case Ok(value) => Ok((key, value, index + 1))
        else if index + 1 < |lines| && lines[index + 1].indent > indent then
          match ParsedBlock(lines, index + 1, lines[index + 1].indent)
          case Err => Err
          case Ok((value, next)) => Ok((key, value, next))
        else Ok((key, MapNode(map[]), index + 1))
  }

  /** The loop of parseList from line `index` on, with `items` read so far. */
  function ListFrom(lines: seq<SourceLine>, index: nat, indent: nat, items: seq<Node>): (r: Parse<(seq<Node>, nat)>)
    requires index <= |lines|
    ensures r.Ok? ==> index <= r.value.1 <= |lines|
    ensures r.Ok? && index < |lines| && lines[index].indent == indent ==>
              HasPrefix(TrimSpace(lines[index].content), "- ") ==> index < r.value.1
    decreases |lines| - index
  {
    if index == |lines| || lines[index].indent < indent then Ok((items, index))
    else if lines[index].indent > indent then Err
    else
      var content := TrimSpace(lines[index].content);
      if !HasPrefix(content, "- ") then Ok((items, index))
      else
        match ListItem(content)
        case Err => Err
        case Ok(item) => ListFrom(lines, index + 1, indent, items + [item])
  }

  /** A list item must be a nonempty scalar. */
  function ListItem(content: string): Parse<Node>
    requires HasPrefix(content, "- ")
  {
    var rawValue := TrimSpace(content[2..]);
    if rawValue == "" then Err
    else
      match ParseInlineValue(rawValue)
      case Err => Err
      case Ok(value) => if value.MapNode? || value.ListNode? then Err else Ok(value)
  }

  /** ParseBytes up to the root mapping. */
  function ParsedDocument(data: string): Parse<Node> {
    if !Utf8.Valid(data) then Err
    else
      match Tokenized(data)
      case Err => Err
      case Ok(lines) =>
        if lines == [] || lines[0].indent != 0 then Err
        else
          match ParsedBlock(lines, 0, 0)
          case Err => Err
          case Ok((root, next)) => if next != |lines| || !root.MapNode? then Err else Ok(root)
  }

  // ---- the loops ----

  method Tokenize(data: string) returns (r: Parse<seq<SourceLine>>)
    ensures r == Tokenized(data)
  {
    var rawLines := Split(data, '\n');
    var lines: seq<SourceLine> := [];
    AfterConcat([], [], TokenizeFrom(rawLines, 0));
    var i := 0;
    while i < |rawLines|
      invariant 0 <= i <= |rawLines|
      invariant Tokenized(data) == After(lines, TokenizeFrom(rawLines, i))
    {
      var lineNo := i + 1;
      var raw := TrimSuffixByte(rawLines[i], '\r');
      i := i + 1;
      if '\t' in raw { return Err; }
      var trimmed := TrimSpace(raw);
      if trimmed == "" || HasPrefix(trimmed, "#") { continue; }
      if trimmed == "---" || trimmed == "..." { return Err; }
      var indent := CountLeading(raw, ' ');
      var content := raw[indent..];
      var comment := HasUnsupportedInlineComment(content);
      if comment { return Err; }
      AfterConcat(lines, [SourceLine(lineNo, indent, content)], TokenizeFrom(rawLines, i));
      lines := lines + [SourceLine(lineNo, indent, content)];
    }
    assert lines + [] == lines;
    return Ok(lines);
  }

  method ParseBlock(lines: seq<SourceLine>, index: nat, indent: nat) returns (r: Parse<(Node, nat)>)
    ensures r == ParsedBlock(lines, index, indent)
    decreases |lines| - index, 1
  {
    if index >= |lines| || lines[index].indent != indent { return Err; }
    var content := TrimSpace(lines[index].content);
    if HasPrefix(content, "- ") {
      r := ParseList(lines, index, indent);
    } else {
      r := ParseMap(lines, index, indent);
    }
  }

  method ParseMap(lines: seq<SourceLine>, start: nat, indent: nat) returns (r: Parse<(Node, nat)>)
    requires start < |lines|
    ensures var m := MapFrom(lines, start, indent, map[]);
            r == if m.Ok? then Ok((MapNode(m.value.0), m.value.1)) else Err
    decreases |lines| - start, 0
  {
    var index := start;
    var entries: map<string, Node> := map[];
    while index < |lines|
      invariant start <= index <= |lines|
      invariant MapFrom(lines, index, indent, entries) == MapFrom(lines, start, indent, map[])
    {
      var line := lines[index];
      if line.indent < indent { break; }
      if line.indent > indent { return Err; }
      var content := TrimSpace(line.content);
      if HasPrefix(content, "- ") { return Err; }
      var pair := SplitKeyValue(content);
      if pair.Err? { return Err; }
      var (key, rawValue) := pair.value;
      if key in entries { DuplicateKeyFails(lines, index, indent, entries); return Err; }
      var value;
      if rawValue == "" {
        if index + 1 < |lines| && lines[index + 1].indent > indent {
          var block := ParseBlock(lines, index + 1, lines[index + 1].indent);
          if block.Err? { return Err; }
          value, index := block.value.0, block.value.1;
        } else {
          value := MapNode(map[]);
          index := index + 1;
        }
      } else {
        var inline := ParseInlineValue(rawValue);
        if inline.Err? { return Err; }
        value := inline.value;
        index := index + 1;
      }
      entries := entries[key := value];
    }
    return Ok((MapNode(entries), index));
  }

  /** The code rejects a duplicate key before it looks at the value; either way the block fails. */
  lemma DuplicateKeyFails(lines: seq<SourceLine>, index: nat, indent: nat, entries: map<string, Node>)
    requires index < |lines| && lines[index].indent == indent
    requires !HasPrefix(TrimSpace(lines[index].content), "- ")
    requires SplitKeyValue(TrimSpace(lines[index].content)).Ok?
    requires SplitKeyValue(TrimSpace(lines[index].content)).value.0 in entries
    ensures MapFrom(lines, index, indent, entries) == Err
  {
  }

  method ParseList(lines: seq<SourceLine>, start: nat, indent: nat) returns (r: Parse<(Node, nat)>)
    requires start < |lines|
    ensures var m := ListFrom(lines, start, indent, []);
            r == if m.Ok? then Ok((ListNode(m.value.0), m.value.1)) else Err
  {
    var index := start;
    var items: seq<Node> := [];
    while index < |lines|
      invariant start <= index <= |lines|
      invariant ListFrom(lines, index, indent, items) == ListFrom(lines, start, indent, [])
    {
      var line := lines[index];
      if line.indent < indent { break; }
      if line.indent > indent { return Err; }
      var content := TrimSpace(line.content);
      if !HasPrefix(content, "- ") { break; }
      var rawValue := TrimSpace(content[2..]);
      if rawValue == "" { return Err; }
      var value := ParseInlineValue(rawValue);
      if value.Err? || value.value.MapNode? || value.value.ListNode? { return Err; }
      items := items + [value.value];
      index := index + 1;
    }
    return Ok((ListNode(items), index));
  }

  method ParseDocument(data: string) returns (r: Parse<Node>)
    ensures r == ParsedDocument(data)
  {
    if !Utf8.Valid(data) { return Err; }
    var lines := Tokenize(data);
    if lines.Err? || lines.value == [] || lines.value[0].indent != 0 { return Err; }
    var root := ParseBlock(lines.value, 0, 0);
    if root.Err? || root.value.1 != |lines.value| || !root.value.0.MapNode? { return Err; }
    return Ok(root.value.0);
  }
}
