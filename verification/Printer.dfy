/** Renderings of contract trees: keys and strings plain or in either quoting style, nesting by any step, `[]` for an
    empty list and a bare `key:` for an empty map, blank lines and comments between the lines, LF or CRLF. */
module Printer {
  import opened Text
  import opened Quoting
  import opened QuotingTheorems
  import opened Parser

  // ---- how a text may be written ----

  datatype TextStyle = PlainText | QuotedText(style: Style)

  function Written(s: string, style: TextStyle): string {
    match style
    case PlainText => s
    case QuotedText(q) => Quote(s, q)
  }

  predicate OneLine(s: string) {
    '\n' !in s && '\t' !in s
  }

  predicate Unquoted(s: string) {
    s != "" && s[0] !in {'"', '\''} && s[|s| - 1] !in {'"', '\''}
  }

  /** A string that stands for itself as a value. */
  predicate PlainValue(s: string) {
    && Unquoted(s) && Trimmed(s) && OneLine(s)
    && s[0] !in {'[', '{', '|', '>', '&', '*', '!'}
    && s != "true" && s != "false" && Atoi(s).NotANumber?
    && !HasInlineComment(" " + s)
  }

  /** A string that stands for itself as a key. */
  predicate PlainKey(s: string) {
    && Unquoted(s) && Trimmed(s) && OneLine(s)
    && s != "<<" && s[0] !in {'&', '*', '!', '#'} && !HasPrefix(s, "- ")
    && Outside(Scan(PLAIN, s)) && (forall i | 0 <= i < |s| && s[i] == ':' :: !Outside(Scan(PLAIN, s[..i])))
    && !HasInlineComment(s)
  }

  predicate Quotable(s: string, style: TextStyle) {
    style == QuotedText(Single) ==> OneLine(s)
  }

  // ---- trees ----

  datatype Scalar = Str(text: string, style: TextStyle) | Num(number: int) | Flag(flag: bool)

  /** A tree with its map entries in the order they are to be printed. */
  datatype Doc = DMap(entries: Entries) | DList(items: seq<Scalar>) | DScalar(value: Scalar)

  datatype Entries = End | Entry(key: string, keyStyle: TextStyle, value: Doc, rest: Entries)

  /** The tree the document stands for; Go maps have no order. */
  function TreeOf(d: Doc): Node {
    match d
    case DMap(entries) => MapNode(MapOf(entries))
    case DList(items) => ListNode(ItemsOf(items))
    case DScalar(value) => ScalarNode(value)
  }

  function MapOf(entries: Entries): (m: map<string, Node>)
    ensures m.Keys == Keys(entries)
  {
    match entries
    case End => map[]
    case Entry(key, _, value, rest) => MapOf(rest)[key := TreeOf(value)]
  }

  function Keys(entries: Entries): set<string> {
    match entries
    case End => {}
    case Entry(key, _, _, rest) => {key} + Keys(rest)
  }

  function ScalarNode(s: Scalar): Node {
    match s
    case Str(text, _) => StringNode(text)
    case Num(number) => IntNode(number)
    case Flag(flag) => BoolNode(flag)
  }

  function ItemsOf(items: seq<Scalar>): seq<Node> {
    seq(|items|, i requires 0 <= i < |items| => ScalarNode(items[i]))
  }

  predicate LegalScalar(s: Scalar) {
    match s
    case Str(text, style) => Quotable(text, style) && (style.PlainText? ==> PlainValue(text))
    case Num(number) => IsInt64(number)
    case Flag(_) => true
  }

  predicate LegalKey(key: string, style: TextStyle) {
    Quotable(key, style) && (style.PlainText? ==> PlainKey(key))
  }

  /** Distinct keys in every map, machine-range integers, and every text in a style that can hold it. */
  predicate Legal(d: Doc) {
    match d
    case DMap(entries) => LegalEntries(entries)
    case DList(items) => forall s | s in items :: LegalScalar(s)
    case DScalar(value) => LegalScalar(value)
  }

  predicate LegalEntries(entries: Entries) {
    match entries
    case End => true
    case Entry(key, keyStyle, value, rest) =>
      key !in Keys(rest) && LegalKey(key, keyStyle) && Legal(value) && LegalEntries(rest)
  }

  /** A line to print: its indentation and its content. */
  type PrintedLine = (nat, string)

  function ScalarText(s: Scalar): string {
    match s
    case Str(text, style) => Written(text, style)
    case Num(number) => Itoa(number)
    case Flag(flag) => if flag then "true" else "false"
  }

  /** The line of a written key with a block below it, and with a value beside it. */
  function KeyLine(written: string): string {
    written + ":"
  }

  function PairLine(written: string, value: string): string {
    written + ": " + value
  }

  function EntryLines(written: string, value: Doc, indent: nat, step: nat): (lines: seq<PrintedLine>)
    ensures lines != [] && lines[0].0 == indent
    decreases value
  {
    match value
    case DScalar(s) => [(indent, PairLine(written, ScalarText(s)))]
    case DList(items) =>
      if items == [] then [(indent, PairLine(written, "[]"))]
      else [(indent, KeyLine(written))] + ListLines(items, indent + step)
    case DMap(entries) => [(indent, KeyLine(written))] + MapLines(entries, indent + step, step)
  }

  function MapLines(entries: Entries, indent: nat, step: nat): (lines: seq<PrintedLine>)
    ensures entries != End ==> lines != [] && lines[0].0 == indent
    decreases entries
  {
    match entries
    case End => []
    case Entry(key, keyStyle, value, rest) =>
      EntryLines(Written(key, keyStyle), value, indent, step) + MapLines(rest, indent, step)
  }

  function ListLines(items: seq<Scalar>, indent: nat): (lines: seq<PrintedLine>)
    ensures |lines| == |items|
  {
    seq(|items|, i requires 0 <= i < |items| => (indent, "- " + ScalarText(items[i])))
  }

  function Spaces(n: nat): string {
    seq(n, i => ' ')
  }

  // ---- lines of text ----

  /** A line the parser skips. */
  datatype Filler = Blank(spaces: nat, crlf: bool) | Comment(spaces: nat, text: string, crlf: bool)

  /** What stands before a printed line, and whether the line ends in CRLF. */
  datatype Layout = Layout(before: seq<Filler>, crlf: bool)

  function EndOfLine(crlf: bool): string {
    if crlf then "\r" else ""
  }

  function FillerLine(f: Filler): string {
    match f
    case Blank(spaces, crlf) => Spaces(spaces) + EndOfLine(crlf)
    case Comment(spaces, text, crlf) => Spaces(spaces) + "#" + text + EndOfLine(crlf)
  }

  predicate LegalFiller(f: Filler) {
    f.Comment? ==> OneLine(f.text)
  }

  /** The layout of a document with `n` printed lines; the last one tells what follows them. */
  ghost predicate LegalLayout(layout: nat -> Layout, n: nat) {
    forall i, f | 0 <= i <= n && f in layout(i).before :: LegalFiller(f)
  }

  function FillerLines(fillers: seq<Filler>): (lines: seq<string>)
    ensures |lines| == |fillers|
  {
    seq(|fillers|, i requires 0 <= i < |fillers| => FillerLine(fillers[i]))
  }

  function LineText(line: PrintedLine, crlf: bool): string {
    Spaces(line.0) + line.1 + EndOfLine(crlf)
  }

  /** The lines of text from the printed line `i` on. */
  function TextLines(printed: seq<PrintedLine>, i: nat, layout: nat -> Layout): seq<string>
    requires i <= |printed|
    decreases |printed| - i
  {
    FillerLines(layout(i).before) +
    if i == |printed| then [] else [LineText(printed[i], layout(i).crlf)] + TextLines(printed, i + 1, layout)
  }

  function Joined(lines: seq<string>): string {
    if lines == [] then "" else lines[0] + "\n" + Joined(lines[1..])
  }

  /** The text of a document whose root is a map. */
  function Print(entries: Entries, step: nat, layout: nat -> Layout): string {
    Joined(TextLines(MapLines(entries, 0, step), 0, layout))
  }
}
