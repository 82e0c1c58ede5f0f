/** Configuration files: indentation-based YAML flattened to dotted keys, and back. */
module Configuration {
  import opened Strings

  type Values = map<string, string>

  /** Where the parser stands: the enclosing keys, the indent of the last of them as it is
      tracked, and what has been read. */
  datatype Parser = Parser(path: seq<string>, last: int, values: Values)

  /** A line without its comment: blank, without a colon, or a key and a value. */
  datatype Line = Empty | NoColon(indent: nat) | Pair(indent: nat, key: string, value: string)

  predicate AllWhite(s: string)
  {
    forall i :: 0 <= i < |s| ==> s[i] == ' ' || s[i] == '\t' || s[i] == '\r' || s[i] == '\n'
  }

  /** One pair of matching quotes around a value is taken off. */
  function Unquote(s: string): string {
    if |s| >= 2 && s[0] == s[|s| - 1] && (s[0] == '"' || s[0] == '\'') then s[1..|s| - 1] else s
  }

  /** A line from its first non-blank on. */
  function ReadEntry(indent: nat, trimmed: string): Line {
    var colon := Find(trimmed, ':');
    if colon == |trimmed| then NoColon(indent)
    else Pair(indent, Trim(trimmed[..colon]), Unquote(Trim(trimmed[colon + 1..])))
  }

  function Uncomment(text: string): string { text[..Find(text, '#')] }

  function ReadLine(text: string): Line {
    var line := Uncomment(text);
    if AllWhite(line) then Empty else ReadEntry(Indent(line), line[Indent(line)..])
  }

  /** The loop that leaves enclosing keys: two columns for each. */
  function Leave(path: seq<string>, last: int, indent: int): (seq<string>, int)
    decreases |path|
  {
    if path != [] && indent <= last then Leave(path[..|path| - 1], last - 2, indent) else (path, last)
  }

  /** The enclosing keys, each with a dot behind it. */
  function Dotted(path: seq<string>): string {
    if path == [] then "" else Dotted(path[..|path| - 1]) + (path[|path| - 1] + ".")
  }

  function Take(p: Parser, line: Line): Parser {
    if line.Empty? then p
    else
      var (path, last) := Leave(p.path, p.last, line.indent);
      if line.NoColon? then Parser(path, last, p.values)
      else if line.value == "" then Parser(path + [line.key], line.indent, p.values)
      else Parser(path, last, p.values[Dotted(path) + line.key := line.value])
  }

  type Step = (Parser, string) -> Parser

  function TakeText(): Step { (p: Parser, text: string) => Take(p, ReadLine(text)) }

  function Fold(step: Step, p: Parser, lines: seq<string>): Parser
    decreases |lines|
  {
    if lines == [] then p else Fold(step, step(p, lines[0]), lines[1..])
  }

  function TakeAll(p: Parser, lines: seq<string>): Parser { Fold(TakeText(), p, lines) }

  method LeaveLoop(path: seq<string>, last: int, indent: int) returns (path': seq<string>, last': int)
    ensures (path', last') == Leave(path, last, indent)
  {
    path', last' := path, last;
    while path' != [] && indent <= last'
      invariant Leave(path', last', indent) == Leave(path, last, indent)
      decreases |path'|
    {
      path' := path'[..|path'| - 1];
      last' := last' - 2;
    }
  }

  /** The body of the loop over lines. */
  method TakeLine(p: Parser, text: string) returns (q: Parser)
    ensures q == TakeText()(p, text)
  {
    var line := ReadLine(text);
    if line.Empty? { return p; }
    var path, last := LeaveLoop(p.path, p.last, line.indent);
    if line.NoColon? { return Parser(path, last, p.values); }
    if line.value == "" { return Parser(path + [line.key], line.indent, p.values); }
    return Parser(path, last, p.values[Dotted(path) + line.key := line.value]);
  }

  lemma {:induction false} LinesNext(text: string)
    requires text != ""
    ensures var i := Find(text, '\n');
      Lines(text) != [] && Lines(text)[0] == text[..i]
      && Lines(text)[1..] == Lines(if i == |text| then "" else text[i + 1..])
  {
    var i := Find(text, '\n');
    if i == |text| {
      assert text[..i] == text && Lines(text) == [text] && [text][1..] == [] == Lines("");
    } else {
      assert ([text[..i]] + Lines(text[i + 1..]))[1..] == Lines(text[i + 1..]);
    }
  }

  /** getline: the next line and what is behind it. */
  lemma {:induction false} NextLine(step: Step, p: Parser, text: string)
    requires text != ""
    ensures var i := Find(text, '\n');
      Fold(step, p, Lines(text)) == Fold(step, step(p, text[..i]), Lines(if i == |text| then "" else text[i + 1..]))
  {
    LinesNext(text);
  }

  class Config {
    var values: Values

    constructor ()
      ensures values == map[]
    {
      values := map[];
    }

    /** parse_yaml: reads on top of what is there already. */
    method ParseYaml(content: string)
      modifies this
      ensures values == TakeAll(Parser([], -1, old(values)), Lines(content)).values
    {
      var rest, p := content, Parser([], -1, values);
      ghost var step := TakeText();
      while rest != ""
        invariant Fold(step, p, Lines(rest)) == Fold(step, Parser([], -1, old(values)), Lines(content))
            && values == p.values
        decreases |rest|
      {
        NextLine(step, p, rest);
        var i := Find(rest, '\n');
        p := TakeLine(p, rest[..i]);
        values := p.values;
        rest := if i == |rest| then "" else rest[i + 1..];
      }
    }

    /** to_yaml; the order in which an unordered map is walked is not specified. */
    method ToYaml() returns (content: string)
      ensures exists order :: Enumerates(values, order) && content == Unlines(Rendered(values, order))
    {
      var todo := values.Keys;
      content := "";
      ghost var order := [];
      while todo != {}
        invariant Walked(values, order, todo) && content == Unlines(Rendered(values, order))
        decreases |todo|
      {
        var k :| k in todo;
        WalkNext(values, order, todo, k);
        RenderedNext(values, order, k);
        todo := todo - {k};
        order := order + [k];
        content := content + k + ": " + values[k] + "\n";
      }
    }
  }

  /** `order` lists each once the keys of a map that are not still to come. */
  ghost predicate Walked(values: Values, order: seq<string>, todo: set<string>) {
    && todo <= values.Keys
    && (forall i, j :: 0 <= i < j < |order| ==> order[i] != order[j])
    && forall k :: k in order <==> k in values && k !in todo
  }

  lemma {:induction false} WalkNext(values: Values, order: seq<string>, todo: set<string>, k: string)
    requires Walked(values, order, todo) && k in todo
    ensures Walked(values, order + [k], todo - {k})
  {
    assert forall j :: j in order + [k] <==> j in order || j == k;
  }

  /** `order` lists the keys of a map, each once. */
  ghost predicate Enumerates(values: Values, order: seq<string>) {
    && (forall i, j :: 0 <= i < j < |order| ==> order[i] != order[j])
    && forall k :: k in order <==> k in values
  }

  function PairText(depth: nat, key: string, value: string): string { Spaces(2 * depth) + key + ": " + value }

  function HeadText(depth: nat, key: string): string { Spaces(2 * depth) + key + ":" }

  function Rendered(values: Values, order: seq<string>): seq<string>
    requires forall i :: 0 <= i < |order| ==> order[i] in values
  {
    seq(|order|, i requires 0 <= i < |order| => PairText(0, order[i], values[order[i]]))
  }

  lemma {:induction false} RenderedNext(values: Values, order: seq<string>, k: string)
    requires k in values && forall i :: 0 <= i < |order| ==> order[i] in values
    ensures Unlines(Rendered(values, order + [k])) == Unlines(Rendered(values, order)) + k + ": " + values[k] + "\n"
  {
    var line := PairText(0, k, values[k]);
    assert Rendered(values, order + [k]) == Rendered(values, order) + [line];
    UnlinesNext(Rendered(values, order), line);
    assert line == k + ": " + values[k];
  }

  lemma {:induction false} UnlinesNext(lines: seq<string>, line: string)
    ensures Unlines(lines + [line]) == Unlines(lines) + line + "\n"
  {
    if lines == [] {
      assert Unlines([line]) == line + "\n" + Unlines([]);
    } else {
      assert (lines + [line])[1..] == lines[1..] + [line];
      UnlinesNext(lines[1..], line);
    }
  }

  // Trees of mappings.

  datatype Node = Leaf(key: string, value: string) | Branch(key: string, children: seq<Node>)

  /** The tree written with two columns of indent a level. */
  function Render(nodes: seq<Node>, depth: nat): seq<string>
    decreases nodes, 1
  {
    if nodes == [] then [] else RenderNode(nodes[0], depth) + Render(nodes[1..], depth)
  }

  function RenderNode(node: Node, depth: nat): seq<string>
    decreases node, 0
  {
    match node
    case Leaf(key, value) => [PairText(depth, key, value)]
    case Branch(key, children) => [HeadText(depth, key)] + Render(children, depth + 1)
  }

  /** The tree's scalars under their dotted paths, on top of `values`. */
  function Flatten(nodes: seq<Node>, prefix: string, values: Values): Values
    decreases nodes, 1
  {
    if nodes == [] then values else Flatten(nodes[1..], prefix, FlattenNode(nodes[0], prefix, values))
  }

  function FlattenNode(node: Node, prefix: string, values: Values): Values
    decreases node, 0
  {
    match node
    case Leaf(key, value) => values[prefix + key := value]
    case Branch(key, children) => Flatten(children, prefix + key + ".", values)
  }

  /** A key or a value that stands for itself: no blank at the ends, no comment, no newline. */
  predicate Plain(s: string) { Tidy(s) && '#' !in s && '\n' !in s }

  predicate PlainKey(s: string) { Plain(s) && ':' !in s }

  /** The value stands between two quotes of one kind. */
  predicate Quoted(s: string) { |s| >= 2 && s[0] == s[|s| - 1] && (s[0] == '"' || s[0] == '\'') }

  predicate PlainValue(s: string) { Plain(s) && !Quoted(s) }

  predicate PlainTree(nodes: seq<Node>)
    decreases nodes, 1
  {
    nodes == [] || (PlainNode(nodes[0]) && PlainTree(nodes[1..]))
  }

  predicate PlainNode(node: Node)
    decreases node, 0
  {
    PlainKey(node.key)
    && match node
       case Leaf(_, value) => PlainValue(value)
       case Branch(_, children) => PlainTree(children)
  }

  // Reading a written line.

  lemma {:induction false} EntryRead(indent: nat, key: string, rest: string)
    requires Tidy(key) && ':' !in key
    ensures ReadEntry(indent, key + ":" + rest) == Pair(indent, key, Unquote(Trim(rest)))
  {
    var text := key + [':'] + rest;
    FindBefore(key, ':', rest);
    assert text == key + ":" + rest && text[..|key|] == key == Spaces(0) + key && text[|key| + 1..] == rest;
    TrimTidy(0, key);
  }

  lemma {:induction false} LineRead(n: nat, key: string, rest: string)
    requires PlainKey(key) && '#' !in rest
    ensures ReadLine(Spaces(n) + (key + ":" + rest)) == ReadEntry(n, key + ":" + rest)
  {
    var entry := key + ":" + rest;
    var text := Spaces(n) + entry;
    FindNone(text, '#');
    assert Uncomment(text) == text;
    assert text[n + |key|] == ':';
    IndentSpaces(n, entry);
    assert text[n..] == entry;
  }

  lemma {:induction false} PairParts(depth: nat, key: string, value: string)
    ensures PairText(depth, key, value) == Spaces(2 * depth) + (key + ":" + (" " + value))
        && " " + value == Spaces(1) + value
  {
  }

  lemma {:induction false} PairRead(depth: nat, key: string, value: string)
    requires PlainKey(key) && PlainValue(value)
    ensures ReadLine(PairText(depth, key, value)) == Pair(2 * depth, key, value)
  {
    var rest := " " + value;
    PairParts(depth, key, value);
    LineRead(2 * depth, key, rest);
    EntryRead(2 * depth, key, rest);
    TrimTidy(1, value);
  }

  lemma {:induction false} HeadRead(depth: nat, key: string)
    requires PlainKey(key)
    ensures ReadLine(HeadText(depth, key)) == Pair(2 * depth, key, "")
  {
    assert HeadText(depth, key) == Spaces(2 * depth) + (key + ":" + "");
    LineRead(2 * depth, key, "");
    EntryRead(2 * depth, key, "");
  }

  /** A comment is not read. */
  lemma {:induction false} CommentIgnored(text: string, comment: string)
    requires '#' !in text
    ensures ReadLine(text + "#" + comment) == ReadLine(text)
  {
    var line := text + ['#'] + comment;
    FindBefore(text, '#', comment);
    FindNone(text, '#');
    assert line[..|text|] == text && text[..|text|] == text;
  }

  /** Quotes around a value are taken off. */
  lemma {:induction false} QuotedRead(n: nat, key: string, value: string, quote: char)
    requires PlainKey(key) && '#' !in value && (quote == '"' || quote == '\'')
    ensures ReadLine(Spaces(n) + (key + ":" + (" " + ([quote] + value + [quote])))) == Pair(n, key, value)
  {
    var quoted := [quote] + value + [quote];
    var rest := " " + quoted;
    assert Spaces(1) + quoted == rest;
    LineRead(n, key, rest);
    EntryRead(n, key, rest);
    TrimTidy(1, quoted);
    assert quoted[1..|quoted| - 1] == value;
  }

  /** Blanks, tabs and line ends make no line, and a line without a colon sets nothing. */
  lemma {:induction false} NothingRead(p: Parser, text: string)
    requires '#' !in text
    ensures (forall c :: c in text ==> c == ' ' || c == '\t' || c == '\r' || c == '\n') ==> Take(p, ReadLine(text)) == p
    ensures ':' !in text ==> Take(p, ReadLine(text)).values == p.values
  {
    FindNone(text, '#');
    assert text[..|text|] == text;
    if forall c :: c in text ==> c == ' ' || c == '\t' || c == '\r' || c == '\n' {
      forall i | 0 <= i < |text| ensures text[i] == ' ' || text[i] == '\t' || text[i] == '\r' || text[i] == '\n' {
        assert text[i] in text;
      }
    }
    if ':' !in text { FindNone(text[Indent(text)..], ':'); }
  }

  // The invariant of the parser: a non-empty path of depth d has last indent 2 d - 2.

  predicate Aligned(p: Parser) { p.path != [] ==> p.last == 2 * |p.path| - 2 }

  /** A line at depth k leaves exactly the first k enclosing keys. */
  lemma {:induction false} LeaveTo(path: seq<string>, last: int, k: nat)
    requires k <= |path| && (path != [] ==> last == 2 * |path| - 2)
    ensures Leave(path, last, 2 * k).0 == path[..k] && (k > 0 ==> Leave(path, last, 2 * k).1 == 2 * k - 2)
    decreases |path|
  {
    if |path| > k {
      LeaveTo(path[..|path| - 1], last - 2, k);
      assert path[..|path| - 1][..k] == path[..k];
    } else {
      assert path[..k] == path;
    }
  }

  lemma {:induction false} FoldConcat(step: Step, p: Parser, a: seq<string>, b: seq<string>)
    ensures Fold(step, p, a + b) == Fold(step, Fold(step, p, a), b)
    decreases |a|
  {
    if a == [] {
      assert a + b == b;
    } else {
      assert (a + b)[1..] == a[1..] + b;
      FoldConcat(step, step(p, a[0]), a[1..], b);
    }
  }

  lemma {:induction false} TakeAllConcat(p: Parser, a: seq<string>, b: seq<string>)
    ensures TakeAll(p, a + b) == TakeAll(TakeAll(p, a), b)
  {
    FoldConcat(TakeText(), p, a, b);
  }

  lemma {:induction false} TakeOne(p: Parser, text: string, line: Line)
    requires ReadLine(text) == line
    ensures TakeAll(p, [text]) == Take(p, line)
  {
    assert TakeText()(p, text) == Take(p, line);
    assert [text][1..] == [];
    assert Fold(TakeText(), Take(p, line), []) == Take(p, line);
  }

  /** Where the parser stands below `depth` enclosing keys that spell this prefix. */
  predicate Stands(p: Parser, depth: nat, prefix: string) {
    Aligned(p) && depth <= |p.path| && Dotted(p.path[..depth]) == prefix
  }

  lemma {:induction false} LeafTaken(p: Parser, depth: nat, prefix: string, key: string, value: string)
    requires Stands(p, depth, prefix) && value != ""
    ensures var q := Take(p, Pair(2 * depth, key, value));
      Stands(q, depth, prefix) && q.path[..depth] == p.path[..depth] && q.values == p.values[prefix + key := value]
  {
    LeaveTo(p.path, p.last, depth);
    assert p.path[..depth][..depth] == p.path[..depth];
  }

  lemma {:induction false} HeadTaken(p: Parser, depth: nat, prefix: string, key: string)
    requires Stands(p, depth, prefix)
    ensures var q := Take(p, Pair(2 * depth, key, ""));
      Stands(q, depth + 1, prefix + key + ".") && q.path[..depth + 1] == p.path[..depth] + [key] && q.values == p.values
  {
    LeaveTo(p.path, p.last, depth);
    var path := p.path[..depth] + [key];
    assert path[..depth + 1] == path && path[..|path| - 1] == p.path[..depth];
    assert prefix + (key + ".") == prefix + key + ".";
  }

  /** Nothing above this depth has changed, and this is what has been read. */
  predicate Back(p: Parser, q: Parser, depth: nat, prefix: string, values: Values) {
    Stands(q, depth, prefix) && depth <= |p.path| && q.path[..depth] == p.path[..depth] && q.values == values
  }

  lemma {:induction false} BackThrough(p: Parser, q: Parser, r: Parser, depth: nat, prefix: string, key: string,
      values: Values)
    requires Stands(p, depth, prefix) && depth + 1 <= |q.path| && q.path[..depth + 1] == p.path[..depth] + [key]
    requires Back(q, r, depth + 1, prefix + key + ".", values)
    ensures Back(p, r, depth, prefix, values)
  {
    assert r.path[..depth] == r.path[..depth + 1][..depth] == p.path[..depth];
  }

  lemma {:induction false} NodeTaken(p: Parser, node: Node, depth: nat, prefix: string)
    requires PlainNode(node) && Stands(p, depth, prefix)
    ensures Back(p, TakeAll(p, RenderNode(node, depth)), depth, prefix, FlattenNode(node, prefix, p.values))
    decreases node, 0
  {
    match node
    case Leaf(key, value) =>
      PairRead(depth, key, value);
      TakeOne(p, PairText(depth, key, value), Pair(2 * depth, key, value));
      LeafTaken(p, depth, prefix, key, value);
    case Branch(key, children) =>
      var q := Take(p, Pair(2 * depth, key, ""));
      HeadRead(depth, key);
      TakeOne(p, HeadText(depth, key), Pair(2 * depth, key, ""));
      HeadTaken(p, depth, prefix, key);
      TreeTaken(q, children, depth + 1, prefix + key + ".");
      TakeAllConcat(p, [HeadText(depth, key)], Render(children, depth + 1));
      BackThrough(p, q, TakeAll(q, Render(children, depth + 1)), depth, prefix, key,
        FlattenNode(node, prefix, p.values));
  }

  /** Reading a rendered tree adds exactly its dotted-path map and comes back to its depth. */
  lemma {:induction false} TreeTaken(p: Parser, nodes: seq<Node>, depth: nat, prefix: string)
    requires PlainTree(nodes) && Stands(p, depth, prefix)
    ensures Back(p, TakeAll(p, Render(nodes, depth)), depth, prefix, Flatten(nodes, prefix, p.values))
    decreases nodes, 1
  {
    if nodes != [] {
      NodeTaken(p, nodes[0], depth, prefix);
      TakeAllConcat(p, RenderNode(nodes[0], depth), Render(nodes[1..], depth));
      TreeTaken(TakeAll(p, RenderNode(nodes[0], depth)), nodes[1..], depth, prefix);
    }
  }

  predicate OneLineEach(lines: seq<string>) { forall i :: 0 <= i < |lines| ==> '\n' !in lines[i] }

  lemma {:induction false} OneLineNode(node: Node, depth: nat)
    requires PlainNode(node)
    ensures OneLineEach(RenderNode(node, depth))
    decreases node, 0
  {
    match node
    case Leaf(key, value) => assert '\n' !in PairText(depth, key, value);
    case Branch(key, children) =>
      assert '\n' !in HeadText(depth, key);
      OneLine(children, depth + 1);
  }

  lemma {:induction false} OneLine(nodes: seq<Node>, depth: nat)
    requires PlainTree(nodes)
    ensures OneLineEach(Render(nodes, depth))
    decreases nodes, 1
  {
    if nodes != [] {
      OneLineNode(nodes[0], depth);
      OneLine(nodes[1..], depth);
    }
  }

  /** Parsing the rendering of any tree of plain keys and scalars gives exactly its dotted-path
      map, on top of what was there. */
  lemma {:induction false} ParseRendered(nodes: seq<Node>, values: Values)
    requires PlainTree(nodes)
    ensures TakeAll(Parser([], -1, values), Lines(Unlines(Render(nodes, 0)))).values == Flatten(nodes, "", values)
  {
    OneLine(nodes, 0);
    LinesUnlines(Render(nodes, 0));
    TreeTaken(Parser([], -1, values), nodes, 0, "");
  }

  // to_yaml and back: which values survive.

  /** What parse_yaml makes of a value that to_yaml wrote. */
  function Got(value: string): string { Unquote(Trim(" " + Uncomment(value))) }

  lemma {:induction false} FindAppend(a: string, b: string, c: char)
    requires c !in a
    ensures Find(a + b, c) == |a| + Find(b, c)
  {
    if a != "" {
      assert (a + b)[1..] == a[1..] + b;
      FindAppend(a[1..], b, c);
    } else {
      assert a + b == b;
    }
  }

  /** A key that parsing can give: none of the signs it stops at, and no blank at an end. */
  predicate ReadKey(k: string) { '#' !in k && ':' !in k && '\n' !in k && (k == "" || Tidy(k)) }

  lemma {:induction false} AnyPairRead(key: string, value: string)
    requires ReadKey(key)
    ensures ReadLine(PairText(0, key, value)) == Pair(0, key, Got(value))
  {
    var head, kept := key + ": ", Uncomment(value);
    PairParts(0, key, value);
    assert PairText(0, key, value) == head + value && '#' !in head;
    FindAppend(head, value, '#');
    assert Uncomment(PairText(0, key, value)) == head + kept;
    if key == "" { NoKeyRead(kept); } else { KeptRead(key, kept); }
  }

  lemma {:induction false} NoKeyRead(kept: string)
    ensures !AllWhite("" + ": " + kept) && Indent("" + ": " + kept) == 0
    ensures ReadEntry(0, ("" + ": " + kept)[0..]) == Pair(0, "", Unquote(Trim(" " + kept)))
  {
    var line := "" + ": " + kept;
    assert line == ":" + (" " + kept) && line[0] == ':' && line[..0] == "" && line[1..] == " " + kept
        && line[0..] == line;
    assert Trim("") == "";
  }

  lemma {:induction false} KeptRead(key: string, kept: string)
    requires ReadKey(key) && key != ""
    ensures !AllWhite(key + ": " + kept) && Indent(key + ": " + kept) == 0
    ensures ReadEntry(0, (key + ": " + kept)[0..]) == Pair(0, key, Unquote(Trim(" " + kept)))
  {
    var line := key + ": " + kept;
    assert line[|key|] == ':' && line[0] == key[0];
    assert line[0..] == line == key + ":" + (" " + kept);
    EntryRead(0, key, " " + kept);
  }

  lemma {:induction false} TrimRightShort(s: string)
    ensures |TrimRight(s)| <= |s| && (|TrimRight(s)| == |s| ==> TrimRight(s) == s && (s == "" || !Blank(s[|s| - 1])))
  {
    if s != "" { TrimRightShort(s[..|s| - 1]); }
  }

  lemma {:induction false} PlainGot(value: string)
    requires PlainValue(value)
    ensures Got(value) == value
  {
    FindNone(value, '#');
    assert Uncomment(value) == value && " " + value == Spaces(1) + value;
    TrimTidy(1, value);
  }

  lemma {:induction false} FindsNothing(s: string, c: char)
    requires Find(s, c) == |s|
    ensures c !in s
  {
    if s != "" { FindsNothing(s[1..], c); }
  }

  lemma {:induction false} GotPlain(value: string)
    requires '\n' !in value && Got(value) == value && value != ""
    ensures PlainValue(value)
  {
    var kept := Uncomment(value);
    var padded := " " + kept;
    assert padded[1..] == kept && Indent(padded) == 1 + Indent(kept);
    TrimRightShort(padded[Indent(padded)..]);
    assert Find(value, '#') == |value|;
    FindsNothing(value, '#');
    assert kept == value && Trim(padded) == value;
  }

  /** A value comes back as it was, and not empty, exactly when it is plain. */
  lemma {:induction false} GotIff(value: string)
    requires '\n' !in value
    ensures (Got(value) == value && value != "") <==> PlainValue(value)
  {
    if PlainValue(value) { PlainGot(value); }
    if Got(value) == value && value != "" { GotPlain(value); }
  }

  /** A map written and read back value by value on top of `so`; empty values are lost. */
  function Reloaded(got: string -> string, values: Values, order: seq<string>, so: Values): Values
    requires forall i :: 0 <= i < |order| ==> order[i] in values
    decreases |order|
  {
    if order == [] then so
    else
      var value := got(values[order[0]]);
      Reloaded(got, values, order[1..], if value == "" then so else so[order[0] := value])
  }

  lemma {:induction false} ReloadedKeep(got: string -> string, values: Values, order: seq<string>, so: Values,
      k: string)
    requires (forall i :: 0 <= i < |order| ==> order[i] in values) && k !in order
    ensures (k in Reloaded(got, values, order, so) <==> k in so)
        && (k in so ==> Reloaded(got, values, order, so)[k] == so[k])
    decreases |order|
  {
    if order != [] {
      var value := got(values[order[0]]);
      ReloadedKeep(got, values, order[1..], if value == "" then so else so[order[0] := value], k);
    }
  }

  lemma {:induction false} ReloadedAt(got: string -> string, values: Values, order: seq<string>, so: Values, k: string)
    requires (forall i :: 0 <= i < |order| ==> order[i] in values) && k in order && k !in so
    requires forall i, j :: 0 <= i < j < |order| ==> order[i] != order[j]
    ensures (k in Reloaded(got, values, order, so) <==> got(values[k]) != "")
    ensures got(values[k]) != "" ==> Reloaded(got, values, order, so)[k] == got(values[k])
    decreases |order|
  {
    var value := got(values[order[0]]);
    var so' := if value == "" then so else so[order[0] := value];
    if order[0] == k {
      ReloadedKeep(got, values, order[1..], so', k);
    } else {
      ReloadedAt(got, values, order[1..], so', k);
    }
  }

  lemma {:induction false} ReloadedIff(got: string -> string, values: Values, order: seq<string>)
    requires Enumerates(values, order)
    ensures Reloaded(got, values, order, map[]) == values
        <==> forall k :: k in values ==> got(values[k]) == values[k] && values[k] != ""
  {
    var r := Reloaded(got, values, order, map[]);
    forall k | k in order ensures (k in r <==> got(values[k]) != "") && (k in r ==> r[k] == got(values[k])) {
      ReloadedAt(got, values, order, map[], k);
    }
    forall k | k !in order ensures k !in r { ReloadedKeep(got, values, order, map[], k); }
  }

  lemma {:induction false} LineTaken(p: Parser, key: string, value: string, q: Parser)
    requires Stands(p, 0, "") && ReadKey(key) && q == Take(p, ReadLine(PairText(0, key, value)))
    ensures Stands(q, 0, "") && q.values == if Got(value) == "" then p.values else p.values[key := Got(value)]
  {
    AnyPairRead(key, value);
    assert "" + key == key && p.path[..0] == [] && q.path[..0] == [];
    if Got(value) == "" { HeadTaken(p, 0, "", key); } else { LeafTaken(p, 0, "", key, Got(value)); }
  }

  lemma {:induction false} LinesTaken(p: Parser, values: Values, order: seq<string>)
    requires Stands(p, 0, "") && forall i :: 0 <= i < |order| ==> order[i] in values && ReadKey(order[i])
    ensures TakeAll(p, Rendered(values, order)).values == Reloaded(Got, values, order, p.values)
    decreases |order|
  {
    if order != [] {
      var text := PairText(0, order[0], values[order[0]]);
      var q := Take(p, ReadLine(text));
      LineTaken(p, order[0], values[order[0]], q);
      assert Rendered(values, order)[1..] == Rendered(values, order[1..]);
      LinesTaken(q, values, order[1..]);
    }
  }

  lemma {:induction false} ReloadIff(values: Values, order: seq<string>)
    requires Enumerates(values, order) && forall k :: k in values ==> ReadKey(k) && '\n' !in values[k]
    ensures TakeAll(Parser([], -1, map[]), Lines(Unlines(Rendered(values, order)))).values == values
       <==> forall k :: k in values ==> PlainValue(values[k])
  {
    var texts := Rendered(values, order);
    forall i | 0 <= i < |texts| ensures '\n' !in texts[i] { PairParts(0, order[i], values[order[i]]); }
    LinesUnlines(texts);
    LinesTaken(Parser([], -1, map[]), values, order);
    ReloadedIff(Got, values, order);
    forall k | k in values
      ensures (Got(values[k]) == values[k] && values[k] != "") <==> PlainValue(values[k])
    {
      GotIff(values[k]);
    }
  }

  // Whatever the text, parsing gives only such keys and one-line values.

  predicate CleanPath(path: seq<string>) { forall i :: 0 <= i < |path| ==> ReadKey(path[i]) }

  predicate CleanValues(values: Values) { forall k :: k in values ==> ReadKey(k) && '\n' !in values[k] }

  predicate Clean(p: Parser) { CleanPath(p.path) && CleanValues(p.values) }

  lemma {:induction false} DottedClean(path: seq<string>, key: string)
    requires CleanPath(path) && ReadKey(key)
    ensures ReadKey(Dotted(path) + key)
  {
    DottedChars(path);
  }

  /** The enclosing keys end in a dot and start without a blank. */
  lemma {:induction false} DottedChars(path: seq<string>)
    requires CleanPath(path)
    ensures var d := Dotted(path);
      && '#' !in d && ':' !in d && '\n' !in d && (d == "" <==> path == [])
      && (d != "" ==> !Blank(d[0]) && d[|d| - 1] == '.')
  {
    if path != [] { DottedChars(path[..|path| - 1]); }
  }

  lemma {:induction false} EntryClean(indent: nat, trimmed: string)
    requires '#' !in trimmed && '\n' !in trimmed
    ensures var line := ReadEntry(indent, trimmed); line.Pair? ==> ReadKey(line.key) && '\n' !in line.value
  {
    var colon := Find(trimmed, ':');
    if colon < |trimmed| {
      var name, rest := trimmed[..colon], trimmed[colon + 1..];
      FindFirst(trimmed, ':');
      NameClean(name);
      TrimLacks(rest, '\n');
      UnquoteLacks(Trim(rest), '\n');
    }
  }

  lemma {:induction false} NameClean(name: string)
    requires '#' !in name && ':' !in name && '\n' !in name
    ensures ReadKey(Trim(name))
  {
    TrimEnds(name);
    TrimLacks(name, '#');
    TrimLacks(name, ':');
    TrimLacks(name, '\n');
  }

  lemma {:induction false} UnquoteLacks(s: string, c: char)
    requires c !in s
    ensures c !in Unquote(s)
  {
  }

  lemma {:induction false} LineClean(text: string)
    requires '\n' !in text
    ensures var line := ReadLine(text); line.Pair? ==> ReadKey(line.key) && '\n' !in line.value
  {
    var line := Uncomment(text);
    FindFirst(text, '#');
    EntryClean(Indent(line), line[Indent(line)..]);
  }

  lemma {:induction false} LeaveClean(path: seq<string>, last: int, indent: int)
    requires CleanPath(path)
    ensures CleanPath(Leave(path, last, indent).0)
    decreases |path|
  {
    if path != [] && indent <= last { LeaveClean(path[..|path| - 1], last - 2, indent); }
  }

  lemma {:induction false} TakeClean(p: Parser, line: Line)
    requires Clean(p) && (line.Pair? ==> ReadKey(line.key) && '\n' !in line.value)
    ensures Clean(Take(p, line))
  {
    if !line.Empty? {
      LeaveClean(p.path, p.last, line.indent);
      if line.Pair? { DottedClean(Leave(p.path, p.last, line.indent).0, line.key); }
    }
  }

  lemma {:induction false} AllClean(p: Parser, lines: seq<string>)
    requires Clean(p) && OneLineEach(lines)
    ensures Clean(TakeAll(p, lines))
    decreases |lines|
  {
    if lines != [] {
      LineClean(lines[0]);
      TakeClean(p, ReadLine(lines[0]));
      AllClean(Take(p, ReadLine(lines[0])), lines[1..]);
    }
  }

  /** Whatever a configuration holds: a fresh one that parses its to_yaml holds the same if and
      only if every key has none of the signs parsing stops at and no blank at an end, and every
      value is plain. */
  lemma {:induction false} YamlRoundTripIff(values: Values, order: seq<string>)
    requires Enumerates(values, order)
    ensures TakeAll(Parser([], -1, map[]), Lines(Unlines(Rendered(values, order)))).values == values
       <==> forall k :: k in values ==> ReadKey(k) && PlainValue(values[k])
  {
    var text := Unlines(Rendered(values, order));
    LinesClean(text);
    AllClean(Parser([], -1, map[]), Lines(text));
    if CleanValues(values) { ReloadIff(values, order); }
  }
}
