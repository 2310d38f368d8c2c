/** The indentation language, tm/dsl/parser.py: from raw lines to a tree of scalars, mappings and sequences. */
module Parser {
  import opened Collections
  import opened Characters

  // ---------------------------------------------------------------- text

  function LStrip(s: string): string { if s != "" && IsSpace(s[0]) then LStrip(s[1..]) else s }

  function RStrip(s: string): string { if s != "" && IsSpace(s[|s| - 1]) then RStrip(s[..|s| - 1]) else s }

  function Strip(s: string): string { RStrip(LStrip(s)) }

  predicate Dash(s: string) { |s| >= 2 && s[0] == '-' && s[1] == ' ' }

  // ---------------------------------------------------------------- lines of a text

  /** The characters at which `str.splitlines` cuts. */
  predicate Break(c: char) {
    var n := c as int;
    10 <= n <= 13 || 28 <= n <= 30 || n == 0x85 || n == 0x2028 || n == 0x2029
  }

  ghost predicate NoBreak(s: string) { forall i :: 0 <= i < |s| ==> !Break(s[i]) }

  /** Where the first line ends. */
  function LineEnd(text: string): (n: nat)
    ensures n <= |text| && (n < |text| ==> Break(text[n])) && forall i :: 0 <= i < n ==> !Break(text[i])
  {
    if text == "" || Break(text[0]) then 0 else 1 + LineEnd(text[1..])
  }

  /** Where the line after it starts: carriage return and line feed are one break. */
  function NextLine(text: string, n: nat): (m: nat)
    requires n < |text|
    ensures n < m <= |text|
  {
    if text[n] == '\r' && n + 1 < |text| && text[n + 1] == '\n' then n + 2 else n + 1
  }

  /** `str.splitlines`: a break at the end of the text does not start another line. */
  function SplitLines(text: string): seq<string>
    decreases |text|
  {
    if text == "" then []
    else
      var n := LineEnd(text);
      if n == |text| then [text] else [text[..n]] + SplitLines(text[NextLine(text, n)..])
  }

  // ---------------------------------------------------------------- raw lines

  /** A line that counts, with its number in the text, from 1. */
  datatype Line = Line(number: nat, indent: nat, content: string)

  /** The leading blanks and tabs. */
  function IndentOf(s: string): (n: nat)
    ensures n <= |s|
  {
    if s != "" && (s[0] == ' ' || s[0] == '\t') then 1 + IndentOf(s[1..]) else 0
  }

  predicate Ignored(s: string) {
    Strip(s) == "" || (LStrip(s) != "" && LStrip(s)[0] == '#')
  }

  predicate Tabbed(s: string) { Strip(s) != "" && '\t' in s[..IndentOf(s)] }

  /** Blank lines and comments go; a tab in the indentation is an error, in a comment line too. */
  function PrepareFrom(raw: seq<string>, i: nat): Res<seq<Line>>
    requires i <= |raw|
    decreases |raw| - i
  {
    if i == |raw| then Ok([], i)
    else if Tabbed(raw[i]) then Err(TabIndent, i + 1)
    else if Ignored(raw[i]) then PrepareFrom(raw, i + 1)
    else
      var n := IndentOf(raw[i]);
      Cons([Line(i + 1, n, raw[i][n..])], PrepareFrom(raw, i + 1))
  }

  // ---------------------------------------------------------------- the key separator

  datatype Quote = Quote(single: bool, double: bool, escape: bool)

  const PLAIN: Quote := Quote(false, false, false)

  function Advance(q: Quote, c: char): Quote {
    if q.escape then q.(escape := false)
    else if c == '\\' then q.(escape := true)
    else if c == '\'' && !q.double then q.(single := !q.single)
    else if c == '"' && !q.single then q.(double := !q.double)
    else q
  }

  /** The quoting state before character `n`. */
  function Scan(s: string, n: nat): Quote
    requires n <= |s|
  {
    if n == 0 then PLAIN else Advance(Scan(s, n - 1), s[n - 1])
  }

  /** A colon outside quotes, not escaped and not the start of `:=`. */
  predicate Separator(s: string, n: nat) {
    n < |s| && s[n] == ':' && Scan(s, n) == PLAIN && !(n + 1 < |s| && s[n + 1] == '=')
  }

  function FirstSep(s: string, from: nat): (r: Option<nat>)
    requires from <= |s|
    ensures r.Some? ==> from <= r.value && Separator(s, r.value) && forall i :: from <= i < r.value ==> !Separator(s, i)
    ensures r.None? ==> forall i :: from <= i < |s| ==> !Separator(s, i)
    decreases |s| - from
  {
    if from == |s| then None else if Separator(s, from) then Some(from) else FirstSep(s, from + 1)
  }

  /** `_find_mapping_separator` with its three flags. */
  method FindMappingSeparator(s: string) returns (r: Option<nat>)
    ensures r == FirstSep(s, 0)
  {
    var single, double, escape := false, false, false;
    var i := 0;
    while i < |s|
      invariant 0 <= i <= |s|
      invariant Scan(s, i) == Quote(single, double, escape)
      invariant FirstSep(s, i) == FirstSep(s, 0)
    {
      var c := s[i];
      if escape {
        escape := false;
      } else if c == '\\' {
        escape := true;
      } else if c == '\'' && !double {
        single := !single;
      } else if c == '"' && !single {
        double := !double;
      } else if !single && !double && c == ':' && !(i + 1 < |s| && s[i + 1] == '=') {
        return Some(i);
      }
      i := i + 1;
    }
    return None;
  }

  // ---------------------------------------------------------------- trees

  datatype Node = Scalar(text: string) | Mapping(entries: seq<Entry>) | Sequence(items: seq<Node>)
  datatype Entry = Entry(key: Option<string>, value: Node)

  datatype Error =
    | EmptyDocument | NotAtTop | TabIndent
    | UnexpectedIndent | ItemInMapping | EmptyKey
    | UnexpectedItemIndent | ExpectedDash | ExpectedBlock | EmptyItemKey

  /** A value and the first line after it, or an error at a line number, 0 for none. */
  datatype Res<+T> = Ok(value: T, next: nat) | Err(error: Error, at: nat)

  function Cons<T>(front: seq<T>, r: Res<seq<T>>): Res<seq<T>> {
    match r
    case Ok(rest, next) => Ok(front + rest, next)
    case Err(e, at) => Err(e, at)
  }

  predicate Stops(ls: seq<Line>, i: nat, d: nat) { i >= |ls| || ls[i].indent < d }

  // ---------------------------------------------------------------- parsing, as functions

  /** Entries at indentation `d` from line `i`, up to a shallower line. */
  function ParseEntries(ls: seq<Line>, i: nat, d: nat): (r: Res<seq<Entry>>)
    requires i <= |ls|
    ensures r.Ok? ==> i <= r.next <= |ls| && Stops(ls, r.next, d)
    ensures r.Ok? && !Stops(ls, i, d) ==> i < r.next
    decreases |ls| - i, 2
  {
    if Stops(ls, i, d) then Ok([], i)
    else match ParseEntry(ls, i, d)
      case Ok(e, j) => Cons([e], ParseEntries(ls, j, d))
      case Err(e, at) => Err(e, at)
  }

  function ParseEntry(ls: seq<Line>, i: nat, d: nat): (r: Res<Entry>)
    requires i < |ls|
    ensures r.Ok? ==> i < r.next <= |ls|
    decreases |ls| - i, 1
  {
    var c := ls[i].content;
    if ls[i].indent > d then Err(UnexpectedIndent, ls[i].number)
    else if Dash(c) then Err(ItemInMapping, ls[i].number)
    else match FirstSep(c, 0)
      case None => Ok(Entry(None, Scalar(c)), i + 1)
      case Some(s) =>
        var key, text := Strip(c[..s]), LStrip(c[s + 1..]);
        if key == "" then Err(EmptyKey, ls[i].number)
        else if text != "" then Ok(Entry(Some(key), Scalar(text)), i + 1)
        else match ParseBlock(ls, i + 1, d)
          case Ok(v, j) => Ok(Entry(Some(key), v), j)
          case Err(e, at) => Err(e, at)
  }

  /** What is indented below a line at `d`: nothing, a sequence or a mapping. */
  function ParseBlock(ls: seq<Line>, i: nat, d: nat): (r: Res<Node>)
    requires i <= |ls|
    ensures r.Ok? ==> i <= r.next <= |ls|
    decreases |ls| - i, 3
  {
    if i == |ls| || ls[i].indent <= d then Ok(Mapping([]), i)
    else if Dash(ls[i].content) then
      match ParseItems(ls, i, ls[i].indent)
      case Ok(items, j) => Ok(Sequence(items), j)
      case Err(e, at) => Err(e, at)
    else
      match ParseEntries(ls, i, ls[i].indent)
      case Ok(entries, j) => Ok(Mapping(entries), j)
      case Err(e, at) => Err(e, at)
  }

  /** List items at indentation `d` from line `i`, up to a shallower line. */
  function ParseItems(ls: seq<Line>, i: nat, d: nat): (r: Res<seq<Node>>)
    requires i <= |ls|
    ensures r.Ok? ==> i <= r.next <= |ls| && Stops(ls, r.next, d)
    ensures r.Ok? && !Stops(ls, i, d) ==> i < r.next
    decreases |ls| - i, 2
  {
    if Stops(ls, i, d) then Ok([], i)
    else match ParseItem(ls, i, d)
      case Ok(v, j) => Cons([v], ParseItems(ls, j, d))
      case Err(e, at) => Err(e, at)
  }

  function ParseItem(ls: seq<Line>, i: nat, d: nat): (r: Res<Node>)
    requires i < |ls|
    ensures r.Ok? ==> i < r.next <= |ls|
    decreases |ls| - i, 1
  {
    var c := ls[i].content;
    if ls[i].indent > d then Err(UnexpectedItemIndent, ls[i].number)
    else if !Dash(c) then Err(ExpectedDash, ls[i].number)
    else
      var text := LStrip(c[2..]);
      if text == "" then
        if i + 1 == |ls| || ls[i + 1].indent <= d then Err(ExpectedBlock, ls[i].number) else ParseBlock(ls, i + 1, d)
      else if text[|text| - 1] == ':' then
        var key := RStrip(text[..|text| - 1]);
        if key == "" then Err(EmptyItemKey, ls[i].number)
        else match ParseBlock(ls, i + 1, d)
          case Ok(v, j) => Ok(Mapping([Entry(Some(key), v)]), j)
          case Err(e, at) => Err(e, at)
      else Ok(Scalar(text), i + 1)
  }

  /** A whole document: a mapping at the top level. */
  function ParseLines(ls: seq<Line>): Res<Node> {
    if ls == [] then Err(EmptyDocument, 0)
    else if ls[0].indent != 0 then Err(NotAtTop, ls[0].number)
    else match ParseEntries(ls, 0, 0)
      case Ok(entries, j) => Ok(Mapping(entries), j)
      case Err(e, at) => Err(e, at)
  }

  /** Parsing a text. */
  function Parse(text: string): Res<Node> {
    match PrepareFrom(SplitLines(text), 0)
    case Ok(ls, _) => ParseLines(ls)
    case Err(e, at) => Err(e, at)
  }

  // ---------------------------------------------------------------- the code

  lemma ConsCons<T>(a: seq<T>, b: seq<T>, r: Res<seq<T>>)
    ensures Cons(a, Cons(b, r)) == Cons(a + b, r)
  {
    if r.Ok? { SeqPlus(a, b, r.value); }
  }

  lemma ConsNone<T>(r: Res<seq<T>>)
    ensures Cons([], r) == r
  {
    if r.Ok? { assert [] + r.value == r.value; }
  }

  /** The final `rstrip` of line breaks finds none. */
  method PrepareLines(text: string) returns (r: Res<seq<Line>>)
    ensures r == PrepareFrom(SplitLines(text), 0)
  {
    var raw := SplitLines(text);
    var processed: seq<Line> := [];
    var i := 0;
    ConsNone(PrepareFrom(raw, 0));
    while i < |raw|
      invariant 0 <= i <= |raw|
      invariant Cons(processed, PrepareFrom(raw, i)) == PrepareFrom(raw, 0)
    {
      var current := raw[i];
      if Strip(current) != "" {
        var indent := IndentOf(current);
        if '\t' in current[..indent] { return Err(TabIndent, i + 1); }
        var content := current[indent..];
        StripIndent(current);
        if !(content == "" || (LStrip(content) != "" && LStrip(content)[0] == '#')) {
          ConsCons(processed, [Line(i + 1, indent, content)], PrepareFrom(raw, i + 1));
          processed := processed + [Line(i + 1, indent, content)];
        }
      }
      i := i + 1;
    }
    assert processed + [] == processed;
    return Ok(processed, i);
  }

  /** Stripping the indentation first makes no difference. */
  lemma {:induction false} StripIndent(s: string)
    ensures LStrip(s[IndentOf(s)..]) == LStrip(s)
    ensures Strip(s) != "" ==> s[IndentOf(s)..] != ""
  {
    if s != "" && (s[0] == ' ' || s[0] == '\t') {
      StripIndent(s[1..]);
      assert s[IndentOf(s)..] == s[1..][IndentOf(s[1..])..];
    }
  }

  /** The block indented deeper than `d` that starts at `index`. */
  method ParseChild(ls: seq<Line>, index: nat, ghost d: nat) returns (r: Res<Node>)
    requires index < |ls| && ls[index].indent > d
    ensures r == ParseBlock(ls, index, d)
    decreases |ls| - index, 1
  {
    hide ParseItems, ParseEntries;
    if Dash(ls[index].content) {
      r := ParseSequence(ls, index, ls[index].indent);
    } else {
      r := ParseMapping(ls, index, ls[index].indent);
    }
  }

  /** Lines after the top-level mapping cannot remain, see `ParseEntries`: no line is shallower than 0. */
  method ParseDocument(text: string) returns (r: Res<Node>)
    ensures r == Parse(text)
  {
    hide ParseEntries, PrepareFrom;
    var lines := PrepareLines(text);
    if lines.Err? { return Err(lines.error, lines.at); }
    var ls := lines.value;
    if ls == [] { return Err(EmptyDocument, 0); }
    if ls[0].indent != 0 { return Err(NotAtTop, ls[0].number); }
    r := ParseMapping(ls, 0, 0);
  }

  method ParseMapping(ls: seq<Line>, index: nat, d: nat) returns (r: Res<Node>)
    requires index < |ls|
    ensures r == match ParseEntries(ls, index, d) case Ok(es, j) => Ok(Mapping(es), j) case Err(e, at) => Err(e, at)
    decreases |ls| - index, 0
  {
    hide Strip, LStrip, Dash, FirstSep;
    var entries: seq<Entry> := [];
    var cur := index;
    ConsNone(ParseEntries(ls, index, d));
    while cur < |ls|
      invariant index <= cur <= |ls|
      invariant Cons(entries, ParseEntries(ls, cur, d)) == ParseEntries(ls, index, d)
      decreases |ls| - cur
    {
      var line := ls[cur];
      if line.indent < d { break; }
      if line.indent > d { return Err(UnexpectedIndent, line.number); }
      if Dash(line.content) { return Err(ItemInMapping, line.number); }
      var sep := FindMappingSeparator(line.content);
      var entry, next;
      if sep.None? {
        entry, next := Entry(None, Scalar(line.content)), cur + 1;
      } else {
        var key, text := Strip(line.content[..sep.value]), LStrip(line.content[sep.value + 1..]);
        if key == "" { return Err(EmptyKey, line.number); }
        if text != "" {
          entry, next := Entry(Some(key), Scalar(text)), cur + 1;
        } else if cur + 1 >= |ls| || ls[cur + 1].indent <= d {
          entry, next := Entry(Some(key), Mapping([])), cur + 1;
        } else {
          var child := ParseChild(ls, cur + 1, d);
          if child.Err? { return Err(child.error, child.at); }
          entry, next := Entry(Some(key), child.value), child.next;
        }
      }
      assert ParseEntry(ls, cur, d) == Ok(entry, next);
      ConsCons(entries, [entry], ParseEntries(ls, next, d));
      entries, cur := entries + [entry], next;
    }
    assert ParseEntries(ls, cur, d) == Ok([], cur) && entries + [] == entries;
    return Ok(Mapping(entries), cur);
  }

  method ParseSequence(ls: seq<Line>, index: nat, d: nat) returns (r: Res<Node>)
    requires index < |ls|
    ensures r == match ParseItems(ls, index, d) case Ok(vs, j) => Ok(Sequence(vs), j) case Err(e, at) => Err(e, at)
    decreases |ls| - index, 0
  {
    hide RStrip, LStrip;
    var items: seq<Node> := [];
    var cur := index;
    ConsNone(ParseItems(ls, index, d));
    while cur < |ls|
      invariant index <= cur <= |ls|
      invariant Cons(items, ParseItems(ls, cur, d)) == ParseItems(ls, index, d)
      decreases |ls| - cur
    {
      var line := ls[cur];
      if line.indent < d { break; }
      if line.indent > d { return Err(UnexpectedItemIndent, line.number); }
      if !Dash(line.content) { return Err(ExpectedDash, line.number); }
      var text := LStrip(line.content[2..]);
      var item, next;
      if text == "" {
        if cur + 1 >= |ls| || ls[cur + 1].indent <= d { return Err(ExpectedBlock, line.number); }
        var child := ParseChild(ls, cur + 1, d);
        if child.Err? { return Err(child.error, child.at); }
        item, next := child.value, child.next;
      } else if text[|text| - 1] == ':' {
        var key := RStrip(text[..|text| - 1]);
        if key == "" { return Err(EmptyItemKey, line.number); }
        var nested := Mapping([]);
        next := cur + 1;
        if cur + 1 < |ls| && ls[cur + 1].indent > d {
          var child := ParseChild(ls, cur + 1, d);
          if child.Err? { return Err(child.error, child.at); }
          nested, next := child.value, child.next;
        }
        item := Mapping([Entry(Some(key), nested)]);
      } else {
        item, next := Scalar(text), cur + 1;
      }
      assert ParseItem(ls, cur, d) == Ok(item, next);
      ConsCons(items, [item], ParseItems(ls, next, d));
      items, cur := items + [item], next;
    }
    assert ParseItems(ls, cur, d) == Ok([], cur) && items + [] == items;
    return Ok(Sequence(items), cur);
  }
}
