/** The printable documents are exactly those that the parser returns. */
module ParserRange {
  import opened Collections
  import opened Characters
  import opened Parser
  import opened ParserLayout
  import opened ParserPrinter

  // ---------------------------------------------------------------- stripped text

  lemma {:induction false} LStripParts(s: string) returns (w: string)
    ensures Spaced(w) && s == w + LStrip(s)
  {
    if s != "" && IsSpace(s[0]) {
      var w' := LStripParts(s[1..]);
      w := [s[0]] + w';
      assert s == [s[0]] + s[1..];
      SeqPlus([s[0]], w', LStrip(s));
    } else {
      w := "";
    }
  }

  lemma {:induction false} RStripParts(s: string) returns (w: string)
    ensures Spaced(w) && s == RStrip(s) + w
    ensures RStrip(s) == "" || !IsSpace(RStrip(s)[|RStrip(s)| - 1])
    decreases |s|
  {
    hide IsSpace;
    w := "";
    if s != "" && IsSpace(s[|s| - 1]) {
      var front, last := s[..|s| - 1], s[|s| - 1];
      var w' := RStripParts(front);
      w := w' + [last];
      assert s == front + [last] && RStrip(s) == RStrip(front);
      SeqPlus(RStrip(front), w', [last]);
    } else {
      assert s + "" == s;
    }
  }

  /** Stripping leaves a trimmed text between white space. */
  lemma StripParts(s: string) returns (w1: string, w2: string)
    requires Strip(s) != ""
    ensures Spaced(w1) && Spaced(w2) && s == w1 + Strip(s) + w2 && Trimmed(Strip(s))
  {
    w1 := LStripParts(s);
    w2 := RStripParts(LStrip(s));
    LStripText(s);
    var k := Strip(s);
    assert LStrip(s)[0] == k[0];
    SeqPlus(w1, k, w2);
  }

  lemma RStripTrimmed(t: string)
    requires Text(t) && RStrip(t) != ""
    ensures Trimmed(RStrip(t))
  {
    var w := RStripParts(t);
    assert t[0] == RStrip(t)[0];
  }

  /** A key that the parser reads is a good key. */
  lemma KeyIsGood(c: string, s: nat)
    requires Content(c) && s <= |c| && FirstSep(c, 0) == Some(s) && Strip(c[..s]) != ""
    ensures GoodKey(Strip(c[..s]))
  {
    hide Scan, Strip, LStrip, Separator;
    SeparatorPlain(c, s);
    var k, rest := Strip(c[..s]), c[s + 1..];
    var w1, w2 := StripParts(c[..s]);
    KeyNoBreak(c, s, w1, k, w2);
    assert c == KeyedLine(w1, k, w2, rest) by { KeyedIs(c, s, w1, k, w2); }
    KeyScan(w1, k, w2, rest);
    forall n | 0 <= n < |k| ensures !Separator(k + ":", n) { KeySeparators(w1, k, w2, rest, |w1| + n); }
    LStripSpaced(w1, k + (w2 + (":" + rest)));
  }

  lemma KeyNoBreak(c: string, s: nat, w1: string, k: string, w2: string)
    requires NoBreak(c) && s <= |c| && c[..s] == w1 + k + w2
    ensures NoBreak(k)
  {
    assert c == c[..s] + c[s..];
    NoBreakPlus(c[..s], c[s..]);
    NoBreakPlus(w1 + k, w2);
    NoBreakPlus(w1, k);
  }

  lemma StripNoBreak(s: string)
    requires NoBreak(s)
    ensures NoBreak(LStrip(s)) && NoBreak(RStrip(s))
  {
    var w := LStripParts(s);
    NoBreakPlus(w, LStrip(s));
    var w' := RStripParts(s);
    NoBreakPlus(RStrip(s), w');
  }

  /** What is left of a line's content after its start. */
  lemma TailNoBreak(c: string, n: nat)
    requires Content(c) && n <= |c|
    ensures NoBreak(c[n..]) && NoBreak(LStrip(c[n..]))
  {
    assert c == c[..n] + c[n..];
    NoBreakPlus(c[..n], c[n..]);
    StripNoBreak(c[n..]);
  }

  lemma SeparatorPlain(c: string, s: nat)
    requires Separator(c, s)
    ensures s < |c| && c[s] == ':' && Scan(c, s) == PLAIN
  {
  }

  lemma KeyedIs(c: string, s: nat, w1: string, k: string, w2: string)
    requires Separator(c, s) && c[..s] == w1 + k + w2
    ensures c == KeyedLine(w1, k, w2, c[s + 1..]) && s == |w1| + |k| + |w2|
  {
    hide Scan;
    var back := ":" + c[s + 1..];
    assert c == c[..s] + back;
    SeqPlus(w1 + k, w2, back);
    SeqPlus(w1, k, w2 + back);
  }

  // ---------------------------------------------------------------- laid out trees are printable

  ghost predicate Prepared(ls: seq<Line>) { forall n :: 0 <= n < |ls| ==> Content(ls[n].content) }

  lemma {:induction false} EntriesPrintable(es: seq<Entry>, ls: seq<Line>, i: nat, j: nat, d: nat)
    requires Prepared(ls) && i <= j <= |ls| && LayoutEntries(es, ls, i, j, d)
    ensures PrintableEntries(es)
    decreases es, 0
  {
    hide LayoutEntry, PrintableEntry, Content;
    if es != [] {
      var m :| i < m <= j && LayoutEntry(es[0], ls, i, m, d) && LayoutEntries(es[1..], ls, m, j, d);
      EntryPrintable(es[0], ls, i, m, d);
      EntriesPrintable(es[1..], ls, m, j, d);
      assert forall n :: 0 < n < |es| ==> es[n] == es[1..][n - 1];
    }
  }

  lemma {:induction false} EntryPrintable(e: Entry, ls: seq<Line>, i: nat, j: nat, d: nat)
    requires Prepared(ls) && i < j <= |ls| && LayoutEntry(e, ls, i, j, d)
    ensures PrintableEntry(e)
    decreases e, 2
  {
    hide LayoutBlock, PrintableBlock, GoodKey, Dash, Strip, LStrip, Content;
    var c := ls[i].content;
    match FirstSep(c, 0)
    case None =>
    case Some(s) =>
      KeyIsGood(c, s);
      LStripText(c[s + 1..]);
      TailNoBreak(c, s + 1);
      if LStrip(c[s + 1..]) == "" {
        BlockPrintable(e.value, ls, i + 1, j, d);
        NoScalarBlock(e.value);
      }
  }

  lemma NoScalarBlock(v: Node)
    ensures PrintableBlock(v) ==> !v.Scalar?
  {
  }

  lemma {:induction false} BlockPrintable(v: Node, ls: seq<Line>, i: nat, j: nat, d: nat)
    requires Prepared(ls) && i <= j <= |ls| && LayoutBlock(v, ls, i, j, d)
    ensures PrintableBlock(v) && (i < j ==> v != Mapping([]))
    decreases v, 1
  {
    hide LayoutEntry, LayoutItem, PrintableEntry, PrintableItem, Dash, Content;
    if i < j {
      if Dash(ls[i].content) {
        ItemsPrintable(v.items, ls, i, j, ls[i].indent);
      } else {
        EntriesPrintable(v.entries, ls, i, j, ls[i].indent);
      }
    }
  }

  lemma {:induction false} ItemsPrintable(vs: seq<Node>, ls: seq<Line>, i: nat, j: nat, d: nat)
    requires Prepared(ls) && i <= j <= |ls| && LayoutItems(vs, ls, i, j, d)
    ensures PrintableItems(vs)
    decreases vs, 0
  {
    hide LayoutItem, PrintableItem, Content;
    if vs != [] {
      var m :| i < m <= j && LayoutItem(vs[0], ls, i, m, d) && LayoutItems(vs[1..], ls, m, j, d);
      ItemPrintable(vs[0], ls, i, m, d);
      ItemsPrintable(vs[1..], ls, m, j, d);
      assert forall n :: 0 < n < |vs| ==> vs[n] == vs[1..][n - 1];
    }
  }

  lemma {:induction false} ItemPrintable(v: Node, ls: seq<Line>, i: nat, j: nat, d: nat)
    requires Prepared(ls) && i < j <= |ls| && LayoutItem(v, ls, i, j, d)
    ensures PrintableItem(v)
    decreases v, 2
  {
    hide LayoutBlock, PrintableBlock, RStrip, LStrip, Content;
    var text := LStrip(ls[i].content[2..]);
    LStripText(ls[i].content[2..]);
    TailNoBreak(ls[i].content, 2);
    if text == "" {
      BlockPrintable(v, ls, i + 1, j, d);
      NoScalarBlock(v);
      if Inline(v) { InlinePrintable(v); }
    } else if text[|text| - 1] == ':' {
      var front := text[..|text| - 1];
      RStripNothing();
      RStripTrimmed(front);
      assert text == front + ":";
      NoBreakPlus(front, ":");
      StripNoBreak(front);
      KeyedPrintable(v.entries[0], RStrip(front), ls, i + 1, j, d);
    }
  }

  lemma RStripNothing()
    ensures RStrip("") == ""
  {
  }

  lemma InlinePrintable(v: Node)
    requires Inline(v) && PrintableBlock(v)
    ensures PrintableKeyed(v.entries[0])
  {
    assert PrintableEntry(v.entries[0]);
  }

  lemma {:induction false} KeyedPrintable(e: Entry, key: string, ls: seq<Line>, i: nat, j: nat, d: nat)
    requires Prepared(ls) && i <= j <= |ls| && LayoutKeyed(e, key, ls, i, j, d) && Trimmed(key) && NoBreak(key)
    ensures PrintableKeyed(e) && !e.value.Scalar?
    decreases e, 2
  {
    hide LayoutBlock, Content;
    BlockPrintable(e.value, ls, i, j, d);
  }

  // ---------------------------------------------------------------- prepared lines

  lemma {:induction false} IndentEnds(s: string)
    ensures IndentOf(s) < |s| ==> s[IndentOf(s)] != ' ' && s[IndentOf(s)] != '\t'
  {
    if s != "" && (s[0] == ' ' || s[0] == '\t') { IndentEnds(s[1..]); }
  }

  lemma {:induction false} PreparedLines(raw: seq<string>, i: nat)
    requires i <= |raw| && PrepareFrom(raw, i).Ok? && forall n :: 0 <= n < |raw| ==> NoBreak(raw[n])
    ensures Prepared(PrepareFrom(raw, i).value)
    decreases |raw| - i
  {
    hide Content, Tabbed, Ignored;
    if i < |raw| {
      PreparedLines(raw, i + 1);
      if !Ignored(raw[i]) { PreparedLine(raw[i]); }
    }
  }

  lemma PreparedLine(s: string)
    requires !Ignored(s) && NoBreak(s)
    ensures Content(s[IndentOf(s)..])
  {
    assert s == s[..IndentOf(s)] + s[IndentOf(s)..];
    NoBreakPlus(s[..IndentOf(s)], s[IndentOf(s)..]);
    StripIndent(s);
    IndentEnds(s);
  }

  /** The lines of a text hold no breaks. */
  lemma {:induction false} SplitNoBreak(text: string)
    ensures forall n :: 0 <= n < |SplitLines(text)| ==> NoBreak(SplitLines(text)[n])
    decreases |text|
  {
    if text != "" && LineEnd(text) < |text| { SplitNoBreak(text[NextLine(text, LineEnd(text))..]); }
  }

  // ---------------------------------------------------------------- main results

  ghost predicate Representable(root: Node) {
    root.Mapping? && root.entries != [] && PrintableEntries(root.entries)
  }

  /** What the parser returns can be printed. */
  lemma ParsedIsPrintable(text: string)
    requires Parse(text).Ok?
    ensures Representable(Parse(text).value)
  {
    hide PrepareFrom, ParseEntries, LayoutEntry, PrintableEntries, SplitLines;
    var raw := SplitLines(text);
    var ls := PrepareFrom(raw, 0).value;
    SplitNoBreak(text);
    PreparedLines(raw, 0);
    var root := Parse(text).value;
    ParsesExactly(ls, root);
    EntriesPrintable(root.entries, ls, 0, |ls|, 0);
  }

  /** A tree is the parse of some text if and only if it is a printable document. */
  lemma RangeExactly(root: Node)
    ensures (exists text :: Parse(text).Ok? && Parse(text).value == root) <==> Representable(root)
  {
    hide Parse;
    if Representable(root) {
      PrintThenParse(root.entries);
    } else if text :| Parse(text).Ok? && Parse(text).value == root {
      ParsedIsPrintable(text);
    }
  }

  /** Printing what was parsed and parsing it again gives the same tree, for every text that parses. */
  lemma Reprint(text: string)
    requires Parse(text).Ok?
    ensures Parse(text).value.Mapping?
    ensures var again := Parse(PrintText(Parse(text).value.entries));
      again.Ok? && again.value == Parse(text).value
  {
    hide Parse, PrintableEntries;
    ParsedIsPrintable(text);
    PrintThenParse(Parse(text).value.entries);
  }
}
