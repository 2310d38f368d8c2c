/** A reference printer of the indentation language; parsing what it prints gives the tree back. */
module ParserPrinter {
  import opened Collections
  import opened Characters
  import opened Parser
  import opened ParserLayout

  // ---------------------------------------------------------------- printing

  /** A printed line: blanks, then the content. */
  datatype Row = Row(indent: nat, content: string)

  /** White space that neither counts as indentation nor ends a line. */
  const US: string := [31 as char]

  /** A key that looks like a list item is kept apart from the margin. */
  function Lead(k: string): string { if Dash(k) then US else "" }

  /** A key that ends in an open escape is kept apart from the colon. */
  function Post(k: string): string { if Scan(k, |k|).escape then " " else "" }

  function KeyText(k: string): string { Lead(k) + k + Post(k) + ":" }

  /** A list item written as `- key:` with its value below. */
  predicate Inline(v: Node) {
    v.Mapping? && |v.entries| == 1 && v.entries[0].key.Some? && !v.entries[0].value.Scalar?
  }

  function PrintEntries(es: seq<Entry>, d: nat): seq<Row>
    decreases es, 0
  {
    if es == [] then [] else PrintEntry(es[0], d) + PrintEntries(es[1..], d)
  }

  function PrintEntry(e: Entry, d: nat): (r: seq<Row>)
    ensures r != []
    decreases e, 2
  {
    match e
    case Entry(Some(k), Scalar(t)) => [Row(d, KeyText(k) + (" " + t))]
    case Entry(Some(k), v) => [Row(d, KeyText(k))] + PrintBlock(v, d)
    case Entry(None, v) => [Row(d, if v.Scalar? then v.text else "")]
  }

  function PrintBlock(v: Node, d: nat): seq<Row>
    decreases v, 1
  {
    match v
    case Mapping(es) => PrintEntries(es, d + 2)
    case Sequence(vs) => PrintItems(vs, d + 2)
    case Scalar(_) => []
  }

  function PrintItems(vs: seq<Node>, d: nat): seq<Row>
    decreases vs, 0
  {
    if vs == [] then [] else PrintItem(vs[0], d) + PrintItems(vs[1..], d)
  }

  function PrintItem(v: Node, d: nat): (r: seq<Row>)
    ensures r != []
    decreases v, 2
  {
    if v.Scalar? then [Row(d, "- " + v.text)]
    else if Inline(v) then PrintKeyed(v.entries[0], d)
    else [Row(d, "- ")] + PrintBlock(v, d)
  }

  function PrintKeyed(e: Entry, d: nat): (r: seq<Row>)
    requires e.key.Some?
    ensures r != []
    decreases e, 2
  {
    [Row(d, "- " + e.key.value + ":")] + PrintBlock(e.value, d)
  }

  // ---------------------------------------------------------------- trees that can be printed

  /** What can follow the indentation of a line that counts. */
  ghost predicate Content(c: string) {
    c != "" && c[0] != ' ' && c[0] != '\t' && LStrip(c) != "" && LStrip(c)[0] != '#' && NoBreak(c)
  }

  predicate Trimmed(k: string) { k != "" && !IsSpace(k[0]) && !IsSpace(k[|k| - 1]) }

  predicate Text(t: string) { t != "" && !IsSpace(t[0]) }

  ghost predicate Value(t: string) { Text(t) && NoBreak(t) }

  /** A key outside quotes at its end and without a separator inside, that does not start a comment. */
  ghost predicate GoodKey(k: string) {
    && Trimmed(k) && NoBreak(k) && k[0] != '#' && !Scan(k, |k|).single && !Scan(k, |k|).double
    && forall n :: 0 <= n < |k| ==> !Separator(k + ":", n)
  }

  ghost predicate PrintableEntries(es: seq<Entry>)
    decreases es, 0
  {
    forall i :: 0 <= i < |es| ==> PrintableEntry(es[i])
  }

  ghost predicate PrintableEntry(e: Entry)
    decreases e, 2
  {
    match e.key
    case Some(k) => GoodKey(k) && (if e.value.Scalar? then Value(e.value.text) else PrintableBlock(e.value))
    case None => e.value.Scalar? && Content(e.value.text) && !Dash(e.value.text) && FirstSep(e.value.text, 0).None?
  }

  ghost predicate PrintableBlock(v: Node)
    decreases v, 1
  {
    match v
    case Mapping(es) => PrintableEntries(es)
    case Sequence(vs) => vs != [] && PrintableItems(vs)
    case Scalar(_) => false
  }

  ghost predicate PrintableItems(vs: seq<Node>)
    decreases vs, 0
  {
    forall i :: 0 <= i < |vs| ==> PrintableItem(vs[i])
  }

  /** Scalars that do not look like a key, `- key:` with any trimmed key, and other non-empty blocks. */
  ghost predicate PrintableItem(v: Node)
    decreases v, 2
  {
    if v.Scalar? then Value(v.text) && v.text[|v.text| - 1] != ':'
    else if Inline(v) then PrintableKeyed(v.entries[0])
    else v != Mapping([]) && PrintableBlock(v)
  }

  ghost predicate PrintableKeyed(e: Entry)
    decreases e, 2
  {
    e.key.Some? && Trimmed(e.key.value) && NoBreak(e.key.value) && PrintableBlock(e.value)
  }

  // ---------------------------------------------------------------- white space

  ghost predicate Spaced(w: string) { forall i :: 0 <= i < |w| ==> IsSpace(w[i]) }

  lemma StripTrimmed(k: string)
    requires Trimmed(k)
    ensures Strip(k) == k && RStrip(k) == k && LStrip(k) == k
  {
  }

  lemma {:induction false} LStripSpaced(w: string, s: string)
    requires Spaced(w) && Text(s)
    ensures LStrip(w + s) == s
  {
    if w == "" {
      assert w + s == s;
    } else {
      assert (w + s)[0] == w[0] && (w + s)[1..] == w[1..] + s;
      LStripSpaced(w[1..], s);
    }
  }

  lemma {:induction false} RStripSpaced(s: string, w: string)
    requires Spaced(w) && s != "" && !IsSpace(s[|s| - 1])
    ensures RStrip(s + w) == s
    decreases |w|
  {
    if w == "" {
      assert s + w == s;
    } else {
      var n := |s + w| - 1;
      assert (s + w)[n] == w[|w| - 1] && (s + w)[..n] == s + w[..|w| - 1];
      RStripSpaced(s, w[..|w| - 1]);
    }
  }

  lemma StripSpaced(w1: string, k: string, w2: string)
    requires Spaced(w1) && Spaced(w2) && Trimmed(k)
    ensures Strip(w1 + k + w2) == k
  {
    SeqPlus(w1, k, w2);
    LStripSpaced(w1, k + w2);
    RStripSpaced(k, w2);
  }

  // ---------------------------------------------------------------- scanning past white space

  lemma {:induction false} ScanPrefix(s: string, t: string, n: nat)
    requires n <= |s| && n <= |t| && s[..n] == t[..n]
    ensures Scan(s, n) == Scan(t, n)
  {
    if n > 0 {
      assert s[..n - 1] == s[..n][..n - 1] && t[..n - 1] == t[..n][..n - 1];
      assert s[n - 1] == s[..n][n - 1] && t[n - 1] == t[..n][n - 1];
      ScanPrefix(s, t, n - 1);
    }
  }

  /** White space ends an escape and changes nothing else. */
  lemma {:induction false} ScanSpaces(s: string, i: nat, n: nat)
    requires i <= n <= |s| && forall j :: i <= j < n ==> IsSpace(s[j])
    ensures Scan(s, n) == if i == n then Scan(s, i) else Scan(s, i).(escape := false)
    decreases n
  {
    if i < n { ScanSpaces(s, i, n - 1); }
  }

  /** White space in front does not matter. */
  lemma {:induction false} ScanAfter(w: string, s: string, n: nat)
    requires Spaced(w) && n <= |s|
    ensures Scan(w + s, |w| + n) == Scan(s, n)
    decreases n
  {
    if n == 0 {
      ScanSpaces(w + s, 0, |w|);
    } else {
      ScanAfter(w, s, n - 1);
      assert (w + s)[|w| + n - 1] == s[n - 1];
    }
  }

  /** A line with a key: white space, the key, white space, a colon and the rest. */
  function KeyedLine(w1: string, k: string, w2: string, rest: string): string { w1 + (k + (w2 + (":" + rest))) }

  lemma KeyParts(w1: string, k: string, w2: string, rest: string)
    ensures var c, p := KeyedLine(w1, k, w2, rest), |w1| + |k| + |w2|;
      p < |c| && c[p] == ':' && c[..p] == w1 + k + w2 && c[p + 1..] == rest
  {
    var front, back := w1 + k + w2, ":" + rest;
    SeqPlus(w1 + k, w2, back);
    SeqPlus(w1, k, w2 + back);
    assert KeyedLine(w1, k, w2, rest) == front + back;
    assert (front + back)[..|front|] == front && (front + back)[|front|] == ':';
    assert (front + back)[|front| + 1..] == rest;
  }

  /** The scanning state at the colon is that of the key, after an escape is closed by white space. */
  lemma KeyScan(w1: string, k: string, w2: string, rest: string)
    requires Spaced(w1) && Spaced(w2)
    ensures |w1| + |k| + |w2| <= |KeyedLine(w1, k, w2, rest)|
    ensures Scan(KeyedLine(w1, k, w2, rest), |w1| + |k| + |w2|) ==
      if w2 == "" then Scan(k, |k|) else Scan(k, |k|).(escape := false)
  {
    hide Scan;
    var s := k + (w2 + (":" + rest));
    ScanAfter(w1, s, |k| + |w2|);
    assert forall j :: |k| <= j < |k| + |w2| ==> s[j] == w2[j - |k|];
    ScanSpaces(s, |k|, |k| + |w2|);
    assert s[..|k|] == k && k[..|k|] == k;
    ScanPrefix(s, k, |k|);
  }

  /** Inside the key the separators are those of the key; in white space there are none. */
  lemma KeySeparators(w1: string, k: string, w2: string, rest: string, n: nat)
    requires Spaced(w1) && Spaced(w2) && n < |w1| + |k| + |w2|
    ensures Separator(KeyedLine(w1, k, w2, rest), n) <==> |w1| <= n < |w1| + |k| && Separator(k + ":", n - |w1|)
  {
    var s := k + (w2 + (":" + rest));
    var c := w1 + s;
    if n < |w1| {
      assert c[n] == w1[n];
    } else if n < |w1| + |k| {
      var m := n - |w1|;
      assert c[n] == k[m] == (k + ":")[m];
      ScanAfter(w1, s, m);
      assert s[..m] == k[..m] == (k + ":")[..m];
      ScanPrefix(s, k + ":", m);
      if m + 1 < |k| { assert c[n + 1] == k[m + 1] == (k + ":")[m + 1]; }
      else if w2 != "" { assert c[n + 1] == w2[0]; }
      else { assert c[n + 1] == ':'; }
    } else {
      assert c[n] == w2[n - |w1| - |k|];
    }
  }

  // ---------------------------------------------------------------- printed key lines

  lemma PrintedKey(k: string, rest: string)
    ensures Spaced(Lead(k)) && Spaced(Post(k))
    ensures KeyText(k) + rest == KeyedLine(Lead(k), k, Post(k), rest)
  {
    hide Scan;
    var a, b := Lead(k), Post(k);
    calc {
      KeyText(k) + rest;
      a + k + b + ":" + rest;
      { SeqPlus(a + k + b, ":", rest); SeqPlus(a + k, b, ":" + rest); SeqPlus(a, k, b + (":" + rest)); }
      a + (k + (b + (":" + rest)));
    }
  }

  /** A printed key line as the parser reads it. */
  lemma KeyLine(k: string, rest: string)
    requires GoodKey(k) && (rest == "" || rest[0] == ' ') && NoBreak(rest)
    ensures var c, p := KeyText(k) + rest, |KeyText(k)| - 1;
      && !Dash(c) && Content(c)
      && FirstSep(c, 0) == Some(p) && Strip(c[..p]) == k && c[p + 1..] == rest
  {
    var c, p := KeyText(k) + rest, |KeyText(k)| - 1;
    PrintedKey(k, rest);
    KeyParts(Lead(k), k, Post(k), rest);
    KeyScan(Lead(k), k, Post(k), rest);
    StripSpaced(Lead(k), k, Post(k));
    assert Separator(c, p);
    forall n | 0 <= n < p ensures !Separator(c, n) { KeySeparators(Lead(k), k, Post(k), rest, n); }
    KeyStart(k, rest);
  }

  lemma NoBreakPlus(a: string, b: string)
    ensures NoBreak(a + b) <==> NoBreak(a) && NoBreak(b)
  {
    if NoBreak(a + b) {
      forall i | 0 <= i < |a| ensures !Break(a[i]) { assert (a + b)[i] == a[i]; }
      forall i | 0 <= i < |b| ensures !Break(b[i]) { assert (a + b)[|a| + i] == b[i]; }
    }
  }

  lemma KeyTextNoBreak(k: string)
    ensures NoBreak(KeyText(k)) <==> NoBreak(k)
  {
    hide Scan, NoBreak;
    NoBreakPlus(Lead(k) + k + Post(k), ":");
    NoBreakPlus(Lead(k) + k, Post(k));
    NoBreakPlus(Lead(k), k);
    SmallNoBreak();
  }

  lemma SmallNoBreak()
    ensures NoBreak("") && NoBreak(" ") && NoBreak(":") && NoBreak(US) && NoBreak("- ")
  {
  }

  lemma KeyStart(k: string, rest: string)
    requires GoodKey(k) && NoBreak(rest)
    ensures !Dash(KeyText(k) + rest) && Content(KeyText(k) + rest)
  {
    var c := KeyText(k) + rest;
    KeyTextNoBreak(k);
    NoBreakPlus(KeyText(k), rest);
    PrintedKey(k, rest);
    LStripSpaced(Lead(k), k + (Post(k) + (":" + rest)));
    if !Dash(k) && |k| == 1 && k[0] == '-' { assert Scan(k, 1) == PLAIN; assert c[1] == ':'; }
  }

  lemma ValueText(t: string)
    requires Text(t)
    ensures LStrip(" " + t) == t
  {
    assert (" " + t)[1..] == t;
  }

  lemma ItemLine(t: string)
    ensures Dash("- " + t) && ("- " + t)[2..] == t && (NoBreak(t) ==> Content("- " + t))
  {
    SmallNoBreak();
    NoBreakPlus("- ", t);
    assert ("- " + t)[0] == '-';
    assert LStrip("- " + t) == "- " + t;
  }

  // ---------------------------------------------------------------- printed trees are laid out

  /** Lines `i..j` of `ls` hold the rows of `part`. */
  ghost predicate Holds(ls: seq<Line>, i: nat, j: nat, part: seq<Row>) {
    i <= j <= |ls| && j - i == |part| && forall n :: i <= n < j ==> Row(ls[n].indent, ls[n].content) == part[n - i]
  }

  lemma HoldsSplit(ls: seq<Line>, i: nat, j: nat, a: seq<Row>, b: seq<Row>)
    requires Holds(ls, i, j, a + b)
    ensures i + |a| <= j && Holds(ls, i, i + |a|, a) && Holds(ls, i + |a|, j, b)
    ensures a != [] ==> Row(ls[i].indent, ls[i].content) == a[0]
  {
    forall n | i <= n < i + |a| ensures Row(ls[n].indent, ls[n].content) == a[n - i] {
      assert (a + b)[n - i] == a[n - i];
    }
    forall n | i + |a| <= n < j ensures Row(ls[n].indent, ls[n].content) == b[n - i - |a|] {
      assert (a + b)[n - i] == b[n - i - |a|];
    }
  }

  lemma {:induction false} EntriesLaidOut(es: seq<Entry>, ls: seq<Line>, i: nat, j: nat, d: nat)
    requires PrintableEntries(es) && Holds(ls, i, j, PrintEntries(es, d))
    ensures LayoutEntries(es, ls, i, j, d)
    decreases es, 0
  {
    hide PrintEntry, LayoutEntry, PrintableEntry;
    if es != [] {
      var head := PrintEntry(es[0], d);
      HoldsSplit(ls, i, j, head, PrintEntries(es[1..], d));
      EntryLaidOut(es[0], ls, i, i + |head|, d);
      EntriesLaidOut(es[1..], ls, i + |head|, j, d);
    }
  }

  lemma {:induction false} EntryLaidOut(e: Entry, ls: seq<Line>, i: nat, j: nat, d: nat)
    requires PrintableEntry(e) && i < j && Holds(ls, i, j, PrintEntry(e, d))
    ensures LayoutEntry(e, ls, i, j, d)
    decreases e, 2
  {
    hide PrintBlock, LayoutBlock, PrintableBlock, GoodKey, Dash, Strip, LayoutEntry, FirstSep, KeyText, Content;
    match e
    case Entry(Some(k), Scalar(t)) => KeyedScalar(k, t, ls, i, d);
    case Entry(Some(k), v) =>
      HoldsSplit(ls, i, j, [Row(d, KeyText(k))], PrintBlock(v, d));
      BlockLaidOut(v, ls, i + 1, j, d);
      KeyedBlock(k, v, ls, i, j, d);
    case Entry(None, _) => UnkeyedScalar(e.value.text, ls, i, d);
  }

  lemma KeyedScalar(k: string, t: string, ls: seq<Line>, i: nat, d: nat)
    requires GoodKey(k) && Value(t) && i < |ls| && ls[i].indent == d && ls[i].content == KeyText(k) + (" " + t)
    ensures LayoutEntry(Entry(Some(k), Scalar(t)), ls, i, i + 1, d)
  {
    hide GoodKey, Dash, Strip, IsSpace, KeyText, Content, NoBreak;
    SmallNoBreak();
    NoBreakPlus(" ", t);
    KeyLine(k, " " + t);
    ValueText(t);
    GoodKeyNotEmpty(k);
  }

  lemma GoodKeyNotEmpty(k: string)
    requires GoodKey(k)
    ensures k != ""
  {
  }

  lemma KeyedBlock(k: string, v: Node, ls: seq<Line>, i: nat, j: nat, d: nat)
    requires GoodKey(k) && i < j <= |ls| && ls[i].indent == d && ls[i].content == KeyText(k)
    requires LayoutBlock(v, ls, i + 1, j, d)
    ensures LayoutEntry(Entry(Some(k), v), ls, i, j, d)
  {
    hide GoodKey, Dash, Strip, LayoutBlock, KeyText, Content;
    assert KeyText(k) + "" == KeyText(k);
    KeyLine(k, "");
    GoodKeyNotEmpty(k);
  }

  lemma UnkeyedScalar(t: string, ls: seq<Line>, i: nat, d: nat)
    requires !Dash(t) && FirstSep(t, 0).None? && i < |ls| && ls[i].indent == d && ls[i].content == t
    ensures LayoutEntry(Entry(None, Scalar(t)), ls, i, i + 1, d)
  {
  }

  lemma {:induction false} BlockLaidOut(v: Node, ls: seq<Line>, i: nat, j: nat, d: nat)
    requires PrintableBlock(v) && Holds(ls, i, j, PrintBlock(v, d))
    ensures LayoutBlock(v, ls, i, j, d)
    ensures v != Mapping([]) ==> i < j
    decreases v, 1
  {
    hide PrintEntry, PrintItem, PrintableEntry, PrintableItem, LayoutEntry, LayoutItem;
    match v
    case Mapping(es) =>
      EntriesLaidOut(es, ls, i, j, d + 2);
      if es != [] {
        HoldsSplit(ls, i, j, PrintEntry(es[0], d + 2), PrintEntries(es[1..], d + 2));
        EntryHead(es[0], d + 2);
      }
    case Sequence(vs) =>
      ItemsLaidOut(vs, ls, i, j, d + 2);
      HoldsSplit(ls, i, j, PrintItem(vs[0], d + 2), PrintItems(vs[1..], d + 2));
      ItemHead(vs[0], d + 2);
  }

  lemma EntryHead(e: Entry, d: nat)
    requires PrintableEntry(e)
    ensures var row := PrintEntry(e, d)[0]; row.indent == d && !Dash(row.content) && Content(row.content)
  {
    hide GoodKey, Dash, KeyText, Content, PrintBlock, PrintableBlock, NoBreak;
    SmallNoBreak();
    match e
    case Entry(Some(k), Scalar(t)) =>
      NoBreakPlus(" ", t);
      KeyLine(k, " " + t);
    case Entry(Some(k), v) =>
      assert KeyText(k) + "" == KeyText(k);
      KeyLine(k, "");
    case Entry(None, _) =>
  }

  lemma ItemHead(v: Node, d: nat)
    ensures PrintItem(v, d)[0].indent == d && Dash(PrintItem(v, d)[0].content)
  {
  }

  lemma {:induction false} ItemsLaidOut(vs: seq<Node>, ls: seq<Line>, i: nat, j: nat, d: nat)
    requires PrintableItems(vs) && Holds(ls, i, j, PrintItems(vs, d))
    ensures LayoutItems(vs, ls, i, j, d)
    decreases vs, 0
  {
    hide PrintItem, LayoutItem, PrintableItem;
    if vs != [] {
      var head := PrintItem(vs[0], d);
      HoldsSplit(ls, i, j, head, PrintItems(vs[1..], d));
      ItemLaidOut(vs[0], ls, i, i + |head|, d);
      ItemsLaidOut(vs[1..], ls, i + |head|, j, d);
    }
  }

  lemma {:induction false} ItemLaidOut(v: Node, ls: seq<Line>, i: nat, j: nat, d: nat)
    requires PrintableItem(v) && i < j && Holds(ls, i, j, PrintItem(v, d))
    ensures LayoutItem(v, ls, i, j, d)
    decreases v, 2
  {
    hide PrintBlock, LayoutBlock, PrintableBlock, LayoutKeyed, Content;
    if v.Scalar? {
      ItemLine(v.text);
      assert LStrip(v.text) == v.text;
    } else if Inline(v) {
      var k := v.entries[0].key.value;
      KeyedLaidOut(v.entries[0], ls, i, j, d);
      KeyedText(k);
    } else {
      ItemLine("");
      assert "- " + "" == "- ";
      HoldsSplit(ls, i, j, [Row(d, "- ")], PrintBlock(v, d));
      BlockLaidOut(v, ls, i + 1, j, d);
    }
  }

  lemma KeyedText(k: string)
    requires Trimmed(k)
    ensures var c := "- " + k + ":"; var text := LStrip(c[2..]);
      Dash(c) && text != "" && text[|text| - 1] == ':' && RStrip(text[..|text| - 1]) == k
  {
    var c := "- " + k + ":";
    assert c[2..] == k + ":";
    assert LStrip(k + ":") == k + ":";
    assert (k + ":")[..|k|] == k;
    StripTrimmed(k);
  }

  lemma {:induction false} KeyedLaidOut(e: Entry, ls: seq<Line>, i: nat, j: nat, d: nat)
    requires PrintableKeyed(e) && i < j && Holds(ls, i, j, PrintKeyed(e, d))
    ensures LayoutKeyed(e, e.key.value, ls, i + 1, j, d)
    decreases e, 2
  {
    hide PrintBlock, LayoutBlock, PrintableBlock;
    HoldsSplit(ls, i, j, [Row(d, "- " + e.key.value + ":")], PrintBlock(e.value, d));
    BlockLaidOut(e.value, ls, i + 1, j, d);
  }

  // ---------------------------------------------------------------- raw text

  function Spaces(n: nat): string { seq(n, _ => ' ') }

  function Raw(rows: seq<Row>): seq<string> {
    seq(|rows|, i requires 0 <= i < |rows| => Spaces(rows[i].indent) + rows[i].content)
  }

  /** The prepared lines of printed rows. */
  function Numbered(rows: seq<Row>): seq<Line> {
    seq(|rows|, i requires 0 <= i < |rows| => Line(i + 1, rows[i].indent, rows[i].content))
  }

  lemma {:induction false} IndentOfRaw(n: nat, c: string)
    requires c != "" && c[0] != ' ' && c[0] != '\t'
    ensures IndentOf(Spaces(n) + c) == n && LStrip(Spaces(n) + c) == LStrip(c)
    decreases n
  {
    var s := Spaces(n) + c;
    if n > 0 {
      assert s[0] == ' ' && s[1..] == Spaces(n - 1) + c;
      IndentOfRaw(n - 1, c);
    } else {
      assert s == c;
    }
  }

  lemma {:induction false} RStripKeeps(c: string)
    requires Text(c)
    ensures RStrip(c) != ""
  {
    if IsSpace(c[|c| - 1]) { RStripKeeps(c[..|c| - 1]); }
  }

  lemma {:induction false} LStripText(s: string)
    ensures LStrip(s) == "" || Text(LStrip(s))
  {
    if s != "" && IsSpace(s[0]) { LStripText(s[1..]); }
  }

  lemma RawLine(n: nat, c: string)
    requires Content(c)
    ensures var s := Spaces(n) + c; !Tabbed(s) && !Ignored(s) && IndentOf(s) == n && s[n..] == c
  {
    IndentOfRaw(n, c);
    LStripText(c);
    RStripKeeps(LStrip(c));
    var s := Spaces(n) + c;
    assert s[..n] == Spaces(n) && s[n..] == c;
  }

  ghost predicate AllContent(rows: seq<Row>) { forall k :: 0 <= k < |rows| ==> Content(rows[k].content) }

  /** Preparing raw lines gives back the rows they were made of. */
  lemma {:induction false} PrepareRaw(rows: seq<Row>, i: nat)
    requires i <= |rows| && AllContent(rows)
    ensures PrepareFrom(Raw(rows), i) == Ok(Numbered(rows)[i..], |rows|)
    decreases |rows| - i
  {
    hide Tabbed, Ignored, IndentOf, Content, Spaces;
    var ls := Numbered(rows);
    if i < |rows| {
      var n, c := rows[i].indent, rows[i].content;
      assert Raw(rows)[i] == Spaces(n) + c;
      RawLine(n, c);
      PrepareRaw(rows, i + 1);
      assert [Line(i + 1, n, c)] + ls[i + 1..] == ls[i..];
    } else {
      assert ls[i..] == [];
    }
  }

  lemma ContentAppend(a: seq<Row>, b: seq<Row>)
    requires AllContent(a) && AllContent(b)
    ensures AllContent(a + b)
  {
  }

  lemma {:induction false} EntriesContent(es: seq<Entry>, d: nat)
    requires PrintableEntries(es)
    ensures AllContent(PrintEntries(es, d))
    decreases es, 0
  {
    hide PrintEntry, PrintableEntry;
    if es != [] {
      EntryContent(es[0], d);
      EntriesContent(es[1..], d);
      ContentAppend(PrintEntry(es[0], d), PrintEntries(es[1..], d));
    }
  }

  lemma {:induction false} EntryContent(e: Entry, d: nat)
    requires PrintableEntry(e)
    ensures AllContent(PrintEntry(e, d))
    decreases e, 2
  {
    hide PrintBlock, PrintableBlock, GoodKey, Content, KeyText;
    EntryHead(e, d);
    match e
    case Entry(Some(k), v) =>
      if !v.Scalar? {
        BlockContent(v, d);
        ContentAppend([Row(d, KeyText(k))], PrintBlock(v, d));
      }
    case _ =>
  }

  lemma {:induction false} BlockContent(v: Node, d: nat)
    requires PrintableBlock(v)
    ensures AllContent(PrintBlock(v, d))
    decreases v, 1
  {
    match v
    case Mapping(es) => EntriesContent(es, d + 2);
    case Sequence(vs) => ItemsContent(vs, d + 2);
  }

  lemma {:induction false} ItemsContent(vs: seq<Node>, d: nat)
    requires PrintableItems(vs)
    ensures AllContent(PrintItems(vs, d))
    decreases vs, 0
  {
    hide PrintItem, PrintableItem;
    if vs != [] {
      ItemContent(vs[0], d);
      ItemsContent(vs[1..], d);
      ContentAppend(PrintItem(vs[0], d), PrintItems(vs[1..], d));
    }
  }

  lemma {:induction false} ItemContent(v: Node, d: nat)
    requires PrintableItem(v)
    ensures AllContent(PrintItem(v, d))
    decreases v, 2
  {
    hide PrintBlock, PrintableBlock, Content;
    if v.Scalar? {
      ItemLine(v.text);
    } else if Inline(v) {
      KeyedContent(v.entries[0], d);
    } else {
      BlockContent(v, d);
      ItemLine("");
      assert "- " + "" == "- ";
      ContentAppend([Row(d, "- ")], PrintBlock(v, d));
    }
  }

  lemma {:induction false} KeyedContent(e: Entry, d: nat)
    requires PrintableKeyed(e)
    ensures AllContent(PrintKeyed(e, d))
    decreases e, 2
  {
    hide PrintBlock, PrintableBlock, Content;
    BlockContent(e.value, d);
    var c := "- " + e.key.value + ":";
    SeqPlus("- ", e.key.value, ":");
    SmallNoBreak();
    NoBreakPlus(e.key.value, ":");
    ItemLine(e.key.value + ":");
    ContentAppend([Row(d, c)], PrintBlock(e.value, d));
  }

  // ---------------------------------------------------------------- texts

  /** The lines, each ended by a line feed. */
  function Joined(lines: seq<string>): string {
    if lines == [] then "" else lines[0] + ("\n" + Joined(lines[1..]))
  }

  lemma {:induction false} LineEndIs(text: string, n: nat)
    requires n <= |text| && (n < |text| ==> Break(text[n])) && forall i :: 0 <= i < n ==> !Break(text[i])
    ensures LineEnd(text) == n
  {
  }

  /** Splitting undoes joining. */
  lemma {:induction false} SplitJoined(lines: seq<string>)
    requires forall i :: 0 <= i < |lines| ==> NoBreak(lines[i])
    ensures SplitLines(Joined(lines)) == lines
  {
    if lines != [] {
      var a, rest := lines[0], Joined(lines[1..]);
      var text := a + ("\n" + rest);
      assert text[|a|] == '\n' && text[..|a|] == a && text[|a| + 1..] == rest;
      assert forall i :: 0 <= i < |a| ==> text[i] == a[i];
      LineEndIs(text, |a|);
      SplitJoined(lines[1..]);
    }
  }

  lemma RawNoBreak(rows: seq<Row>)
    requires AllContent(rows)
    ensures forall i :: 0 <= i < |rows| ==> NoBreak(Raw(rows)[i])
  {
    forall i | 0 <= i < |rows| ensures NoBreak(Raw(rows)[i]) {
      assert Content(rows[i].content);
      NoBreakPlus(Spaces(rows[i].indent), rows[i].content);
    }
  }

  /** The text of a document. */
  function PrintText(es: seq<Entry>): string { Joined(Raw(PrintEntries(es, 0))) }

  /** Parsing the printed text of a document gives the document back. */
  lemma PrintThenParse(es: seq<Entry>)
    requires es != [] && PrintableEntries(es)
    ensures Parse(PrintText(es)) == Ok(Mapping(es), |PrintEntries(es, 0)|)
  {
    hide PrintableEntries, PrintEntry, LayoutEntries, ParseEntries;
    var rows := PrintEntries(es, 0);
    var ls := Numbered(rows);
    assert ls[0..] == ls;
    EntriesContent(es, 0);
    RawNoBreak(rows);
    SplitJoined(Raw(rows));
    PrepareRaw(rows, 0);
    EntriesLaidOut(es, ls, 0, |ls|, 0);
    ParsesExactly(ls, Mapping(es));
  }
}
