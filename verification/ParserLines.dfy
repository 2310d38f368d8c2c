/** Which lines of a text count, tm/dsl/parser.py: blank lines and comments make no difference. */
module ParserLines {
  import opened Collections
  import opened Characters
  import opened Parser

  // ---------------------------------------------------------------- lines that do not count

  ghost predicate Blank(s: string) { forall i :: 0 <= i < |s| ==> IsSpace(s[i]) }

  /** The first character that is not white space is a number sign. */
  ghost predicate Comment(s: string) {
    exists i :: 0 <= i < |s| && s[i] == '#' && Blank(s[..i])
  }

  lemma {:induction false} LStripIs(s: string)
    ensures LStrip(s) == "" <==> Blank(s)
    ensures (LStrip(s) != "" && LStrip(s)[0] == '#') <==> Comment(s)
  {
    if s != "" && IsSpace(s[0]) {
      LStripIs(s[1..]);
      BlankCons(s);
      CommentCons(s);
    } else if s != "" {
      assert s[..0] == "";
      if s[0] == '#' { assert Comment(s); }
      if i :| 0 <= i < |s| && s[i] == '#' && Blank(s[..i]) { if i > 0 { assert s[..i][0] == s[0]; } }
    }
  }

  lemma BlankCons(s: string)
    requires s != ""
    ensures Blank(s) <==> IsSpace(s[0]) && Blank(s[1..])
  {
    assert forall i :: 0 < i < |s| ==> s[i] == s[1..][i - 1];
  }

  lemma CommentCons(s: string)
    requires s != "" && IsSpace(s[0])
    ensures Comment(s) <==> Comment(s[1..])
  {
    if i :| 0 <= i < |s| && s[i] == '#' && Blank(s[..i]) {
      assert s[..i][1..] == s[1..][..i - 1];
      BlankCons(s[..i]);
      assert s[1..][i - 1] == '#';
    }
    if i :| 0 <= i < |s[1..]| && s[1..][i] == '#' && Blank(s[1..][..i]) {
      assert s[..i + 1][1..] == s[1..][..i] && s[..i + 1][0] == s[0];
      BlankCons(s[..i + 1]);
      assert s[i + 1] == '#';
    }
  }

  lemma {:induction false} RStripOfText(s: string)
    requires s != "" && !IsSpace(s[0])
    ensures RStrip(s) != ""
  {
    if IsSpace(s[|s| - 1]) { RStripOfText(s[..|s| - 1]); }
  }

  lemma {:induction false} LStripStart(s: string)
    ensures LStrip(s) == "" || !IsSpace(LStrip(s)[0])
  {
    if s != "" && IsSpace(s[0]) { LStripStart(s[1..]); }
  }

  /** A line is passed over exactly when it is blank or a comment. */
  lemma IgnoredExactly(s: string)
    ensures Ignored(s) <==> Blank(s) || Comment(s)
    ensures Strip(s) == "" <==> Blank(s)
  {
    LStripIs(s);
    LStripStart(s);
    if LStrip(s) != "" { RStripOfText(LStrip(s)); }
  }

  /** The line is indented by `n` characters, and what follows is neither a blank nor a tab. */
  ghost predicate Indented(s: string, n: nat) {
    && n <= |s| && (n < |s| ==> s[n] != ' ' && s[n] != '\t')
    && forall i :: 0 <= i < n ==> s[i] == ' ' || s[i] == '\t'
  }

  lemma {:induction false} IndentExactly(s: string, n: nat)
    ensures IndentOf(s) == n <==> Indented(s, n)
  {
    if s != "" && (s[0] == ' ' || s[0] == '\t') {
      if n > 0 {
        IndentExactly(s[1..], n - 1);
        assert forall i :: 0 <= i < |s| - 1 ==> s[1..][i] == s[i + 1];
        if Indented(s, n) { assert Indented(s[1..], n - 1); }
        if Indented(s[1..], n - 1) {
          forall i | 0 <= i < n ensures s[i] == ' ' || s[i] == '\t' { if i > 0 { assert s[i] == s[1..][i - 1]; } }
        }
      }
    }
  }

  // ---------------------------------------------------------------- the lines that do

  ghost predicate Counts(s: string) { !Blank(s) && !Comment(s) }

  /** A tab in the indentation of a line that is not blank. */
  ghost predicate BadTab(s: string) { !Blank(s) && exists n: nat :: Indented(s, n) && '\t' in s[..n] }

  lemma TabbedExactly(s: string)
    ensures Tabbed(s) <==> BadTab(s)
  {
    hide Indented;
    IgnoredExactly(s);
    IndentExactly(s, IndentOf(s));
    forall n | Indented(s, n) ensures n == IndentOf(s) { IndentExactly(s, n); }
    if Tabbed(s) { assert Indented(s, IndentOf(s)) && '\t' in s[..IndentOf(s)]; }
  }

  ghost predicate FirstBadTab(raw: seq<string>, i: nat, n: nat)
    requires n < |raw|
  {
    BadTab(raw[n]) && forall m :: i <= m < n ==> !BadTab(raw[m])
  }

  /** The line with this number, split at its indentation. */
  ghost predicate LineOf(raw: seq<string>, l: Line) {
    && 0 < l.number <= |raw| && Counts(raw[l.number - 1])
    && Indented(raw[l.number - 1], l.indent) && l.content == raw[l.number - 1][l.indent..]
  }

  ghost predicate Numbers(ls: seq<Line>, n: nat) { exists k :: 0 <= k < |ls| && ls[k].number == n }

  /** The lines of `raw` that count, from line `i` on: in order, each once. */
  ghost predicate Prepares(raw: seq<string>, i: nat, ls: seq<Line>) {
    && (forall k :: 0 <= k < |ls| ==> LineOf(raw, ls[k]) && ls[k].number > i)
    && (forall j, k :: 0 <= j < k < |ls| ==> ls[j].number < ls[k].number)
    && (forall n :: i <= n < |raw| && Counts(raw[n]) ==> Numbers(ls, n + 1))
  }

  lemma PreparesNext(raw: seq<string>, i: nat, ls: seq<Line>)
    requires i < |raw| && Prepares(raw, i + 1, ls) && !Counts(raw[i])
    ensures Prepares(raw, i, ls)
  {
  }

  lemma PreparesCons(raw: seq<string>, i: nat, ls: seq<Line>, l: Line)
    requires i < |raw| && Prepares(raw, i + 1, ls) && LineOf(raw, l) && l.number == i + 1
    ensures Prepares(raw, i, [l] + ls)
  {
    hide LineOf, Counts;
    var all := [l] + ls;
    assert all[0] == l && forall k :: 0 <= k < |ls| ==> all[k + 1] == ls[k];
    forall n | i <= n < |raw| && Counts(raw[n]) ensures Numbers(all, n + 1) {
      if n > i {
        var k :| 0 <= k < |ls| && ls[k].number == n + 1;
        assert all[k + 1].number == n + 1;
      }
    }
  }

  /** Preparation keeps exactly the lines that count, or stops at the first tab in an indentation. */
  lemma {:induction false} PreparesExactly(raw: seq<string>, i: nat)
    requires i <= |raw|
    ensures PrepareFrom(raw, i).Ok? <==> forall n :: i <= n < |raw| ==> !BadTab(raw[n])
    ensures PrepareFrom(raw, i).Ok? ==> Prepares(raw, i, PrepareFrom(raw, i).value)
    ensures var r := PrepareFrom(raw, i);
      r.Err? ==> r.error == TabIndent && i < r.at <= |raw| && FirstBadTab(raw, i, r.at - 1)
    decreases |raw| - i
  {
    hide BadTab, Counts, Prepares, Indented, Tabbed, Ignored;
    if i < |raw| {
      var s := raw[i];
      TabbedExactly(s);
      IgnoredExactly(s);
      IndentExactly(s, IndentOf(s));
      PreparesExactly(raw, i + 1);
      CountsIs(s);
      if PrepareFrom(raw, i).Ok? {
        var rest := PrepareFrom(raw, i + 1).value;
        if Ignored(s) { PreparesNext(raw, i, rest); }
        else { PreparesCons(raw, i, rest, Line(i + 1, IndentOf(s), s[IndentOf(s)..])); }
      }
    } else {
      PreparesNothing(raw);
    }
  }

  lemma CountsIs(s: string)
    ensures Counts(s) <==> !(Blank(s) || Comment(s))
  {
  }

  lemma PreparesNothing(raw: seq<string>)
    ensures Prepares(raw, |raw|, [])
  {
  }

  // ---------------------------------------------------------------- numbers do not matter

  /** The same indentations and contents. */
  ghost predicate SameRows(ls: seq<Line>, ms: seq<Line>) {
    |ls| == |ms| && forall k :: 0 <= k < |ls| ==> ls[k].indent == ms[k].indent && ls[k].content == ms[k].content
  }

  /** The same value, or the same kind of error. */
  ghost predicate Alike<T(!new)>(r: Res<T>, s: Res<T>) {
    if r.Ok? then s == r else s.Err? && s.error == r.error
  }

  lemma {:induction false} EntriesAlike(ls: seq<Line>, ms: seq<Line>, i: nat, d: nat)
    requires SameRows(ls, ms) && i <= |ls|
    ensures Alike(ParseEntries(ls, i, d), ParseEntries(ms, i, d))
    decreases |ls| - i, 2
  {
    hide ParseEntry;
    if !Stops(ls, i, d) {
      EntryAlike(ls, ms, i, d);
      if ParseEntry(ls, i, d).Ok? { EntriesAlike(ls, ms, ParseEntry(ls, i, d).next, d); }
    }
  }

  lemma {:induction false} EntryAlike(ls: seq<Line>, ms: seq<Line>, i: nat, d: nat)
    requires SameRows(ls, ms) && i < |ls|
    ensures Alike(ParseEntry(ls, i, d), ParseEntry(ms, i, d))
    decreases |ls| - i, 1
  {
    hide ParseBlock, Strip, LStrip, Dash, FirstSep;
    BlockAlike(ls, ms, i + 1, d);
  }

  lemma {:induction false} BlockAlike(ls: seq<Line>, ms: seq<Line>, i: nat, d: nat)
    requires SameRows(ls, ms) && i <= |ls|
    ensures Alike(ParseBlock(ls, i, d), ParseBlock(ms, i, d))
    decreases |ls| - i, 3
  {
    hide ParseItems, ParseEntries, Dash;
    if i < |ls| {
      ItemsAlike(ls, ms, i, ls[i].indent);
      EntriesAlike(ls, ms, i, ls[i].indent);
    }
  }

  lemma {:induction false} ItemsAlike(ls: seq<Line>, ms: seq<Line>, i: nat, d: nat)
    requires SameRows(ls, ms) && i <= |ls|
    ensures Alike(ParseItems(ls, i, d), ParseItems(ms, i, d))
    decreases |ls| - i, 2
  {
    hide ParseItem;
    if !Stops(ls, i, d) {
      ItemAlike(ls, ms, i, d);
      if ParseItem(ls, i, d).Ok? { ItemsAlike(ls, ms, ParseItem(ls, i, d).next, d); }
    }
  }

  lemma {:induction false} ItemAlike(ls: seq<Line>, ms: seq<Line>, i: nat, d: nat)
    requires SameRows(ls, ms) && i < |ls|
    ensures Alike(ParseItem(ls, i, d), ParseItem(ms, i, d))
    decreases |ls| - i, 1
  {
    hide ParseBlock, LStrip, RStrip, Dash;
    BlockAlike(ls, ms, i + 1, d);
  }

  lemma LinesAlike(ls: seq<Line>, ms: seq<Line>)
    requires SameRows(ls, ms)
    ensures Alike(ParseLines(ls), ParseLines(ms))
  {
    hide ParseEntries;
    EntriesAlike(ls, ms, 0, 0);
  }

  // ---------------------------------------------------------------- inserting a line that does not count

  ghost predicate SamePrepared(r: Res<seq<Line>>, s: Res<seq<Line>>) {
    if r.Ok? then s.Ok? && SameRows(r.value, s.value) else s.Err? && s.error == r.error
  }

  lemma {:induction false} PrepareShift(raw: seq<string>, i: nat, raw': seq<string>, j: nat)
    requires i <= |raw| && j <= |raw'| && raw[i..] == raw'[j..]
    ensures SamePrepared(PrepareFrom(raw, i), PrepareFrom(raw', j))
    decreases |raw| - i
  {
    hide Tabbed, Ignored, IndentOf;
    assert |raw[i..]| == |raw'[j..]|;
    if i < |raw| {
      assert raw[i] == raw[i..][0] == raw'[j..][0] == raw'[j];
      assert raw[i + 1..] == raw[i..][1..] && raw'[j + 1..] == raw'[j..][1..];
      PrepareShift(raw, i + 1, raw', j + 1);
    }
  }

  lemma {:induction false} PrepareInsert(a: seq<string>, x: string, b: seq<string>, i: nat)
    requires i <= |a| && Ignored(x) && !Tabbed(x)
    ensures SamePrepared(PrepareFrom(a + [x] + b, i), PrepareFrom(a + b, i))
    decreases |a| - i
  {
    hide Tabbed, Ignored, IndentOf;
    var more, less := a + [x] + b, a + b;
    if i == |a| {
      assert more[i] == x;
      assert more[i + 1..] == b && less[i..] == b;
      PrepareShift(more, i + 1, less, i);
    } else {
      assert more[i] == a[i] == less[i];
      PrepareInsert(a, x, b, i + 1);
    }
  }

  /** Where a line may start: at the beginning of the text or after a line break. */
  ghost predicate Boundary(p: string, q: string) {
    p == "" || (Break(p[|p| - 1]) && !(p[|p| - 1] == '\r' && q != "" && q[0] == '\n'))
  }

  lemma {:induction false} LineEndOf(text: string, n: nat)
    requires n <= |text| && (n < |text| ==> Break(text[n])) && forall i :: 0 <= i < n ==> !Break(text[i])
    ensures LineEnd(text) == n
  {
  }

  lemma SlicesOf(p: string, q: string, n: nat)
    requires n <= |p|
    ensures (p + q)[..n] == p[..n] && (p + q)[n..] == p[n..] + q
  {
  }

  lemma BoundaryAfter(p: string, q: string, m: nat)
    requires Boundary(p, q) && m <= |p|
    ensures Boundary(p[m..], q)
  {
    assert m < |p| ==> p[m..][|p| - m - 1] == p[|p| - 1];
  }

  /** The first line of a text is not affected by what follows a boundary. */
  lemma FirstLine(p: string, q: string)
    requires Boundary(p, q) && p != ""
    ensures var n := LineEnd(p);
      n < |p| && LineEnd(p + q) == n && NextLine(p + q, n) == NextLine(p, n)
  {
    hide LineEnd;
    var n, text := LineEnd(p), p + q;
    assert n < |p|;
    assert forall i :: 0 <= i < |p| ==> text[i] == p[i];
    LineEndOf(text, n);
    if n + 1 == |p| && q != "" { assert text[n + 1] == q[0]; }
  }

  /** A text splits at a boundary. */
  lemma {:induction false} SplitAt(p: string, q: string)
    requires Boundary(p, q)
    ensures SplitLines(p + q) == SplitLines(p) + SplitLines(q)
    decreases |p|
  {
    hide LineEnd, NextLine, Boundary;
    if p == "" {
      assert p + q == q;
    } else {
      FirstLine(p, q);
      var n := LineEnd(p);
      var m := NextLine(p, n);
      SlicesOf(p, q, n);
      SlicesOf(p, q, m);
      BoundaryAfter(p, q, m);
      SplitAt(p[m..], q);
      SeqPlus([p[..n]], SplitLines(p[m..]), SplitLines(q));
    }
  }

  /** A carriage return at the end takes a line feed in. */
  lemma {:induction false} SplitReturn(p: string)
    requires p != "" && p[|p| - 1] == '\r'
    ensures SplitLines(p + "\n") == SplitLines(p)
    decreases |p|
  {
    var n := LineEnd(p);
    assert n < |p|;
    var text := p + "\n";
    assert forall i :: 0 <= i < |p| ==> text[i] == p[i];
    LineEndOf(text, n);
    var m := NextLine(p, n);
    assert text[..n] == p[..n];
    if n + 1 == |p| {
      assert text[n + 1] == '\n' && NextLine(text, n) == n + 2 && m == |p|;
      assert text[n + 2..] == "" && p[m..] == "";
    } else {
      assert NextLine(text, n) == m;
      assert m < |p|;
      assert text[m..] == p[m..] + "\n" && p[m..][|p[m..]| - 1] == p[|p| - 1];
      SplitReturn(p[m..]);
    }
  }

  lemma SplitOne(x: string)
    requires NoBreak(x)
    ensures SplitLines(x + "\n") == [x]
  {
    var text := x + "\n";
    LineEndOf(text, |x|);
    assert text[..|x|] == x && text[|x| + 1..] == "";
  }

  /** The lines after inserting one: a new line, or none when an empty one completes a carriage return. */
  lemma SplitInserted(p: string, x: string, q: string)
    requires Boundary(p, q) && NoBreak(x)
    ensures var lines := SplitLines(p + (x + "\n") + q);
      lines == SplitLines(p) + [x] + SplitLines(q) || (x == "" && lines == SplitLines(p) + SplitLines(q))
  {
    hide SplitLines;
    var y := x + "\n";
    SplitOne(x);
    SeqPlus(p, y, q);
    if p != "" && p[|p| - 1] == '\r' && x == "" {
      assert y == "\n";
      SplitReturn(p);
      assert Break('\n') && (p + y)[|p + y| - 1] == '\n';
      SplitAt(p + y, q);
    } else {
      assert Break('\n') && y[|y| - 1] == '\n' && y[0] == (if x == "" then '\n' else x[0]);
      SplitAt(y, q);
      assert (y + q)[0] == y[0] && (x != "" ==> !Break(x[0]));
      assert Break('\n');
      SplitAt(p, y + q);
      SeqPlus(SplitLines(p), [x], SplitLines(q));
    }
  }

  /** Inserting a blank line or a comment between two lines of a text, or at its ends, changes neither the tree
      nor the kind of error. */
  lemma InsertedLineIgnored(p: string, x: string, q: string)
    requires Boundary(p, q) && NoBreak(x) && (Blank(x) || Comment(x)) && !BadTab(x)
    ensures var r, s := Parse(p + q), Parse(p + (x + "\n") + q);
      if r.Ok? then s.Ok? && s.value == r.value else s.Err? && s.error == r.error
  {
    hide PrepareFrom, SplitLines, ParseLines, Blank, Comment, BadTab, Boundary, Tabbed, Ignored;
    IgnoredExactly(x);
    TabbedExactly(x);
    SplitAt(p, q);
    SplitInserted(p, x, q);
    var a, b := SplitLines(p), SplitLines(q);
    PrepareInsert(a, x, b, 0);
    var more, less := PrepareFrom(a + [x] + b, 0), PrepareFrom(a + b, 0);
    if more.Ok? { LinesAlike(less.value, more.value); }
  }

  // ---------------------------------------------------------------- quotes, escapes and dashes

  /** A list item is what follows a dash and a blank. */
  lemma DashExactly(s: string)
    ensures Dash(s) <==> exists t :: s == "- " + t
  {
    if Dash(s) { assert s == "- " + s[2..]; }
    if t :| s == "- " + t { assert s[0] == '-' && s[1] == ' '; }
  }

  ghost predicate Bare(s: string, q: char) {
    forall i :: 0 <= i < |s| ==> s[i] != q && s[i] != '\\'
  }

  lemma {:induction false} InsideQuotes(s: string, q: char, n: nat)
    requires q == '"' || q == '\''
    requires 0 < n <= |s| && s[0] == q && forall i :: 0 < i < n ==> s[i] != q && s[i] != '\\'
    ensures Scan(s, n) == if q == '"' then Quote(false, true, false) else Quote(true, false, false)
  {
    if n > 1 { InsideQuotes(s, q, n - 1); } else { assert Scan(s, 0) == PLAIN; }
  }

  /** A quoted key, a colon and the rest. */
  function Quoted(q: char, key: string, rest: string): string { [q] + (key + ([q, ':'] + rest)) }

  lemma QuotedParts(q: char, key: string, rest: string)
    ensures var s, n := Quoted(q, key, rest), |key| + 1;
      && |s| == n + 2 + |rest| && s[0] == q && s[n] == q && s[n + 1] == ':'
      && (forall i :: 0 < i < n ==> s[i] == key[i - 1]) && (rest != "" ==> s[n + 2] == rest[0])
  {
    var tail := [q, ':'] + rest;
    assert tail[0] == q && tail[1] == ':' && (rest != "" ==> tail[2] == rest[0]);
    assert forall i :: 0 <= i < |key| ==> (key + tail)[i] == key[i];
    assert forall i :: 0 <= i < |tail| ==> (key + tail)[|key| + i] == tail[i];
  }

  /** The separator of a quoted key comes after the closing quote, whatever colons the key holds. */
  lemma QuotedKey(q: char, key: string, rest: string)
    requires (q == '"' || q == '\'') && Bare(key, q) && (rest == "" || rest[0] != '=')
    ensures FirstSep(Quoted(q, key, rest), 0) == Some(|key| + 2)
  {
    hide Quoted, FirstSep;
    var s, n := Quoted(q, key, rest), |key| + 1;
    QuotedParts(q, key, rest);
    InsideQuotes(s, q, n);
    assert Scan(s, n + 1) == PLAIN;
    assert Separator(s, n + 1);
    forall i | 0 <= i <= n ensures !Separator(s, i) { if i > 0 { InsideQuotes(s, q, i); } }
    FirstSepIs(s, n + 1);
  }

  lemma FirstSepIs(s: string, n: nat)
    requires Separator(s, n) && forall i :: 0 <= i < n ==> !Separator(s, i)
    ensures FirstSep(s, 0) == Some(n)
  {
    assert n < |s|;
    hide Separator, FirstSep;
    var r := FirstSep(s, 0);
    assert r.Some?;
    assert Separator(s, r.value) && !(n < r.value);
  }

  /** An escaped colon and `:=` are no separators. */
  lemma EscapedColon(rest: string)
    ensures !Separator("\\:" + rest, 1) && !Separator(":=" + rest, 0)
  {
    var s := "\\:" + rest;
    assert Scan(s, 0) == PLAIN && s[0] == '\\';
    assert Scan(s, 1).escape;
    assert (":=" + rest)[1] == '=';
  }
}
