/** Why the parser refuses a text, tm/dsl/parser.py: every error names a line and a defect of that line. */
module ParserErrors {
  import opened Collections
  import opened Characters
  import opened Parser
  import opened ParserLines

  // ---------------------------------------------------------------- defects

  ghost predicate AllDeep(ls: seq<Line>, i: nat, j: nat, d: nat)
    requires j <= |ls|
  {
    forall k :: i <= k < j ==> ls[k].indent >= d
  }

  /** Line `j` opens the block that line `i` continues: no line from one to the other is shallower. */
  ghost predicate Opens(ls: seq<Line>, j: nat, i: nat, items: bool)
    requires i < |ls|
  {
    j < i && (Dash(ls[j].content) <==> items) && AllDeep(ls, j, i + 1, ls[j].indent)
  }

  /** What an error says of line `i`. */
  ghost predicate Defect(ls: seq<Line>, i: nat, e: Error)
    requires i < |ls|
  {
    var c := ls[i].content;
    match e
    case UnexpectedIndent => exists j: nat :: Opens(ls, j, i, false) && ls[j].indent < ls[i].indent
    case UnexpectedItemIndent => exists j: nat :: Opens(ls, j, i, true) && ls[j].indent < ls[i].indent
    case ItemInMapping => Dash(c) && (i == 0 || exists j: nat :: Opens(ls, j, i, false) && ls[j].indent == ls[i].indent)
    case ExpectedDash => !Dash(c) && exists j: nat :: Opens(ls, j, i, true) && ls[j].indent == ls[i].indent
    case EmptyKey => exists s: nat :: FirstSep(c, 0) == Some(s) && Blank(c[..s])
    case ExpectedBlock => Dash(c) && Blank(c[2..]) && (i + 1 < |ls| ==> ls[i + 1].indent <= ls[i].indent)
    case EmptyItemKey => Dash(c) && |c| > 2 && c[|c| - 1] == ':' && Blank(c[2..|c| - 1])
    case _ => false
  }

  /** The error stands at a line from `i` on that has the defect. */
  ghost predicate Explained(ls: seq<Line>, i: nat, e: Error, at: nat) {
    exists k :: i <= k < |ls| && ls[k].number == at && Defect(ls, k, e)
  }

  /** A parse that ends has read lines at depth `d`, one that fails is explained. */
  ghost predicate Accounted<T>(ls: seq<Line>, i: nat, d: nat, r: Res<T>) {
    match r
    case Ok(_, j) => j <= |ls| && AllDeep(ls, i, j, d)
    case Err(e, at) => Explained(ls, i, e, at)
  }

  // ---------------------------------------------------------------- stripped parts

  lemma {:induction false} LStripEnd(s: string)
    ensures LStrip(s) != "" ==> s != "" && LStrip(s)[|LStrip(s)| - 1] == s[|s| - 1]
    ensures LStrip(s) != "" ==> LStrip(s[..|s| - 1]) == LStrip(s)[..|LStrip(s)| - 1]
  {
    if s != "" && IsSpace(s[0]) {
      LStripEnd(s[1..]);
      if |s| > 1 { assert s[..|s| - 1][1..] == s[1..][..|s| - 2]; }
    }
  }

  /** An item that is blank up to its final colon. */
  lemma BlankItem(c: string)
    requires Dash(c)
    requires var text := LStrip(c[2..]); text != "" && text[|text| - 1] == ':' && RStrip(text[..|text| - 1]) == ""
    ensures |c| > 2 && c[|c| - 1] == ':' && Blank(c[2..|c| - 1])
  {
    var s := c[2..];
    LStripEnd(s);
    assert s[..|s| - 1] == c[2..|c| - 1];
    IgnoredExactly(s[..|s| - 1]);
  }

  // ---------------------------------------------------------------- every failure is explained

  /** The line at `i` continues the block that line `j` opens, or opens it itself. */
  ghost predicate Continues(ls: seq<Line>, j: nat, i: nat, d: nat, items: bool)
    requires i <= |ls|
  {
    && j <= i && j < |ls| && ls[j].indent == d && AllDeep(ls, j, i, d)
    && (j < i ==> (Dash(ls[j].content) <==> items))
  }

  lemma {:induction false} EntriesAccounted(ls: seq<Line>, j: nat, i: nat, d: nat)
    requires i <= |ls| && Continues(ls, j, i, d, false) && (j == i ==> !Dash(ls[i].content) || i == 0)
    ensures Accounted(ls, i, d, ParseEntries(ls, i, d))
    decreases |ls| - i, 2
  {
    hide ParseEntry, Defect, Dash;
    if !Stops(ls, i, d) {
      EntryAccounted(ls, j, i, d);
      var one := ParseEntry(ls, i, d);
      if one.Ok? {
        EntryOpens(ls, i, d);
        EntriesAccounted(ls, j, one.next, d);
      }
    }
  }

  lemma EntryOpens(ls: seq<Line>, i: nat, d: nat)
    requires i < |ls| && ParseEntry(ls, i, d).Ok?
    ensures !Dash(ls[i].content) && ls[i].indent <= d
  {
  }

  lemma {:induction false} EntryAccounted(ls: seq<Line>, j: nat, i: nat, d: nat)
    requires i < |ls| && Continues(ls, j, i, d, false) && ls[i].indent >= d
    requires j == i ==> !Dash(ls[i].content) || i == 0
    ensures Accounted(ls, i, d, ParseEntry(ls, i, d))
    decreases |ls| - i, 1
  {
    hide ParseBlock, Strip, LStrip, Dash, FirstSep, Blank;
    var r := ParseEntry(ls, i, d);
    if ls[i].indent > d {
      assert Opens(ls, j, i, false);
      assert Defect(ls, i, r.error);
    } else if Dash(ls[i].content) {
      assert j < i ==> Opens(ls, j, i, false);
      assert Defect(ls, i, r.error);
    } else if FirstSep(ls[i].content, 0).Some? {
      var c := ls[i].content;
      var s := FirstSep(c, 0).value;
      IgnoredExactly(c[..s]);
      if Strip(c[..s]) == "" { assert Defect(ls, i, r.error); } else { BlockAccounted(ls, i + 1, d); }
    }
  }

  lemma {:induction false} BlockAccounted(ls: seq<Line>, i: nat, d: nat)
    requires i <= |ls|
    ensures Accounted(ls, i, d, ParseBlock(ls, i, d))
    decreases |ls| - i, 3
  {
    hide ParseEntries, ParseItems, Defect, Dash;
    if i < |ls| && ls[i].indent > d {
      if Dash(ls[i].content) {
        ItemsAccounted(ls, i, i, ls[i].indent);
      } else {
        EntriesAccounted(ls, i, i, ls[i].indent);
      }
    }
  }

  lemma {:induction false} ItemsAccounted(ls: seq<Line>, j: nat, i: nat, d: nat)
    requires i <= |ls| && Continues(ls, j, i, d, true) && (j == i ==> Dash(ls[i].content))
    ensures Accounted(ls, i, d, ParseItems(ls, i, d))
    decreases |ls| - i, 2
  {
    hide ParseItem, Defect, Dash;
    if !Stops(ls, i, d) {
      ItemAccounted(ls, j, i, d);
      var one := ParseItem(ls, i, d);
      if one.Ok? { ItemsAccounted(ls, j, one.next, d); }
    }
  }

  lemma {:induction false} ItemAccounted(ls: seq<Line>, j: nat, i: nat, d: nat)
    requires i < |ls| && Continues(ls, j, i, d, true) && ls[i].indent >= d
    requires j == i ==> Dash(ls[i].content)
    ensures Accounted(ls, i, d, ParseItem(ls, i, d))
    decreases |ls| - i, 1
  {
    hide ParseBlock, LStrip, RStrip, Blank;
    var r, c := ParseItem(ls, i, d), ls[i].content;
    if ls[i].indent > d || !Dash(c) {
      assert Opens(ls, j, i, true);
      assert Defect(ls, i, r.error);
    } else {
      BlockAccounted(ls, i + 1, d);
      LStripIs(c[2..]);
      var text := LStrip(c[2..]);
      if text == "" {
        if i + 1 == |ls| || ls[i + 1].indent <= d { assert Defect(ls, i, r.error); }
      } else if text[|text| - 1] == ':' && RStrip(text[..|text| - 1]) == "" {
        BlankItem(c);
        assert Defect(ls, i, r.error);
      }
    }
  }

  /** A text that is refused has the defect that the error names, at the line that it names. */
  lemma RefusedFor(text: string)
    requires Parse(text).Err?
    ensures var raw, r := SplitLines(text), Parse(text);
      match r.error
      case TabIndent => 0 < r.at <= |raw| && FirstBadTab(raw, 0, r.at - 1)
      case EmptyDocument => r.at == 0 && forall n :: 0 <= n < |raw| ==> !Counts(raw[n])
      case NotAtTop => exists ls: seq<Line> ::
        Prepares(raw, 0, ls) && ls != [] && ls[0].indent > 0 && ls[0].number == r.at
      case e => exists ls: seq<Line> :: Prepares(raw, 0, ls) && Explained(ls, 0, e, r.at)
  {
    hide PrepareFrom, ParseEntries, FirstBadTab, Counts;
    var raw := SplitLines(text);
    PreparesExactly(raw, 0);
    var lines := PrepareFrom(raw, 0);
    if lines.Ok? {
      var ls := lines.value;
      if ls != [] && ls[0].indent == 0 { EntriesAccounted(ls, 0, 0, 0); }
    }
  }
}
