/** The parser accepts exactly the layouts of trees. */
module ParserLayout {
  import opened Collections
  import opened Parser

  // ---------------------------------------------------------------- layouts

  /** Lines `i..j` lay out the entries at indentation `d`: they fall into consecutive pieces, one for each entry. */
  ghost predicate LayoutEntries(es: seq<Entry>, ls: seq<Line>, i: nat, j: nat, d: nat)
    requires i <= j <= |ls|
    decreases es, 0
  {
    if es == [] then i == j
    else exists m :: i < m <= j && LayoutEntry(es[0], ls, i, m, d) && LayoutEntries(es[1..], ls, m, j, d)
  }

  /** The first line holds the key, and the value or nothing; the other lines lay out the value. */
  ghost predicate LayoutEntry(e: Entry, ls: seq<Line>, i: nat, j: nat, d: nat)
    requires i < j <= |ls|
    decreases e, 2
  {
    var c := ls[i].content;
    && ls[i].indent == d && !Dash(c)
    && match FirstSep(c, 0)
       case None => e == Entry(None, Scalar(c)) && j == i + 1
       case Some(s) =>
         && Strip(c[..s]) != "" && e.key == Some(Strip(c[..s]))
         && var text := LStrip(c[s + 1..]);
            if text != "" then e.value == Scalar(text) && j == i + 1
            else LayoutBlock(e.value, ls, i + 1, j, d)
  }

  /** Lines deeper than `d`: an empty mapping, a sequence or a mapping. */
  ghost predicate LayoutBlock(v: Node, ls: seq<Line>, i: nat, j: nat, d: nat)
    requires i <= j <= |ls|
    decreases v, 1
  {
    if i == j then v == Mapping([])
    else
      && ls[i].indent > d
      && if Dash(ls[i].content) then v.Sequence? && LayoutItems(v.items, ls, i, j, ls[i].indent)
         else v.Mapping? && LayoutEntries(v.entries, ls, i, j, ls[i].indent)
  }

  ghost predicate LayoutItems(vs: seq<Node>, ls: seq<Line>, i: nat, j: nat, d: nat)
    requires i <= j <= |ls|
    decreases vs, 0
  {
    if vs == [] then i == j
    else exists m :: i < m <= j && LayoutItem(vs[0], ls, i, m, d) && LayoutItems(vs[1..], ls, m, j, d)
  }

  /** After the dash: a scalar; a key whose value follows; or nothing, and the item follows. */
  ghost predicate LayoutItem(v: Node, ls: seq<Line>, i: nat, j: nat, d: nat)
    requires i < j <= |ls|
    decreases v, 2
  {
    var c := ls[i].content;
    && ls[i].indent == d && Dash(c)
    && var text := LStrip(c[2..]);
       if text == "" then j > i + 1 && LayoutBlock(v, ls, i + 1, j, d)
       else if text[|text| - 1] == ':' then
         && RStrip(text[..|text| - 1]) != ""
         && v.Mapping? && |v.entries| == 1 && LayoutKeyed(v.entries[0], RStrip(text[..|text| - 1]), ls, i + 1, j, d)
       else v == Scalar(text) && j == i + 1
  }

  ghost predicate LayoutKeyed(e: Entry, key: string, ls: seq<Line>, i: nat, j: nat, d: nat)
    requires i <= j <= |ls|
    decreases e, 2
  {
    e.key == Some(key) && LayoutBlock(e.value, ls, i, j, d)
  }

  // ---------------------------------------------------------------- parsed trees are laid out

  lemma {:induction false} EntriesSound(ls: seq<Line>, i: nat, d: nat)
    requires i <= |ls| && ParseEntries(ls, i, d).Ok?
    ensures var r := ParseEntries(ls, i, d); LayoutEntries(r.value, ls, i, r.next, d)
    decreases |ls| - i, 2
  {
    hide ParseEntry;
    if !Stops(ls, i, d) {
      var one := ParseEntry(ls, i, d);
      EntrySound(ls, i, d);
      EntriesSound(ls, one.next, d);
      var es := ParseEntries(ls, i, d).value;
      assert es[0] == one.value && es[1..] == ParseEntries(ls, one.next, d).value;
    }
  }

  lemma {:induction false} EntrySound(ls: seq<Line>, i: nat, d: nat)
    requires i < |ls| && !Stops(ls, i, d) && ParseEntry(ls, i, d).Ok?
    ensures var r := ParseEntry(ls, i, d); LayoutEntry(r.value, ls, i, r.next, d)
    decreases |ls| - i, 1
  {
    hide ParseBlock, Strip, LStrip, Dash;
    if ParseBlock(ls, i + 1, d).Ok? { BlockSound(ls, i + 1, d); }
  }

  lemma {:induction false} BlockSound(ls: seq<Line>, i: nat, d: nat)
    requires i <= |ls| && ParseBlock(ls, i, d).Ok?
    ensures var r := ParseBlock(ls, i, d); LayoutBlock(r.value, ls, i, r.next, d)
    ensures i < |ls| && ls[i].indent > d ==> i < ParseBlock(ls, i, d).next
    decreases |ls| - i, 3
  {
    hide ParseItems, ParseEntries, Dash;
    if i < |ls| && ls[i].indent > d {
      if Dash(ls[i].content) { ItemsSound(ls, i, ls[i].indent); } else { EntriesSound(ls, i, ls[i].indent); }
    }
  }

  lemma {:induction false} ItemsSound(ls: seq<Line>, i: nat, d: nat)
    requires i <= |ls| && ParseItems(ls, i, d).Ok?
    ensures var r := ParseItems(ls, i, d); LayoutItems(r.value, ls, i, r.next, d)
    decreases |ls| - i, 2
  {
    hide ParseItem;
    if !Stops(ls, i, d) {
      var one := ParseItem(ls, i, d);
      ItemSound(ls, i, d);
      ItemsSound(ls, one.next, d);
      var vs := ParseItems(ls, i, d).value;
      assert vs[0] == one.value && vs[1..] == ParseItems(ls, one.next, d).value;
    }
  }

  lemma {:induction false} ItemSound(ls: seq<Line>, i: nat, d: nat)
    requires i < |ls| && !Stops(ls, i, d) && ParseItem(ls, i, d).Ok?
    ensures var r := ParseItem(ls, i, d); LayoutItem(r.value, ls, i, r.next, d)
    decreases |ls| - i, 1
  {
    hide ParseBlock, RStrip, LStrip;
    if ParseBlock(ls, i + 1, d).Ok? { BlockSound(ls, i + 1, d); }
  }

  // ---------------------------------------------------------------- laid out trees are parsed

  lemma {:induction false} EntriesComplete(es: seq<Entry>, ls: seq<Line>, i: nat, j: nat, d: nat)
    requires i <= j <= |ls| && LayoutEntries(es, ls, i, j, d) && Stops(ls, j, d)
    ensures ParseEntries(ls, i, d) == Ok(es, j)
    decreases es, 0
  {
    hide ParseEntry, LayoutEntry;
    if es != [] {
      var m :| i < m <= j && LayoutEntry(es[0], ls, i, m, d) && LayoutEntries(es[1..], ls, m, j, d);
      EntryStart(es[0], ls, i, m, d);
      EntriesStart(es[1..], ls, m, j, d);
      EntryComplete(es[0], ls, i, m, d);
      EntriesComplete(es[1..], ls, m, j, d);
      assert [es[0]] + es[1..] == es;
    }
  }

  lemma EntryStart(e: Entry, ls: seq<Line>, i: nat, j: nat, d: nat)
    requires i < j <= |ls| && LayoutEntry(e, ls, i, j, d)
    ensures ls[i].indent == d
  {
  }

  /** After a piece comes the next one, or the end of the layout. */
  lemma EntriesStart(es: seq<Entry>, ls: seq<Line>, i: nat, j: nat, d: nat)
    requires i <= j <= |ls| && LayoutEntries(es, ls, i, j, d) && Stops(ls, j, d)
    ensures i == |ls| || ls[i].indent <= d
  {
    hide LayoutEntry;
    if es != [] {
      var m :| i < m <= j && LayoutEntry(es[0], ls, i, m, d) && LayoutEntries(es[1..], ls, m, j, d);
      EntryStart(es[0], ls, i, m, d);
    }
  }

  lemma {:induction false} EntryComplete(e: Entry, ls: seq<Line>, i: nat, j: nat, d: nat)
    requires i < j <= |ls| && LayoutEntry(e, ls, i, j, d) && (j == |ls| || ls[j].indent <= d)
    ensures ParseEntry(ls, i, d) == Ok(e, j)
    decreases e, 2
  {
    hide ParseBlock, LayoutBlock, Strip, LStrip, Dash;
    if LayoutBlock(e.value, ls, i + 1, j, d) { BlockComplete(e.value, ls, i + 1, j, d); }
  }

  lemma {:induction false} BlockComplete(v: Node, ls: seq<Line>, i: nat, j: nat, d: nat)
    requires i <= j <= |ls| && LayoutBlock(v, ls, i, j, d) && (j == |ls| || ls[j].indent <= d)
    ensures ParseBlock(ls, i, d) == Ok(v, j)
    decreases v, 1
  {
    hide ParseItems, ParseEntries, LayoutItems, LayoutEntries, Dash;
    if i < j {
      if Dash(ls[i].content) { ItemsComplete(v.items, ls, i, j, ls[i].indent); }
      else { EntriesComplete(v.entries, ls, i, j, ls[i].indent); }
    }
  }

  lemma {:induction false} ItemsComplete(vs: seq<Node>, ls: seq<Line>, i: nat, j: nat, d: nat)
    requires i <= j <= |ls| && LayoutItems(vs, ls, i, j, d) && Stops(ls, j, d)
    ensures ParseItems(ls, i, d) == Ok(vs, j)
    decreases vs, 0
  {
    hide ParseItem, LayoutItem;
    if vs != [] {
      var m :| i < m <= j && LayoutItem(vs[0], ls, i, m, d) && LayoutItems(vs[1..], ls, m, j, d);
      ItemStart(vs[0], ls, i, m, d);
      ItemsStart(vs[1..], ls, m, j, d);
      ItemComplete(vs[0], ls, i, m, d);
      ItemsComplete(vs[1..], ls, m, j, d);
      assert [vs[0]] + vs[1..] == vs;
    }
  }

  lemma ItemStart(v: Node, ls: seq<Line>, i: nat, j: nat, d: nat)
    requires i < j <= |ls| && LayoutItem(v, ls, i, j, d)
    ensures ls[i].indent == d
  {
  }

  lemma ItemsStart(vs: seq<Node>, ls: seq<Line>, i: nat, j: nat, d: nat)
    requires i <= j <= |ls| && LayoutItems(vs, ls, i, j, d) && Stops(ls, j, d)
    ensures i == |ls| || ls[i].indent <= d
  {
    hide LayoutItem;
    if vs != [] {
      var m :| i < m <= j && LayoutItem(vs[0], ls, i, m, d) && LayoutItems(vs[1..], ls, m, j, d);
      ItemStart(vs[0], ls, i, m, d);
    }
  }

  lemma {:induction false} ItemComplete(v: Node, ls: seq<Line>, i: nat, j: nat, d: nat)
    requires i < j <= |ls| && LayoutItem(v, ls, i, j, d) && (j == |ls| || ls[j].indent <= d)
    ensures ParseItem(ls, i, d) == Ok(v, j)
    decreases v, 2
  {
    hide ParseBlock, LayoutBlock, RStrip, LStrip;
    var text := LStrip(ls[i].content[2..]);
    if text == "" {
      BlockComplete(v, ls, i + 1, j, d);
      BlockStart(v, ls, i + 1, j, d);
    } else if text[|text| - 1] == ':' {
      KeyedComplete(v.entries[0], RStrip(text[..|text| - 1]), ls, i + 1, j, d);
      assert v.entries == [v.entries[0]];
    }
  }

  lemma BlockStart(v: Node, ls: seq<Line>, i: nat, j: nat, d: nat)
    requires i < j <= |ls| && LayoutBlock(v, ls, i, j, d)
    ensures ls[i].indent > d
  {
  }

  lemma {:induction false} KeyedComplete(e: Entry, key: string, ls: seq<Line>, i: nat, j: nat, d: nat)
    requires i <= j <= |ls| && LayoutKeyed(e, key, ls, i, j, d) && (j == |ls| || ls[j].indent <= d)
    ensures e.key == Some(key) && ParseBlock(ls, i, d) == Ok(e.value, j)
    decreases e, 2
  {
    BlockComplete(e.value, ls, i, j, d);
  }

  /** A document parses to a tree if and only if its lines lay that tree out; all lines are used. */
  lemma ParsesExactly(ls: seq<Line>, root: Node)
    ensures (exists next :: ParseLines(ls) == Ok(root, next)) <==>
      ls != [] && root.Mapping? && LayoutEntries(root.entries, ls, 0, |ls|, 0)
    ensures ParseLines(ls).Ok? ==> ParseLines(ls).next == |ls|
  {
    hide ParseEntries, LayoutEntries;
    if ParseLines(ls).Ok? { EntriesSound(ls, 0, 0); }
    if ls != [] && root.Mapping? && LayoutEntries(root.entries, ls, 0, |ls|, 0) {
      EntriesComplete(root.entries, ls, 0, |ls|, 0);
      FirstEntry(root.entries, ls, |ls|, 0);
      assert ParseLines(ls) == Ok(root, |ls|);
    }
  }

  lemma FirstEntry(es: seq<Entry>, ls: seq<Line>, j: nat, d: nat)
    requires 0 < j <= |ls| && LayoutEntries(es, ls, 0, j, d)
    ensures ls[0].indent == d
  {
    hide LayoutEntry;
    var m :| 0 < m <= j && LayoutEntry(es[0], ls, 0, m, d) && LayoutEntries(es[1..], ls, m, j, d);
    EntryStart(es[0], ls, 0, m, d);
  }
}
