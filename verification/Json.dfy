/** JSON values and their compact text (section 3 of RFC 8259). Numbers are kept as their tokens;
    objects as sequences of fields, because the order of fields shows in the text. */
module Json {
  import opened Collections

  datatype Value =
    | Null
    | Bool(b: bool)
    | Num(token: string)
    | Str(text: string)
    | Arr(items: seq<Value>)
    | Obj(fields: seq<Field>)
  datatype Field = Field(key: string, value: Value)

  predicate NumChar(c: char) {
    '0' <= c <= '9' || c == '-' || c == '+' || c == '.' || c == 'e' || c == 'E'
  }

  predicate NumToken(t: string) {
    t != "" && ('0' <= t[0] <= '9' || t[0] == '-') && forall i :: 0 <= i < |t| ==> NumChar(t[i])
  }

  /** Number tokens are well formed and no object repeats a key, at any depth. */
  ghost predicate WellFormed(v: Value)
    decreases v, 1
  {
    match v
    case Num(t) => NumToken(t)
    case Arr(items) => forall i :: 0 <= i < |items| ==> WellFormed(items[i])
    case Obj(fields) => UniqueKeys(fields) && forall i :: 0 <= i < |fields| ==> FieldWellFormed(fields[i])
    case _ => true
  }

  ghost predicate FieldWellFormed(f: Field)
    decreases f, 2
  {
    WellFormed(f.value)
  }

  ghost predicate UniqueKeys(fields: seq<Field>) {
    forall i, j :: 0 <= i < j < |fields| ==> fields[i].key != fields[j].key
  }

  // ---------------------------------------------------------------- printing

  function Hex(n: nat): char
    requires n < 16
  {
    "0123456789abcdef"[n]
  }

  /** Characters with a two-character escape. */
  function ShortEscape(c: char): Option<char> {
    match c as int
    case 34 => Some('"')
    case 92 => Some('\\')
    case 8 => Some('b')
    case 12 => Some('f')
    case 10 => Some('n')
    case 13 => Some('r')
    case 9 => Some('t')
    case _ => None
  }

  function EscapeChar(c: char): string {
    match ShortEscape(c)
    case Some(e) => ['\\', e]
    case None => if (c as int) < 32 then ['\\', 'u', '0', '0', Hex((c as int) / 16), Hex((c as int) % 16)] else [c]
  }

  function Escape(s: string): string {
    if s == "" then "" else EscapeChar(s[0]) + Escape(s[1..])
  }

  function PrintStr(s: string): string { "\"" + Escape(s) + "\"" }

  /** `json.dumps` with separators "," and ":" and without ASCII escaping. */
  function Print(v: Value): string
    decreases v, 1
  {
    match v
    case Null => "null"
    case Bool(b) => if b then "true" else "false"
    case Num(t) => t
    case Str(s) => PrintStr(s)
    case Arr(items) => "[" + (if items == [] then "]" else PrintItems(items))
    case Obj(fields) => "{" + (if fields == [] then "}" else PrintFields(fields))
  }

  function PrintItems(items: seq<Value>): string
    requires items != []
    decreases items, 0
  {
    Print(items[0]) + (if |items| == 1 then "]" else "," + PrintItems(items[1..]))
  }

  function PrintFields(fields: seq<Field>): string
    requires fields != []
    decreases fields, 0
  {
    PrintField(fields[0]) + (if |fields| == 1 then "}" else "," + PrintFields(fields[1..]))
  }

  function PrintField(f: Field): string
    decreases f, 2
  {
    PrintStr(f.key) + ":" + Print(f.value)
  }

  // ---------------------------------------------------------------- the text determines the value

  /** What may follow a value: nothing, or a character that ends a number. */
  predicate Delimited(r: string) {
    r == "" || r[0] == ',' || r[0] == ']' || r[0] == '}'
  }

  /** Equal texts have equal first characters and equal rests. */
  lemma ConsEqual(c: char, s: string, d: char, t: string)
    requires [c] + s == [d] + t
    ensures c == d && s == t
  {
    assert ([c] + s)[0] == c && ([d] + t)[0] == d;
    assert ([c] + s)[1..] == s && ([d] + t)[1..] == t;
  }

  /** Equal texts with parts of equal length have equal parts. */
  lemma SplitEqual(s: string, x: string, t: string, y: string)
    requires s + x == t + y && |s| == |t|
    ensures s == t && x == y
  {
    assert (s + x)[..|s|] == s && (t + y)[..|t|] == t;
    assert (s + x)[|s|..] == x && (t + y)[|t|..] == y;
  }

  lemma ShortEscapesDiffer(c: char, d: char)
    ensures ShortEscape(c).Some? ==> ShortEscape(c) != Some('u')
    ensures ShortEscape(c).Some? && ShortEscape(c) == ShortEscape(d) ==> c == d
    ensures ShortEscape(c).None? ==> c != '\\' && c != '"'
  {
  }

  lemma HexDiffer(m: nat, n: nat)
    requires m < 16 && n < 16 && Hex(m) == Hex(n)
    ensures m == n
  {
  }

  lemma EscapeCharsDiffer(c: char, d: char)
    requires EscapeChar(c) == EscapeChar(d)
    ensures c == d
  {
    hide ShortEscape, Hex;
    ShortEscapesDiffer(c, d);
    ShortEscapesDiffer(d, c);
    var s, t := EscapeChar(c), EscapeChar(d);
    assert s[0] == t[0] && s[|s| - 1] == t[|t| - 1];
    if |s| == 6 {
      assert s[4] == t[4] && s[5] == t[5];
      HexDiffer((c as int) / 16, (d as int) / 16);
      HexDiffer((c as int) % 16, (d as int) % 16);
    }
  }

  lemma EscapeCharPrefix(c: char, d: char, x: string, y: string)
    requires EscapeChar(c) + x == EscapeChar(d) + y
    ensures c == d && x == y
  {
    var s, t := EscapeChar(c), EscapeChar(d);
    assert |s| == |t| by {
      hide ShortEscape;
      ShortEscapesDiffer(c, d);
      ShortEscapesDiffer(d, c);
      assert (s + x)[0] == s[0] && (t + y)[0] == t[0];
      if s[0] == '\\' {
        assert |s| >= 2 && |t| >= 2;
        assert (s + x)[1] == s[1] && (t + y)[1] == t[1];
      }
    }
    SplitEqual(s, x, t, y);
    EscapeCharsDiffer(c, d);
  }

  /** Escaped text never starts with the closing quote. */
  lemma EscapedHead(a: string, x: string)
    ensures Escape(a) + "\"" + x != "" && ((Escape(a) + "\"" + x)[0] == '"' <==> a == "")
  {
    if a != "" { assert (Escape(a) + "\"" + x)[0] == EscapeChar(a[0])[0]; }
  }

  lemma {:induction false} EscapePrefix(a: string, b: string, x: string, y: string)
    requires Escape(a) + "\"" + x == Escape(b) + "\"" + y
    ensures a == b && x == y
  {
    EscapedHead(a, x);
    EscapedHead(b, y);
    if a == "" {
      assert "" + "\"" == "\"";
      SplitEqual("\"", x, "\"", y);
    } else {
      var x', y' := Escape(a[1..]) + "\"" + x, Escape(b[1..]) + "\"" + y;
      EscapeUnfold(a, x);
      EscapeUnfold(b, y);
      EscapeCharPrefix(a[0], b[0], x', y');
      EscapePrefix(a[1..], b[1..], x, y);
      assert a == [a[0]] + a[1..] && b == [b[0]] + b[1..];
    }
  }

  lemma EscapeUnfold(a: string, x: string)
    requires a != ""
    ensures Escape(a) + "\"" + x == EscapeChar(a[0]) + (Escape(a[1..]) + "\"" + x)
  {
    hide EscapeChar;
    SeqPlus(EscapeChar(a[0]), Escape(a[1..]), "\"");
    SeqPlus(EscapeChar(a[0]), Escape(a[1..]) + "\"", x);
  }

  lemma StrPrefix(a: string, b: string, x: string, y: string)
    requires PrintStr(a) + x == PrintStr(b) + y
    ensures a == b && x == y
  {
    hide Escape;
    assert PrintStr(a) + x == ['"'] + (Escape(a) + "\"" + x);
    assert PrintStr(b) + y == ['"'] + (Escape(b) + "\"" + y);
    ConsEqual('"', Escape(a) + "\"" + x, '"', Escape(b) + "\"" + y);
    EscapePrefix(a, b, x, y);
  }

  lemma NumNotLonger(s: string, t: string, x: string, y: string)
    requires NumToken(t) && Delimited(x) && s + x == t + y
    ensures |t| <= |s|
  {
    var all := t + y;
    assert forall i :: 0 <= i < |t| ==> NumChar(all[i]);
    assert |all| == |s| + |x|;
    if x != "" { assert all[|s|] == (s + x)[|s|] == x[0]; }
  }

  lemma NumPrefix(s: string, t: string, x: string, y: string)
    requires NumToken(s) && NumToken(t) && Delimited(x) && Delimited(y) && s + x == t + y
    ensures s == t && x == y
  {
    NumNotLonger(s, t, x, y);
    NumNotLonger(t, s, y, x);
    SplitEqual(s, x, t, y);
  }

  /** The first character of a value's text tells its kind. */
  function Kind(v: Value): nat {
    match v
    case Null => 0
    case Bool(b) => if b then 1 else 2
    case Num(_) => 3
    case Str(_) => 4
    case Arr(_) => 5
    case Obj(_) => 6
  }

  function KindOf(c: char): nat {
    if c == 'n' then 0 else if c == 't' then 1 else if c == 'f' then 2
    else if c == '"' then 4 else if c == '[' then 5 else if c == '{' then 6 else 3
  }

  lemma FirstChar(v: Value)
    requires WellFormed(v)
    ensures Print(v) != "" && KindOf(Print(v)[0]) == Kind(v)
  {
    match v
    case Num(t) => assert NumChar(t[0]);
    case _ =>
  }

  function ArrRest(items: seq<Value>): string { if items == [] then "]" else PrintItems(items) }
  function ObjRest(fields: seq<Field>): string { if fields == [] then "}" else PrintFields(fields) }

  /** Values whose texts agree, up to what follows them, are equal. */
  lemma {:induction false} PrintPrefix(a: Value, b: Value, x: string, y: string)
    requires WellFormed(a) && WellFormed(b) && Delimited(x) && Delimited(y)
    requires Print(a) + x == Print(b) + y
    ensures a == b && x == y
    decreases a, 1
  {
    FirstChar(a);
    FirstChar(b);
    assert (Print(a) + x)[0] == Print(a)[0] && (Print(b) + y)[0] == Print(b)[0];
    assert Kind(a) == Kind(b);
    match a
    case Null => SplitEqual(Print(a), x, Print(b), y);
    case Bool(_) => SplitEqual(Print(a), x, Print(b), y);
    case Num(s) => NumPrefix(s, b.token, x, y);
    case Str(s) => StrPrefix(s, b.text, x, y);
    case Arr(items) =>
      SeqPlus("[", ArrRest(items), x);
      SeqPlus("[", ArrRest(b.items), y);
      ConsEqual('[', ArrRest(items) + x, '[', ArrRest(b.items) + y);
      ArrPrefix(items, b.items, x, y);
    case Obj(fields) =>
      SeqPlus("{", ObjRest(fields), x);
      SeqPlus("{", ObjRest(b.fields), y);
      ConsEqual('{', ObjRest(fields) + x, '{', ObjRest(b.fields) + y);
      ObjPrefix(fields, b.fields, x, y);
  }

  ghost predicate AllWellFormed(items: seq<Value>) {
    forall i :: 0 <= i < |items| ==> WellFormed(items[i])
  }

  ghost predicate FieldsWellFormed(fields: seq<Field>) {
    forall i :: 0 <= i < |fields| ==> FieldWellFormed(fields[i])
  }

  lemma ArrRestHead(a: seq<Value>, x: string)
    requires AllWellFormed(a)
    ensures ArrRest(a) + x != "" && ((ArrRest(a) + x)[0] == ']' <==> a == [])
  {
    if a != [] { NotBracket(a[0]); }
  }

  lemma {:induction false} ArrPrefix(a: seq<Value>, b: seq<Value>, x: string, y: string)
    requires AllWellFormed(a) && AllWellFormed(b) && Delimited(x) && Delimited(y)
    requires ArrRest(a) + x == ArrRest(b) + y
    ensures a == b && x == y
    decreases a, 1
  {
    ArrRestHead(a, x);
    ArrRestHead(b, y);
    if a == [] { ConsEqual(']', x, ']', y); } else { ItemsPrefix(a, b, x, y); }
  }

  lemma NotBracket(v: Value)
    requires WellFormed(v)
    ensures Print(v) != "" && Print(v)[0] != ']' && Print(v)[0] != '}'
  {
    match v
    case Num(t) => assert NumChar(t[0]);
    case _ =>
  }

  /** What follows the first item: the closing bracket, or a comma and the other items. */
  function AfterItem(a: seq<Value>): (char, string)
    requires a != []
  {
    if |a| == 1 then (']', "") else (',', PrintItems(a[1..]))
  }

  lemma ItemsUnfold(a: seq<Value>, x: string)
    requires a != []
    ensures var (c, rest) := AfterItem(a); PrintItems(a) + x == Print(a[0]) + ([c] + (rest + x))
  {
    hide Print;
    var (c, rest) := AfterItem(a);
    assert PrintItems(a) == Print(a[0]) + ([c] + rest);
    SeqPlus(Print(a[0]), [c] + rest, x);
    SeqPlus([c], rest, x);
  }

  lemma {:induction false} ItemsPrefix(a: seq<Value>, b: seq<Value>, x: string, y: string)
    requires AllWellFormed(a) && AllWellFormed(b) && a != [] && b != [] && Delimited(x) && Delimited(y)
    requires PrintItems(a) + x == PrintItems(b) + y
    ensures a == b && x == y
    decreases a, 0
  {
    hide Print, WellFormed;
    var (c, ra) := AfterItem(a);
    var (d, rb) := AfterItem(b);
    ItemsUnfold(a, x);
    ItemsUnfold(b, y);
    PrintPrefix(a[0], b[0], [c] + (ra + x), [d] + (rb + y));
    ConsEqual(c, ra + x, d, rb + y);
    if |a| > 1 {
      ItemsPrefix(a[1..], b[1..], x, y);
      assert a == [a[0]] + a[1..] && b == [b[0]] + b[1..];
    } else {
      assert "" + x == x && "" + y == y;
    }
  }

  lemma ObjRestHead(a: seq<Field>, x: string)
    ensures ObjRest(a) + x != "" && ((ObjRest(a) + x)[0] == '}' <==> a == [])
  {
    if a != [] { assert PrintFields(a)[0] == '"'; }
  }

  lemma {:induction false} ObjPrefix(a: seq<Field>, b: seq<Field>, x: string, y: string)
    requires FieldsWellFormed(a) && FieldsWellFormed(b) && Delimited(x) && Delimited(y)
    requires ObjRest(a) + x == ObjRest(b) + y
    ensures a == b && x == y
    decreases a, 1
  {
    ObjRestHead(a, x);
    ObjRestHead(b, y);
    if a == [] { ConsEqual('}', x, '}', y); } else { FieldsPrefix(a, b, x, y); }
  }

  function AfterField(a: seq<Field>): (char, string)
    requires a != []
  {
    if |a| == 1 then ('}', "") else (',', PrintFields(a[1..]))
  }

  lemma FieldsUnfold(a: seq<Field>, x: string)
    requires a != []
    ensures var (c, rest) := AfterField(a); PrintFields(a) + x == PrintField(a[0]) + ([c] + (rest + x))
  {
    hide PrintField;
    var (c, rest) := AfterField(a);
    assert PrintFields(a) == PrintField(a[0]) + ([c] + rest);
    SeqPlus(PrintField(a[0]), [c] + rest, x);
    SeqPlus([c], rest, x);
  }

  lemma {:induction false} FieldsPrefix(a: seq<Field>, b: seq<Field>, x: string, y: string)
    requires FieldsWellFormed(a) && FieldsWellFormed(b) && a != [] && b != [] && Delimited(x) && Delimited(y)
    requires PrintFields(a) + x == PrintFields(b) + y
    ensures a == b && x == y
    decreases a, 0
  {
    hide PrintField, FieldWellFormed;
    var (c, ra) := AfterField(a);
    var (d, rb) := AfterField(b);
    FieldsUnfold(a, x);
    FieldsUnfold(b, y);
    FieldPrefix(a[0], b[0], [c] + (ra + x), [d] + (rb + y));
    ConsEqual(c, ra + x, d, rb + y);
    if |a| > 1 {
      FieldsPrefix(a[1..], b[1..], x, y);
      assert a == [a[0]] + a[1..] && b == [b[0]] + b[1..];
    } else {
      assert "" + x == x && "" + y == y;
    }
  }

  lemma FieldUnfold(f: Field, x: string)
    ensures PrintField(f) + x == PrintStr(f.key) + ([':'] + (Print(f.value) + x))
  {
    hide PrintStr, Print;
    SeqPlus(PrintStr(f.key), ":", Print(f.value));
    SeqPlus(PrintStr(f.key), ":" + Print(f.value), x);
    SeqPlus(":", Print(f.value), x);
  }

  lemma {:induction false} FieldPrefix(f: Field, g: Field, x: string, y: string)
    requires FieldWellFormed(f) && FieldWellFormed(g) && Delimited(x) && Delimited(y)
    requires PrintField(f) + x == PrintField(g) + y
    ensures f == g && x == y
    decreases f, 2
  {
    hide PrintField, PrintStr, Print;
    var vx, vy := Print(f.value) + x, Print(g.value) + y;
    FieldUnfold(f, x);
    FieldUnfold(g, y);
    StrPrefix(f.key, g.key, [':'] + vx, [':'] + vy);
    ConsEqual(':', vx, ':', vy);
    PrintPrefix(f.value, g.value, x, y);
  }

  /** The compact text of a value determines it. */
  lemma PrintInjective(a: Value, b: Value)
    requires WellFormed(a) && WellFormed(b) && Print(a) == Print(b)
    ensures a == b
  {
    assert Print(a) + "" == Print(a) && Print(b) + "" == Print(b);
    PrintPrefix(a, b, "", "");
  }
}
