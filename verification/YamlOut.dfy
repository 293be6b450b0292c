/** The block-style YAML writer of app/subscriptions/yamlout.py. */
module YamlOut {
  import opened Text
  import opened YamlDoc

  // -------------------------------------------------------------------- scalars

  const RESERVED: set<string> :=
    {"true", "false", "yes", "no", "on", "off", "null", "none", "~"}

  /** Whether `float(text)` succeeds, on ASCII text without outer white space. */
  predicate Numeric(s: string) {
    || Lower(Unsigned(s)) in {"inf", "infinity", "nan"}
    || (UnderscoresBetweenDigits(s) && Decimal(Unsigned(WithoutUnderscores(s))))
  }

  predicate IsIndicator(c: char) {
    || c == '-' || c == '?' || c == ':' || c == ',' || c == '[' || c == ']' || c == '{' || c == '}'
    || c == '#' || c == '&' || c == '*' || c == '!' || c == '|' || c == '>' || c == '\'' || c == '"'
    || c == '%' || c == '@' || c == '`'
  }

  /** Printable ASCII, and a colon or hash is followed by more text. */
  predicate PlainAt(s: string, i: nat)
    requires i < |s|
  {
    && ' ' <= s[i] <= '~'
    && (s[i] == ':' || s[i] == '#' ==> i + 1 < |s| && s[i + 1] != ' ')
  }

  predicate Plain(s: string) {
    && s != "" && Stripped(s)
    && Lower(s) !in RESERVED && !Numeric(s)
    && !IsIndicator(s[0])
    && forall i | 0 <= i < |s| :: PlainAt(s, i)
  }

  function HexChar(d: nat): (c: char)
    requires d < 16
    ensures HexValue(c) == d && ' ' < c <= '~'
  {
    if d < 10 then DigitChar(d) else ('a' as int + d - 10) as char
  }

  /** One character as `json.dumps(..., ensure_ascii=False)` writes it. */
  function EscapeChar(c: char): (s: string)
    ensures s != ""
  {
    if c == '"' then "\\\""
    else if c == '\\' then "\\\\"
    else if c == '\n' then "\\n"
    else if c == '\r' then "\\r"
    else if c == '\t' then "\\t"
    else if c == '\U{0C}' then "\\f"
    else if c == '\U{08}' then "\\b"
    else if c < ' ' then "\\u00" + [HexChar(c as int / 16), HexChar(c as int % 16)]
    else [c]
  }

  function EscapeAll(s: string): string {
    if s == "" then "" else EscapeChar(s[0]) + EscapeAll(s[1..])
  }

  function Quote(s: string): string {
    "\"" + EscapeAll(s) + "\""
  }

  function KeyText(key: string): string {
    if Plain(key) then key else Quote(key)
  }

  /** A leaf. A collection where a scalar is expected is printed as the quoted
      text of Python's `str`, which is the parameter `repr`. */
  function Scalar(v: Doc, repr: Doc -> string): string {
    match v
    case Null => "null"
    case Bool(b) => if b then "true" else "false"
    case Int(n) => IntText(n)
    case Real(lexeme) => lexeme
    case Str(s) => if Plain(s) then s else Quote(s)
    case Map(_) => Quote(repr(v))
    case List(_) => Quote(repr(v))
  }

  /** A value on its key's own line: a leaf or an empty collection. */
  function InlineText(v: Doc, repr: Doc -> string): string {
    if v.Map? then "{}" else if v.List? then "[]" else Scalar(v, repr)
  }

  // ---------------------------------------------------------------- printed lines

  /** A line is its column and its text from that column on. */
  datatype Line = Line(indent: nat, text: string)

  function MapLines(entries: seq<Entry>, n: nat, repr: Doc -> string): (ls: seq<Line>)
    decreases entries
  {
    if entries == [] then [] else EntryLines(entries[0], n, repr) + MapLines(entries[1..], n, repr)
  }

  function EntryLines(e: Entry, n: nat, repr: Doc -> string): (ls: seq<Line>)
    ensures ls != [] && ls[0].indent == n
    decreases e
  {
    var head := KeyText(e.key) + ":";
    if e.value.Map? && e.value.entries != [] then
      [Line(n, head)] + MapLines(e.value.entries, n + 2, repr)
    else if e.value.List? && e.value.items != [] then
      [Line(n, head)] + SeqLines(e.value.items, n, repr)
    else
      [Line(n, head + " " + InlineText(e.value, repr))]
  }

  function SeqLines(items: seq<Doc>, n: nat, repr: Doc -> string): (ls: seq<Line>)
    decreases items
  {
    if items == [] then [] else ItemLines(items[0], n, repr) + SeqLines(items[1..], n, repr)
  }

  /** A non-empty mapping keeps its keys two columns to the right of the dash. */
  function ItemLines(item: Doc, n: nat, repr: Doc -> string): (ls: seq<Line>)
    ensures ls != [] && ls[0].indent == n
    decreases item
  {
    if item.Map? && item.entries != [] then Dashed(n, MapLines(item.entries, n + 2, repr))
    else [Line(n, "- " + Scalar(item, repr))]
  }

  /** The block with its first line moved behind a dash. */
  function Dashed(n: nat, ls: seq<Line>): seq<Line>
  {
    if ls == [] then [Line(n, "-")] else [Line(n, "- " + ls[0].text)] + ls[1..]
  }

  function DocLines(doc: Doc, repr: Doc -> string): seq<Line> {
    match doc
    case Map(entries) => MapLines(entries, 0, repr)
    case List(items) => SeqLines(items, 0, repr)
    case _ => [Line(0, Scalar(doc, repr))]
  }

  function Spaces(n: nat): (s: string)
    ensures |s| == n && forall i | 0 <= i < n :: s[i] == ' '
  {
    seq(n, i => ' ')
  }

  function Render(l: Line): string {
    Spaces(l.indent) + l.text
  }

  function RenderAll(ls: seq<Line>): seq<string> {
    if ls == [] then [] else [Render(ls[0])] + RenderAll(ls[1..])
  }

  lemma RenderConcat(a: seq<Line>, b: seq<Line>)
    ensures RenderAll(a + b) == RenderAll(a) + RenderAll(b)
  {
    if a == [] {
      assert a + b == b;
    } else {
      assert (a + b)[1..] == a[1..] + b;
      RenderConcat(a[1..], b);
    }
  }

  function Join(ss: seq<string>): string {
    if ss == [] then "" else if |ss| == 1 then ss[0] else ss[0] + "\n" + Join(ss[1..])
  }

  function Dump(doc: Doc, repr: Doc -> string): string {
    Join(RenderAll(DocLines(doc, repr))) + "\n"
  }

  lemma MapLinesSnoc(entries: seq<Entry>, e: Entry, n: nat, repr: Doc -> string)
    ensures MapLines(entries + [e], n, repr) == MapLines(entries, n, repr) + EntryLines(e, n, repr)
  {
    if entries == [] {
      assert MapLines([e][1..], n, repr) == [];
    } else {
      assert (entries + [e])[1..] == entries[1..] + [e];
      MapLinesSnoc(entries[1..], e, n, repr);
    }
  }

  lemma SeqLinesSnoc(items: seq<Doc>, x: Doc, n: nat, repr: Doc -> string)
    ensures SeqLines(items + [x], n, repr) == SeqLines(items, n, repr) + ItemLines(x, n, repr)
  {
    if items == [] {
      assert SeqLines([x][1..], n, repr) == [];
    } else {
      assert (items + [x])[1..] == items[1..] + [x];
      SeqLinesSnoc(items[1..], x, n, repr);
    }
  }

  /** One turn of the loop over a mapping's keys. */
  lemma MapStep(before: seq<string>, entries: seq<Entry>, k: nat, n: nat, repr: Doc -> string)
    requires k < |entries|
    ensures before + RenderAll(MapLines(entries[..k + 1], n, repr))
         == before + RenderAll(MapLines(entries[..k], n, repr)) + RenderAll(EntryLines(entries[k], n, repr))
  {
    assert entries[..k] + [entries[k]] == entries[..k + 1];
    MapLinesSnoc(entries[..k], entries[k], n, repr);
    RenderConcat(MapLines(entries[..k], n, repr), EntryLines(entries[k], n, repr));
  }

  /** One turn of the loop over a sequence's items. */
  lemma SeqStep(before: seq<string>, items: seq<Doc>, k: nat, n: nat, repr: Doc -> string)
    requires k < |items|
    ensures before + RenderAll(SeqLines(items[..k + 1], n, repr))
         == before + RenderAll(SeqLines(items[..k], n, repr)) + RenderAll(ItemLines(items[k], n, repr))
  {
    assert items[..k] + [items[k]] == items[..k + 1];
    SeqLinesSnoc(items[..k], items[k], n, repr);
    RenderConcat(SeqLines(items[..k], n, repr), ItemLines(items[k], n, repr));
  }

  /** What a line printed behind `lead` and the lines after it look like. */
  function Shown(lead: string, ls: seq<Line>): seq<string>
    requires ls != []
  {
    [lead + ls[0].text] + RenderAll(ls[1..])
  }

  lemma ShownAtColumn(ls: seq<Line>)
    requires ls != []
    ensures Shown(Spaces(ls[0].indent), ls) == RenderAll(ls)
  {
  }

  /** The lines of an entry printed behind `lead`: the key's line, then the block. */
  lemma EntryShown(lead: string, e: Entry, n: nat, repr: Doc -> string)
    ensures var head, v := lead + KeyText(e.key) + ":", e.value;
            Shown(lead, EntryLines(e, n, repr))
            == if v.Map? && v.entries != [] then [head] + RenderAll(MapLines(v.entries, n + 2, repr))
               else if v.List? && v.items != [] then [head] + RenderAll(SeqLines(v.items, n, repr))
               else [head + " " + InlineText(v, repr)]
  {
    var ls, head := EntryLines(e, n, repr), lead + KeyText(e.key) + ":";
    assert head == lead + (KeyText(e.key) + ":");
    assert head + " " + InlineText(e.value, repr)
        == lead + (KeyText(e.key) + ":" + " " + InlineText(e.value, repr));
    assert ls[1..] == if e.value.Map? && e.value.entries != [] then MapLines(e.value.entries, n + 2, repr)
                      else if e.value.List? && e.value.items != [] then SeqLines(e.value.items, n, repr)
                      else [];
  }

  /** The lines of an item of which the first `k` keys are printed. */
  function ItemShown(entries: seq<Entry>, k: nat, n: nat, repr: Doc -> string): seq<string>
    requires k <= |entries|
  {
    if k == 0 then [] else RenderAll(Dashed(n, MapLines(entries[..k], n + 2, repr)))
  }

  /** What stands before the `k`-th key of an item. */
  function Lead(k: nat, n: nat): string {
    if k == 0 then Spaces(n) + "- " else Spaces(n + 2)
  }

  lemma NothingShown(before: seq<string>, entries: seq<Entry>, n: nat, repr: Doc -> string)
    ensures before + ItemShown(entries, 0, n, repr) == before
  {
  }

  /** One turn of the loop over an item's keys. */
  lemma ItemStep(before: seq<string>, entries: seq<Entry>, k: nat, n: nat, repr: Doc -> string)
    requires k < |entries|
    ensures before + ItemShown(entries, k + 1, n, repr)
         == before + ItemShown(entries, k, n, repr) + Shown(Lead(k, n), EntryLines(entries[k], n + 2, repr))
  {
    hide KeyText, InlineText;
    var block, more := MapLines(entries[..k], n + 2, repr), EntryLines(entries[k], n + 2, repr);
    assert entries[..k] + [entries[k]] == entries[..k + 1];
    MapLinesSnoc(entries[..k], entries[k], n + 2, repr);
    if k == 0 {
      assert block + more == more;
      var first := Line(n, "- " + more[0].text);
      assert Render(first) == Spaces(n) + "- " + more[0].text;
      assert ([first] + more[1..])[1..] == more[1..];
    } else {
      MapLinesNonEmpty(entries[..k], n + 2, repr);
      assert Dashed(n, block + more) == Dashed(n, block) + more;
      RenderConcat(Dashed(n, block), more);
      ShownAtColumn(more);
    }
  }

  lemma MapLinesNonEmpty(entries: seq<Entry>, n: nat, repr: Doc -> string)
    requires entries != []
    ensures MapLines(entries, n, repr) != [] && MapLines(entries, n, repr)[0].indent == n
  {
  }

  // ------------------------------------------------------------------ the printer

  /** The recursion of the source over its shared `lines` list. */
  class Printer {
    var lines: seq<string>
    const repr: Doc -> string

    constructor (repr: Doc -> string)
      ensures lines == [] && this.repr == repr
    {
      this.repr := repr;
      lines := [];
    }

    method Mapping(entries: seq<Entry>, indent: nat)
      modifies this
      ensures lines == old(lines) + RenderAll(MapLines(entries, indent, repr))
      decreases entries
    {
      for k := 0 to |entries|
        invariant lines == old(lines) + RenderAll(MapLines(entries[..k], indent, repr))
      {
        MapStep(old(lines), entries, k, indent, repr);
        ShownAtColumn(EntryLines(entries[k], indent, repr));
        EntryFrom(Spaces(indent), entries[k], indent);
      }
      assert entries[..|entries|] == entries;
    }

    method Sequence(items: seq<Doc>, indent: nat)
      modifies this
      ensures lines == old(lines) + RenderAll(SeqLines(items, indent, repr))
      decreases items
    {
      for k := 0 to |items|
        invariant lines == old(lines) + RenderAll(SeqLines(items[..k], indent, repr))
      {
        var x := items[k];
        SeqStep(old(lines), items, k, indent, repr);
        if x.Map? && x.entries != [] {
          ItemEntries(x.entries, indent);
          assert ItemShown(x.entries, |x.entries|, indent, repr) == RenderAll(ItemLines(x, indent, repr)) by {
            assert x.entries[..|x.entries|] == x.entries;
          }
        } else {
          lines := lines + [Spaces(indent) + "- " + Scalar(x, repr)];
          assert Render(Line(indent, "- " + Scalar(x, repr))) == Spaces(indent) + "- " + Scalar(x, repr);
        }
      }
      assert items[..|items|] == items;
    }

    /** The keys of one sequence item; the first sits on the dash line itself. */
    method ItemEntries(entries: seq<Entry>, indent: nat)
      modifies this
      ensures lines == old(lines) + ItemShown(entries, |entries|, indent, repr)
      decreases entries
    {
      ghost var before := lines;
      NothingShown(before, entries, indent, repr);
      hide *;
      for k := 0 to |entries|
        invariant lines == before + ItemShown(entries, k, indent, repr)
      {
        ItemStep(before, entries, k, indent, repr);
        EntryFrom(Lead(k, indent), entries[k], indent + 2);
      }
    }

    /** One key and its value, the key's line starting with `lead`. */
    method EntryFrom(lead: string, e: Entry, indent: nat)
      modifies this
      ensures lines == old(lines) + Shown(lead, EntryLines(e, indent, repr))
      decreases e
    {
      hide KeyText, InlineText, EntryLines, MapLines, SeqLines, RenderAll;
      EntryShown(lead, e, indent, repr);
      var head := lead + KeyText(e.key) + ":";
      if e.value.Map? && e.value.entries != [] {
        lines := lines + [head];
        Mapping(e.value.entries, indent + 2);
      } else if e.value.List? && e.value.items != [] {
        lines := lines + [head];
        Sequence(e.value.items, indent);
      } else {
        lines := lines + [head + " " + InlineText(e.value, repr)];
      }
    }
  }

  method DumpText(doc: Doc, repr: Doc -> string) returns (text: string)
    ensures text == Dump(doc, repr)
  {
    var out := new Printer(repr);
    match doc {
      case Map(entries) => out.Mapping(entries, 0);
      case List(items) => out.Sequence(items, 0);
      case _ =>
        out.lines := out.lines + [Scalar(doc, repr)];
        assert Render(Line(0, Scalar(doc, repr))) == Scalar(doc, repr);
    }
    assert out.lines == RenderAll(DocLines(doc, repr));
    text := Join(out.lines) + "\n";
  }
}
