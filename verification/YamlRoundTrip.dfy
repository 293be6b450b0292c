/** Reading undoes printing: what every printed document reads back as, and exactly
    which documents survive. */
module YamlRoundTrip {
  import opened Text
  import opened YamlDoc
  import opened YamlOut
  import opened YamlIn
  import opened YamlScalars

  // ----------------------------------------------------- what a document reads as

  /** Floats are spelled the way Python spells them; nothing else is demanded. */
  predicate Printable(v: Doc)
    decreases v
  {
    match v
    case Map(entries) => forall i | 0 <= i < |entries| :: Printable(entries[i].value)
    case List(items) => forall i | 0 <= i < |items| :: Printable(items[i])
    case _ => Leaf(v)
  }

  predicate Nested(v: Doc) {
    (v.Map? && v.entries != []) || (v.List? && v.items != [])
  }

  /** A mapping that prints as a single line. */
  predicate OneLine(entries: seq<Entry>) {
    |entries| == 1 && !Nested(entries[0].value)
  }

  function EntryReads(e: Entry, repr: Doc -> string): Option<Entry>
    decreases e
  {
    if LostKey(e.key) then None
    else if !Nested(e.value) then
      Some(Entry(e.key, if e.value.Map? || e.value.List? then e.value else LeafReads(e.value, repr)))
    else if e.value.Map? then
      var v :- BlockReads(e.value.entries, repr);
      Some(Entry(e.key, v))
    else
      var xs :- ItemsRead(e.value.items, repr);
      Some(Entry(e.key, List(xs)))
  }

  function EntriesRead(entries: seq<Entry>, repr: Doc -> string): Option<seq<Entry>>
    decreases entries, 0
  {
    if entries == [] then Some([])
    else
      var e :- EntryReads(entries[0], repr);
      var es :- EntriesRead(entries[1..], repr);
      Some([e] + es)
  }

  /** A comment in the first key turns a one-line mapping into a scalar. */
  function BlockReads(entries: seq<Entry>, repr: Doc -> string): Option<Doc>
    decreases entries, 1
  {
    if entries != [] && HiddenKey(entries[0].key) then
      if OneLine(entries) then Some(Resolve(Uncommented(entries[0].key))) else None
    else
      var es :- EntriesRead(entries, repr);
      Some(Map(es))
  }

  function ItemReads(x: Doc, repr: Doc -> string): Option<Doc>
    decreases x
  {
    if x.Map? && x.entries != [] then BlockReads(x.entries, repr) else Some(LeafReads(x, repr))
  }

  function ItemsRead(items: seq<Doc>, repr: Doc -> string): Option<seq<Doc>>
    decreases items
  {
    if items == [] then Some([])
    else
      var x :- ItemReads(items[0], repr);
      var xs :- ItemsRead(items[1..], repr);
      Some([x] + xs)
  }

  function With<T>(v: Option<T>, rest: seq<Line>): Option<Parsed<T>> {
    if v.None? then None else Some(Parsed(v.value, rest))
  }

  // ----------------------------------------------------------- reading the blocks

  /** What may follow a sequence at column `n`: a key at `n`, or anything further left. */
  predicate EndsItems(rest: seq<Line>, n: nat) {
    Ends(rest, n) || (rest[0].indent == n && !IsDash(rest[0].text))
  }

  predicate AllPrintable(entries: seq<Entry>) {
    forall i | 0 <= i < |entries| :: Printable(entries[i].value)
  }

  predicate AllItemsPrintable(items: seq<Doc>) {
    forall i | 0 <= i < |items| :: Printable(items[i])
  }

  /** What the first line of an entry holds behind the key's colon. */
  function Behind(e: Entry, repr: Doc -> string): (more: string)
    ensures more == "" || more[0] == ' '
  {
    if Nested(e.value) then "" else " " + InlineText(e.value, repr)
  }

  lemma FirstLine(e: Entry, n: nat, repr: Doc -> string)
    ensures EntryLines(e, n, repr)[0] == Line(n, KeyText(e.key) + ":" + Behind(e, repr))
    ensures !Nested(e.value) ==> |EntryLines(e, n, repr)| == 1
  {
    var head := KeyText(e.key) + ":";
    assert head + "" == head;
    var t := InlineText(e.value, repr);
    assert head + " " + t == head + (" " + t);
  }

  lemma EntryStartsLine(e: Entry, n: nat, repr: Doc -> string)
    ensures var l := EntryLines(e, n, repr)[0];
            l.indent == n && !IsDash(l.text) && l.text != "" && !IsBlank(l.text) && l.text[0] != ' '
  {
    FirstLine(e, n, repr);
    KeyTextStartsNode(e.key);
  }

  lemma SkipOneSpace(t: string)
    requires t != "" && t[0] != ' '
    ensures Skip(" " + t) == t && CountSpaces(" " + t) == 1
  {
    assert (" " + t)[1..] == t;
  }

  lemma InlineTextReads(v: Doc, repr: Doc -> string)
    requires Printable(v) && !Nested(v)
    ensures var t := InlineText(v, repr);
            t != "" && t[0] != ' ' && !IsBlank(t)
            && ReadInline(t) == Some(if v.Map? || v.List? then v else LeafReads(v, repr))
  {
    if v.Map? {
      assert Uncommented("{}") == "{}";
    } else if v.List? {
      assert Uncommented("[]") == "[]";
    } else {
      LeafRoundTrip(v, repr);
    }
  }

  lemma InlineEntryReads(e: Entry, ls: seq<Line>, repr: Doc -> string)
    requires Printable(e.value) && !Nested(e.value) && !LostKey(e.key)
    requires ls != [] && ls[0].text == KeyText(e.key) + ":" + Behind(e, repr)
    ensures ReadEntry(ls) == With(EntryReads(e, repr), ls[1..])
  {
    var t := InlineText(e.value, repr);
    InlineTextReads(e.value, repr);
    KeyRoundTrip(e.key, " " + t);
    SkipOneSpace(t);
  }

  /** A key whose value is a block further right. */
  lemma EntryOverBlock(ls: seq<Line>, key: string)
    requires |ls| > 1 && ReadKey(ls[0].text) == KeyLine(key, "") && ls[1].indent > ls[0].indent
    ensures ReadEntry(ls) == match ReadBlock(ls[1..])
                             case None => None
                             case Some(v) => Some(Parsed(Entry(key, v.value), v.rest))
  {
    assert ls[1..][0] == ls[1];
  }

  /** A key whose value is a sequence at the key's own column. */
  lemma EntryOverItems(ls: seq<Line>, key: string)
    requires |ls| > 1 && ReadKey(ls[0].text) == KeyLine(key, "")
    requires ls[1].indent == ls[0].indent && IsDash(ls[1].text)
    ensures ReadEntry(ls) == match ReadItems(ls[1..], ls[0].indent)
                             case None => None
                             case Some(xs) => Some(Parsed(Entry(key, List(xs.value)), xs.rest))
  {
    assert ls[1..][0] == ls[1];
  }

  /** A key that does not come back takes its entry with it. */
  lemma LostEntry(ls: seq<Line>, key: string, more: string)
    requires LostKey(key) && (more == "" || more[0] == ' ')
    requires ls != [] && ls[0].text == KeyText(key) + ":" + more
    ensures ReadEntry(ls) == None
  {
    KeyRoundTrip(key, more);
    hide LostKey, HiddenKey, KeyText, ReadKey, ReadBelow, ReadItems, ReadInline;
  }

  lemma {:induction false} ReadEntryOf(e: Entry, n: nat, rest: seq<Line>, repr: Doc -> string)
    requires Printable(e.value) && Ends(rest, n + 1) && EndsItems(rest, n)
    ensures ReadEntry(EntryLines(e, n, repr) + rest) == With(EntryReads(e, repr), rest)
    decreases e
  {
    hide ReadEntry, ReadBlock, ReadItems, EntryLines, MapLines, SeqLines, BlockReads, ItemsRead, LostKey, KeyText,
         ReadKey, Weight, LeafReads, IsDash;
    var ls := EntryLines(e, n, repr) + rest;
    FirstLine(e, n, repr);
    if LostKey(e.key) {
      LostEntry(ls, e.key, Behind(e, repr));
    } else if !Nested(e.value) {
      assert ls[1..] == rest;
      InlineEntryReads(e, ls, repr);
    } else {
      KeyRoundTrip(e.key, "");
      NestedEntry(e, n, rest, repr);
      if e.value.Map? {
        EntryOverBlock(ls, e.key);
        ReadBlockOf(e.value.entries, n + 2, rest, repr);
      } else {
        EntryOverItems(ls, e.key);
        ReadItemsOf(e.value.items, n, rest, repr);
      }
    }
  }

  lemma NestedEntry(e: Entry, n: nat, rest: seq<Line>, repr: Doc -> string)
    requires Nested(e.value)
    ensures var ls := EntryLines(e, n, repr) + rest;
            |ls| > 1 &&
            (if e.value.Map? then
               ls[1..] == MapLines(e.value.entries, n + 2, repr) + rest && ls[1].indent == n + 2
             else
               ls[1..] == SeqLines(e.value.items, n, repr) + rest && ls[1].indent == n && IsDash(ls[1].text))
  {
    var first := EntryLines(e, n, repr)[0];
    var below := if e.value.Map? then MapLines(e.value.entries, n + 2, repr) else SeqLines(e.value.items, n, repr);
    assert EntryLines(e, n, repr) == [first] + below;
    if e.value.Map? {
      MapLinesNonEmpty(e.value.entries, n + 2, repr);
    } else {
      ItemStartsLine(e.value.items[0], n, repr);
    }
    BelowFirst(first, below, rest);
  }

  lemma BelowFirst(first: Line, below: seq<Line>, rest: seq<Line>)
    requires below != []
    ensures var ls := [first] + below + rest; ls[0] == first && ls[1..] == below + rest && ls[1] == below[0]
  {
  }

  /** The first entry of a block, then the others. */
  lemma ReadEntriesStep(ls: seq<Line>, n: nat, e: Option<Entry>, others: seq<Line>,
                        es: Option<seq<Entry>>, rest: seq<Line>)
    requires ls != [] && ls[0].indent == n && !IsDash(ls[0].text)
    requires ReadEntry(ls) == With(e, others) && ReadEntries(others, n) == With(es, rest)
    ensures ReadEntries(ls, n)
         == With(if e.None? || es.None? then None else Some([e.value] + es.value), rest)
  {
    hide ReadEntry, IsDash, Weight;
  }

  lemma {:induction false} ReadEntriesOf(entries: seq<Entry>, n: nat, rest: seq<Line>, repr: Doc -> string)
    requires AllPrintable(entries) && Ends(rest, n)
    ensures ReadEntries(MapLines(entries, n, repr) + rest, n) == With(EntriesRead(entries, repr), rest)
    decreases entries
  {
    if entries == [] {
      assert MapLines(entries, n, repr) + rest == rest;
      hide ReadEntry, EntryReads;
    } else {
      var first, others := EntryLines(entries[0], n, repr), MapLines(entries[1..], n, repr);
      assert MapLines(entries, n, repr) + rest == first + (others + rest);
      EntryStartsLine(entries[0], n, repr);
      hide EntryLines, MapLines, EntryReads, ReadEntry, ReadEntries, IsDash, IsBlank, Weight;
      FollowsEntry(entries[1..], n, rest, repr);
      ReadEntryOf(entries[0], n, others + rest, repr);
      ReadEntriesOf(entries[1..], n, rest, repr);
      ReadEntriesStep(first + (others + rest), n, EntryReads(entries[0], repr), others + rest,
                      EntriesRead(entries[1..], repr), rest);
    }
  }

  /** The next key, or the end of the block, also ends any value before it. */
  lemma FollowsEntry(entries: seq<Entry>, n: nat, rest: seq<Line>, repr: Doc -> string)
    requires Ends(rest, n)
    ensures var after := MapLines(entries, n, repr) + rest; Ends(after, n + 1) && EndsItems(after, n)
  {
    if entries != [] {
      EntryStartsLine(entries[0], n, repr);
    }
  }

  lemma OneLineBlock(entries: seq<Entry>, n: nat, repr: Doc -> string)
    requires entries != []
    ensures var ls := MapLines(entries, n, repr);
            ls != [] && (if OneLine(entries) then |ls| == 1 else |ls| > 1 && ls[1].indent >= n)
  {
    var ls, e := MapLines(entries, n, repr), entries[0];
    FirstLine(e, n, repr);
    if |entries| > 1 {
      EntryStartsLine(entries[1], n, repr);
    }
    if Nested(e.value) {
      NestedEntry(e, n, MapLines(entries[1..], n, repr), repr);
    }
  }

  /** A block whose first line is no key is one scalar. */
  lemma ScalarBlock(ls: seq<Line>, v: Doc)
    requires ls != [] && !IsDash(ls[0].text) && ReadKey(ls[0].text) == NotKey
    requires ReadInline(ls[0].text) == Some(v)
    ensures ReadBlock(ls) == if Ends(ls[1..], ls[0].indent) then Some(Parsed(v, ls[1..])) else None
  {
  }

  lemma {:induction false} ReadBlockOf(entries: seq<Entry>, n: nat, rest: seq<Line>, repr: Doc -> string)
    requires entries != [] && AllPrintable(entries) && Ends(rest, n)
    ensures MapLines(entries, n, repr) != []
    ensures ReadBlock(MapLines(entries, n, repr) + rest) == With(BlockReads(entries, repr), rest)
    decreases entries, 1
  {
    hide ReadBlock, ReadEntry, ReadEntries, EntryLines, EntryReads, EntriesRead, BlockReads, KeyText, LostKey, HiddenKey,
         Behind, IsDash, ReadKey, Weight;
    var e := entries[0];
    var others := MapLines(entries[1..], n, repr) + rest;
    var ls := MapLines(entries, n, repr) + rest;
    MapLinesNonEmpty(entries, n, repr);
    BlockSplit(entries, n, rest, repr);
    if HiddenKey(e.key) {
      HiddenKeyBlock(entries, n, ls, rest, repr);
    } else {
      KeyIsRead(e, repr);
      ReadEntryOf(e, n, others, repr);
      ReadEntriesOf(entries[1..], n, rest, repr);
      KeyedBlock(ls, n, EntryReads(e, repr), others, EntriesRead(entries[1..], repr), rest);
      BlockReadsSplit(entries, repr);
    }
  }

  lemma KeyIsRead(e: Entry, repr: Doc -> string)
    requires !HiddenKey(e.key)
    ensures ReadKey(KeyText(e.key) + ":" + Behind(e, repr)) != NotKey
  {
    KeyRoundTrip(e.key, Behind(e, repr));
    hide KeyText, ReadKey, LostKey;
  }

  lemma BlockReadsSplit(entries: seq<Entry>, repr: Doc -> string)
    requires entries != []
    requires !HiddenKey(entries[0].key)
    ensures BlockReads(entries, repr) == Joined(EntryReads(entries[0], repr), EntriesRead(entries[1..], repr))
  {
  }

  lemma BlockSplit(entries: seq<Entry>, n: nat, rest: seq<Line>, repr: Doc -> string)
    requires entries != [] && Ends(rest, n)
    ensures var e, others := entries[0], MapLines(entries[1..], n, repr) + rest;
            var ls := MapLines(entries, n, repr) + rest;
            && ls == EntryLines(e, n, repr) + others && ls[0].indent == n && !IsDash(ls[0].text)
            && ls[0].text == KeyText(e.key) + ":" + Behind(e, repr)
            && Ends(others, n + 1) && EndsItems(others, n)
  {
    EntryStartsLine(entries[0], n, repr);
    FirstLine(entries[0], n, repr);
    FollowsEntry(entries[1..], n, rest, repr);
  }

  lemma HiddenKeyBlock(entries: seq<Entry>, n: nat, ls: seq<Line>, rest: seq<Line>, repr: Doc -> string)
    requires entries != [] && Ends(rest, n)
    requires HiddenKey(entries[0].key)
    requires ls == MapLines(entries, n, repr) + rest
    ensures ReadBlock(ls) == With(BlockReads(entries, repr), rest)
  {
    var e := entries[0];
    OneLineBlock(entries, n, repr);
    EntryStartsLine(e, n, repr);
    FirstLine(e, n, repr);
    KeyRoundTrip(e.key, Behind(e, repr));
    assert ls[0] == EntryLines(e, n, repr)[0];
    assert if OneLine(entries) then ls[1..] == rest else !Ends(ls[1..], n);
    ScalarBlock(ls, Resolve(Uncommented(e.key)));
  }

  function Joined(e: Option<Entry>, es: Option<seq<Entry>>): Option<Doc> {
    if e.None? || es.None? then None else Some(Map([e.value] + es.value))
  }

  /** A block whose first line is a key is a mapping. */
  lemma KeyedBlock(ls: seq<Line>, n: nat, e: Option<Entry>, others: seq<Line>,
                   es: Option<seq<Entry>>, rest: seq<Line>)
    requires ls != [] && ls[0].indent == n && !IsDash(ls[0].text) && ReadKey(ls[0].text) != NotKey
    requires ReadEntry(ls) == With(e, others) && ReadEntries(others, n) == With(es, rest)
    ensures ReadBlock(ls) == With(Joined(e, es), rest)
  {
  }

  lemma ItemStartsLine(x: Doc, n: nat, repr: Doc -> string)
    ensures var l := ItemLines(x, n, repr)[0]; l.indent == n && IsDash(l.text)
  {
  }

  /** The text behind a dash is a node two columns to the right. */
  lemma ItemBehindDash(n: nat, t: string, more: seq<Line>)
    requires t != "" && t[0] != ' ' && t[0] != '#'
    ensures ReadItem([Line(n, "- " + t)] + more) == ReadBlock([Line(n + 2, t)] + more)
  {
    hide ReadBlock, ReadBelow, CountSpaces, Skip, Weight;
    var ls := [Line(n, "- " + t)] + more;
    assert ls[0].text[1..] == " " + t;
    SkipOneSpace(t);
    assert ls[1..] == more;
  }

  lemma {:induction false} ReadItemOf(x: Doc, n: nat, rest: seq<Line>, repr: Doc -> string)
    requires Printable(x) && Ends(rest, n + 1)
    ensures IsDash(ItemLines(x, n, repr)[0].text)
    ensures ReadItem(ItemLines(x, n, repr) + rest) == With(ItemReads(x, repr), rest)
    decreases x
  {
    if x.Map? && x.entries != [] {
      BlockStartsLine(x.entries, n + 2, repr);
      DashedReads(MapLines(x.entries, n + 2, repr), n, rest);
      ReadBlockOf(x.entries, n + 2, rest, repr);
    } else {
      var t := Scalar(x, repr);
      LeafRoundTrip(x, repr);
      ItemBehindDash(n, t, rest);
      var inner := [Line(n + 2, t)] + rest;
      assert inner[1..] == rest;
      ScalarBlock(inner, LeafReads(x, repr));
    }
  }

  /** Moving a block behind a dash does not change what it reads as. */
  lemma DashedReads(block: seq<Line>, n: nat, rest: seq<Line>)
    requires block != [] && block[0].indent == n + 2
    requires block[0].text != "" && block[0].text[0] != ' ' && block[0].text[0] != '#'
    ensures IsDash(Dashed(n, block)[0].text)
    ensures ReadItem(Dashed(n, block) + rest) == ReadBlock(block + rest)
  {
    DashedSplit(block, n, rest);
    ItemBehindDash(n, block[0].text, block[1..] + rest);
  }

  lemma DashedSplit(block: seq<Line>, n: nat, rest: seq<Line>)
    requires block != [] && block[0].indent == n + 2
    ensures Dashed(n, block) + rest == [Line(n, "- " + block[0].text)] + (block[1..] + rest)
    ensures block + rest == [Line(n + 2, block[0].text)] + (block[1..] + rest)
  {
  }

  lemma BlockStartsLine(entries: seq<Entry>, n: nat, repr: Doc -> string)
    requires entries != []
    ensures var ls := MapLines(entries, n, repr);
            ls != [] && ls[0].indent == n && ls[0].text != "" && ls[0].text[0] != ' ' && ls[0].text[0] != '#'
  {
    EntryStartsLine(entries[0], n, repr);
  }

  /** The first item of a sequence, then the others. */
  lemma ReadItemsStep(ls: seq<Line>, n: nat, x: Option<Doc>, others: seq<Line>, xs: Option<seq<Doc>>, rest: seq<Line>)
    requires ls != [] && ls[0].indent == n && IsDash(ls[0].text)
    requires ReadItem(ls) == With(x, others) && ReadItems(others, n) == With(xs, rest)
    ensures ReadItems(ls, n) == With(if x.None? || xs.None? then None else Some([x.value] + xs.value), rest)
  {
    hide ReadItem, IsDash, Weight;
  }

  /** The next item, or what ends the sequence, also ends any item before it. */
  lemma FollowsItem(items: seq<Doc>, n: nat, rest: seq<Line>, repr: Doc -> string)
    requires EndsItems(rest, n)
    ensures Ends(SeqLines(items, n, repr) + rest, n + 1)
  {
    hide ItemLines;
    if items != [] {
      ItemStartsLine(items[0], n, repr);
    }
  }

  lemma {:induction false} ReadItemsOf(items: seq<Doc>, n: nat, rest: seq<Line>, repr: Doc -> string)
    requires AllItemsPrintable(items) && EndsItems(rest, n)
    ensures ReadItems(SeqLines(items, n, repr) + rest, n) == With(ItemsRead(items, repr), rest)
    decreases items
  {
    if items == [] {
      assert SeqLines(items, n, repr) + rest == rest;
    } else {
      var first, others := ItemLines(items[0], n, repr), SeqLines(items[1..], n, repr);
      assert SeqLines(items, n, repr) + rest == first + (others + rest);
      ItemStartsLine(items[0], n, repr);
      hide ItemLines, SeqLines, ItemReads, ReadItem, ReadItems, IsDash, Weight;
      FollowsItem(items[1..], n, rest, repr);
      ReadItemOf(items[0], n, others + rest, repr);
      ReadItemsOf(items[1..], n, rest, repr);
      ReadItemsStep(first + (others + rest), n, ItemReads(items[0], repr), others + rest,
                    ItemsRead(items[1..], repr), rest);
    }
  }
}
