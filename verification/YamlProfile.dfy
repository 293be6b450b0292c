/** The whole text: `Load` after `Dump`, for every document. */
module YamlProfile {
  import opened Text
  import opened YamlDoc
  import opened YamlOut
  import opened YamlIn
  import opened YamlScalars
  import opened YamlRoundTrip

  // ----------------------------------------------------------------- text and lines

  lemma {:induction false} SpanOfLine(s: string, more: string)
    requires NoBreaks(s)
    ensures SpanLine(s + "\n" + more) == |s|
  {
    var t := s + "\n" + more;
    if s != "" {
      assert t[1..] == s[1..] + "\n" + more;
      SpanOfLine(s[1..], more);
    }
  }

  lemma OneLineSplits(s: string, more: string)
    requires NoBreaks(s)
    ensures SplitLines(s + "\n" + more) == [s] + SplitLines(more)
  {
    var t := s + "\n" + more;
    SpanOfLine(s, more);
    assert t[..|s|] == s && t[|s| + 1..] == more;
  }

  lemma {:induction false} LinesRoundTrip(ss: seq<string>)
    requires ss != [] && forall i | 0 <= i < |ss| :: NoBreaks(ss[i])
    ensures SplitLines(Join(ss) + "\n") == ss
  {
    var t := Join(ss) + "\n";
    assert ss == [ss[0]] + ss[1..];
    if |ss| == 1 {
      assert t == ss[0] + "\n" + "";
      OneLineSplits(ss[0], "");
      assert SplitLines("") == [];
    } else {
      var more := Join(ss[1..]) + "\n";
      assert t == ss[0] + "\n" + more;
      OneLineSplits(ss[0], more);
      LinesRoundTrip(ss[1..]);
    }
  }

  predicate AllNodes(ls: seq<Line>) {
    forall i | 0 <= i < |ls| :: NodeText(ls[i].text)
  }

  lemma {:induction false} ColumnRead(n: nat, t: string)
    requires t != "" && t[0] != ' '
    ensures CountSpaces(Spaces(n) + t) == n && Skip(Spaces(n) + t) == t
  {
    var s := Spaces(n) + t;
    if n == 0 {
      assert s == t;
    } else {
      assert s[1..] == Spaces(n - 1) + t;
      ColumnRead(n - 1, t);
    }
    assert s[n..] == t;
  }

  lemma {:induction false} StructureRoundTrip(ls: seq<Line>)
    requires AllNodes(ls)
    ensures Structure(RenderAll(ls)) == ls
    ensures forall i | 0 <= i < |RenderAll(ls)| :: NoBreaks(RenderAll(ls)[i])
    ensures |RenderAll(ls)| == |ls|
  {
    if ls != [] {
      ColumnRead(ls[0].indent, ls[0].text);
      StructureRoundTrip(ls[1..]);
      assert RenderAll(ls)[1..] == RenderAll(ls[1..]);
      assert NoBreaks(Render(ls[0]));
      assert Line(ls[0].indent, ls[0].text) == ls[0];
    }
  }

  // ------------------------------------------------------------ every printed line

  /** Every printed line is a node text, at column `n` or further right. */
  predicate Block(ls: seq<Line>, n: nat) {
    AllNodes(ls) && forall i | 0 <= i < |ls| :: ls[i].indent >= n
  }

  lemma KeyLineIsNode(key: string, more: string)
    requires NodeText(key) && NoBreaks(more)
    ensures NodeText(key + ":" + more)
  {
  }

  lemma BehindHasNoBreaks(e: Entry, repr: Doc -> string)
    requires Printable(e.value)
    ensures NoBreaks(Behind(e, repr))
  {
    if !Nested(e.value) && !e.value.Map? && !e.value.List? {
      LeafRoundTrip(e.value, repr);
    }
    hide Scalar, ReadKey, ReadInline, IsDash;
  }

  lemma EntryHeadIsNode(e: Entry, n: nat, repr: Doc -> string)
    requires Printable(e.value)
    ensures NodeText(EntryLines(e, n, repr)[0].text)
  {
    FirstLine(e, n, repr);
    KeyTextStartsNode(e.key);
    BehindHasNoBreaks(e, repr);
    hide EntryLines, KeyText, Behind, Printable;
    KeyLineIsNode(KeyText(e.key), Behind(e, repr));
  }

  lemma {:induction false} EntryBlock(e: Entry, n: nat, repr: Doc -> string)
    requires Printable(e.value)
    ensures Block(EntryLines(e, n, repr), n)
    decreases e
  {
    EntryHeadIsNode(e, n, repr);
    FirstLine(e, n, repr);
    if e.value.Map? && e.value.entries != [] {
      MapBlock(e.value.entries, n + 2, repr);
    } else if e.value.List? && e.value.items != [] {
      SeqBlock(e.value.items, n, repr);
    }
  }

  lemma {:induction false} MapBlock(entries: seq<Entry>, n: nat, repr: Doc -> string)
    requires AllPrintable(entries)
    ensures Block(MapLines(entries, n, repr), n)
    decreases entries
  {
    if entries != [] {
      EntryBlock(entries[0], n, repr);
      MapBlock(entries[1..], n, repr);
    }
  }

  lemma DashIsNode(t: string)
    requires NodeText(t)
    ensures NodeText("- " + t)
  {
    assert forall i | 0 <= i < |t| :: ("- " + t)[i + 2] == t[i];
  }

  lemma OneLineIsBlock(l: Line)
    requires NodeText(l.text)
    ensures Block([l], l.indent)
  {
    hide NodeText;
  }

  lemma DashedIsBlock(ls: seq<Line>, n: nat)
    requires Block(ls, n + 2)
    ensures Block(Dashed(n, ls), n)
  {
    if ls != [] {
      DashIsNode(ls[0].text);
    }
    hide NodeText;
  }

  lemma {:induction false} ItemBlock(x: Doc, n: nat, repr: Doc -> string)
    requires Printable(x)
    ensures Block(ItemLines(x, n, repr), n)
    decreases x
  {
    hide Block, NodeText, IsDash, ReadKey, ReadInline, Scalar, MapLines, Dashed;
    if x.Map? && x.entries != [] {
      MapBlock(x.entries, n + 2, repr);
      DashedIsBlock(MapLines(x.entries, n + 2, repr), n);
    } else {
      LeafRoundTrip(x, repr);
      DashIsNode(Scalar(x, repr));
      OneLineIsBlock(Line(n, "- " + Scalar(x, repr)));
    }
  }

  lemma {:induction false} SeqBlock(items: seq<Doc>, n: nat, repr: Doc -> string)
    requires AllItemsPrintable(items)
    ensures Block(SeqLines(items, n, repr), n)
    decreases items
  {
    if items != [] {
      ItemBlock(items[0], n, repr);
      SeqBlock(items[1..], n, repr);
    }
  }

  // --------------------------------------------------------------- document markers

  /** Three dots, then white space or the end. */
  predicate Dots(s: string) {
    |s| >= 3 && s[0] == s[1] == s[2] == '.' && (|s| > 3 ==> s[3] == ' ')
  }

  /** A key followed by its colon can only start with the dots and a space. */
  predicate MarkerKey(key: string) {
    Plain(key) && Dots(key) && |key| > 3
  }

  /** Only a key of the root mapping, or a scalar root, starts a line of its own. */
  predicate MarkerDoc(d: Doc) {
    match d
    case Map(entries) => exists i | 0 <= i < |entries| :: MarkerKey(entries[i].key)
    case Str(s) => Plain(s) && Dots(s)
    case _ => false
  }

  lemma HasMarkerConcat(a: seq<Line>, b: seq<Line>)
    ensures HasMarker(a + b) <==> HasMarker(a) || HasMarker(b)
  {
    assert forall i | 0 <= i < |b| :: (a + b)[|a| + i] == b[i];
    assert forall i | 0 <= i < |a| :: (a + b)[i] == a[i];
  }

  lemma NoMarkerInside(ls: seq<Line>, n: nat)
    requires Block(ls, n) && n > 0
    ensures !HasMarker(ls)
  {
  }

  lemma KeyLineMarker(key: string, more: string)
    requires more == "" || more[0] == ' '
    ensures IsMarker(Line(0, KeyText(key) + ":" + more)) <==> MarkerKey(key)
  {
    var t := KeyText(key) + ":" + more;
    KeyTextStartsNode(key);
    if Plain(key) {
      PlainIsPlainText(key);
      assert t[|key|] == ':';
      assert |key| > 3 ==> PlainAt(key, 3);
    } else {
      assert t[0] == '"';
    }
  }

  lemma ItemLineMarker(l: Line)
    requires IsDash(l.text)
    ensures !IsMarker(l)
  {
  }

  lemma {:induction false} SeqMarkers(items: seq<Doc>, repr: Doc -> string)
    requires AllItemsPrintable(items)
    ensures !HasMarker(SeqLines(items, 0, repr))
    decreases items
  {
    if items != [] {
      var x := items[0];
      var ls := ItemLines(x, 0, repr);
      ItemStartsLine(x, 0, repr);
      ItemLineMarker(ls[0]);
      if x.Map? && x.entries != [] {
        MapBlock(x.entries, 2, repr);
        MapLinesNonEmpty(x.entries, 2, repr);
      }
      assert forall i | 0 < i < |ls| :: ls[i].indent >= 2;
      SeqMarkers(items[1..], repr);
      HasMarkerConcat(ls, SeqLines(items[1..], 0, repr));
    }
  }

  lemma EntryMarkers(e: Entry, repr: Doc -> string)
    requires Printable(e.value)
    ensures HasMarker(EntryLines(e, 0, repr)) <==> MarkerKey(e.key)
  {
    var ls := EntryLines(e, 0, repr);
    FirstLine(e, 0, repr);
    KeyLineMarker(e.key, Behind(e, repr));
    assert ls == [ls[0]] + ls[1..];
    HasMarkerConcat([ls[0]], ls[1..]);
    assert HasMarker([ls[0]]) <==> IsMarker([ls[0]][0]);
    if Nested(e.value) {
      if e.value.Map? {
        MapBlock(e.value.entries, 2, repr);
        NoMarkerInside(ls[1..], 2);
      } else {
        SeqMarkers(e.value.items, repr);
        assert ls[1..] == SeqLines(e.value.items, 0, repr);
      }
    }
  }

  lemma {:induction false} RootMarkers(entries: seq<Entry>, repr: Doc -> string)
    requires AllPrintable(entries)
    ensures HasMarker(MapLines(entries, 0, repr))
       <==> exists i | 0 <= i < |entries| :: MarkerKey(entries[i].key)
  {
    if entries != [] {
      EntryMarkers(entries[0], repr);
      RootMarkers(entries[1..], repr);
      HasMarkerConcat(EntryLines(entries[0], 0, repr), MapLines(entries[1..], 0, repr));
      assert forall i | 0 <= i < |entries[1..]| :: entries[1..][i] == entries[i + 1];
      assert forall i | 0 < i < |entries| :: entries[i] == entries[1..][i - 1];
    }
  }

  lemma ScalarMarker(d: Doc, repr: Doc -> string)
    requires Leaf(d) && !d.Map? && !d.List?
    ensures IsMarker(Line(0, Scalar(d, repr))) <==> MarkerDoc(d)
  {
    var t := Scalar(d, repr);
    match d
    case Str(s) =>
      if Plain(s) {
        PlainIsPlainText(s);
        assert |s| > 3 ==> PlainAt(s, 3);
      } else {
        assert t[0] == '"';
      }
    case Null =>
    case Bool(b) => assert t == "true" || t == "false";
    case Int(n) =>
      assert |t| >= 3 ==> IsDigit(t[2]);
    case Real(l) =>
      if !(l == "inf" || l == "-inf" || l == "nan") {
        DecimalIsNoMarker(l);
      }
  }

  lemma DecimalIsNoMarker(l: string)
    requires Decimal(Unsigned(l))
    ensures !IsMarker(Line(0, l))
  {
    var u := Unsigned(l);
    assert |u| > 1 ==> u[1..][0] == u[1];
    assert |l| >= 3 && l[0] == '.' ==> u == l;
    assert |l| >= 3 && l[0] == '-' ==> u == l[1..];
  }

  // ---------------------------------------------------------------- the document

  /** What a printed document reads back as; none when it is not YAML any more. */
  function RootReads(d: Doc, repr: Doc -> string): Option<Doc> {
    if MarkerDoc(d) then None
    else match d
      case Map(entries) => if entries == [] then Some(Null) else BlockReads(entries, repr)
      case List(items) =>
        if items == [] then Some(Null)
        else
          var xs :- ItemsRead(items, repr);
          Some(List(xs))
      case _ => Some(LeafReads(d, repr))
  }

  /** What is read from the lines of a document. */
  predicate LinesRead(d: Doc, ls: seq<Line>, repr: Doc -> string) {
    && AllNodes(ls)
    && (ls == [] <==> d == Map([]) || d == List([]))
    && (HasMarker(ls) <==> MarkerDoc(d))
    && (ls != [] && !HasMarker(ls) ==> ReadBlock(ls) == With(RootReads(d, repr), []))
  }

  lemma RootMapping(entries: seq<Entry>, repr: Doc -> string)
    requires AllPrintable(entries)
    ensures LinesRead(Map(entries), MapLines(entries, 0, repr), repr)
  {
    hide ReadBlock, BlockReads, IsMarker, NodeText, MarkerKey;
    var ls := MapLines(entries, 0, repr);
    MapBlock(entries, 0, repr);
    RootMarkers(entries, repr);
    if entries != [] {
      assert ls + [] == ls;
      ReadBlockOf(entries, 0, [], repr);
    }
  }

  lemma RootList(items: seq<Doc>, repr: Doc -> string)
    requires AllItemsPrintable(items)
    ensures LinesRead(List(items), SeqLines(items, 0, repr), repr)
  {
    hide ReadBlock, ItemsRead, HasMarker, IsMarker, NodeText;
    SeqBlock(items, 0, repr);
    SeqMarkers(items, repr);
    if items != [] {
      RootSequence(items, repr);
    }
  }

  lemma RootLeaf(d: Doc, repr: Doc -> string)
    requires Leaf(d) && !d.Map? && !d.List?
    ensures LinesRead(d, [Line(0, Scalar(d, repr))], repr)
  {
    hide ReadBlock, IsMarker, NodeText, IsDash, ReadKey, ReadInline, LeafReads, Scalar, MarkerDoc;
    var ls := [Line(0, Scalar(d, repr))];
    LeafRoundTrip(d, repr);
    ScalarMarker(d, repr);
    assert HasMarker(ls) <==> IsMarker(ls[0]);
    ScalarBlock(ls, LeafReads(d, repr));
  }

  lemma DocLinesRead(d: Doc, repr: Doc -> string)
    requires Printable(d)
    ensures LinesRead(d, DocLines(d, repr), repr)
  {
    hide LinesRead;
    match d
    case Map(entries) => RootMapping(entries, repr);
    case List(items) => RootList(items, repr);
    case _ => RootLeaf(d, repr);
  }

  lemma RootSequence(items: seq<Doc>, repr: Doc -> string)
    requires items != [] && AllItemsPrintable(items)
    ensures var ls := SeqLines(items, 0, repr);
            ls != [] && ReadBlock(ls) == match ItemsRead(items, repr)
                                         case None => None
                                         case Some(xs) => Some(Parsed(List(xs), []))
  {
    var ls := SeqLines(items, 0, repr);
    assert ls + [] == ls;
    ItemStartsLine(items[0], 0, repr);
    ReadItemsOf(items, 0, [], repr);
    DashBlock(ls);
  }

  /** A block whose first line is a dash is the sequence of its items. */
  lemma DashBlock(ls: seq<Line>)
    requires ls != [] && IsDash(ls[0].text)
    ensures ReadBlock(ls) == match ReadItems(ls, ls[0].indent)
                             case None => None
                             case Some(xs) => Some(Parsed(List(xs.value), xs.rest))
  {
  }

  /** Everything a printed document can read back as, for every document. */
  lemma LoadDump(d: Doc, repr: Doc -> string)
    requires Printable(d)
    ensures ReadDocument(Dump(d, repr)) == RootReads(d, repr)
  {
    var ls := DocLines(d, repr);
    DocLinesRead(d, repr);
    if ls == [] {
      NothingPrinted();
    } else {
      LoadLines(ls);
    }
  }

  lemma LoadLines(ls: seq<Line>)
    requires AllNodes(ls) && ls != []
    ensures ReadDocument(Join(RenderAll(ls)) + "\n")
         == if HasMarker(ls) || ReadBlock(ls).None? || ReadBlock(ls).value.rest != [] then None
            else Some(ReadBlock(ls).value.value)
  {
    StructureRoundTrip(ls);
    LinesRoundTrip(RenderAll(ls));
  }

  /** An empty root collection prints a lone line break, which is a null document. */
  lemma NothingPrinted()
    ensures ReadDocument(Join([]) + "\n") == Some(Null)
  {
    assert Join([]) + "\n" == "\n";
    assert SpanLine("\n") == 0;
    assert "\n"[1..] == "" && SplitLines("") == [];
    assert SplitLines("\n") == [""];
    assert Structure([""]) == Structure([""][1..]);
  }

  // --------------------------------------------------------------- what survives

  /** Nothing inside is misread or degraded: no key is lost, no string misread, floats are
      finite, and the items of a sequence are scalars or non-empty mappings. */
  predicate Clean(v: Doc)
    decreases v, 0
  {
    match v
    case Str(s) => !Misread(s)
    case Real(l) => !(l == "inf" || l == "-inf" || l == "nan")
    case Map(entries) => forall i | 0 <= i < |entries| :: CleanEntry(entries[i])
    case List(items) => forall i | 0 <= i < |items| :: CleanItem(items[i])
    case _ => true
  }

  predicate CleanEntry(e: Entry)
    decreases e
  {
    !LostKey(e.key) && Clean(e.value)
  }

  predicate CleanItem(x: Doc)
    decreases x, 1
  {
    !x.List? && x != Map([]) && Clean(x)
  }

  /** The documents that survive: clean ones whose keys are unique, with no empty root
      collection and no line that YAML takes for a document marker. */
  predicate Faithful(d: Doc) {
    Clean(d) && UniqueKeys(d) && d != Map([]) && d != List([]) && !MarkerDoc(d)
  }

  lemma LeafSurvives(v: Doc, repr: Doc -> string)
    requires Leaf(v) && !v.Map? && !v.List?
    ensures LeafReads(v, repr) == v <==> Clean(v)
  {
    match v
    case Str(s) => StringSurvives(s, repr);
    case Real(l) => FloatReads(l);
    case _ =>
  }

  lemma {:induction false} EntrySurvives(e: Entry, repr: Doc -> string)
    requires Printable(e.value)
    ensures EntryReads(e, repr) == Some(e) <==> CleanEntry(e)
    decreases e
  {
    if !LostKey(e.key) {
      match e.value
      case Map(entries) => BlockSurvives(entries, repr);
      case List(items) => ItemsSurvive(items, repr);
      case _ => LeafSurvives(e.value, repr);
    }
  }

  lemma {:induction false} EntriesSurvive(entries: seq<Entry>, repr: Doc -> string)
    requires AllPrintable(entries)
    ensures EntriesRead(entries, repr) == Some(entries) <==> Clean(Map(entries))
    ensures EntriesRead(entries, repr).Some? ==> |EntriesRead(entries, repr).value| == |entries|
    decreases entries, 0
  {
    hide LostKey, EntryReads;
    if entries != [] {
      var tail := entries[1..];
      EntrySurvives(entries[0], repr);
      EntriesSurvive(tail, repr);
      assert entries == [entries[0]] + tail;
      CleanMapSplit(entries);
    }
  }

  lemma CleanMapSplit(entries: seq<Entry>)
    requires entries != []
    ensures Clean(Map(entries)) <==> CleanEntry(entries[0]) && Clean(Map(entries[1..]))
  {
    hide CleanEntry;
    assert forall i | 0 < i < |entries| :: entries[i] == entries[1..][i - 1];
  }

  lemma CleanListSplit(items: seq<Doc>)
    requires items != []
    ensures Clean(List(items)) <==> CleanItem(items[0]) && Clean(List(items[1..]))
  {
    hide CleanItem;
    assert forall i | 0 < i < |items| :: items[i] == items[1..][i - 1];
  }

  lemma {:induction false} BlockSurvives(entries: seq<Entry>, repr: Doc -> string)
    requires AllPrintable(entries)
    ensures BlockReads(entries, repr) == Some(Map(entries)) <==> Clean(Map(entries))
    decreases entries, 1
  {
    EntriesSurvive(entries, repr);
    hide LostKey, Clean, EntriesRead, Resolve, Uncommented, CommentAt;
    if entries != [] && HiddenKey(entries[0].key) {
      CleanMapSplit(entries);
      ResolvedIsNoMap(Uncommented(entries[0].key));
    }
  }

  lemma ResolvedIsNoMap(s: string)
    ensures !Resolve(s).Map?
  {
  }

  lemma {:induction false} ItemsSurvive(items: seq<Doc>, repr: Doc -> string)
    requires AllItemsPrintable(items)
    ensures ItemsRead(items, repr) == Some(items) <==> Clean(List(items))
    decreases items
  {
    if items != [] {
      var x, tail := items[0], items[1..];
      ItemsSurvive(tail, repr);
      CleanListSplit(items);
      assert items == [x] + tail;
      if x.Map? && x.entries != [] {
        BlockSurvives(x.entries, repr);
      } else if !x.Map? && !x.List? {
        LeafSurvives(x, repr);
      }
    }
  }

  /** Reading undoes printing, for exactly the faithful documents. */
  lemma RoundTrip(d: Doc, repr: Doc -> string)
    requires Printable(d)
    ensures Load(Dump(d, repr)) == Some(d) <==> Faithful(d)
  {
    LoadDump(d, repr);
    RootSurvives(d, repr);
    hide RootReads, ReadDocument, Dump, Clean, UniqueKeys, MarkerDoc, Printable;
  }

  lemma RootSurvives(d: Doc, repr: Doc -> string)
    requires Printable(d)
    ensures RootReads(d, repr) == Some(d) <==> Clean(d) && d != Map([]) && d != List([]) && !MarkerDoc(d)
  {
    hide LostKey, BlockReads, ItemsRead, LeafReads, CleanEntry, CleanItem;
    if !MarkerDoc(d) {
      match d
      case Map(entries) => BlockSurvives(entries, repr);
      case List(items) => ItemsSurvive(items, repr);
      case _ => LeafSurvives(d, repr);
    }
  }

  lemma HashIsPlain()
    ensures Plain("a #b")
  {
    hide Numeric, Lower, RESERVED;
    NotReserved("a #b");
    NotNumeric("a #b");
  }

  lemma NotReserved(s: string)
    requires s != "" && s[0] == 'a'
    ensures Lower(s) !in RESERVED
  {
    assert Lower(s)[0] == 'a';
    assert forall w | w in RESERVED :: w[0] != 'a';
  }

  lemma NotNumeric(s: string)
    requires s != "" && s[0] == 'a'
    ensures !Numeric(s)
  {
    assert Unsigned(s) == s && SpanDigits(s) == 0;
    assert Lower(s)[0] == 'a';
    assert WithoutUnderscores(s)[0] == 'a';
    assert SpanDigits(WithoutUnderscores(s)) == 0;
  }

  /** A hash after a space is printed without quotes, and read as a comment. */
  lemma HashIsNotQuoted(repr: Doc -> string)
    ensures Load(Dump(Str("a #b"), repr)) == Some(Str("a"))
  {
    HashIsPlain();
    LoadDump(Str("a #b"), repr);
    HashIsComment();
  }

  lemma HashIsComment()
    ensures Uncommented("a #b") == "a" && Resolve("a") == Str("a")
  {
    CommentAtIs("a #b", 1);
    assert "a #b"[..1] == "a" && TrimEnd("a") == "a";
    assert Unsigned("a") == "a" && SpanDigits("a") == 0;
  }
}
