/** The proxies and groups of the Clash profile, app/subscriptions/generator.py. */
module Clash {
  import opened Text
  import opened Names

  /** One pair of a node and a profile: the entry's label and its node's group. */
  datatype Pair = Pair(title: string, group: string)

  /** A printed proxy entry is known by its name; a country group lists names. */
  datatype CountryGroup = CountryGroup(name: string, proxies: seq<string>)

  datatype Group = Group(name: string, proxies: seq<string>)

  datatype Profile = Profile(proxies: seq<string>, groups: seq<Group>)

  const SELECT_GROUP := "🚀 انتخاب مسیر"
  const AUTO_GROUP := "♻️ خودکار (کمترین تاخیر)"

  // -------------------------------------------------------------------- the members

  /** What the loop over the pairs has built: entry names, recorded names, and groups. */
  datatype Listing = Listing(entries: seq<string>, names: seq<string>, groups: seq<string>)

  predicate Distinct(names: seq<string>) {
    forall i, j | 0 <= i < j < |names| :: names[i] != names[j]
  }

  /** The pairs that get an entry: those whose label is not blank. */
  function Kept(pairs: seq<Pair>): seq<Pair> {
    if pairs == [] then []
    else KeptOf(pairs[0]) + Kept(pairs[1..])
  }

  function KeptOf(p: Pair): seq<Pair> {
    if Strip(p.title) == "" then [] else [p]
  }

  /** A number behind the label, the first whose name was not used. */
  ghost predicate NumberedAfter(used: seq<string>, title: string, name: string) {
    exists n: nat ::
      && n >= 2 && name == Numbered(title, " ", n)
      && forall m: nat | 2 <= m < n :: Numbered(title, " ", m) in used
  }

  /** How the `k`-th entry is named: a label not used before is recorded stripped and
      printed as it is; a used one is numbered, in both places. */
  ghost predicate NamedAt(l: Listing, kept: seq<Pair>, k: nat)
    requires k < |kept| && k < |l.names| && k < |l.entries|
  {
    var name, used := Strip(kept[k].title), l.names[..k];
    if name in used then l.entries[k] == l.names[k] && NumberedAfter(used, name, l.names[k])
    else l.names[k] == name && l.entries[k] == kept[k].title
  }

  ghost predicate Lists(l: Listing, kept: seq<Pair>) {
    && |l.entries| == |l.names| == |l.groups| == |kept|
    && Distinct(l.names)
    && (forall k | 0 <= k < |kept| :: NamedAt(l, kept, k))
    && (forall k | 0 <= k < |kept| :: l.groups[k] == kept[k].group)
  }

  lemma ListsGrows(l: Listing, kept: seq<Pair>, p: Pair, entry: string, name: string)
    requires Lists(l, kept) && name !in l.names
    requires if Strip(p.title) in l.names then entry == name && NumberedAfter(l.names, Strip(p.title), name)
             else name == Strip(p.title) && entry == p.title
    ensures Lists(Listing(l.entries + [entry], l.names + [name], l.groups + [p.group]), kept + [p])
  {
    var m := Listing(l.entries + [entry], l.names + [name], l.groups + [p.group]);
    forall k | 0 <= k < |kept + [p]|
      ensures NamedAt(m, kept + [p], k)
    {
      if k < |kept| {
        assert NamedAt(l, kept, k);
        assert m.names[..k] == l.names[..k];
      } else {
        assert m.names[..k] == l.names;
      }
    }
  }

  lemma KeptSnoc(pairs: seq<Pair>, p: Pair)
    ensures Kept(pairs + [p]) == Kept(pairs) + KeptOf(p)
  {
    hide KeptOf;
    if pairs == [] {
      assert Kept([p][1..]) == [];
    } else {
      assert (pairs + [p])[1..] == pairs[1..] + [p];
      KeptSnoc(pairs[1..], p);
    }
  }

  /** A pair is left out exactly when its label is blank, all white space. */
  lemma {:induction false} KeptIs(pairs: seq<Pair>, p: Pair)
    ensures p in Kept(pairs) <==> p in pairs && exists i | 0 <= i < |p.title| :: !IsSpace(p.title[i])
  {
    if pairs != [] {
      KeptIs(pairs[1..], p);
      BlankIs(pairs[0].title);
      assert p in pairs <==> p == pairs[0] || p in pairs[1..];
    }
  }

  lemma BlankIs(title: string)
    ensures Strip(title) == "" <==> forall i | 0 <= i < |title| :: IsSpace(title[i])
  {
    BlankFromLeft(title);
    if LStrip(title) != "" {
      LStripHead(title);
      NotBlankFromRight(LStrip(title));
    }
  }

  lemma {:induction false} BlankFromLeft(s: string)
    ensures LStrip(s) == "" <==> forall i | 0 <= i < |s| :: IsSpace(s[i])
  {
    if s != "" && IsSpace(s[0]) {
      BlankFromLeft(s[1..]);
      assert forall i | 0 < i < |s| :: s[i] == s[1..][i - 1];
    }
  }

  lemma {:induction false} NotBlankFromRight(s: string)
    requires s != "" && !IsSpace(s[0])
    ensures RStrip(s) != ""
    decreases |s|
  {
    if IsSpace(s[|s| - 1]) {
      NotBlankFromRight(s[..|s| - 1]);
    }
  }

  method ListProxies(pairs: seq<Pair>) returns (l: Listing)
    ensures Lists(l, Kept(pairs))
  {
    l := Listing([], [], []);
    var used: set<string> := {};
    for i := 0 to |pairs|
      invariant Lists(l, Kept(pairs[..i]))
      invariant forall x :: x in used <==> x in l.names
    {
      var p := pairs[i];
      assert pairs[..i + 1] == pairs[..i] + [p];
      KeptSnoc(pairs[..i], p);
      assert Kept(pairs[..i]) + [] == Kept(pairs[..i]);
      var entry, name := p.title, Strip(p.title);
      if name == "" {
        continue;
      }
      if name in used {
        var n := FirstFree(name, " ", used);
        name := Numbered(name, " ", n);
        entry := name;
      }
      ListsGrows(l, Kept(pairs[..i]), p, entry, name);
      used := used + {name};
      l := Listing(l.entries + [entry], l.names + [name], l.groups + [p.group]);
    }
    assert pairs[..|pairs|] == pairs;
  }

  // --------------------------------------------------------------------- the groups

  function MembersOf(l: Listing, group: string, k: nat): seq<string>
    requires |l.names| == |l.groups| && k <= |l.names|
  {
    if k == 0 then []
    else MembersOf(l, group, k - 1) + if l.groups[k - 1] == group then [l.names[k - 1]] else []
  }

  /** The groups in order of first appearance, each with its members in order. */
  ghost predicate GroupsOf(groups: seq<CountryGroup>, l: Listing, k: nat)
    requires |l.names| == |l.groups| && k <= |l.names|
  {
    && (forall a, b | 0 <= a < b < |groups| :: groups[a].name != groups[b].name)
    && (forall a | 0 <= a < |groups| :: groups[a].proxies == MembersOf(l, groups[a].name, k) != [])
    && (forall j | 0 <= j < k :: GroupIndex(groups, l.groups[j]) < |groups|)
  }

  /** The different names among the first `k`, in order of first appearance. */
  function Appeared(names: seq<string>, k: nat): seq<string>
    requires k <= |names|
  {
    if k == 0 then []
    else
      var before := Appeared(names, k - 1);
      if names[k - 1] in before then before else before + [names[k - 1]]
  }

  /** The groups stand in order of first appearance. */
  predicate InOrder(groups: seq<CountryGroup>, l: Listing, k: nat)
    requires k <= |l.groups|
  {
    && |groups| == |Appeared(l.groups, k)|
    && forall a | 0 <= a < |groups| :: groups[a].name == Appeared(l.groups, k)[a]
  }

  /** Where a group is, or the length when it is not there. */
  function GroupIndex(groups: seq<CountryGroup>, name: string): (a: nat)
    ensures a <= |groups|
    ensures a < |groups| ==> groups[a].name == name
    ensures a == |groups| ==> forall b | 0 <= b < |groups| :: groups[b].name != name
  {
    if groups == [] || groups[0].name == name then 0 else 1 + GroupIndex(groups[1..], name)
  }

  /** The groups with one more member, in a new group if need be. */
  function AddMember(groups: seq<CountryGroup>, group: string, name: string): seq<CountryGroup> {
    var a := GroupIndex(groups, group);
    if a < |groups| then groups[a := CountryGroup(group, groups[a].proxies + [name])]
    else groups + [CountryGroup(group, [name])]
  }

  /** The next name joins its own group and no other. */
  lemma MembersGrow(l: Listing, k: nat)
    requires |l.names| == |l.groups| && k < |l.names|
    ensures forall g :: MembersOf(l, g, k + 1) == MembersOf(l, g, k) + if l.groups[k] == g then [l.names[k]] else []
  {
  }

  lemma AddMemberKeeps(groups: seq<CountryGroup>, l: Listing, k: nat)
    requires |l.names| == |l.groups| && k < |l.names| && GroupsOf(groups, l, k)
    ensures GroupsOf(AddMember(groups, l.groups[k], l.names[k]), l, k + 1)
  {
    hide MembersOf;
    var group, more := l.groups[k], AddMember(groups, l.groups[k], l.names[k]);
    MembersGrow(l, k);
    if GroupIndex(groups, group) == |groups| {
      forall j | 0 <= j < k
        ensures l.groups[j] != group
      {
        assert GroupIndex(groups, l.groups[j]) < |groups|;
      }
      NoMembersYet(l, group, k);
      assert [] + [l.names[k]] == [l.names[k]];
    }
    assert forall b | 0 <= b < |groups| :: more[b].name == groups[b].name;
    forall j | 0 <= j < k + 1
      ensures GroupIndex(more, l.groups[j]) < |more|
    {
      var a := if j < k then GroupIndex(groups, l.groups[j]) else GroupIndex(groups, group);
      assert a < |more| && more[a].name == l.groups[j];
    }
  }

  lemma AddMemberKeepsOrder(groups: seq<CountryGroup>, l: Listing, k: nat)
    requires |l.names| == |l.groups| && k < |l.names| && InOrder(groups, l, k)
    ensures InOrder(AddMember(groups, l.groups[k], l.names[k]), l, k + 1)
  {
    var before := Appeared(l.groups, k);
    if GroupIndex(groups, l.groups[k]) < |groups| {
      assert before[GroupIndex(groups, l.groups[k])] == l.groups[k];
    } else {
      assert forall b | 0 <= b < |groups| :: before[b] == groups[b].name != l.groups[k];
    }
  }

  method GroupMembers(l: Listing) returns (groups: seq<CountryGroup>)
    requires |l.names| == |l.groups|
    ensures GroupsOf(groups, l, |l.names|) && InOrder(groups, l, |l.names|)
  {
    hide *;
    groups := [];
    NoGroups(l);
    for k := 0 to |l.names|
      invariant GroupsOf(groups, l, k) && InOrder(groups, l, k)
    {
      AddMemberKeeps(groups, l, k);
      AddMemberKeepsOrder(groups, l, k);
      groups := AddMember(groups, l.groups[k], l.names[k]);
    }
  }

  lemma NoGroups(l: Listing)
    requires |l.names| == |l.groups|
    ensures GroupsOf([], l, 0) && InOrder([], l, 0)
  {
  }

  lemma {:induction false} NoMembersYet(l: Listing, group: string, k: nat)
    requires |l.names| == |l.groups| && k <= |l.names|
    requires forall j | 0 <= j < k :: l.groups[j] != group
    ensures MembersOf(l, group, k) == []
    decreases k
  {
    if k > 0 {
      NoMembersYet(l, group, k - 1);
    }
  }

  /** What the profile of these pairs is. */
  ghost predicate ProfileOf(doc: Profile, kept: seq<Pair>) {
    exists l, groups :: Lists(l, kept) && GroupsOf(groups, l, |l.names|) && InOrder(groups, l, |l.names|)
                        && doc == Document(l, groups)
  }

  method ClashDocument(pairs: seq<Pair>) returns (doc: Option<Profile>)
    ensures doc.Some? <==> Kept(pairs) != []
    ensures doc.Some? ==> ProfileOf(doc.value, Kept(pairs))
  {
    var listing := ListProxies(pairs);
    var countries := GroupMembers(listing);
    if |listing.entries| == 0 {
      return None;
    }
    doc := Some(Document(listing, countries));
  }

  function AsGroups(groups: seq<CountryGroup>): (gs: seq<Group>)
    ensures |gs| == |groups|
    ensures forall i | 0 <= i < |gs| :: gs[i] == Group(groups[i].name, groups[i].proxies)
  {
    seq(|groups|, i requires 0 <= i < |groups| => Group(groups[i].name, groups[i].proxies))
  }

  function GroupNames(groups: seq<CountryGroup>): (ns: seq<string>)
    ensures |ns| == |groups| && forall i | 0 <= i < |ns| :: ns[i] == groups[i].name
  {
    seq(|groups|, i requires 0 <= i < |groups| => groups[i].name)
  }

  function Document(l: Listing, groups: seq<CountryGroup>): Profile {
    Profile(l.entries,
            [Group(SELECT_GROUP, [AUTO_GROUP] + GroupNames(groups) + ["DIRECT"]),
             Group(AUTO_GROUP, l.entries)] + AsGroups(groups))
  }

  // ------------------------------------------------------------------ the guarantees

  /** Occurrences of a name in a list. */
  function Count(names: seq<string>, name: string): nat {
    if names == [] then 0 else (if names[0] == name then 1 else 0) + Count(names[1..], name)
  }

  lemma {:induction false} CountConcat(a: seq<string>, b: seq<string>, name: string)
    ensures Count(a + b, name) == Count(a, name) + Count(b, name)
  {
    if a == [] {
      assert a + b == b;
    } else {
      assert (a + b)[1..] == a[1..] + b;
      CountConcat(a[1..], b, name);
    }
  }

  lemma {:induction false} CountDistinct(l: Listing, group: string, k: nat, i: nat)
    requires |l.names| == |l.groups| && k <= |l.names| && i < |l.names| && Distinct(l.names)
    ensures Count(MembersOf(l, group, k), l.names[i]) == if i < k && l.groups[i] == group then 1 else 0
    decreases k
  {
    if k > 0 {
      CountDistinct(l, group, k - 1, i);
      CountConcat(MembersOf(l, group, k - 1), if l.groups[k - 1] == group then [l.names[k - 1]] else [], l.names[i]);
      assert [l.names[k - 1]][1..] == [];
    }
  }

  lemma {:induction false} MembersAreNames(l: Listing, group: string, k: nat)
    requires |l.names| == |l.groups| && k <= |l.names|
    ensures forall x | x in MembersOf(l, group, k) :: x in l.names
    decreases k
  {
    if k > 0 {
      MembersAreNames(l, group, k - 1);
    }
  }

  /** The country groups partition the proxies: every name is listed once, in the group
      of its own node and in no other, and nothing else is listed. */
  lemma GroupsPartition(l: Listing, groups: seq<CountryGroup>, i: nat)
    requires |l.names| == |l.groups| && Distinct(l.names) && GroupsOf(groups, l, |l.names|) && i < |l.names|
    ensures exists a | 0 <= a < |groups| :: groups[a].name == l.groups[i]
    ensures forall a | 0 <= a < |groups| ::
              Count(groups[a].proxies, l.names[i]) == if groups[a].name == l.groups[i] then 1 else 0
    ensures forall a, x | 0 <= a < |groups| && x in groups[a].proxies :: x in l.names
  {
    assert GroupIndex(groups, l.groups[i]) < |groups|;
    forall a | 0 <= a < |groups|
      ensures Count(groups[a].proxies, l.names[i]) == if groups[a].name == l.groups[i] then 1 else 0
      ensures forall x | x in groups[a].proxies :: x in l.names
    {
      CountDistinct(l, groups[a].name, |l.names|, i);
      MembersAreNames(l, groups[a].name, |l.names|);
    }
  }

  /** Every name a group lists is a proxy, a group of the document, or DIRECT. */
  ghost predicate Closed(doc: Profile) {
    forall g, x | g in doc.groups && x in g.proxies ::
      x in doc.proxies || x == "DIRECT" || exists h | h in doc.groups :: h.name == x
  }

  /** A label that is not renamed is printed as it is but recorded stripped. */
  ghost predicate Aligned(l: Listing, kept: seq<Pair>)
    requires |l.names| == |kept|
  {
    forall k | 0 <= k < |kept| && Strip(kept[k].title) !in l.names[..k] :: Stripped(kept[k].title)
  }

  lemma RecordedIsPrinted(l: Listing, kept: seq<Pair>, k: nat)
    requires Lists(l, kept) && k < |kept|
    ensures (Strip(kept[k].title) in l.names[..k] || Stripped(kept[k].title)) <==> l.entries[k] == l.names[k]
    ensures Stripped(l.names[k]) || l.entries[k] == l.names[k]
  {
    assert NamedAt(l, kept, k);
    StripIsStripped(kept[k].title);
    StripIsIdentity(kept[k].title);
  }

  /** A recorded name printed differently is printed nowhere. */
  lemma UnprintedName(l: Listing, kept: seq<Pair>, k: nat)
    requires Lists(l, kept) && k < |kept| && l.entries[k] != l.names[k]
    ensures l.names[k] !in l.entries
  {
    RecordedIsPrinted(l, kept, k);
    forall j | 0 <= j < |kept|
      ensures l.entries[j] != l.names[k]
    {
      RecordedIsPrinted(l, kept, j);
      assert NamedAt(l, kept, j) && NamedAt(l, kept, k);
      StripIsIdentity(l.entries[j]);
    }
  }

  lemma EntriesAreNames(l: Listing, kept: seq<Pair>)
    requires Lists(l, kept) && Aligned(l, kept)
    ensures l.entries == l.names
  {
    forall k | 0 <= k < |kept|
      ensures l.entries[k] == l.names[k]
    {
      RecordedIsPrinted(l, kept, k);
    }
  }

  /** Every reference resolves when the labels that keep their spelling are stripped. */
  lemma AlignedIsClosed(l: Listing, groups: seq<CountryGroup>, kept: seq<Pair>)
    requires Lists(l, kept) && GroupsOf(groups, l, |l.names|) && Aligned(l, kept)
    ensures Closed(Document(l, groups))
  {
    var doc := Document(l, groups);
    EntriesAreNames(l, kept);
    forall g, x | g in doc.groups && x in g.proxies
      ensures x in doc.proxies || x == "DIRECT" || exists h | h in doc.groups :: h.name == x
    {
      if g == doc.groups[0] {
        SelectGroupResolves(l, groups, x);
      } else if g != doc.groups[1] {
        var a :| 0 <= a < |groups| && AsGroups(groups)[a] == g;
        MembersAreNames(l, groups[a].name, |l.names|);
      }
    }
  }

  /** The top group lists the groups themselves. */
  lemma SelectGroupResolves(l: Listing, groups: seq<CountryGroup>, x: string)
    requires x in Document(l, groups).groups[0].proxies
    ensures x == "DIRECT" || exists h | h in Document(l, groups).groups :: h.name == x
  {
    var doc := Document(l, groups);
    if x in GroupNames(groups) {
      var a :| 0 <= a < |groups| && GroupNames(groups)[a] == x;
      assert doc.groups[a + 2].name == x;
    } else {
      assert x == "DIRECT" || doc.groups[1].name == x;
    }
  }

  /** A client reaches every proxy by hand: it is in the automatic group and in its own
      country's group, and the top group lists both. */
  lemma EveryProxyIsReachable(l: Listing, groups: seq<CountryGroup>, kept: seq<Pair>, k: nat)
    requires Lists(l, kept) && GroupsOf(groups, l, |l.names|) && Aligned(l, kept) && k < |kept|
    ensures var doc := Document(l, groups);
            && |doc.proxies| == |kept|
            && doc.groups[0].name == SELECT_GROUP && AUTO_GROUP in doc.groups[0].proxies
            && doc.groups[1].name == AUTO_GROUP && doc.groups[1].proxies == doc.proxies
            && exists a | 2 <= a < |doc.groups| ::
                 && doc.groups[a].name == kept[k].group && kept[k].group in doc.groups[0].proxies
                 && doc.proxies[k] in doc.groups[a].proxies
  {
    EntriesAreNames(l, kept);
    GroupsPartition(l, groups, k);
    assert NamedAt(l, kept, k);
    var a :| 0 <= a < |groups| && groups[a].name == l.groups[k];
    CountIsMember(groups[a].proxies, l.names[k]);
    DocumentListsGroup(l, groups, a);
    assert GroupNames(groups)[a] == kept[k].group;
  }

  /** Otherwise a country group lists a name that no proxy has. */
  lemma MisalignedDangles(l: Listing, groups: seq<CountryGroup>, kept: seq<Pair>, k: nat)
    requires Lists(l, kept) && GroupsOf(groups, l, |l.names|)
    requires k < |kept| && Strip(kept[k].title) !in l.names[..k] && !Stripped(kept[k].title)
    ensures var doc := Document(l, groups);
            exists a | 0 <= a < |groups| ::
              doc.groups[a + 2] == Group(groups[a].name, groups[a].proxies)
              && l.names[k] in groups[a].proxies && l.names[k] !in doc.proxies
  {
    hide GroupsOf, NamedAt, Strip;
    RecordedIsPrinted(l, kept, k);
    UnprintedName(l, kept, k);
    GroupsPartition(l, groups, k);
    var a :| 0 <= a < |groups| && groups[a].name == l.groups[k];
    CountIsMember(groups[a].proxies, l.names[k]);
    DocumentListsGroup(l, groups, a);
  }

  const SPACED := Pair(" tehran", "ir")

  lemma SpacedLabel()
    ensures Strip(SPACED.title) == "tehran" && Kept([SPACED]) == [SPACED]
  {
    assert LStrip(" tehran") == "tehran" by {
      assert " tehran"[1..] == "tehran";
    }
    StripIsIdentity("tehran");
    hide Strip;
    assert [SPACED][1..] == [] && Kept([]) == [];
  }

  lemma SpacedListing(l: Listing)
    requires Lists(l, [SPACED])
    ensures l == Listing([" tehran"], ["tehran"], ["ir"])
  {
    SpacedLabel();
    hide Strip;
    assert NamedAt(l, [SPACED], 0);
  }

  /** So one label with a leading space leaves a group with a name that is nowhere. */
  lemma LeadingSpaceDangles(doc: Profile)
    requires ProfileOf(doc, Kept([SPACED]))
    ensures doc.proxies == [" tehran"] && Group("ir", ["tehran"]) in doc.groups && !Closed(doc)
  {
    SpacedLabel();
    var l, groups :| Lists(l, [SPACED]) && GroupsOf(groups, l, |l.names|) && InOrder(groups, l, |l.names|)
                     && doc == Document(l, groups);
    SpacedListing(l);
    OneGroup(l, groups, "tehran", "ir");
    DocumentListsGroup(l, groups, 0);
    DocumentShape(l, groups);
    FixedNames();
    hide *;
    NameIsNowhere(doc, "ir", "tehran");
  }

  lemma FixedNames()
    ensures "tehran" != SELECT_GROUP && "tehran" != AUTO_GROUP && "tehran" != "ir" && "tehran" != "DIRECT"
    ensures "tehran" !in [" tehran"]
  {
    assert "tehran"[0] == 't' && SELECT_GROUP[0] != 't' && AUTO_GROUP[0] != 't';
  }

  lemma DocumentShape(l: Listing, groups: seq<CountryGroup>)
    ensures var doc := Document(l, groups);
            |doc.groups| == |groups| + 2 && doc.groups[0].name == SELECT_GROUP && doc.groups[1].name == AUTO_GROUP
  {
  }

  lemma NameIsNowhere(doc: Profile, group: string, name: string)
    requires |doc.groups| == 3 && doc.groups[2] == Group(group, [name]) && name !in doc.proxies && name != "DIRECT"
    requires name != doc.groups[0].name && name != doc.groups[1].name && name != group
    ensures Group(group, [name]) in doc.groups && !Closed(doc)
  {
    var g := doc.groups[2];
    assert g in doc.groups && name in g.proxies;
    assert forall h | h in doc.groups :: h.name != name;
  }

  lemma OneGroup(l: Listing, groups: seq<CountryGroup>, name: string, group: string)
    requires l.names == [name] && l.groups == [group] && GroupsOf(groups, l, 1) && InOrder(groups, l, 1)
    ensures groups == [CountryGroup(group, [name])]
  {
    assert Appeared(l.groups, 0) == [] && Appeared(l.groups, 1) == [group];
    assert MembersOf(l, group, 0) == [] && MembersOf(l, group, 1) == [name];
  }

  lemma DocumentListsGroup(l: Listing, groups: seq<CountryGroup>, a: nat)
    requires a < |groups|
    ensures Document(l, groups).proxies == l.entries
    ensures |Document(l, groups).groups| > a + 2
    ensures Document(l, groups).groups[a + 2] == Group(groups[a].name, groups[a].proxies)
  {
    assert Document(l, groups).groups[a + 2] == AsGroups(groups)[a];
  }

  lemma {:induction false} CountIsMember(names: seq<string>, name: string)
    ensures Count(names, name) > 0 <==> name in names
  {
    if names != [] {
      CountIsMember(names[1..], name);
      assert name in names <==> name == names[0] || name in names[1..];
    }
  }

  /** Country references resolve to proxies exactly when the labels are aligned. */
  lemma ReferencesResolve(l: Listing, groups: seq<CountryGroup>, kept: seq<Pair>)
    requires Lists(l, kept) && GroupsOf(groups, l, |l.names|)
    ensures Aligned(l, kept)
       <==> forall a, x | 0 <= a < |groups| && x in groups[a].proxies :: x in Document(l, groups).proxies
  {
    if Aligned(l, kept) {
      EntriesAreNames(l, kept);
      forall a | 0 <= a < |groups|
        ensures forall x | x in groups[a].proxies :: x in l.names
      {
        MembersAreNames(l, groups[a].name, |l.names|);
      }
    } else {
      var k :| 0 <= k < |kept| && Strip(kept[k].title) !in l.names[..k] && !Stripped(kept[k].title);
      MisalignedDangles(l, groups, kept, k);
    }
  }

  /** With stripped labels the profile is whole: one proxy per pair in order, names
      pairwise distinct, first occurrences unchanged, and every reference resolves. */
  lemma ProfileIntegrity(doc: Profile, kept: seq<Pair>)
    requires ProfileOf(doc, kept) && forall k | 0 <= k < |kept| :: Stripped(kept[k].title)
    ensures |doc.proxies| == |kept| && Distinct(doc.proxies) && Closed(doc)
    ensures forall k | 0 <= k < |kept| && kept[k].title !in doc.proxies[..k] :: doc.proxies[k] == kept[k].title
  {
    var l, groups :| Lists(l, kept) && GroupsOf(groups, l, |l.names|) && InOrder(groups, l, |l.names|)
                     && doc == Document(l, groups);
    AlignedIsClosed(l, groups, kept);
    EntriesAreNames(l, kept);
    forall k | 0 <= k < |kept| && kept[k].title !in doc.proxies[..k]
      ensures doc.proxies[k] == kept[k].title
    {
      assert NamedAt(l, kept, k);
      StripIsIdentity(kept[k].title);
    }
  }
}
