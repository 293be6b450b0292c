/** What a rebuild of the node catalog leaves, and what every run of rebuilds,
    selections and probes keeps. */
module CatalogRuns {
  import opened Text
  import opened NodeCatalog

  // ------------------------------------------------------------------- one rebuild

  function Planned(plan: seq<PlanItem>, name: string): Option<PlanItem> {
    if plan == [] then None
    else if plan[0].name == name then Some(plan[0]) else Planned(plan[1..], name)
  }

  predicate DistinctNames(plan: seq<PlanItem>) {
    forall i, j | 0 <= i < j < |plan| :: plan[i].name != plan[j].name
  }

  /** The row of a planned node after its turn. */
  function ItemRow(before: Option<Node>, item: PlanItem, publish: bool, latency: Option<int>, now: int): Node {
    Node(item.kind, item.server, item.port, item.tls, item.sni, item.host, publish, latency, item.source,
         item.meta.(candidate := !publish), if before.Some? then before.value.created else now, now)
  }

  lemma WithItemRows(t: Table, item: PlanItem, publish: bool, latency: Option<int>, now: int, name: string)
    ensures Row(WithItem(t, item, publish, latency, now), name)
         == if name == item.name then Some(ItemRow(Row(t, name), item, publish, latency, now)) else Row(t, name)
  {
  }

  lemma PlannedIsName(plan: seq<PlanItem>, name: string)
    ensures Planned(plan, name).Some? <==> name in Names(plan)
    ensures Planned(plan, name).Some? ==> Planned(plan, name).value in plan && Planned(plan, name).value.name == name
  {
    if plan != [] {
      PlannedIsName(plan[1..], name);
      assert Names(plan) == Names(plan[1..]) + {plan[0].name};
    }
  }

  lemma {:induction false} WithPlanRows(t: Table, plan: seq<PlanItem>, auto: bool, before: set<string>, known: Table,
                                        now: int, name: string)
    requires DistinctNames(plan)
    ensures Row(WithPlan(t, plan, auto, before, known, now), name)
         == match Planned(plan, name)
            case None => Row(t, name)
            case Some(item) =>
              Some(ItemRow(Row(t, name), item, auto || name in before, LatencyOf(item, known), now))
    decreases |plan|
  {
    if plan != [] {
      var item := plan[0];
      var publish := auto || item.name in before;
      WithItemRows(t, item, publish, LatencyOf(item, known), now, name);
      assert forall i | 0 <= i < |plan[1..]| :: plan[1..][i] == plan[i + 1];
      WithPlanRows(WithItem(t, item, publish, LatencyOf(item, known), now), plan[1..], auto, before, known, now, name);
      if name == item.name {
        PlannedIsName(plan[1..], name);
        assert name !in Names(plan[1..]);
      }
    }
  }

  /** What a rebuild makes of one row, for a name other than the origin's. */
  function SyncedRow(before: Option<Node>, planned: Option<PlanItem>, auto: bool, now: int): Option<Node> {
    match planned
    case Some(item) =>
      var publish := auto || (before.Some? && before.value.enabled && IsEdge(before.value));
      var latency := match item.latency
        case Known => if before.Some? then before.value.latency else None
        case Measured(ms) => ms;
      Some(ItemRow(before, item, publish, latency, now))
    case None =>
      if before.None? || (IsEdge(before.value) && HasSource(before.value.meta)) then None
      else if Owned(before.value) then Some(before.value.(enabled := false, updated := now))
      else before
  }

  /** A rebuild, row by row: planned nodes are written afresh, published only if they
      were or everything is, and tagged as candidates exactly when they are not; nodes
      of a deleted source are removed; the rebuild's own leftovers are switched off;
      every other row is untouched. */
  lemma SyncIsExact(t: Table, o: Option<Origin>, plan: seq<PlanItem>, auto: bool, now: int, name: string)
    requires DistinctNames(plan) && (o.Some? ==> name != o.value.name)
    ensures Row(Sync(t, o, plan, auto, now), name) == SyncedRow(Row(t, name), Planned(plan, name), auto, now)
  {
    hide WithPlan, Planned, OriginColumns, DistinctNames;
    var t1 := WithOrigin(t, o, now);
    var t2 := Disabled(t1, now);
    assert Row(t1, name) == Row(t, name);
    WithPlanRows(t2, plan, auto, PublishedEdge(t1), t2, now, name);
    PlannedIsName(plan, name);
  }

  /** A text with the words of SQL's pattern, one character apart. */
  ghost predicate SaysSourceId(text: string) {
    exists a: string, c: char, b: string :: text == a + "source" + [c] + "id" + b
  }

  /** Metadata in which the pattern is found. */
  ghost predicate TellsSource(m: Meta) {
    m.sourceId.Some? || exists k | k in m.others :: SaysSourceId(k) || SaysSourceId(m.others[k])
  }

  lemma PatternAt(a: string, c: char, b: string)
    ensures var text := a + "source" + [c] + "id" + b; |a| + 9 <= |text| && SourceIdAt(text, |a|)
  {
    var text := a + "source" + [c] + "id" + b;
    var word, last := "source", "id";
    hide SourceIdAt;
    assert text[|a|..|a| + 6] == word;
    assert text[|a| + 7..|a| + 9] == last;
    WordsAt(text, |a|);
  }

  lemma WordsAt(text: string, i: nat)
    requires i + 9 <= |text| && text[i..i + 6] == "source" && text[i + 7..i + 9] == "id"
    ensures SourceIdAt(text, i)
  {
  }

  lemma CutAtPattern(text: string, i: nat)
    requires i + 9 <= |text|
    ensures text == text[..i] + text[i..i + 6] + [text[i + 6]] + text[i + 7..i + 9] + text[i + 9..]
  {
  }

  lemma PatternIsFound(text: string)
    ensures LikeSourceId(text) <==> SaysSourceId(text)
  {
    if a: string, c: char, b: string :| text == a + "source" + [c] + "id" + b {
      PatternAt(a, c, b);
    }
    if LikeSourceId(text) {
      var i :| 0 <= i <= |text| - 9 && SourceIdAt(text, i);
      CutAtPattern(text, i);
    }
  }

  lemma OwnedIs(n: Node)
    ensures Owned(n)
       <==> (n.kind == "cloudflare" || n.kind == "edge")
            && (n.source == "cloudflare-probe" || n.source == "cloudflare-edge" || TellsSource(n.meta))
  {
    forall text: string
      ensures LikeSourceId(text) <==> SaysSourceId(text)
    {
      PatternIsFound(text);
    }
  }

  /** What a rebuild does to the edge rows it does not plan: those of its own making are
      switched off, or gone when their location is; those made by hand, or from a
      ready-made sample, stay exactly as they are. */
  lemma UnplannedRows(t: Table, o: Option<Origin>, plan: seq<PlanItem>, auto: bool, now: int, name: string)
    requires DistinctNames(plan) && (o.Some? ==> name != o.value.name)
    requires name in t && name !in Names(plan) && (t[name].kind == "cloudflare" || t[name].kind == "edge")
    ensures var n, after := t[name], Sync(t, o, plan, auto, now);
            var own := n.source == "cloudflare-probe" || n.source == "cloudflare-edge" || TellsSource(n.meta);
            && (!own ==> name in after && after[name] == n)
            && (own && n.meta.sourceId.Some? && n.meta.sourceId.value != "" ==> name !in after)
            && (own && !(n.meta.sourceId.Some? && n.meta.sourceId.value != "") ==>
                  name in after && after[name] == n.(enabled := false, updated := now))
  {
    SyncIsExact(t, o, plan, auto, now, name);
    PlannedIsName(plan, name);
    OwnedIs(t[name]);
    hide Sync, Owned, TellsSource, Planned, Names;
    assert Row(Sync(t, o, plan, auto, now), name).Some? <==> name in Sync(t, o, plan, auto, now);
  }

  /** A row that is no edge node is never touched. */
  lemma OtherRowsStay(t: Table, o: Option<Origin>, plan: seq<PlanItem>, auto: bool, now: int, name: string)
    requires DistinctNames(plan) && (o.Some? ==> name != o.value.name) && name !in Names(plan)
    requires name in t ==> t[name].kind != "cloudflare" && t[name].kind != "edge"
    ensures Row(Sync(t, o, plan, auto, now), name) == Row(t, name)
  {
    SyncIsExact(t, o, plan, auto, now, name);
    PlannedIsName(plan, name);
    hide Sync, Planned, Names;
  }

  /** A planned row has exactly the planned columns, whatever stood there before. */
  lemma PlannedRows(t: Table, o: Option<Origin>, plan: seq<PlanItem>, auto: bool, now: int, k: nat)
    requires DistinctNames(plan) && k < |plan| && (o.Some? ==> plan[k].name != o.value.name)
    ensures var p, after := plan[k], Sync(t, o, plan, auto, now);
            && p.name in after
            && (after[p.name].kind, after[p.name].server, after[p.name].port, after[p.name].tls, after[p.name].sni,
                after[p.name].host, after[p.name].source) == (p.kind, p.server, p.port, p.tls, p.sni, p.host, p.source)
            && after[p.name].meta.sourceId == p.meta.sourceId && after[p.name].meta.others == p.meta.others
            && after[p.name].latency == (match p.latency
                                         case Measured(ms) => ms
                                         case Known => if p.name in t then t[p.name].latency else None)
            && after[p.name].created == (if p.name in t then t[p.name].created else now)
  {
    var name := plan[k].name;
    SyncIsExact(t, o, plan, auto, now, name);
    PlannedIsThat(plan, k);
    hide Sync, Planned, Owned, DistinctNames;
    assert Row(Sync(t, o, plan, auto, now), name).Some?;
  }

  lemma {:induction false} PlannedIsThat(plan: seq<PlanItem>, k: nat)
    requires DistinctNames(plan) && k < |plan|
    ensures Planned(plan, plan[k].name) == Some(plan[k])
  {
    PlannedIsName(plan, plan[k].name);
    assert plan[k] in plan;
  }

  /** The deployment's own node outside the plan: as it was when it already points at
      this host, and otherwise written anew as a direct TLS node of this host on the
      HTTPS port. A new one is published; an existing one keeps switch, latency and
      creation time. */
  lemma OriginIsKept(t: Table, o: Origin, plan: seq<PlanItem>, auto: bool, now: int)
    requires DistinctNames(plan) && o.name !in Names(plan)
    requires o.name in t ==> t[o.name].kind != "cloudflare" && t[o.name].kind != "edge"
    ensures Row(Sync(t, Some(o), plan, auto, now), o.name)
         == if o.name in t && t[o.name].server == o.host then Some(t[o.name])
            else Some(Node("railway", o.host, 443, true, o.host, o.host,
                           o.name in t ==> t[o.name].enabled, if o.name in t then t[o.name].latency else None, o.platform,
                           Meta(false, None, map["role" := "direct", "platform" := o.platform, "location" := ""]),
                           if o.name in t then t[o.name].created else now, now))
  {
    var t1 := WithOrigin(t, Some(o), now);
    var t2 := Disabled(t1, now);
    WithPlanRows(t2, plan, auto, PublishedEdge(t1), t2, now, o.name);
    PlannedIsName(plan, o.name);
  }

  /** The candidate tag is exactly the opposite of the switch on every planned name,
      whatever the tags were before. */
  lemma CandidatesAreUnpublished(t: Table, o: Option<Origin>, plan: seq<PlanItem>, auto: bool, now: int, name: string)
    requires DistinctNames(plan) && (o.Some? ==> name != o.value.name) && name in Names(plan)
    ensures var r := Sync(t, o, plan, auto, now);
            && name in r
            && r[name].meta.candidate == !r[name].enabled
            && (r[name].enabled <==> auto || name in PublishedEdge(t))
            && (name in CandidatesOf(r) <==> !r[name].enabled)
  {
    SyncIsExact(t, o, plan, auto, now, name);
    PlannedIsName(plan, name);
  }

  /** Up to the time of the last change. */
  predicate SameRow(a: Option<Node>, b: Option<Node>) {
    if a.Some? && b.Some? then a.value == b.value.(updated := a.value.updated) else a == b
  }

  predicate PlanOfEdges(plan: seq<PlanItem>) {
    forall i | 0 <= i < |plan| :: plan[i].kind == "cloudflare" || plan[i].kind == "edge"
  }

  lemma SyncedRowTwice(before: Option<Node>, planned: Option<PlanItem>, auto: bool, now: int, later: int)
    requires planned.Some? ==> planned.value.kind == "cloudflare" || planned.value.kind == "edge"
    ensures var once := SyncedRow(before, planned, auto, now);
            SameRow(once, SyncedRow(once, planned, auto, later))
  {
  }

  lemma PlannedIsEdge(plan: seq<PlanItem>, name: string)
    requires PlanOfEdges(plan)
    ensures var p := Planned(plan, name); p.Some? ==> p.value.kind == "cloudflare" || p.value.kind == "edge"
  {
    PlannedIsName(plan, name);
  }

  /** Rebuilding twice changes nothing more. */
  lemma SyncIsIdempotent(t: Table, o: Option<Origin>, plan: seq<PlanItem>, auto: bool, now: int, later: int, name: string)
    requires DistinctNames(plan) && PlanOfEdges(plan)
    requires o.Some? ==> o.value.name !in Names(plan) && (o.value.name in t ==> !IsEdge(t[o.value.name]))
    ensures var once := Sync(t, o, plan, auto, now);
            SameRow(Row(once, name), Row(Sync(once, o, plan, auto, later), name))
  {
    var once := Sync(t, o, plan, auto, now);
    if o.Some? && name == o.value.name {
      OriginIsKept(t, o.value, plan, auto, now);
      OriginIsKept(once, o.value, plan, auto, later);
    } else {
      SyncIsExact(t, o, plan, auto, now, name);
      SyncIsExact(once, o, plan, auto, later, name);
      PlannedIsEdge(plan, name);
      SyncedRowTwice(Row(t, name), Planned(plan, name), auto, now, later);
    }
  }

  // --------------------------------------------------------------------- every run

  datatype Snapshot = Snapshot(name: string, meta: Meta)

  /** The table, and the probes that have read a row and not answered yet. */
  datatype State = State(rows: Table, probes: seq<Snapshot>)

  datatype Event =
    | OnSync(o: Option<Origin>, plan: seq<PlanItem>, auto: bool, now: int)
    | OnSelect(names: seq<string>, enabled: bool, now: int)
    | OnProbe(name: string)
    | OnVerdict(k: nat, latency: int, verdict: map<string, string>, now: int)
    | OnDelete(name: string)

  function Step(s: State, ev: Event): State {
    match ev
    case OnSync(o, plan, auto, now) => s.(rows := Sync(s.rows, o, plan, auto, now))
    case OnSelect(names, enabled, now) => s.(rows := Selected(s.rows, names, enabled, now))
    case OnProbe(name) =>
      if name in s.rows then s.(probes := s.probes + [Snapshot(name, s.rows[name].meta)]) else s
    case OnVerdict(k, latency, verdict, now) =>
      if k >= |s.probes| then s
      else
        State(Probed(s.rows, s.probes[k].name, latency, Some(WithVerdict(s.probes[k].meta, verdict)), now),
              s.probes[..k] + s.probes[k + 1..])
    case OnDelete(name) => s.(rows := s.rows - {name})
  }

  function Run(s: State, evs: seq<Event>): State
    decreases |evs|
  {
    if evs == [] then s else Run(Step(s, evs[0]), evs[1..])
  }

  function Chosen(names: seq<string>): set<string> {
    set n | n in names :: Strip(n)
  }

  /** The names an admin published by hand in a run. */
  function HandPicked(evs: seq<Event>): set<string> {
    if evs == [] then {}
    else (if evs[0].OnSelect? && evs[0].enabled then Chosen(evs[0].names) else {}) + HandPicked(evs[1..])
  }

  predicate Manual(evs: seq<Event>) {
    forall i | 0 <= i < |evs| && evs[i].OnSync? :: !evs[i].auto
  }

  lemma {:induction false} PlanPublishesNothing(t: Table, plan: seq<PlanItem>, before: set<string>, known: Table, now: int)
    ensures PublishedEdge(WithPlan(t, plan, false, before, known, now)) <= PublishedEdge(t) + before
    decreases |plan|
  {
    if plan != [] {
      var item := plan[0];
      var next := WithItem(t, item, item.name in before, LatencyOf(item, known), now);
      PlanPublishesNothing(next, plan[1..], before, known, now);
      forall name | name in PublishedEdge(next)
        ensures name in PublishedEdge(t) + before
      {
        WithItemRows(t, item, item.name in before, LatencyOf(item, known), now, name);
        assert Row(next, name) == Some(next[name]);
      }
    }
  }

  lemma SyncPublishesNothing(t: Table, o: Option<Origin>, plan: seq<PlanItem>, now: int)
    ensures PublishedEdge(Sync(t, o, plan, false, now)) <= PublishedEdge(t)
  {
    var t1 := WithOrigin(t, o, now);
    var t2 := Disabled(t1, now);
    var t3 := WithPlan(t2, plan, false, PublishedEdge(t1), t2, now);
    PlanPublishesNothing(t2, plan, PublishedEdge(t1), t2, now);
    assert PublishedEdge(t2) <= PublishedEdge(t1) by {
      assert forall name | name in t2 :: t2[name].enabled ==> t2[name] == t1[name];
    }
    assert PublishedEdge(t1) <= PublishedEdge(t);
    assert PublishedEdge(Cleaned(t3, Names(plan))) <= PublishedEdge(t3);
  }

  /** An edge node moved by hand. */
  function MovedRow(n: Node, enabled: bool, now: int): Node {
    n.(enabled := enabled, meta := n.meta.(candidate := !enabled), updated := now)
  }

  lemma SelectedOneRow(t: Table, raw: string, enabled: bool, now: int, name: string)
    ensures Row(SelectedOne(t, raw, enabled, now), name)
         == if name == Strip(raw) != "" && name in t && IsEdge(t[name]) then Some(MovedRow(t[name], enabled, now))
            else Row(t, name)
  {
  }

  /** A selection switches and tags exactly the edge nodes it names and touches no
      other row; naming a node twice changes nothing more. */
  lemma {:induction false} SelectIsExact(t: Table, names: seq<string>, enabled: bool, now: int, name: string)
    ensures Row(Selected(t, names, enabled, now), name)
         == if name in Movable(t, names) then Some(MovedRow(t[name], enabled, now)) else Row(t, name)
    ensures name in Movable(t, names) <==> name in Chosen(names) && name != "" && name in t && IsEdge(t[name])
    decreases |names|
  {
    if names != [] {
      var next := SelectedOne(t, names[0], enabled, now);
      SelectedOneRow(t, names[0], enabled, now, name);
      forall n: string
        ensures (n in t && IsEdge(t[n])) <==> (n in next && IsEdge(next[n]))
      {
        SelectedOneRow(t, names[0], enabled, now, n);
        assert Row(next, n).Some? <==> n in next;
      }
      SameMovable(t, next, names[1..]);
      SelectIsExact(next, names[1..], enabled, now, name);
      assert name in Chosen(names) <==> name == Strip(names[0]) || name in Chosen(names[1..]);
    }
  }

  lemma SelectPublishesChosen(t: Table, names: seq<string>, enabled: bool, now: int)
    ensures PublishedEdge(Selected(t, names, enabled, now))
         <= PublishedEdge(t) + if enabled then Chosen(names) else {}
  {
    forall name | name in PublishedEdge(Selected(t, names, enabled, now))
      ensures name in PublishedEdge(t) || (enabled && name in Chosen(names))
    {
      SelectIsExact(t, names, enabled, now, name);
      assert Row(Selected(t, names, enabled, now), name).Some?;
    }
  }

  lemma StepPublishes(s: State, ev: Event)
    requires ev.OnSync? ==> !ev.auto
    ensures PublishedEdge(Step(s, ev).rows)
         <= PublishedEdge(s.rows) + if ev.OnSelect? && ev.enabled then Chosen(ev.names) else {}
  {
    match ev
    case OnSync(o, plan, auto, now) => SyncPublishesNothing(s.rows, o, plan, now);
    case OnSelect(names, enabled, now) => SelectPublishesChosen(s.rows, names, enabled, now);
    case _ =>
  }

  /** With auto-publish off, an edge node is published only if it was at the start or
      its name was picked by hand, whatever the plans and however late the probes. */
  lemma {:induction false} OnlyHandPicked(s: State, evs: seq<Event>)
    requires Manual(evs)
    ensures PublishedEdge(Run(s, evs).rows) <= PublishedEdge(s.rows) + HandPicked(evs)
    decreases |evs|
  {
    if evs != [] {
      StepPublishes(s, evs[0]);
      assert forall i | 0 <= i < |evs[1..]| :: evs[1..][i] == evs[i + 1];
      OnlyHandPicked(Step(s, evs[0]), evs[1..]);
    }
  }

  /** Nothing in a run takes this node away: every plan has it, it is not the origin's,
      and it is neither parked nor deleted. */
  predicate LeavesAlone(evs: seq<Event>, name: string) {
    forall i | 0 <= i < |evs| ::
      match evs[i]
      case OnSync(o, plan, _, _) =>
        name in Names(plan) && PlanOfEdges(plan) && DistinctNames(plan) && (o.Some? ==> o.value.name != name)
      case OnSelect(names, enabled, _) => enabled || name !in Chosen(names)
      case OnDelete(n) => n != name
      case _ => true
  }

  lemma SelectKeeps(t: Table, names: seq<string>, enabled: bool, now: int, name: string)
    requires name in PublishedEdge(t) && (enabled || name !in Chosen(names))
    ensures name in PublishedEdge(Selected(t, names, enabled, now))
  {
    SelectIsExact(t, names, enabled, now, name);
    assert Row(Selected(t, names, enabled, now), name).Some?;
  }

  /** An admin's pick survives every re-scan. */
  lemma {:induction false} PickSurvives(s: State, evs: seq<Event>, name: string)
    requires name in PublishedEdge(s.rows) && LeavesAlone(evs, name)
    ensures name in PublishedEdge(Run(s, evs).rows)
    decreases |evs|
  {
    if evs != [] {
      var next := Step(s, evs[0]);
      match evs[0] {
        case OnSync(o, plan, auto, now) =>
          SyncIsExact(s.rows, o, plan, auto, now, name);
          PlannedIsName(plan, name);
        case OnSelect(names, enabled, now) => SelectKeeps(s.rows, names, enabled, now, name);
        case _ =>
      }
      assert forall i | 0 <= i < |evs[1..]| :: evs[1..][i] == evs[i + 1];
      PickSurvives(next, evs[1..], name);
    }
  }

  // ------------------------------------------------------------------ stale verdicts

  lemma ThreeSteps(s: State, e1: Event, e2: Event, e3: Event)
    ensures Run(s, [e1, e2, e3]) == Step(Step(Step(s, e1), e2), e3)
  {
    hide Step;
    assert [e1, e2, e3][1..] == [e2, e3] && [e2, e3][1..] == [e3] && [e3][1..] == [];
    var s1 := Step(s, e1);
    var s2 := Step(s1, e2);
    assert Run(s, [e1, e2, e3]) == Run(s1, [e2, e3]) == Run(s2, [e3]) == Run(Step(s2, e3), []);
  }

  /** A verdict writes what the probe found over what it had read before it waited, and
      touches no other column and no other row. */
  lemma VerdictRow(s: State, k: nat, latency: int, verdict: map<string, string>, now: int, other: string)
    requires k < |s.probes| && s.probes[k].name in s.rows
    ensures var t, p, n := Step(s, OnVerdict(k, latency, verdict, now)).rows, s.probes[k], s.rows[s.probes[k].name];
            && t.Keys == s.rows.Keys && (other in t && other != p.name ==> t[other] == s.rows[other])
            && t[p.name] == n.(latency := Some(latency), meta := t[p.name].meta, updated := now)
            && t[p.name].meta.candidate == p.meta.candidate && t[p.name].meta.sourceId == p.meta.sourceId
            && t[p.name].meta.others.Keys == p.meta.others.Keys + verdict.Keys
            && forall key | key in t[p.name].meta.others ::
                 t[p.name].meta.others[key] == if key in verdict then verdict[key] else p.meta.others[key]
  {
  }

  /** A verdict leaves the tag right exactly when the row's tag at the time of reading
      already was the opposite of the switch it finds. */
  lemma VerdictKeepsTag(s: State, k: nat, latency: int, verdict: map<string, string>, now: int)
    requires k < |s.probes| && s.probes[k].name in s.rows
    ensures var t, name := Step(s, OnVerdict(k, latency, verdict, now)).rows, s.probes[k].name;
            && name in t && t[name].enabled == s.rows[name].enabled
            && (t[name].meta.candidate == !t[name].enabled
                <==> s.probes[k].meta.candidate == !s.rows[name].enabled)
  {
  }

  /** A probe that read a published node and answers after it was parked wipes the tag:
      the node is neither published nor listed as a candidate, until the next rebuild. */
  lemma ParkedDuringProbe(s: State, name: string, latency: int, verdict: map<string, string>, now: int,
                          o: Option<Origin>, plan: seq<PlanItem>)
    requires name in s.rows && IsEdge(s.rows[name]) && s.rows[name].enabled && !s.rows[name].meta.candidate
    requires Stripped(name) && name != "" && s.probes == []
    requires DistinctNames(plan) && name in Names(plan) && (o.Some? ==> o.value.name != name)
    ensures var lost := Run(s, [OnProbe(name), OnSelect([name], false, now), OnVerdict(0, latency, verdict, now)]);
            && name in lost.rows && !lost.rows[name].enabled && name !in CandidatesOf(lost.rows)
            && name in CandidatesOf(Step(lost, OnSync(o, plan, false, now)).rows)
  {
    var e1, e2, e3 := OnProbe(name), OnSelect([name], false, now), OnVerdict(0, latency, verdict, now);
    var s1 := Step(s, e1);
    var s2 := Step(s1, e2);
    var lost := Step(s2, e3);
    ThreeSteps(s, e1, e2, e3);
    StripIsIdentity(name);
    SelectIsExact(s.rows, [name], false, now, name);
    assert [name][0] == name;
    assert Row(s2.rows, name) == Some(MovedRow(s.rows[name], false, now));
    hide Run, Selected, Movable, Strip, Sync, PublishedEdge, WithVerdict, DistinctNames, Names;
    CandidatesAreUnpublished(lost.rows, o, plan, false, now, name);
  }
}
