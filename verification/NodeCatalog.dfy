/** The node catalog of app/nodes.py: the rebuild from a plan, the manual selection and
    the probe's verdict, as steps on the `nodes` table. */
module NodeCatalog {
  import opened Text

  /** A node's metadata: the two keys the catalog decides on, and the others. */
  datatype Meta = Meta(candidate: bool, sourceId: Option<string>, others: map<string, string>)

  datatype Node = Node(
    kind: string, server: string, port: nat, tls: bool, sni: string, host: string,
    enabled: bool, latency: Option<int>, source: string, meta: Meta, created: int, updated: int)

  type Table = map<string, Node>

  predicate IsEdge(n: Node) {
    n.kind == "cloudflare" || n.kind == "edge"
  }

  /** A planned latency: the one the table knows for the name, or a measured one. */
  datatype PlanLatency = Known | Measured(ms: Option<int>)

  datatype PlanItem = PlanItem(
    name: string, kind: string, server: string, port: nat, tls: bool, sni: string, host: string,
    source: string, meta: Meta, latency: PlanLatency)

  datatype Origin = Origin(name: string, host: string, platform: string)

  /** The columns an upsert writes. */
  datatype Columns = Columns(kind: string, server: string, port: nat, tls: bool, sni: string, host: string,
                             source: string, meta: Meta)

  // ------------------------------------------------------------------------- steps

  function Row(t: Table, name: string): Option<Node> {
    if name in t then Some(t[name]) else None
  }

  /** A conflict keeps the switch, the latency and the creation time. */
  function UpsertedRow(previous: Option<Node>, c: Columns, now: int): Node {
    Node(c.kind, c.server, c.port, c.tls, c.sni, c.host,
         previous.None? || previous.value.enabled, if previous.Some? then previous.value.latency else None,
         c.source, c.meta, if previous.Some? then previous.value.created else now, now)
  }

  function Upserted(t: Table, name: string, c: Columns, now: int): Table {
    t[name := UpsertedRow(Row(t, name), c, now)]
  }

  function Marked(t: Table, name: string, on: bool, now: int): Table {
    if name !in t || t[name].meta.candidate == on then t
    else t[name := t[name].(meta := t[name].meta.(candidate := on), updated := now)]
  }

  function Switched(t: Table, name: string, enabled: bool, latency: Option<int>, now: int): Table {
    if name !in t then t else t[name := t[name].(enabled := enabled, latency := latency, updated := now)]
  }

  function OriginColumns(o: Origin): Columns {
    Columns("railway", o.host, 443, true, o.host, o.host, o.platform,
            Meta(false, None, map["role" := "direct", "platform" := o.platform, "location" := ""]))
  }

  function WithOrigin(t: Table, o: Option<Origin>, now: int): Table {
    if o.None? || (o.value.name in t && t[o.value.name].server == o.value.host) then t
    else Upserted(t, o.value.name, OriginColumns(o.value), now)
  }

  /** SQL `LIKE '%source_id%'`, whose underscore stands for any character. */
  predicate LikeSourceId(s: string) {
    exists i | 0 <= i <= |s| - 9 :: SourceIdAt(s, i)
  }

  predicate SourceIdAt(s: string, i: nat)
    requires i + 9 <= |s|
  {
    s[i..i + 6] == "source" && s[i + 7..i + 9] == "id"
  }

  predicate MentionsSource(m: Meta) {
    m.sourceId.Some? || exists k | k in m.others :: LikeSourceId(k) || LikeSourceId(m.others[k])
  }

  /** The rows a rebuild owns. */
  predicate Owned(n: Node) {
    IsEdge(n) && (n.source == "cloudflare-probe" || n.source == "cloudflare-edge" || MentionsSource(n.meta))
  }

  function Disabled(t: Table, now: int): Table {
    map name | name in t :: if Owned(t[name]) then t[name].(enabled := false, updated := now) else t[name]
  }

  function PublishedEdge(t: Table): set<string> {
    set name | name in t && t[name].enabled && IsEdge(t[name])
  }

  function LatencyOf(item: PlanItem, known: Table): Option<int> {
    match item.latency
    case Known => if item.name in known then known[item.name].latency else None
    case Measured(ms) => ms
  }

  function ItemColumns(item: PlanItem): Columns {
    Columns(item.kind, item.server, item.port, item.tls, item.sni, item.host, item.source, item.meta)
  }

  /** One planned node: written, switched, and tagged. */
  function WithItem(t: Table, item: PlanItem, publish: bool, latency: Option<int>, now: int): Table {
    Marked(Switched(Upserted(t, item.name, ItemColumns(item), now), item.name, publish, latency, now),
           item.name, !publish, now)
  }

  function WithPlan(t: Table, plan: seq<PlanItem>, auto: bool, before: set<string>, known: Table, now: int): Table
    decreases |plan|
  {
    if plan == [] then t
    else
      WithPlan(WithItem(t, plan[0], auto || plan[0].name in before, LatencyOf(plan[0], known), now),
               plan[1..], auto, before, known, now)
  }

  function Names(plan: seq<PlanItem>): set<string> {
    set i | i in plan :: i.name
  }

  /** Python's truth of the stored source id. */
  predicate HasSource(m: Meta) {
    m.sourceId.Some? && m.sourceId.value != ""
  }

  function Cleaned(t: Table, keep: set<string>): Table {
    map name | name in t && !(name !in keep && IsEdge(t[name]) && HasSource(t[name].meta)) :: t[name]
  }

  function Sync(t: Table, o: Option<Origin>, plan: seq<PlanItem>, auto: bool, now: int): Table {
    var t1 := WithOrigin(t, o, now);
    var t2 := Disabled(t1, now);
    Cleaned(WithPlan(t2, plan, auto, PublishedEdge(t1), t2, now), Names(plan))
  }

  function SelectedOne(t: Table, raw: string, enabled: bool, now: int): Table {
    var name := Strip(raw);
    if name == "" || name !in t || !IsEdge(t[name]) then t
    else Marked(Switched(t, name, enabled, t[name].latency, now), name, !enabled, now)
  }

  function Selected(t: Table, names: seq<string>, enabled: bool, now: int): Table
    decreases |names|
  {
    if names == [] then t else Selected(SelectedOne(t, names[0], enabled, now), names[1..], enabled, now)
  }

  /** The names that can move: those of edge nodes, in the order they were given. */
  function Movable(t: Table, names: seq<string>): (picked: seq<string>)
    ensures forall n | n in picked :: n in t && IsEdge(t[n])
  {
    if names == [] then [] else MovableOne(t, names[0]) + Movable(t, names[1..])
  }

  function MovableOne(t: Table, raw: string): (picked: seq<string>)
    ensures forall n | n in picked :: n in t && IsEdge(t[n])
  {
    var name := Strip(raw);
    if name == "" || name !in t || !IsEdge(t[name]) then [] else [name]
  }

  lemma {:induction false} SameMovable(t: Table, after: Table, names: seq<string>)
    requires forall n :: (n in t && IsEdge(t[n])) <==> (n in after && IsEdge(after[n]))
    ensures Movable(after, names) == Movable(t, names)
  {
    if names != [] {
      SameMovable(t, after, names[1..]);
    }
  }

  lemma NothingToSelect(t: Table, enabled: bool, now: int)
    ensures Movable(t, []) == [] && Selected(t, [], enabled, now) == t
  {
  }

  /** One turn of the loop over the names. */
  lemma MovableStep(t: Table, names: seq<string>, enabled: bool, now: int)
    requires names != []
    ensures Movable(t, names) == MovableOne(t, names[0]) + Movable(SelectedOne(t, names[0], enabled, now), names[1..])
    ensures Selected(t, names, enabled, now) == Selected(SelectedOne(t, names[0], enabled, now), names[1..], enabled, now)
  {
    var next := SelectedOne(t, names[0], enabled, now);
    forall n: string
      ensures (n in t && IsEdge(t[n])) <==> (n in next && IsEdge(next[n]))
    {
    }
    SameMovable(t, next, names[1..]);
  }

  /** The verdict of a probe; without metadata the stored one stays. */
  function Probed(t: Table, name: string, latency: int, meta: Option<Meta>, now: int): Table {
    if name !in t then t
    else
      t[name := t[name].(latency := Some(latency), meta := if meta.Some? then meta.value else t[name].meta,
                         updated := now)]
  }

  function WithVerdict(snapshot: Meta, verdict: map<string, string>): Meta {
    snapshot.(others := snapshot.others + verdict)
  }

  // ----------------------------------------------------------------------- catalog

  class Catalog {
    var rows: Table

    constructor ()
      ensures rows == map[]
    {
      rows := map[];
    }

    method Upsert(name: string, c: Columns, now: int)
      modifies this
      ensures rows == Upserted(old(rows), name, c, now)
    {
      if name in rows {
        var n := rows[name];
        rows := rows[name := n.(kind := c.kind, server := c.server, port := c.port, tls := c.tls, sni := c.sni,
                                host := c.host, source := c.source, meta := c.meta, updated := now)];
      } else {
        rows := rows[name := Node(c.kind, c.server, c.port, c.tls, c.sni, c.host, true, None, c.source, c.meta,
                                  now, now)];
      }
    }

    method Update(name: string, enabled: bool, latency: Option<int>, now: int)
      modifies this
      ensures rows == Switched(old(rows), name, enabled, latency, now)
    {
      if name in rows {
        rows := rows[name := rows[name].(enabled := enabled, latency := latency, updated := now)];
      }
    }

    method MarkCandidate(name: string, on: bool, now: int)
      modifies this
      ensures rows == Marked(old(rows), name, on, now)
    {
      if name !in rows {
        return;
      }
      var meta := rows[name].meta;
      if on {
        if meta.candidate {
          return;
        }
        meta := meta.(candidate := true);
      } else {
        if !meta.candidate {
          return;
        }
        meta := meta.(candidate := false);
      }
      rows := rows[name := rows[name].(meta := meta, updated := now)];
    }

    method EnsureOrigin(o: Option<Origin>, now: int)
      modifies this
      ensures rows == WithOrigin(old(rows), o, now)
    {
      if o.None? || (o.value.name in rows && rows[o.value.name].server == o.value.host) {
        return;
      }
      Upsert(o.value.name, OriginColumns(o.value), now);
    }

    method CleanupOrphans(keep: set<string>)
      modifies this
      ensures rows == Cleaned(old(rows), keep)
    {
      var todo := rows.Keys;
      while todo != {}
        invariant todo <= old(rows).Keys
        invariant rows.Keys <= old(rows).Keys && forall n | n in rows :: rows[n] == old(rows)[n]
        invariant forall n | n in old(rows) && n in todo :: n in rows
        invariant forall n | n in old(rows) && n !in todo ::
                    n in rows <==> !(n !in keep && IsEdge(old(rows)[n]) && HasSource(old(rows)[n].meta))
        decreases todo
      {
        var n :| n in todo;
        todo := todo - {n};
        if n in keep || !IsEdge(rows[n]) || !HasSource(rows[n].meta) {
          continue;
        }
        rows := rows - {n};
      }
    }

    method DisableOwned(now: int)
      modifies this
      ensures rows == Disabled(old(rows), now)
    {
      rows := map n | n in rows :: if Owned(rows[n]) then rows[n].(enabled := false, updated := now) else rows[n];
    }

    method PlaceItem(item: PlanItem, publish: bool, latency: Option<int>, now: int)
      modifies this
      ensures rows == WithItem(old(rows), item, publish, latency, now)
    {
      Upsert(item.name, ItemColumns(item), now);
      Update(item.name, publish, latency, now);
      MarkCandidate(item.name, !publish, now);
    }

    method SyncAll(o: Option<Origin>, plan: seq<PlanItem>, auto: bool, now: int)
      modifies this
      ensures rows == Sync(old(rows), o, plan, auto, now)
    {
      hide WithItem, LatencyOf, Cleaned, Disabled, WithOrigin, PublishedEdge;
      EnsureOrigin(o, now);
      var publishedBefore := PublishedEdge(rows);
      DisableOwned(now);
      var known := rows;
      var keep: set<string> := {};
      for k := 0 to |plan|
        invariant WithPlan(rows, plan[k..], auto, publishedBefore, known, now)
               == WithPlan(known, plan, auto, publishedBefore, known, now)
        invariant keep == Names(plan[..k])
      {
        var item := plan[k];
        assert plan[k..][1..] == plan[k + 1..];
        assert plan[..k + 1] == plan[..k] + [item];
        PlaceItem(item, auto || item.name in publishedBefore, LatencyOf(item, known), now);
        keep := keep + {item.name};
      }
      assert plan[..|plan|] == plan;
      CleanupOrphans(keep);
    }

    /** Returns the names that moved. */
    method Select(names: seq<string>, enabled: bool, now: int) returns (chosen: seq<string>)
      modifies this
      ensures rows == Selected(old(rows), names, enabled, now)
      ensures chosen == Movable(old(rows), names)
    {
      hide *;
      chosen := [];
      assert names[0..] == names && names[|names|..] == [];
      for k := 0 to |names|
        invariant Selected(rows, names[k..], enabled, now) == Selected(old(rows), names, enabled, now)
        invariant chosen + Movable(rows, names[k..]) == Movable(old(rows), names)
      {
        assert names[k..][0] == names[k] && names[k..][1..] == names[k + 1..];
        MovableStep(rows, names[k..], enabled, now);
        var moved := SelectOne(names[k], enabled, now);
        chosen := chosen + moved;
      }
      NothingToSelect(rows, enabled, now);
    }

    /** One name of a selection. */
    method SelectOne(raw: string, enabled: bool, now: int) returns (moved: seq<string>)
      modifies this
      ensures rows == SelectedOne(old(rows), raw, enabled, now)
      ensures moved == MovableOne(old(rows), raw)
    {
      var name := Strip(raw);
      if name == "" || name !in rows || !IsEdge(rows[name]) {
        return [];
      }
      Update(name, enabled, rows[name].latency, now);
      MarkCandidate(name, !enabled, now);
      moved := [name];
    }

    method Mark(name: string, latency: int, meta: Option<Meta>, now: int)
      modifies this
      ensures rows == Probed(old(rows), name, latency, meta, now)
    {
      if name in rows {
        rows := rows[name := rows[name].(latency := Some(latency), updated := now)];
        if meta.Some? {
          rows := rows[name := rows[name].(meta := meta.value)];
        }
      }
    }

    /** Scanned edge nodes an admin has not published yet, each once, fastest first. */
    method Candidates() returns (names: seq<string>)
      ensures forall n :: n in names <==> n in rows && !rows[n].enabled && rows[n].meta.candidate
      ensures forall i, j | 0 <= i < j < |names| ::
                && names[i] != names[j]
                && (rows[names[j]].latency.Some? && rows[names[j]].latency.value >= 0 ==>
                      && rows[names[i]].latency.Some?
                      && 0 <= rows[names[i]].latency.value <= rows[names[j]].latency.value)
    {
      var todo := set n | n in rows && !rows[n].enabled && rows[n].meta.candidate;
      names := [];
      while todo != {}
        invariant todo <= CandidatesOf(rows) && FastestFirst(rows, names)
        invariant forall n :: n in CandidatesOf(rows) <==> n in names || n in todo
        invariant forall n, m | n in names && m in todo :: n != m && !Faster(rows[m], rows[n])
        decreases todo
      {
        var n := PickFastest(rows, todo);
        AppendSlowest(rows, names, n);
        names := names + [n];
        todo := todo - {n};
      }
    }
  }

  function CandidatesOf(t: Table): set<string> {
    set n | n in t && !t[n].enabled && t[n].meta.candidate
  }

  predicate Answers(n: Node) {
    n.latency.Some? && n.latency.value >= 0
  }

  /** Failed and unprobed nodes sink to the bottom. */
  predicate Faster(a: Node, b: Node) {
    Answers(a) && (Answers(b) ==> a.latency.value < b.latency.value)
  }

  predicate FastestFirst(t: Table, names: seq<string>) {
    && (forall n | n in names :: n in t)
    && forall i, j | 0 <= i < j < |names| :: names[i] != names[j] && !Faster(t[names[j]], t[names[i]])
  }

  lemma AppendSlowest(t: Table, names: seq<string>, n: string)
    requires FastestFirst(t, names) && n in t
    requires forall m | m in names :: m != n && !Faster(t[n], t[m])
    ensures FastestFirst(t, names + [n])
  {
    hide Faster;
  }

  method PickFastest(t: Table, keys: set<string>) returns (n: string)
    requires keys != {} && keys <= t.Keys
    ensures n in keys && forall m | m in keys :: !Faster(t[m], t[n])
  {
    ghost var fastest := FastestIn(t, keys);
    n :| n in keys && forall m | m in keys :: !Faster(t[m], t[n]);
  }

  lemma {:induction false} FastestIn(t: Table, keys: set<string>) returns (n: string)
    requires keys != {} && keys <= t.Keys
    ensures n in keys && forall m | m in keys :: !Faster(t[m], t[n])
    decreases keys
  {
    var first :| first in keys;
    var rest := keys - {first};
    assert forall m | m in keys :: m == first || m in rest;
    n := first;
    if rest != {} {
      var r := FastestIn(t, rest);
      if Faster(t[r], t[first]) {
        n := r;
      }
    }
  }
}
