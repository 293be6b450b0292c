/** The supervisor of the second engines, app/cores/service.py: its state, one step
    of every operation, and the class whose methods take those steps. */
module Cores {
  import opened Text

  datatype Engine = Singbox | Mihomo

  const ENGINES: seq<Engine> := [Singbox, Mihomo]

  datatype Network = Tcp | Udp

  /** A hosted protocol with its resolved settings and its active users. */
  datatype Item = Item(id: string, enabled: bool, engine: Engine, needs: Network, port: nat,
                       users: seq<string>, reachable: bool)

  datatype Listener = Listener(id: string, needs: Network, port: nat, users: seq<string>)

  /** The text an engine is started with is identified with its listeners. */
  type Config = seq<Listener>

  /** Everything outside the supervisor's control while one step runs. */
  datatype World = World(
    coresEnabled: bool,
    installed: set<Engine>,
    material: bool,                      // whether a TLS certificate exists
    items: seq<Item>,                    // the catalog, in order
    accepts: (Engine, Config) -> bool,   // the engine's own check of a config
    crashes: Engine -> bool)             // exits at once for a reason of its own

  /** A process keeps the config it was started with; no two have the same `pid`. */
  datatype Proc = Proc(pid: nat, live: bool, config: Config)

  datatype Issue = NoIssue | Disabled | NotInstalled | Refused | Exited

  datatype Status = Status(profiles: seq<string>, error: Issue, warning: Issue)

  datatype State = State(
    procs: map<Engine, Proc>,
    hashes: map<Engine, Config>,
    status: map<Engine, Status>,
    published: Option<set<string>>,
    started: nat)                        // how many processes were ever started

  const FRESH := State(map[], map[], map[], None, 0)

  datatype Report = Report(running: bool, profiles: seq<string>)

  // ------------------------------------------------------------------------ wishes

  function ListenersIn(items: seq<Item>, e: Engine): Config {
    if items == [] then []
    else ListenersOf(items[0], e) + ListenersIn(items[1..], e)
  }

  function ListenersOf(i: Item, e: Engine): Config {
    if i.enabled && i.engine == e && i.users != [] then [Listener(i.id, i.needs, i.port, i.users)] else []
  }

  function Listeners(w: World, e: Engine): Config {
    if w.material then ListenersIn(w.items, e) else []
  }

  function Ids(c: Config): (ids: seq<string>)
    ensures |ids| == |c| && forall i | 0 <= i < |c| :: ids[i] == c[i].id
  {
    seq(|c|, i requires 0 <= i < |c| => c[i].id)
  }

  predicate Wanted(w: World, e: Engine) {
    exists i | 0 <= i < |w.items| :: w.items[i].enabled && w.items[i].engine == e
  }

  // ------------------------------------------------------------------------- steps

  predicate Live(s: State, e: Engine) {
    e in s.procs && s.procs[e].live
  }

  /** Ports are bound exclusively: one held by a live process cannot be bound again. */
  predicate SharePort(a: Config, b: Config) {
    exists i, j | 0 <= i < |a| && 0 <= j < |b| :: a[i].needs == b[j].needs && a[i].port == b[j].port
  }

  predicate Contended(s: State, e: Engine, c: Config) {
    exists o :: o != e && Live(s, o) && SharePort(c, s.procs[o].config)
  }

  function StatusOf(s: State, e: Engine): Status {
    if e in s.status then s.status[e] else Status([], NoIssue, NoIssue)
  }

  function Stopped(s: State, e: Engine): State {
    s.(procs := s.procs - {e})
  }

  function WithStatus(s: State, e: Engine, st: Status): State {
    s.(status := s.status[e := st])
  }

  function Spawned(s: State, w: World, e: Engine, c: Config): State {
    var live := !w.crashes(e) && !Contended(s, e, c);
    s.(procs := s.procs[e := Proc(s.started, live, c)], hashes := s.hashes[e := c], started := s.started + 1)
  }

  function Start(s: State, w: World, e: Engine, force: bool): (State, Report) {
    var wanted := Listeners(w, e);
    var ids := Ids(wanted);
    var st := StatusOf(s, e);
    if !w.coresEnabled || e !in w.installed then
      (WithStatus(Stopped(s, e), e,
                  Status([], if w.coresEnabled then NoIssue else Disabled,
                         if e in w.installed then NoIssue else NotInstalled)),
       Report(false, []))
    else if wanted == [] then
      (WithStatus(Stopped(s, e), e, Status([], NoIssue, NoIssue)), Report(false, []))
    else if Live(s, e) && e in s.hashes && s.hashes[e] == wanted && !force then
      (WithStatus(s, e, st.(profiles := ids, error := NoIssue)), Report(true, ids))
    else if !w.accepts(e, wanted) then
      (WithStatus(s, e, st.(error := Refused)), Report(Live(s, e), st.profiles))
    else
      var n := Spawned(Stopped(s, e), w, e, wanted);
      if n.procs[e].live then (WithStatus(n, e, Status(ids, NoIssue, NoIssue)), Report(true, ids))
      else (WithStatus(n, e, st.(profiles := [], error := Exited)), Report(false, []))
  }

  function Turn(s: State, w: World, e: Engine, force: bool): State {
    if Wanted(w, e) then Start(s, w, e, force).0
    else WithStatus(Stopped(s, e), e, StatusOf(s, e).(profiles := []))
  }

  function Turns(s: State, w: World, k: nat, force: bool): State
    requires k <= |ENGINES|
  {
    if k == 0 then s else Turn(Turns(s, w, k - 1, force), w, ENGINES[k - 1], force)
  }

  predicate Reachable(w: World, id: string) {
    exists i | 0 <= i < |w.items| :: w.items[i].id == id && w.items[i].reachable
  }

  /** The recorded profiles of the engines among the first `k` that are live. */
  function LiveProfiles(s: State, k: nat): set<string>
    requires k <= |ENGINES|
  {
    if k == 0 then {}
    else
      var e := ENGINES[k - 1];
      LiveProfiles(s, k - 1) + if Live(s, e) then set id | id in StatusOf(s, e).profiles else {}
  }

  function Refreshed(s: State, w: World): State {
    s.(published := Some(set id | id in LiveProfiles(s, |ENGINES|) && Reachable(w, id)))
  }

  function Sync(s: State, w: World, force: bool): State {
    Refreshed(Turns(s, w, |ENGINES|, force), w)
  }

  /** What the subscription asks. */
  predicate IsPublished(s: State, w: World, id: string) {
    && (exists i | 0 <= i < |w.items| :: w.items[i].id == id && w.items[i].enabled)
    && Reachable(w, id)
    && (s.published.None? || id in s.published.value)
  }

  // -------------------------------------------------------------------- supervisor

  lemma ListenersSnoc(items: seq<Item>, i: Item, e: Engine)
    ensures ListenersIn(items + [i], e) == ListenersIn(items, e) + ListenersOf(i, e)
  {
    hide ListenersOf;
    if items == [] {
      assert ListenersIn([i][1..], e) == [];
    } else {
      assert (items + [i])[1..] == items[1..] + [i];
      ListenersSnoc(items[1..], i, e);
    }
  }

  method ListListeners(w: World, e: Engine) returns (out: Config)
    ensures out == Listeners(w, e)
  {
    out := [];
    if !w.material {
      return;
    }
    for k := 0 to |w.items|
      invariant out == ListenersIn(w.items[..k], e)
    {
      var i := w.items[k];
      ListenersSnoc(w.items[..k], i, e);
      assert w.items[..k] + [i] == w.items[..k + 1];
      if !i.enabled || i.engine != e || i.users == [] {
        continue;
      }
      out := out + [Listener(i.id, i.needs, i.port, i.users)];
    }
    assert w.items[..|w.items|] == w.items;
  }

  class Supervisor {
    var procs: map<Engine, Proc>
    var hashes: map<Engine, Config>
    var status: map<Engine, Status>
    var published: Option<set<string>>
    var started: nat

    ghost function Now(): State
      reads this
    {
      State(procs, hashes, status, published, started)
    }

    constructor ()
      ensures Now() == FRESH
    {
      procs, hashes, status, published, started := map[], map[], map[], None, 0;
    }

    method Stop(e: Engine)
      modifies this
      ensures Now() == Stopped(old(Now()), e)
    {
      procs := procs - {e};
    }

    /** Starts the process and waits for the moment an early exit would show. */
    method Spawn(w: World, e: Engine, c: Config)
      modifies this
      ensures Now() == Spawned(old(Now()), w, e, c)
    {
      var contended := exists o :: o != e && o in procs && procs[o].live && SharePort(c, procs[o].config);
      procs := procs[e := Proc(started, !w.crashes(e) && !contended, c)];
      hashes := hashes[e := c];
      started := started + 1;
    }

    method StartOrReload(w: World, e: Engine, force: bool) returns (r: Report)
      modifies this
      ensures (Now(), r) == Start(old(Now()), w, e, force)
    {
      hide Listeners, Ids, Contended;
      var st := if e in status then status[e] else Status([], NoIssue, NoIssue);
      if !w.coresEnabled || e !in w.installed {
        Stop(e);
        status := status[e := Status([], if w.coresEnabled then NoIssue else Disabled,
                                         if e in w.installed then NoIssue else NotInstalled)];
        return Report(false, []);
      }
      var wanted := ListListeners(w, e);
      if wanted == [] {
        Stop(e);
        status := status[e := Status([], NoIssue, NoIssue)];
        return Report(false, []);
      }
      var running := e in procs && procs[e].live;
      var ids := Ids(wanted);
      if running && e in hashes && hashes[e] == wanted && !force {
        status := status[e := st.(profiles := ids, error := NoIssue)];
        return Report(true, ids);
      }
      if !w.accepts(e, wanted) {
        status := status[e := st.(error := Refused)];
        return Report(running, st.profiles);
      }
      Stop(e);
      Spawn(w, e, wanted);
      if !procs[e].live {
        status := status[e := st.(profiles := [], error := Exited)];
        return Report(false, []);
      }
      status := status[e := Status(ids, NoIssue, NoIssue)];
      return Report(true, ids);
    }

    method Refresh(w: World)
      modifies this
      ensures Now() == Refreshed(old(Now()), w)
    {
      var live: set<string> := {};
      for k := 0 to |ENGINES|
        invariant live == LiveProfiles(Now(), k)
      {
        var e := ENGINES[k];
        if e in procs && procs[e].live {
          var profiles := if e in status then status[e].profiles else [];
          live := live + set id | id in profiles;
        }
      }
      assert live == LiveProfiles(old(Now()), |ENGINES|);
      published := Some(set id | id in live && Reachable(w, id));
    }

    method SyncAll(w: World, force: bool)
      modifies this
      ensures Now() == Sync(old(Now()), w, force)
    {
      hide Start, LiveProfiles, Reachable;
      for k := 0 to |ENGINES|
        invariant Now() == Turns(old(Now()), w, k, force)
      {
        var e := ENGINES[k];
        if exists i | 0 <= i < |w.items| :: w.items[i].enabled && w.items[i].engine == e {
          var _ := StartOrReload(w, e, force);
        } else {
          Stop(e);
          var st := if e in status then status[e] else Status([], NoIssue, NoIssue);
          status := status[e := st.(profiles := [])];
        }
      }
      Refresh(w);
    }
  }
}
