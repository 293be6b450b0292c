/** What the supervisor keeps over every run, and where repeated syncs lead. */
module CoresSafety {
  import opened Text
  import opened Cores

  // ---------------------------------------------------------------- every run

  /** A live process is described truthfully: the recorded config is the one it was
      started with, and so are the recorded profiles. */
  predicate Honest(s: State) {
    forall e: Engine :: HonestFor(s, e)
  }

  /** Everything that can happen, the supervisor's steps and the engines' deaths. */
  datatype Event =
    | OnStart(w: World, e: Engine, force: bool)
    | OnStop(e: Engine)
    | OnTurn(w: World, e: Engine, force: bool)
    | OnRefresh(w: World)
    | OnSync(w: World, force: bool)
    | OnDeath(e: Engine)

  function Died(s: State, e: Engine): State {
    if e in s.procs then s.(procs := s.procs[e := s.procs[e].(live := false)]) else s
  }

  function Step(s: State, ev: Event): State {
    match ev
    case OnStart(w, e, force) => Start(s, w, e, force).0
    case OnStop(e) => Stopped(s, e)
    case OnTurn(w, e, force) => Turn(s, w, e, force)
    case OnRefresh(w) => Refreshed(s, w)
    case OnSync(w, force) => Sync(s, w, force)
    case OnDeath(e) => Died(s, e)
  }

  function Run(s: State, evs: seq<Event>): State
    decreases |evs|
  {
    if evs == [] then s else Run(Step(s, evs[0]), evs[1..])
  }

  predicate HonestFor(s: State, e: Engine) {
    && (e in s.procs ==> s.procs[e].pid < s.started)
    && (Live(s, e) ==>
          && e in s.hashes && s.hashes[e] == s.procs[e].config
          && e in s.status && s.status[e].profiles == Ids(s.procs[e].config))
  }

  /** What the steps of one engine leave alone. */
  predicate SameFor(s: State, t: State, o: Engine) {
    && (o in s.procs <==> o in t.procs) && (o in s.procs ==> t.procs[o] == s.procs[o])
    && (o in s.hashes <==> o in t.hashes) && (o in s.hashes ==> t.hashes[o] == s.hashes[o])
    && (o in s.status <==> o in t.status) && (o in s.status ==> t.status[o] == s.status[o])
    && s.started <= t.started
  }

  lemma StopTouchesOnly(s: State, e: Engine, st: Status, o: Engine)
    requires o != e
    ensures SameFor(s, Stopped(s, e), o)
    ensures SameFor(s, WithStatus(s, e, st), o)
    ensures SameFor(s, WithStatus(Stopped(s, e), e, st), o)
  {
  }

  lemma SpawnTouchesOnly(s: State, w: World, e: Engine, c: Config, st: Status, o: Engine)
    requires o != e
    ensures SameFor(s, Spawned(s, w, e, c), o)
    ensures SameFor(s, WithStatus(Spawned(s, w, e, c), e, st), o)
  {
  }

  lemma StartTouchesOnly(s: State, w: World, e: Engine, o: Engine, force: bool)
    requires o != e
    ensures SameFor(s, Start(s, w, e, force).0, o)
  {
    StartShape(s, w, e, force);
    hide Start, Listeners, Contended;
    var n := Spawned(Stopped(s, e), w, e, Listeners(w, e));
    var st := Start(s, w, e, force).0.status[e];
    StopTouchesOnly(s, e, st, o);
    SpawnTouchesOnly(Stopped(s, e), w, e, Listeners(w, e), st, o);
    assert SameFor(s, n, o);
  }

  /** A start ends in one of three ways: nothing replaced, stopped, or replaced. */
  lemma StartShape(s: State, w: World, e: Engine, force: bool)
    ensures var t := Start(s, w, e, force).0;
            && e in t.status
            && (|| t == WithStatus(s, e, t.status[e])
                || t == WithStatus(Stopped(s, e), e, t.status[e])
                || t == WithStatus(Spawned(Stopped(s, e), w, e, Listeners(w, e)), e, t.status[e]))
  {
    hide Listeners, Ids, Contended, Stopped, Spawned, StatusOf, Live, WithStatus;
    forall b: State, st: Status
      ensures e in WithStatus(b, e, st).status && WithStatus(b, e, st).status[e] == st
    {
      StatusIsSet(b, e, st);
    }
  }

  /** Nothing is to run: the engine is off, missing, or not asked for anything. */
  predicate Idle(w: World, e: Engine) {
    !w.coresEnabled || e !in w.installed || Listeners(w, e) == []
  }

  /** The live process already has the wanted config and nothing is forced. */
  predicate Current(s: State, w: World, e: Engine, force: bool) {
    Live(s, e) && e in s.hashes && s.hashes[e] == Listeners(w, e) && !force
  }

  /** An idle engine's process is ended. */
  predicate EndsIdle(s: State, w: World, e: Engine, t: State, r: Report) {
    && t.procs == s.procs - {e} && t.hashes == s.hashes && t.started == s.started && !r.running
    && e in t.status
    && t.status[e].error == (if w.coresEnabled then NoIssue else Disabled)
    && t.status[e].warning == if e in w.installed then NoIssue else NotInstalled
  }

  /** What is current or refused stays as it is. */
  predicate EndsKept(s: State, w: World, e: Engine, force: bool, t: State, r: Report) {
    && t.procs == s.procs && t.hashes == s.hashes && t.started == s.started && (r.running <==> Live(s, e))
    && e in t.status && r.profiles == t.status[e].profiles
    && (if Current(s, w, e, force) then t.status[e].error == NoIssue && t.status[e].profiles == Ids(Listeners(w, e))
        else t.status[e].error == Refused && t.status[e].profiles == StatusOf(s, e).profiles)
  }

  /** Anything else is replaced by a new process with the wanted config. */
  predicate EndsReplaced(s: State, w: World, e: Engine, t: State, r: Report) {
    var c := Listeners(w, e);
    && t.procs == s.procs[e := Proc(s.started, !w.crashes(e) && !Contended(Stopped(s, e), e, c), c)]
    && t.hashes == s.hashes[e := c] && t.started == s.started + 1
    && (r.running <==> Live(t, e)) && (r.running ==> r.profiles == Ids(c))
    && e in t.status
    && if r.running then t.status[e] == Status(Ids(c), NoIssue, NoIssue)
       else t.status[e].error == Exited && t.status[e].profiles == []
  }

  lemma StartIdle(s: State, w: World, e: Engine, force: bool)
    requires Idle(w, e)
    ensures var (t, r) := Start(s, w, e, force); EndsIdle(s, w, e, t, r)
  {
    hide Listeners, Ids, Live;
  }

  lemma StartKept(s: State, w: World, e: Engine, force: bool)
    requires !Idle(w, e) && (Current(s, w, e, force) || !w.accepts(e, Listeners(w, e)))
    ensures var (t, r) := Start(s, w, e, force); EndsKept(s, w, e, force, t, r)
  {
    hide Listeners, Ids, Live;
  }

  lemma StartReplaced(s: State, w: World, e: Engine, force: bool)
    requires !Idle(w, e) && !Current(s, w, e, force) && w.accepts(e, Listeners(w, e))
    ensures var (t, r) := Start(s, w, e, force); EndsReplaced(s, w, e, t, r)
  {
    hide Listeners, Ids, Contended;
  }

  /** How every start ends, for its own engine. */
  lemma StartEnds(s: State, w: World, e: Engine, force: bool)
    ensures var (t, r) := Start(s, w, e, force);
            if Idle(w, e) then EndsIdle(s, w, e, t, r)
            else if Current(s, w, e, force) || !w.accepts(e, Listeners(w, e)) then EndsKept(s, w, e, force, t, r)
            else EndsReplaced(s, w, e, t, r)
  {
    hide *;
    if Idle(w, e) {
      StartIdle(s, w, e, force);
    } else if Current(s, w, e, force) || !w.accepts(e, Listeners(w, e)) {
      StartKept(s, w, e, force);
    } else {
      StartReplaced(s, w, e, force);
    }
  }

  lemma StatusIsSet(s: State, e: Engine, st: Status)
    ensures e in WithStatus(s, e, st).status && WithStatus(s, e, st).status[e] == st
  {
  }

  lemma StartIsHonestFor(s: State, w: World, e: Engine, force: bool)
    requires HonestFor(s, e)
    ensures HonestFor(Start(s, w, e, force).0, e)
  {
    StartEnds(s, w, e, force);
    hide Start, Listeners, Ids, Contended;
  }

  lemma StartKeepsHonest(s: State, w: World, e: Engine, force: bool)
    requires Honest(s)
    ensures Honest(Start(s, w, e, force).0)
  {
    var t := Start(s, w, e, force).0;
    forall o: Engine
      ensures HonestFor(t, o)
    {
      assert HonestFor(s, o);
      if o == e {
        StartIsHonestFor(s, w, e, force);
      } else {
        StartTouchesOnly(s, w, e, o, force);
      }
    }
  }

  lemma TurnKeepsHonest(s: State, w: World, e: Engine, force: bool)
    requires Honest(s)
    ensures Honest(Turn(s, w, e, force))
  {
    StartKeepsHonest(s, w, e, force);
    var t := WithStatus(Stopped(s, e), e, StatusOf(s, e).(profiles := []));
    forall o: Engine
      ensures HonestFor(t, o)
    {
      assert HonestFor(s, o);
    }
  }

  lemma {:induction false} TurnsKeepHonest(s: State, w: World, k: nat, force: bool)
    requires Honest(s) && k <= |ENGINES|
    ensures Honest(Turns(s, w, k, force))
  {
    if k > 0 {
      TurnsKeepHonest(s, w, k - 1, force);
      TurnKeepsHonest(Turns(s, w, k - 1, force), w, ENGINES[k - 1], force);
    }
  }

  lemma RefreshKeepsHonest(s: State, w: World)
    requires Honest(s)
    ensures Honest(Refreshed(s, w))
  {
    forall o: Engine
      ensures HonestFor(Refreshed(s, w), o)
    {
      assert HonestFor(s, o);
    }
  }

  lemma LossKeepsHonest(s: State, e: Engine)
    requires Honest(s)
    ensures Honest(Stopped(s, e)) && Honest(Died(s, e))
  {
    forall o: Engine
      ensures HonestFor(Stopped(s, e), o) && HonestFor(Died(s, e), o)
    {
      assert HonestFor(s, o);
    }
  }

  lemma StepKeepsHonest(s: State, ev: Event)
    requires Honest(s)
    ensures Honest(Step(s, ev))
  {
    match ev
    case OnStart(w, e, force) => StartKeepsHonest(s, w, e, force);
    case OnStop(e) => LossKeepsHonest(s, e);
    case OnTurn(w, e, force) => TurnKeepsHonest(s, w, e, force);
    case OnRefresh(w) => RefreshKeepsHonest(s, w);
    case OnSync(w, force) =>
      TurnsKeepHonest(s, w, |ENGINES|, force);
      RefreshKeepsHonest(Turns(s, w, |ENGINES|, force), w);
    case OnDeath(e) => LossKeepsHonest(s, e);
  }

  lemma {:induction false} RunKeepsHonest(s: State, evs: seq<Event>)
    requires Honest(s)
    ensures Honest(Run(s, evs))
    decreases |evs|
  {
    if evs != [] {
      StepKeepsHonest(s, evs[0]);
      RunKeepsHonest(Step(s, evs[0]), evs[1..]);
    }
  }

  predicate Hosts(s: State, e: Engine, id: string) {
    Live(s, e) && exists i | 0 <= i < |s.procs[e].config| :: s.procs[e].config[i].id == id
  }

  lemma LiveProfilesAreHosted(s: State, id: string)
    requires Honest(s)
    ensures id in LiveProfiles(s, |ENGINES|) <==> Hosts(s, Singbox, id) || Hosts(s, Mihomo, id)
  {
    assert LiveProfiles(s, 2) == LiveProfiles(s, 1) + if Live(s, Mihomo) then set p | p in StatusOf(s, Mihomo).profiles else {};
    assert LiveProfiles(s, 1) == LiveProfiles(s, 0) + if Live(s, Singbox) then set p | p in StatusOf(s, Singbox).profiles else {};
    forall e | Live(s, e)
      ensures id in StatusOf(s, e).profiles <==> Hosts(s, e, id)
    {
      assert HonestFor(s, e);
      assert StatusOf(s, e).profiles == Ids(s.procs[e].config);
    }
  }

  /** Some entry of the catalog with this id can be reached from outside. */
  predicate HasReachable(w: World, id: string) {
    exists i: nat | i < |w.items| :: w.items[i].id == id && w.items[i].reachable
  }

  predicate HasEnabled(w: World, id: string) {
    exists i: nat | i < |w.items| :: w.items[i].id == id && w.items[i].enabled
  }

  lemma ReachableIs(w: World, id: string)
    ensures Reachable(w, id) <==> HasReachable(w, id)
  {
  }

  /** After every run from a fresh start, a refresh publishes exactly the reachable
      protocols in the config of some live process, and a subscription offers exactly
      those of them that are switched on. Before any refresh it offers whatever is
      switched on and reachable. */
  lemma PublishedIsServed(evs: seq<Event>, w: World, id: string)
    ensures var s := Run(FRESH, evs + [OnRefresh(w)]);
            && s.published.Some?
            && (id in s.published.value <==>
                HasReachable(w, id) && (Hosts(s, Singbox, id) || Hosts(s, Mihomo, id)))
            && (IsPublished(s, w, id) <==>
                HasEnabled(w, id) && HasReachable(w, id) && (Hosts(s, Singbox, id) || Hosts(s, Mihomo, id)))
    ensures IsPublished(FRESH, w, id) <==> HasEnabled(w, id) && HasReachable(w, id)
  {
    var before := Run(FRESH, evs);
    ReachableIs(w, id);
    RunSnoc(FRESH, evs, OnRefresh(w));
    RunKeepsHonest(FRESH, evs);
    LiveProfilesAreHosted(before, id);
    var after := Refreshed(before, w);
    assert forall e :: Hosts(after, e, id) <==> Hosts(before, e, id);
    hide Run, Reachable, Hosts, LiveProfiles;
  }

  lemma {:induction false} RunSnoc(s: State, evs: seq<Event>, ev: Event)
    ensures Run(s, evs + [ev]) == Step(Run(s, evs), ev)
    decreases |evs|
  {
    if evs == [] {
      assert ([] + [ev])[1..] == [];
      assert Run(Step(s, ev), []) == Step(s, ev);
    } else {
      assert (evs + [ev])[1..] == evs[1..] + [ev];
      RunSnoc(Step(s, evs[0]), evs[1..], ev);
    }
  }

  /** A start reports what is true: whether the engine runs now, and with what. */
  lemma StartReports(s: State, w: World, e: Engine, force: bool)
    requires HonestFor(s, e)
    ensures var (t, r) := Start(s, w, e, force);
            && (r.running <==> Live(t, e))
            && (r.running ==> r.profiles == Ids(t.procs[e].config))
            && (r.running && !Refuses(w, e) ==> t.procs[e].config == Listeners(w, e))
  {
    StartEnds(s, w, e, force);
    hide Start, Listeners, Contended, Ids;
  }

  /** No error means that the engine runs exactly what is wanted of it. */
  lemma NoErrorServes(s: State, w: World, e: Engine, force: bool)
    requires HonestFor(s, e) && e in w.installed
    requires Start(s, w, e, force).0.status[e].error == NoIssue
    ensures Serves(Start(s, w, e, force).0, w, e)
  {
    StartEnds(s, w, e, force);
    hide Start, Listeners, Contended, Ids;
  }

  /** And each error tells what stood in the way. */
  lemma ErrorTells(s: State, w: World, e: Engine, force: bool)
    requires HonestFor(s, e)
    ensures var t := Start(s, w, e, force).0;
            && (t.status[e].error == Disabled <==> !w.coresEnabled)
            && (t.status[e].error == Refused ==> Refuses(w, e))
            && (Refuses(w, e) && !Serves(s, w, e) ==> t.status[e].error == Refused)
            && (t.status[e].error == Exited ==> !Live(t, e) && !Refuses(w, e))
            && (e !in w.installed ==> t.status[e].warning == NotInstalled && e !in t.procs)
  {
    StartEnds(s, w, e, force);
    hide Start, Listeners, Contended, Ids;
  }

  /** A live process outlives a start exactly when its engine is still wanted and
      either nothing changed, or what changed is refused. */
  lemma KeptExactlyWhen(s: State, w: World, e: Engine, force: bool)
    requires HonestFor(s, e) && Live(s, e)
    ensures var t := Start(s, w, e, force).0;
            (e in t.procs && t.procs[e].pid == s.procs[e].pid)
            <==> w.coresEnabled && e in w.installed && Listeners(w, e) != []
                 && (Refuses(w, e) || s.procs[e].config == Listeners(w, e))
                 && (force ==> Refuses(w, e))
    ensures var t := Start(s, w, e, force).0;
            e in t.procs && t.procs[e].pid == s.procs[e].pid ==> t.procs == s.procs
  {
    StartEnds(s, w, e, force);
    hide Start, Listeners, Contended, Ids;
  }

  // ------------------------------------------------------------- a refused config

  lemma TurnTouchesOnly(s: State, w: World, e: Engine, o: Engine, force: bool)
    requires o != e
    ensures SameFor(s, Turn(s, w, e, force), o)
  {
    StartTouchesOnly(s, w, e, o, force);
  }

  lemma SyncIsTwoTurns(s: State, w: World, force: bool)
    ensures Turns(s, w, |ENGINES|, force) == Turn(Turn(s, w, Singbox, force), w, Mihomo, force)
  {
    assert Turns(s, w, 2, force) == Turn(Turns(s, w, 1, force), w, Mihomo, force);
    assert Turns(s, w, 1, force) == Turn(Turns(s, w, 0, force), w, Singbox, force);
  }

  /** Whether this engine's own check refuses what is wanted of it. */
  predicate Refuses(w: World, e: Engine) {
    && w.coresEnabled && e in w.installed
    && Listeners(w, e) != [] && !w.accepts(e, Listeners(w, e))
  }

  lemma {:induction false} ListenersMeansWanted(items: seq<Item>, e: Engine)
    requires ListenersIn(items, e) != []
    ensures exists i | 0 <= i < |items| :: items[i].enabled && items[i].engine == e
  {
    if items[0].enabled && items[0].engine == e {
    } else {
      ListenersMeansWanted(items[1..], e);
      var i :| 0 <= i < |items[1..]| && items[1..][i].enabled && items[1..][i].engine == e;
      assert items[i + 1] == items[1..][i];
    }
  }

  /** A refused config costs nothing: the engine's process, dead or alive, is neither
      stopped nor replaced by the whole sync, and what a live one hosts stays
      published while it is reachable. */
  lemma RefusedConfigKeepsListener(s: State, w: World, e: Engine, force: bool, id: string)
    requires Honest(s) && Refuses(w, e)
    requires e in s.procs
    ensures var t := Sync(s, w, force);
            && e in t.procs && t.procs[e] == s.procs[e]
            && (Hosts(s, e, id) && HasReachable(w, id) ==> id in t.published.value)
  {
    ListenersMeansWanted(w.items, e);
    assert Wanted(w, e);
    SyncIsTwoTurns(s, w, force);
    var mid := Turn(s, w, Singbox, force);
    var t := Turn(mid, w, Mihomo, force);
    TurnKeepsHonest(s, w, Singbox, force);
    TurnKeepsHonest(mid, w, Mihomo, force);
    TurnTouchesOnly(s, w, Singbox, Mihomo, force);
    TurnTouchesOnly(mid, w, Mihomo, Singbox, force);
    RefusedTurn(s, w, e, force);
    RefusedTurn(mid, w, e, force);
    LiveProfilesAreHosted(t, id);
    ReachableIs(w, id);
    assert Hosts(s, e, id) ==> Hosts(t, e, id);
  }

  lemma RefusedTurn(s: State, w: World, e: Engine, force: bool)
    requires Refuses(w, e) && Wanted(w, e)
    ensures Turn(s, w, e, force).procs == s.procs
  {
    StartEnds(s, w, e, force);
    hide Start, Listeners, Contended, Ids;
  }

  // ------------------------------------------------------------------- convergence

  /** Nothing stands in the way of what the admin asked for. */
  predicate Calm(w: World) {
    && w.coresEnabled
    && (forall e | Listeners(w, e) != [] ::
          e in w.installed && w.accepts(e, Listeners(w, e)) && !w.crashes(e))
    && DistinctPorts(w.items)
  }

  predicate DistinctPorts(items: seq<Item>) {
    forall i, j | 0 <= i < j < |items| && items[i].enabled && items[j].enabled ::
      items[i].needs != items[j].needs || items[i].port != items[j].port
  }

  /** The engine runs exactly the wanted config, or nothing when none is wanted. */
  predicate Serves(s: State, w: World, e: Engine) {
    if Listeners(w, e) == [] then e !in s.procs
    else
      && Live(s, e) && s.procs[e].config == Listeners(w, e)
      && e in s.status && s.status[e].profiles == Ids(Listeners(w, e))
  }

  /** The engine is right, or its process is gone: it holds no port it should not. */
  predicate HoldsOnlyWanted(s: State, w: World, e: Engine) {
    Live(s, e) ==> s.procs[e].config == Listeners(w, e)
  }

  function Other(e: Engine): Engine {
    if e == Singbox then Mihomo else Singbox
  }

  lemma {:induction false} ListenerComesFrom(items: seq<Item>, e: Engine, j: nat) returns (i: nat)
    requires j < |ListenersIn(items, e)|
    ensures i < |items| && items[i].enabled && items[i].engine == e
    ensures ListenersIn(items, e)[j] == Listener(items[i].id, items[i].needs, items[i].port, items[i].users)
  {
    var first := items[0].enabled && items[0].engine == e && items[0].users != [];
    if first && j == 0 {
      i := 0;
    } else {
      i := ListenerComesFrom(items[1..], e, if first then j - 1 else j);
      i := i + 1;
    }
  }

  lemma WantedConfigsShareNoPort(w: World, e: Engine)
    requires DistinctPorts(w.items)
    ensures !SharePort(Listeners(w, e), Listeners(w, Other(e)))
  {
    var a, b := Listeners(w, e), Listeners(w, Other(e));
    forall i, j | 0 <= i < |a| && 0 <= j < |b|
      ensures a[i].needs != b[j].needs || a[i].port != b[j].port
    {
      var x := ListenerComesFrom(w.items, e, i);
      var y := ListenerComesFrom(w.items, Other(e), j);
    }
  }

  /** The engine already runs what is wanted and nothing is forced, so it is left alone. */
  predicate Unchanged(s: State, w: World, e: Engine, force: bool) {
    !force && Live(s, e) && s.procs[e].config == Listeners(w, e)
  }

  /** The other engine's process holds a port that this one wants. */
  predicate HeldByOther(s: State, w: World, e: Engine) {
    Live(s, Other(e)) && SharePort(Listeners(w, e), s.procs[Other(e)].config)
  }

  lemma ContendedExactlyWhen(s: State, w: World, e: Engine)
    ensures Contended(Stopped(s, e), e, Listeners(w, e)) <==> HeldByOther(s, w, e)
  {
    hide Listeners, SharePort;
    assert Live(Stopped(s, e), Other(e)) <==> Live(s, Other(e));
  }

  /** An engine nothing is switched on for is ended; what its last start reported as error
      and warning stays to be seen. */
  lemma UnwantedTurn(s: State, w: World, e: Engine, force: bool)
    requires forall i | 0 <= i < |w.items| && w.items[i].enabled :: w.items[i].engine != e
    ensures Turn(s, w, e, force)
         == s.(procs := s.procs - {e}, status := s.status[e := StatusOf(s, e).(profiles := [])])
  {
    hide Start;
  }

  /** In the calm a turn starts what is wanted, and otherwise leaves nothing running. */
  lemma WantedTurn(s: State, w: World, e: Engine, force: bool)
    requires Calm(w)
    ensures Listeners(w, e) != [] ==> Turn(s, w, e, force) == Start(s, w, e, force).0 && !Idle(w, e)
    ensures Listeners(w, e) == [] ==> e !in Turn(s, w, e, force).procs
  {
    if Listeners(w, e) != [] {
      ListenersMeansWanted(w.items, e);
      assert Wanted(w, e);
    } else {
      StartEnds(s, w, e, force);
    }
    hide Start, Listeners, DistinctPorts, Ids;
  }

  /** A turn makes its engine serve exactly when nothing is wanted, nothing changes, or
      no port it wants is held by the other engine. */
  lemma TurnServesExactlyWhen(s: State, w: World, e: Engine, force: bool)
    requires Honest(s) && Calm(w)
    ensures Serves(Turn(s, w, e, force), w, e)
       <==> Listeners(w, e) == [] || Unchanged(s, w, e, force) || !HeldByOther(s, w, e)
  {
    assert HonestFor(s, e);
    ContendedExactlyWhen(s, w, e);
    WantedTurn(s, w, e, force);
    StartEnds(s, w, e, force);
    hide Turn, Start, Listeners, Wanted, Contended, HeldByOther, Ids, Honest, DistinctPorts;
  }

  /** A turn frees every port the engine should not hold; once the other engine does
      the same, the turn makes the engine serve. */
  lemma TurnServes(s: State, w: World, e: Engine, force: bool)
    requires Honest(s) && Calm(w)
    ensures var t := Turn(s, w, e, force);
            HoldsOnlyWanted(t, w, e) && (HoldsOnlyWanted(s, w, Other(e)) ==> Serves(t, w, e))
  {
    assert HonestFor(s, e);
    WantedConfigsShareNoPort(w, e);
    TurnServesExactlyWhen(s, w, e, force);
    WantedTurn(s, w, e, force);
    StartEnds(s, w, e, force);
    hide Turn, Start, Listeners, Contended, SharePort, Ids, DistinctPorts, Honest;
  }

  /** Two passes bring both engines to exactly the wanted configs, from any honest
      state: also when profiles moved between the engines or were swapped. */
  lemma TwoSyncsConverge(s: State, w: World, f1: bool, f2: bool)
    requires Honest(s) && Calm(w)
    ensures var t := Sync(Sync(s, w, f1), w, f2);
            && Honest(t) && Serves(t, w, Singbox) && Serves(t, w, Mihomo)
            && t.published == Some(PublishedIds(w))
  {
    var s1 := OnePass(s, w, f1);
    assert s1 == Sync(s, w, f1);
    var t := OnePass(s1, w, f2);
    forall id
      ensures id in t.published.value <==> id in PublishedIds(w)
    {
      var before := Turns(s1, w, |ENGINES|, f2);
      TurnsKeepHonest(s1, w, |ENGINES|, f2);
      LiveProfilesAreHosted(before, id);
      ReachableIs(w, id);
      assert forall e :: Hosts(before, e, id) <==> Hosts(t, e, id);
      ServedIds(t, w, id);
    }
    assert t.published.value == PublishedIds(w);
  }

  /** A pass leaves mihomo serving; sing-box serves too if mihomo held only its own ports. */
  lemma OnePass(s: State, w: World, force: bool) returns (t: State)
    requires Honest(s) && Calm(w)
    ensures t == Sync(s, w, force) && Honest(t)
    ensures HoldsOnlyWanted(t, w, Mihomo) && Serves(t, w, Mihomo)
    ensures HoldsOnlyWanted(s, w, Mihomo) ==> Serves(t, w, Singbox)
  {
    hide Turn, Start, Turns, Listeners, Honest, Ids, DistinctPorts;
    SyncIsTwoTurns(s, w, force);
    t := Sync(s, w, force);
    var mid := Turn(s, w, Singbox, force);
    TurnKeepsHonest(s, w, Singbox, force);
    TurnServes(s, w, Singbox, force);
    TurnServes(mid, w, Mihomo, force);
    TurnTouchesOnly(mid, w, Mihomo, Singbox, force);
    StepKeepsHonest(s, OnSync(w, force));
  }

  /** One pass brings the first engine to its wanted config exactly when nothing is
      wanted of it, it already runs that unforced, or the second engine's process holds
      none of the ports wanted. The second engine always gets there. */
  lemma OnePassExactlyWhen(s: State, w: World, force: bool)
    requires Honest(s) && Calm(w)
    ensures var t := Sync(s, w, force);
            && Serves(t, w, Mihomo)
            && (Serves(t, w, Singbox)
                <==> Listeners(w, Singbox) == [] || Unchanged(s, w, Singbox, force) || !HeldByOther(s, w, Singbox))
  {
    var t := OnePass(s, w, force);
    SyncIsTwoTurns(s, w, force);
    TurnServesExactlyWhen(s, w, Singbox, force);
    hide Listeners, Start, Turn;
    TurnTouchesOnly(Turn(s, w, Singbox, force), w, Mihomo, Singbox, force);
  }

  /** A protocol that ends up published: switched on, enrolled, with a certificate,
      and reachable under some entry of its id. */
  predicate Published(w: World, i: Item) {
    i.enabled && i.users != [] && w.material && HasReachable(w, i.id)
  }

  function PublishedIds(w: World): set<string> {
    set i | 0 <= i < |w.items| && Published(w, w.items[i]) :: w.items[i].id
  }

  lemma {:induction false} ItemIsListened(items: seq<Item>, i: nat)
    requires i < |items| && items[i].enabled && items[i].users != []
    ensures exists j | 0 <= j < |ListenersIn(items, items[i].engine)| ::
              ListenersIn(items, items[i].engine)[j].id == items[i].id
  {
    var e, tail := items[i].engine, items[1..];
    if i > 0 {
      ItemIsListened(tail, i - 1);
      var j :| 0 <= j < |ListenersIn(tail, e)| && ListenersIn(tail, e)[j].id == items[i].id;
      var k := |ListenersIn(items, e)| - |ListenersIn(tail, e)| + j;
      assert ListenersIn(items, e)[k] == ListenersIn(tail, e)[j];
    } else {
      assert ListenersIn(items, e)[0].id == items[0].id;
    }
  }

  lemma ServedIds(t: State, w: World, id: string)
    requires Serves(t, w, Singbox) && Serves(t, w, Mihomo)
    ensures (HasReachable(w, id) && (Hosts(t, Singbox, id) || Hosts(t, Mihomo, id)))
       <==> id in PublishedIds(w)
  {
    forall e | Hosts(t, e, id) && HasReachable(w, id)
      ensures exists i | 0 <= i < |w.items| :: Published(w, w.items[i]) && w.items[i].id == id
    {
      assert e == Singbox || e == Mihomo;
      assert Serves(t, w, e);
      assert w.material && t.procs[e].config == ListenersIn(w.items, e);
      var j :| 0 <= j < |t.procs[e].config| && t.procs[e].config[j].id == id;
      ListenedHasUsers(w.items, e, j);
    }
    forall i | 0 <= i < |w.items| && Published(w, w.items[i]) && w.items[i].id == id
      ensures Hosts(t, w.items[i].engine, id)
    {
      var e := w.items[i].engine;
      ItemIsListened(w.items, i);
      assert e == Singbox || e == Mihomo;
      assert Serves(t, w, e);
      assert t.procs[e].config == ListenersIn(w.items, e);
    }
    if id in PublishedIds(w) {
      var i :| 0 <= i < |w.items| && Published(w, w.items[i]) && w.items[i].id == id;
      assert Hosts(t, w.items[i].engine, id);
      assert w.items[i].engine == Singbox || w.items[i].engine == Mihomo;
    }
  }

  lemma {:induction false} ListenedHasUsers(items: seq<Item>, e: Engine, j: nat)
    requires j < |ListenersIn(items, e)|
    ensures exists i | 0 <= i < |items| ::
              items[i].enabled && items[i].users != [] && items[i].id == ListenersIn(items, e)[j].id
  {
    var first := items[0].enabled && items[0].engine == e && items[0].users != [];
    if !(first && j == 0) {
      var k := if first then j - 1 else j;
      ListenedHasUsers(items[1..], e, k);
      var i :| 0 <= i < |items[1..]| && items[1..][i].enabled && items[1..][i].users != []
               && items[1..][i].id == ListenersIn(items[1..], e)[k].id;
      assert items[i + 1] == items[1..][i];
    }
  }

  /** Once both engines serve, an unforced pass restarts nothing. */
  lemma ConvergedIsSteady(s: State, w: World)
    requires Honest(s) && Calm(w) && Serves(s, w, Singbox) && Serves(s, w, Mihomo)
    ensures Sync(s, w, false).procs == s.procs && Sync(s, w, false).hashes == s.hashes
  {
    SyncIsTwoTurns(s, w, false);
    SteadyTurn(s, w, Singbox);
    var mid := Turn(s, w, Singbox, false);
    TurnTouchesOnly(s, w, Singbox, Mihomo, false);
    TurnKeepsHonest(s, w, Singbox, false);
    SteadyTurn(mid, w, Mihomo);
  }

  lemma SteadyTurn(s: State, w: World, e: Engine)
    requires Honest(s) && Calm(w) && Serves(s, w, e)
    ensures Turn(s, w, e, false).procs == s.procs && Turn(s, w, e, false).hashes == s.hashes
  {
    assert HonestFor(s, e);
    if Listeners(w, e) != [] {
      ListenersMeansWanted(w.items, e);
      assert Wanted(w, e);
      assert Start(s, w, e, false).0.procs == s.procs;
    } else {
      assert s.procs - {e} == s.procs;
    }
  }

  /** The state in which mihomo alone runs, and runs this config. */
  function OnlyMihomo(c: Config): State {
    State(map[Mihomo := Proc(0, true, c)], map[Mihomo := c], map[Mihomo := Status(Ids(c), NoIssue, NoIssue)], None, 1)
  }

  lemma OnlyMihomoIsHonest(c: Config)
    ensures Honest(OnlyMihomo(c))
  {
  }

  /** One pass is not enough: a protocol moved from mihomo to sing-box finds its port
      still held when sing-box takes its turn. */
  lemma OnePassMayFail(w: World, i: Item)
    requires Calm(w) && w.material && w.items == [i]
    requires i.enabled && i.users != [] && i.engine == Singbox
    ensures var s := OnlyMihomo(Listeners(w, Singbox));
            Honest(s) && !Live(Sync(s, w, false), Singbox) && !Serves(Sync(s, w, false), w, Singbox)
  {
    hide Listeners, Wanted, Turn, Turns, Honest, DistinctPorts, Ids;
    var c := Listeners(w, Singbox);
    var s := OnlyMihomo(c);
    OnlyMihomoIsHonest(c);
    OneListener(w, i);
    HeldPort(s, w, c);
    SyncIsTwoTurns(s, w, false);
    TurnTouchesOnly(Turn(s, w, Singbox, false), w, Mihomo, Singbox, false);
  }

  lemma OneListener(w: World, i: Item)
    requires w.material && w.items == [i] && i.enabled && i.users != [] && i.engine == Singbox
    ensures Wanted(w, Singbox) && Listeners(w, Singbox) == [Listener(i.id, i.needs, i.port, i.users)]
  {
    assert w.items[1..] == [] && ListenersIn([], Singbox) == [];
    assert w.items[0].enabled && w.items[0].engine == Singbox;
  }

  /** The turn of an engine whose port another one holds leaves it dead. */
  lemma HeldPort(s: State, w: World, c: Config)
    requires Wanted(w, Singbox) && w.coresEnabled && Singbox in w.installed
    requires c != [] && Listeners(w, Singbox) == c && w.accepts(Singbox, c)
    requires s.procs.Keys == {Mihomo} && Live(s, Mihomo) && s.procs[Mihomo].config == c
    ensures !Live(Turn(s, w, Singbox, false), Singbox)
  {
    hide Listeners, Wanted, Ids;
    assert SharePort(c, c) by {
      assert c[0].needs == c[0].needs && c[0].port == c[0].port;
    }
    assert Live(Stopped(s, Singbox), Mihomo);
    assert Contended(Stopped(s, Singbox), Singbox, c);
    StartEnds(s, w, Singbox, false);
    hide Start, Contended, SharePort;
  }
}
