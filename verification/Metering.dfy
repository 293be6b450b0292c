/** Traffic metering of app/xray.py: a polled counter that starts over when the engine
    does, and what the polls charge for it. */
module Metering {
  import opened Text
  import Accounts

  /** One user's counter: what the engine shows, what the last poll stored, what was
      charged, and what was really carried. */
  datatype Meter = Meter(counter: nat, stored: Option<nat>, charged: nat, carried: nat)

  datatype Event =
    | Carry(bytes: nat)
    | Restart
    | Poll              // the poll found this user in the engine's statistics
    | Missed            // the engine was down, or did not report this user

  /** What one poll charges. */
  function Delta(stored: Option<nat>, total: nat): nat {
    var previous := if stored.Some? then stored.value else total;
    if total < previous then 0 else total - previous
  }

  function Step(m: Meter, ev: Event): Meter {
    match ev
    case Carry(bytes) => m.(counter := m.counter + bytes, carried := m.carried + bytes)
    case Restart => m.(counter := 0)
    case Poll => m.(stored := Some(m.counter), charged := m.charged + Delta(m.stored, m.counter))
    case Missed => m
  }

  function Run(m: Meter, evs: seq<Event>): Meter
    decreases |evs|
  {
    if evs == [] then m else Run(Step(m, evs[0]), evs[1..])
  }

  const FRESH := Meter(0, None, 0, 0)

  // ------------------------------------------------------------------ the poll itself

  datatype Totals = Totals(uplink: Option<nat>, downlink: Option<nat>)

  function Total(t: Totals): nat {
    (if t.uplink.Some? then t.uplink.value else 0) + (if t.downlink.Some? then t.downlink.value else 0)
  }

  function Lookup(stored: map<string, nat>, name: string): Option<nat> {
    if name in stored then Some(stored[name]) else None
  }

  /** A poll's effect on one user's row and stored total. */
  predicate PollsRow(u: Accounts.User, last: Option<nat>, totals: map<string, Totals>, n: string,
                     u': Accounts.User, last': Option<nat>)
  {
    if u.active && n in totals then
      last' == Some(Total(totals[n])) && u' == Accounts.Charged(u, Delta(last, Total(totals[n])))
    else
      u' == u && last' == last
  }

  class Poller {
    var users: map<string, Accounts.User>
    var stored: map<string, nat>

    constructor (users: map<string, Accounts.User>)
      ensures this.users == users && stored == map[]
    {
      this.users := users;
      stored := map[];
    }

    /** One pass over the users that are switched on and reported. */
    method SyncTrafficStats(totals: map<string, Totals>)
      modifies this
      ensures users.Keys == old(users).Keys
      ensures forall n | n in users ::
                PollsRow(old(users)[n], Lookup(old(stored), n), totals, n, users[n], Lookup(stored, n))
    {
      var todo := set n | n in users && users[n].active;
      var rows := users;
      while todo != {}
        invariant users.Keys == rows.Keys && todo <= rows.Keys
        invariant forall n | n in todo :: rows[n].active
        invariant forall n | n in rows && n in todo ::
                    users[n] == rows[n] && Lookup(stored, n) == Lookup(old(stored), n)
        invariant forall n | n in rows && n !in todo ::
                    PollsRow(rows[n], Lookup(old(stored), n), totals, n, users[n], Lookup(stored, n))
        decreases todo
      {
        var n :| n in todo;
        todo := todo - {n};
        if n !in totals {
          continue;
        }
        ChargeRow(n, Total(totals[n]));
      }
    }

    method ChargeRow(n: string, total: nat)
      requires n in users && users[n].active
      modifies this
      ensures stored == old(stored)[n := total]
      ensures users == old(users)[n := Accounts.Charged(old(users)[n], Delta(Lookup(old(stored), n), total))]
    {
      var last := if n in stored then stored[n] else total;
      if total < last {
        last := total;
      }
      var delta := total - last;
      stored := stored[n := total];
      var u := users[n];
      if delta > 0 {
        users := users[n := u.(used := u.used + delta, lifetime := u.lifetime + delta)];
        if u.limit.Some? && u.used + delta >= u.limit.value {
          users := users[n := users[n].(active := false)];
        }
      } else {
        assert users[n := u] == users;
      }
    }
  }

  // -------------------------------------------------------------- never over-charged

  /** What the next poll would charge if nothing happened before it. */
  function Pending(m: Meter): nat {
    if m.stored.Some? then Delta(m.stored, m.counter) else 0
  }

  predicate Fair(m: Meter) {
    m.charged + Pending(m) <= m.carried && (m.stored.None? ==> m.charged == 0)
  }

  lemma {:induction false} NeverOverCharged(m: Meter, evs: seq<Event>)
    requires Fair(m)
    ensures Fair(Run(m, evs)) && Run(m, evs).charged <= Run(m, evs).carried
    decreases |evs|
  {
    if evs != [] {
      NeverOverCharged(Step(m, evs[0]), evs[1..]);
    }
  }

  // ------------------------------------------------------------------- the exact loss

  predicate Unpolled(evs: seq<Event>) {
    forall i | 0 <= i < |evs| :: !evs[i].Poll?
  }

  function Bytes(evs: seq<Event>): nat {
    if evs == [] then 0 else (if evs[0].Carry? then evs[0].bytes else 0) + Bytes(evs[1..])
  }

  predicate Restarted(evs: seq<Event>) {
    exists i | 0 <= i < |evs| :: evs[i].Restart?
  }

  /** The bytes carried after the last restart, or all of them. */
  function SinceRestart(evs: seq<Event>): nat {
    if evs == [] then 0
    else if evs[0].Carry? && !Restarted(evs[1..]) then evs[0].bytes + SinceRestart(evs[1..])
    else SinceRestart(evs[1..])
  }

  /** What the poll after `evs` fails to charge, given the total the poll before stored:
      nothing without a restart; otherwise what was pending when the engine last
      stopped, and what the new process carried below the stored total. */
  function Loss(stored: nat, evs: seq<Event>): int {
    if !Restarted(evs) then 0
    else (Bytes(evs) - SinceRestart(evs)) + Min(stored, SinceRestart(evs))
  }

  function CounterAfter(counter: nat, evs: seq<Event>): nat {
    if Restarted(evs) then SinceRestart(evs) else counter + Bytes(evs)
  }

  lemma {:induction false} UnpolledRun(m: Meter, evs: seq<Event>)
    requires Unpolled(evs)
    ensures var r := Run(m, evs);
            && r.counter == CounterAfter(m.counter, evs) && r.carried == m.carried + Bytes(evs)
            && r.stored == m.stored && r.charged == m.charged
    ensures !Restarted(evs) ==> SinceRestart(evs) == Bytes(evs)
    decreases |evs|
  {
    if evs != [] {
      var tail := evs[1..];
      UnpolledRun(Step(m, evs[0]), tail);
      RestartedSplit(evs);
    }
  }

  lemma RestartedSplit(evs: seq<Event>)
    requires evs != []
    ensures Restarted(evs) <==> evs[0].Restart? || Restarted(evs[1..])
  {
    assert forall i | 0 < i < |evs| :: evs[i] == evs[1..][i - 1];
  }

  /** Between two polls: exactly `Loss` is carried and never charged. */
  lemma LossBetweenPolls(m: Meter, evs: seq<Event>)
    requires m.stored == Some(m.counter) && Unpolled(evs)
    ensures var p := Step(Run(m, evs), Poll);
            && (p.carried - m.carried) - (p.charged - m.charged) == Loss(m.counter, evs)
            && p.stored == Some(p.counter) && p.counter == CounterAfter(m.counter, evs)
  {
    UnpolledRun(m, evs);
  }

  /** A run cut at its polls: each segment ends with one. */
  function Polled(segments: seq<seq<Event>>): seq<Event> {
    if segments == [] then [] else segments[0] + [Poll] + Polled(segments[1..])
  }

  function TotalLoss(counter: nat, segments: seq<seq<Event>>): int
    decreases |segments|
  {
    if segments == [] then 0
    else Loss(counter, segments[0]) + TotalLoss(CounterAfter(counter, segments[0]), segments[1..])
  }

  lemma {:induction false} RunConcat(m: Meter, a: seq<Event>, b: seq<Event>)
    ensures Run(m, a + b) == Run(Run(m, a), b)
    decreases |a|
  {
    if a == [] {
      assert a + b == b;
    } else {
      assert (a + b)[1..] == a[1..] + b;
      RunConcat(Step(m, a[0]), a[1..], b);
    }
  }

  /** Over a whole run what is never charged is the traffic before the first poll and
      the loss of each later interval; without restarts, the former alone. */
  lemma {:induction false} ChargesAreExact(first: seq<Event>, segments: seq<seq<Event>>)
    requires Unpolled(first)
    requires forall i | 0 <= i < |segments| :: Unpolled(segments[i])
    ensures var r := Run(FRESH, first + [Poll] + Polled(segments));
            r.carried - r.charged == Bytes(first) + TotalLoss(CounterAfter(0, first), segments)
  {
    var start := first + [Poll];
    RunConcat(FRESH, start, Polled(segments));
    RunConcat(FRESH, first, [Poll]);
    UnpolledRun(FRESH, first);
    var m := Run(FRESH, start);
    assert m == Step(Run(FRESH, first), Poll);
    SegmentsAreExact(m, segments);
  }

  lemma {:induction false} SegmentsAreExact(m: Meter, segments: seq<seq<Event>>)
    requires m.stored == Some(m.counter)
    requires forall i | 0 <= i < |segments| :: Unpolled(segments[i])
    ensures var r := Run(m, Polled(segments));
            (r.carried - m.carried) - (r.charged - m.charged) == TotalLoss(m.counter, segments)
    decreases |segments|
  {
    if segments != [] {
      var seg, tail := segments[0], segments[1..];
      LossBetweenPolls(m, seg);
      RunConcat(m, seg + [Poll], Polled(tail));
      RunConcat(m, seg, [Poll]);
      var p := Step(Run(m, seg), Poll);
      assert Run(Run(m, seg), [Poll]) == p by {
        assert [Poll][1..] == [];
      }
      SegmentsAreExact(p, tail);
    }
  }

  lemma {:induction false} NoRestartNoLoss(counter: nat, segments: seq<seq<Event>>)
    requires forall i | 0 <= i < |segments| :: !Restarted(segments[i])
    ensures TotalLoss(counter, segments) == 0
    decreases |segments|
  {
    if segments != [] {
      NoRestartNoLoss(CounterAfter(counter, segments[0]), segments[1..]);
    }
  }

  // ----------------------------------------------------------------- the account

  /** A user's account and meter, and the engine's two counters for the user. */
  datatype Metered = Metered(user: Accounts.User, meter: Meter, up: nat, down: nat)

  /** Everything that can happen to them: traffic in either direction and restarts of the
      engine, a pass over the statistics with what they report of the user, and what
      the panel does to the account. */
  datatype Happening =
    | OnUp(bytes: nat)
    | OnDown(bytes: nat)
    | OnRestart
    | OnPass(report: Option<Totals>)
    | OnAccount(ev: Accounts.Event)

  /** A report is true of the counters; a direction without traffic may be left out. */
  predicate Tells(t: Totals, up: nat, down: nat) {
    && (if t.uplink.Some? then t.uplink.value == up else up == 0)
    && (if t.downlink.Some? then t.downlink.value == down else down == 0)
  }

  function Happen(s: Metered, h: Happening): Metered {
    match h
    case OnUp(bytes) => s.(meter := Step(s.meter, Carry(bytes)), up := s.up + bytes)
    case OnDown(bytes) => s.(meter := Step(s.meter, Carry(bytes)), down := s.down + bytes)
    case OnRestart => s.(meter := Step(s.meter, Restart), up := 0, down := 0)
    case OnPass(report) =>
      if s.user.active && report.Some? then
        var total := Total(report.value);
        s.(user := Accounts.Charged(s.user, Delta(s.meter.stored, total)),
           meter := s.meter.(stored := Some(total), charged := s.meter.charged + Delta(s.meter.stored, total)))
      else s
    case OnAccount(ev) => if ev.OnPoll? then s else s.(user := Accounts.Step(s.user, ev))
  }

  function HappenAll(s: Metered, hs: seq<Happening>): Metered
    decreases |hs|
  {
    if hs == [] then s else HappenAll(Happen(s, hs[0]), hs[1..])
  }

  /** Every report of a run is true when it is made. */
  predicate AllTrue(s: Metered, hs: seq<Happening>)
    decreases |hs|
  {
    hs != [] ==>
    && (hs[0].OnPass? && hs[0].report.Some? ==> Tells(hs[0].report.value, s.up, s.down))
    && AllTrue(Happen(s, hs[0]), hs[1..])
  }

  /** One user's share of a pass is exactly that step. */
  lemma PassIsAStep(s: Metered, totals: map<string, Totals>, n: string, u': Accounts.User, last': Option<nat>)
    requires PollsRow(s.user, s.meter.stored, totals, n, u', last')
    ensures var t := Happen(s, OnPass(if n in totals then Some(totals[n]) else None));
            t.user == u' && t.meter.stored == last' && t.up == s.up && t.down == s.down
  {
  }

  /** A pass charges the growth of both counters together, an absent one counting as
      nothing, and remembers their sum. */
  lemma PassCharges(s: Metered, report: Totals)
    requires s.user.active && s.meter.stored.Some? && Tells(report, s.up, s.down)
    ensures var t := Happen(s, OnPass(Some(report)));
            && t.meter.stored == Some(s.up + s.down)
            && t.user.lifetime - s.user.lifetime == Max(0, s.up + s.down - s.meter.stored.value)
            && t.user.used - s.user.used == t.user.lifetime - s.user.lifetime
  {
  }

  /** What the account's own events added to its lifetime volume. */
  function TrackedVolume(s: Metered, hs: seq<Happening>): nat
    decreases |hs|
  {
    if hs == [] then 0
    else
      (if hs[0].OnAccount? && hs[0].ev.OnTrack? && s.user.active then hs[0].ev.bytes else 0)
      + TrackedVolume(Happen(s, hs[0]), hs[1..])
  }

  /** The meter's side of a run. */
  function MeterEvents(s: Metered, hs: seq<Happening>): seq<Event>
    decreases |hs|
  {
    if hs == [] then [] else MeterEvent(s, hs[0]) + MeterEvents(Happen(s, hs[0]), hs[1..])
  }

  function MeterEvent(s: Metered, h: Happening): seq<Event> {
    match h
    case OnUp(bytes) => [Carry(bytes)]
    case OnDown(bytes) => [Carry(bytes)]
    case OnRestart => [Restart]
    case OnPass(report) => [if s.user.active && report.Some? then Poll else Missed]
    case OnAccount(_) => []
  }

  /** With true reports the meter counts both directions, through every run. */
  lemma {:induction false} MeterRuns(s: Metered, hs: seq<Happening>)
    requires AllTrue(s, hs) && s.meter.counter == s.up + s.down
    ensures var t := HappenAll(s, hs);
            t.meter == Run(s.meter, MeterEvents(s, hs)) && t.meter.counter == t.up + t.down
    decreases |hs|
  {
    if hs != [] {
      var next := Happen(s, hs[0]);
      MeterStep(s, hs[0]);
      MeterRuns(next, hs[1..]);
      RunConcat(s.meter, MeterEvent(s, hs[0]), MeterEvents(next, hs[1..]));
      hide Happen, MeterEvent, Step;
    }
  }

  lemma MeterStep(s: Metered, h: Happening)
    requires s.meter.counter == s.up + s.down
    requires h.OnPass? && h.report.Some? ==> Tells(h.report.value, s.up, s.down)
    ensures var t := Happen(s, h); t.meter == Run(s.meter, MeterEvent(s, h)) && t.meter.counter == t.up + t.down
  {
    var evs := MeterEvent(s, h);
    assert evs != [] ==> evs[1..] == [];
  }

  /** Over every run the lifetime volume of an account grows by exactly what was tracked
      and what its counter's polls charged. */
  lemma {:induction false} LifetimeIsCharged(s: Metered, hs: seq<Happening>)
    ensures var t := HappenAll(s, hs);
            && t.user.lifetime - s.user.lifetime == TrackedVolume(s, hs) + (t.meter.charged - s.meter.charged)
    decreases |hs|
  {
    if hs != [] {
      LifetimeIsCharged(Happen(s, hs[0]), hs[1..]);
    }
  }

  /** So no account is ever charged for more than was tracked and carried for it. */
  lemma AccountNeverOverCharged(u: Accounts.User, hs: seq<Happening>)
    requires AllTrue(Metered(u, FRESH, 0, 0), hs)
    ensures var s := Metered(u, FRESH, 0, 0);
            var t := HappenAll(s, hs);
            t.user.lifetime - u.lifetime <= TrackedVolume(s, hs) + UpBytes(hs) + DownBytes(hs)
  {
    var s := Metered(u, FRESH, 0, 0);
    LifetimeIsCharged(s, hs);
    MeterRuns(s, hs);
    NeverOverCharged(FRESH, MeterEvents(s, hs));
    AllCarried(s, hs);
  }

  function UpBytes(hs: seq<Happening>): nat {
    if hs == [] then 0 else (if hs[0].OnUp? then hs[0].bytes else 0) + UpBytes(hs[1..])
  }

  function DownBytes(hs: seq<Happening>): nat {
    if hs == [] then 0 else (if hs[0].OnDown? then hs[0].bytes else 0) + DownBytes(hs[1..])
  }

  lemma {:induction false} AllCarried(s: Metered, hs: seq<Happening>)
    ensures HappenAll(s, hs).meter.carried == s.meter.carried + UpBytes(hs) + DownBytes(hs)
    decreases |hs|
  {
    if hs != [] {
      AllCarried(Happen(s, hs[0]), hs[1..]);
    }
  }

  predicate Unbroken(hs: seq<Happening>) {
    forall i | 0 <= i < |hs| :: !hs[i].OnRestart?
  }

  /** Without a restart after the first reporting poll, the account is charged for every
      byte of either direction, but for what the next poll will charge. */
  lemma {:induction false} BothDirectionsAreCharged(s: Metered, hs: seq<Happening>)
    requires AllTrue(s, hs) && Unbroken(hs)
    requires s.meter.stored.Some? && s.meter.stored.value <= s.up + s.down
    ensures var t := HappenAll(s, hs);
            && t.meter.stored.Some? && t.meter.stored.value <= t.up + t.down
            && (t.user.lifetime - s.user.lifetime) + (t.up + t.down - t.meter.stored.value)
               == TrackedVolume(s, hs) + UpBytes(hs) + DownBytes(hs) + (s.up + s.down - s.meter.stored.value)
    decreases |hs|
  {
    if hs != [] {
      assert forall i | 0 <= i < |hs[1..]| :: hs[1..][i] == hs[i + 1];
      BothDirectionsAreCharged(Happen(s, hs[0]), hs[1..]);
    }
  }
}
