/** User accounts: tracking, resets, the on/off switch and the admission decision of
    app/users/service.py, and the charge of app/xray.py's poll. Volume is in bytes. */
module Accounts {
  import opened Text

  /** Seconds since the epoch. */
  type Clock = t: int | 0 < t witness 1

  datatype User = User(
    active: bool,
    startOnFirst: bool,
    first: Option<int>,          // first connection time
    expiryDays: Option<nat>,
    expiresAt: Option<int>,
    limit: Option<nat>,
    used: nat,
    lifetime: nat,
    limitReq: Option<nat>,
    usedReq: nat)

  datatype Verdict = Ok | Denied(reason: string)

  /** Python's truth of an optional number. */
  predicate Truthy(n: Option<int>) {
    n.Some? && n.value != 0
  }

  predicate Waiting(u: User) {
    u.startOnFirst && !Truthy(u.first)
  }

  function Allowed(u: Option<User>, now: Clock): Verdict {
    if u.None? || !u.value.active then Denied("disabled")
    else
      var u := u.value;
      if Waiting(u) then Ok
      else if Truthy(u.expiresAt) && now >= u.expiresAt.value then Denied("expired")
      else if u.limit.Some? && u.used >= u.limit.value then Denied("quota")
      else if u.limitReq.Some? && u.usedReq >= u.limitReq.value then Denied("requests")
      else Ok
  }

  /** Out of what an account has run: its time, its volume or its requests. */
  predicate OutOfTime(u: User, now: Clock) {
    u.expiresAt.Some? && u.expiresAt.value != 0 && now >= u.expiresAt.value
  }

  predicate OutOfVolume(u: User) {
    u.limit.Some? && u.used >= u.limit.value
  }

  predicate OutOfRequests(u: User) {
    u.limitReq.Some? && u.usedReq >= u.limitReq.value
  }

  /** Whom the decision admits, and what it tells the others: a missing account is as
      good as one switched off, one that waits for its first connection is let in, and
      of several reasons the first is named. */
  lemma AllowedExactlyWhen(user: Option<User>, now: Clock)
    ensures Allowed(None, now) == Denied("disabled")
    ensures user.Some? ==>
              var u, v := user.value, Allowed(user, now);
              var waits := u.startOnFirst && (u.first.None? || u.first.value == 0);
              && (v == Denied("disabled") <==> !u.active)
              && (v == Denied("expired") <==> u.active && !waits && OutOfTime(u, now))
              && (v == Denied("quota") <==> u.active && !waits && !OutOfTime(u, now) && OutOfVolume(u))
              && (v == Denied("requests") <==>
                    u.active && !waits && !OutOfTime(u, now) && !OutOfVolume(u) && OutOfRequests(u))
              && (v == Ok <==>
                    u.active && (waits || (!OutOfTime(u, now) && !OutOfVolume(u) && !OutOfRequests(u))))
  {
    assert "disabled" != "expired" && "disabled" != "quota" && "disabled" != "requests";
    assert "expired" != "quota" && "expired" != "requests" && "quota" != "requests";
  }

  /** The first tracked connection fixes the expiry of an account that waits for it. */
  function Connected(u: User, now: Clock): User {
    if !Waiting(u) then u
    else
      u.(first := Some(now),
         expiresAt := if u.expiryDays.Some? && u.expiryDays.value != 0
                      then Some(now + u.expiryDays.value * 86400) else None)
  }

  function Tracked(u: User, now: Clock, bytes: nat, requests: nat): User {
    if !u.active then u
    else
      var c := Connected(u, now);
      c.(used := c.used + bytes, lifetime := c.lifetime + bytes, usedReq := c.usedReq + requests)
  }

  /** The charge of one poll; it switches the account off when the quota is reached. */
  function Charged(u: User, delta: nat): User {
    if !u.active || delta == 0 then u
    else
      u.(used := u.used + delta, lifetime := u.lifetime + delta,
         active := !(u.limit.Some? && u.used + delta >= u.limit.value))
  }

  function VolumeReset(u: User): User {
    u.(used := 0)
  }

  function RequestsReset(u: User): User {
    u.(usedReq := 0)
  }

  function Toggled(u: User): User {
    u.(active := !u.active)
  }

  /** One entry of the traffic log. */
  datatype Traffic = Traffic(user: string, bytes: nat, requests: nat, ip: Option<string>, at: Clock)

  class Registry {
    var users: map<string, User>
    var log: seq<Traffic>

    constructor ()
      ensures users == map[] && log == []
    {
      users, log := map[], [];
    }

    method Track(name: string, now: Clock, bytes: nat, requests: nat, ip: Option<string>) returns (row: Option<User>)
      modifies this
      ensures log == if name in old(users) && old(users)[name].active
                     then old(log) + [Traffic(name, bytes, requests, ip, now)] else old(log)
      ensures users == if name in old(users)
                       then old(users)[name := Tracked(old(users)[name], now, bytes, requests)] else old(users)
      ensures row == if name in users then Some(users[name]) else None
    {
      if name !in users {
        return None;
      }
      var u := users[name];
      if !u.active {
        assert users[name := u] == users;
        return Some(u);
      }
      if u.startOnFirst && !Truthy(u.first) {
        var expires := if u.expiryDays.Some? && u.expiryDays.value != 0
                       then Some(now + u.expiryDays.value * 86400) else None;
        users := users[name := u.(first := Some(now), expiresAt := expires)];
      }
      var c := users[name];
      users := users[name := c.(used := c.used + bytes, lifetime := c.lifetime + bytes,
                                usedReq := c.usedReq + requests)];
      log := log + [Traffic(name, bytes, requests, ip, now)];
      return Some(users[name]);
    }

    /** An unknown kind is refused. */
    method ResetUser(name: string, kind: string) returns (ok: bool)
      modifies this`users
      ensures ok <==> kind == "volume" || kind == "req"
      ensures users == if name !in old(users) || !ok then old(users)
                       else if kind == "volume" then old(users)[name := VolumeReset(old(users)[name])]
                       else old(users)[name := RequestsReset(old(users)[name])]
    {
      ok := kind == "volume" || kind == "req";
      if ok && name in users {
        var u := users[name];
        users := users[name := if kind == "volume" then u.(used := 0) else u.(usedReq := 0)];
      }
    }

    method ToggleUser(name: string)
      modifies this`users
      ensures users == if name in old(users) then old(users)[name := Toggled(old(users)[name])] else old(users)
    {
      if name in users {
        users := users[name := users[name].(active := !users[name].active)];
      }
    }
  }

  // ------------------------------------------------------------------------ every run

  datatype Event =
    | OnTrack(now: Clock, bytes: nat, requests: nat)
    | OnPoll(delta: nat)
    | OnVolumeReset
    | OnRequestsReset
    | OnToggle

  function Step(u: User, ev: Event): User {
    match ev
    case OnTrack(now, bytes, requests) => Tracked(u, now, bytes, requests)
    case OnPoll(delta) => Charged(u, delta)
    case OnVolumeReset => VolumeReset(u)
    case OnRequestsReset => RequestsReset(u)
    case OnToggle => Toggled(u)
  }

  function Run(u: User, evs: seq<Event>): User
    decreases |evs|
  {
    if evs == [] then u else Run(Step(u, evs[0]), evs[1..])
  }

  /** What the resets of a run wiped from the current volume. */
  function Wiped(u: User, evs: seq<Event>): nat
    decreases |evs|
  {
    if evs == [] then 0
    else (if evs[0].OnVolumeReset? then u.used else 0) + Wiped(Step(u, evs[0]), evs[1..])
  }

  /** The volume reported in a run while the account was switched on. */
  function Reported(u: User, evs: seq<Event>): nat
    decreases |evs|
  {
    if evs == [] then 0
    else ReportedIn(u, evs[0]) + Reported(Step(u, evs[0]), evs[1..])
  }

  function ReportedIn(u: User, ev: Event): nat {
    if !u.active then 0 else if ev.OnTrack? then ev.bytes else if ev.OnPoll? then ev.delta else 0
  }

  /** What the resets of a run wiped from the current request count. */
  function WipedRequests(u: User, evs: seq<Event>): nat
    decreases |evs|
  {
    if evs == [] then 0
    else (if evs[0].OnRequestsReset? then u.usedReq else 0) + WipedRequests(Step(u, evs[0]), evs[1..])
  }

  /** The requests tracked in a run while the account was switched on. */
  function ReportedRequests(u: User, evs: seq<Event>): nat
    decreases |evs|
  {
    if evs == [] then 0
    else RequestsIn(u, evs[0]) + ReportedRequests(Step(u, evs[0]), evs[1..])
  }

  function RequestsIn(u: User, ev: Event): nat {
    if u.active && ev.OnTrack? then ev.requests else 0
  }

  /** Lifetime usage is current usage plus everything reset; it grows by exactly what
      was reported, so it never falls. No request is lost either. */
  lemma {:induction false} Conservation(u: User, evs: seq<Event>)
    ensures var v := Run(u, evs);
            && v.lifetime - u.lifetime == (v.used - u.used) + Wiped(u, evs)
            && v.lifetime - u.lifetime == Reported(u, evs)
            && (v.usedReq - u.usedReq) + WipedRequests(u, evs) == ReportedRequests(u, evs)
    decreases |evs|
  {
    if evs != [] {
      StepConserves(u, evs[0]);
      Conservation(Step(u, evs[0]), evs[1..]);
      hide Step;
    }
  }

  /** What one event adds to the account, before any reset in it. */
  lemma StepConserves(u: User, ev: Event)
    ensures var v := Step(u, ev);
            && v.lifetime - u.lifetime == ReportedIn(u, ev)
            && v.used + (if ev.OnVolumeReset? then u.used else 0) == u.used + ReportedIn(u, ev)
            && v.usedReq + (if ev.OnRequestsReset? then u.usedReq else 0) == u.usedReq + RequestsIn(u, ev)
  {
  }

  predicate Ordinary(evs: seq<Event>) {
    forall i | 0 <= i < |evs| :: evs[i].OnTrack? || evs[i].OnPoll?
  }

  lemma DenialSurvivesStep(u: User, ev: Event, now: Clock)
    requires Allowed(Some(u), now).Denied? && (ev.OnTrack? || ev.OnPoll?)
    ensures Allowed(Some(Step(u, ev)), now).Denied?
  {
  }

  /** Once denied, an account is denied whatever is tracked, polled or waited for. */
  lemma {:induction false} DenialIsStable(u: User, evs: seq<Event>, now: Clock, later: Clock)
    requires Allowed(Some(u), now).Denied? && Ordinary(evs) && now <= later
    ensures Allowed(Some(Run(u, evs)), later).Denied?
    decreases |evs|
  {
    if evs == [] {
      assert Truthy(u.expiresAt) && now >= u.expiresAt.value ==> later >= u.expiresAt.value;
    } else {
      DenialSurvivesStep(u, evs[0], now);
      DenialIsStable(Step(u, evs[0]), evs[1..], now, later);
    }
  }

  predicate Expired(u: User, now: Clock) {
    Truthy(u.expiresAt) && now >= u.expiresAt.value
  }

  /** A connected account is admitted after a run of tracking and polling exactly when
      it is not expired and everything reported in the run still fits its quotas,
      whichever of the two reported it. */
  lemma {:induction false} AdmissionIsExact(u: User, evs: seq<Event>, now: Clock)
    requires u.active && !Waiting(u) && Ordinary(evs)
    ensures Allowed(Some(Run(u, evs)), now) == Ok
       <==> && !Expired(u, now)
            && (u.limit.Some? ==> u.used + Reported(u, evs) < u.limit.value)
            && (u.limitReq.Some? ==> u.usedReq + ReportedRequests(u, evs) < u.limitReq.value)
    decreases |evs|
  {
    if evs != [] {
      var next := Step(u, evs[0]);
      assert forall i | 0 <= i < |evs[1..]| :: evs[1..][i] == evs[i + 1];
      if next.active {
        AdmissionIsExact(next, evs[1..], now);
      } else {
        DenialIsStable(next, evs[1..], now, now);
      }
    }
  }

  /** The first connection and the expiry it fixes are never moved again, resets and
      switches included. */
  lemma {:induction false} FirstConnectionIsFinal(u: User, evs: seq<Event>)
    requires !Waiting(u)
    ensures var v := Run(u, evs); !Waiting(v) && v.first == u.first && v.expiresAt == u.expiresAt
    decreases |evs|
  {
    if evs != [] {
      FirstConnectionIsFinal(Step(u, evs[0]), evs[1..]);
    }
  }

  /** Over a whole run a waiting account connects at its first tracked event while
      switched on, and keeps that time and its expiry to the end. */
  lemma {:induction false} ConnectsOnce(u: User, evs: seq<Event>, i: nat)
    requires Waiting(u) && i < |evs| && evs[i].OnTrack?
    requires Run(u, evs[..i]).active
    requires forall j | 0 <= j < i && evs[j].OnTrack? :: !Run(u, evs[..j]).active
    ensures var v := Run(u, evs);
            && v.first == Some(evs[i].now)
            && v.expiresAt == if u.expiryDays.Some? && u.expiryDays.value != 0
                              then Some(evs[i].now + u.expiryDays.value * 86400) else None
    decreases |evs|
  {
    var next := Step(u, evs[0]);
    assert evs[..0] == [];
    if i == 0 {
      FirstConnectionIsFinal(next, evs[1..]);
    } else {
      assert Run(u, evs[..0]) == u;
      assert Waiting(next) && next.expiryDays == u.expiryDays;
      forall j | 0 <= j < i
        ensures Run(u, evs[..j + 1]) == Run(next, evs[1..][..j])
      {
        assert evs[..j + 1][1..] == evs[1..][..j];
      }
      ConnectsOnce(next, evs[1..], i - 1);
    }
  }

  /** The volume of a run of tracking and polling, whatever becomes of it. */
  function Volume(evs: seq<Event>): nat {
    if evs == [] then 0
    else
      (if evs[0].OnTrack? then evs[0].bytes else if evs[0].OnPoll? then evs[0].delta else 0) + Volume(evs[1..])
  }

  /** The `i`-th event is a poll that has something to charge and finds the quota
      reached by the volume so far. */
  predicate ReachesQuota(u: User, evs: seq<Event>, i: nat) {
    && i < |evs| && evs[i].OnPoll? && evs[i].delta > 0
    && u.limit.Some? && u.used + Volume(evs[..i + 1]) >= u.limit.value
  }

  ghost predicate SwitchedOff(u: User, evs: seq<Event>) {
    exists i: nat :: ReachesQuota(u, evs, i)
  }

  lemma {:induction false} StaysOff(u: User, evs: seq<Event>)
    requires !u.active && Ordinary(evs)
    ensures Run(u, evs) == u
    decreases |evs|
  {
    if evs != [] {
      assert forall i | 0 <= i < |evs[1..]| :: evs[1..][i] == evs[i + 1];
      StaysOff(u, evs[1..]);
    }
  }

  lemma ReachesLater(u: User, evs: seq<Event>, i: nat)
    requires evs != [] && u.active && Ordinary(evs)
    ensures ReachesQuota(u, evs, i + 1) <==> ReachesQuota(Step(u, evs[0]), evs[1..], i)
    ensures ReachesQuota(u, evs, 0) <==> !Step(u, evs[0]).active
  {
    if i + 1 < |evs| {
      assert evs[..i + 2][1..] == evs[1..][..i + 1];
    }
    assert evs[..1][1..] == [] && Volume([]) == 0;
  }

  /** A run of tracking and polling leaves an active account on exactly when no poll in
      it reaches the quota. */
  lemma {:induction false} OnExactlyWhen(u: User, evs: seq<Event>)
    requires u.active && Ordinary(evs)
    ensures Run(u, evs).active <==> !SwitchedOff(u, evs)
    decreases |evs|
  {
    if evs != [] {
      var next, tail := Step(u, evs[0]), evs[1..];
      assert forall i | 0 <= i < |tail| :: tail[i] == evs[i + 1];
      ReachesLater(u, evs, 0);
      if next.active {
        OnExactlyWhen(next, tail);
        forall i: nat
          ensures ReachesQuota(u, evs, i) <==> i > 0 && ReachesQuota(next, tail, i - 1)
        {
          if i > 0 {
            ReachesLater(u, evs, i - 1);
          }
        }
        hide ReachesQuota;
        if i: nat :| ReachesQuota(next, tail, i) {
          assert ReachesQuota(u, evs, i + 1);
        }
      } else {
        StaysOff(next, tail);
      }
    }
  }

  /** A volume reset re-admits a connected account after any run of tracking and polling
      exactly when it is not expired, has a quota at all, has requests left, and no
      poll of the run reached the quota: that poll switched the account off, which
      only the switch undoes. */
  lemma ResetReadmitsExactlyWhen(u: User, evs: seq<Event>, now: Clock)
    requires u.active && !Waiting(u) && Ordinary(evs)
    ensures Allowed(Some(VolumeReset(Run(u, evs))), now) == Ok
       <==> && !Expired(u, now)
            && (u.limit.Some? ==> u.limit.value > 0)
            && (u.limitReq.Some? ==> u.usedReq + ReportedRequests(u, evs) < u.limitReq.value)
            && !SwitchedOff(u, evs)
  {
    OnExactlyWhen(u, evs);
    FirstConnectionIsFinal(u, evs);
    Conservation(u, evs);
    NothingWiped(u, evs);
    LimitsStay(u, evs);
    hide SwitchedOff, ReportedRequests, Run;
  }

  /** The switch undoes it, and itself: an account a poll switched off is admitted again
      by a reset and the switch, in either order, when nothing else stands against it. */
  lemma SwitchReadmits(u: User, amount: nat, now: Clock)
    requires u.active && !Waiting(u) && amount > 0 && !Expired(u, now)
    requires u.limit.Some? && u.limit.value > 0 && u.used + amount >= u.limit.value
    requires u.limitReq.Some? ==> u.usedReq < u.limitReq.value
    ensures Allowed(Some(Charged(u, amount)), now) == Denied("disabled")
    ensures Allowed(Some(Toggled(Charged(u, amount))), now) == Denied("quota")
    ensures Allowed(Some(Toggled(VolumeReset(Charged(u, amount)))), now) == Ok
    ensures Allowed(Some(VolumeReset(Toggled(Charged(u, amount)))), now) == Ok
    ensures Toggled(Toggled(u)) == u
  {
  }

  lemma {:induction false} NothingWiped(u: User, evs: seq<Event>)
    requires Ordinary(evs)
    ensures WipedRequests(u, evs) == 0
    decreases |evs|
  {
    if evs != [] {
      assert forall i | 0 <= i < |evs[1..]| :: evs[1..][i] == evs[i + 1];
      NothingWiped(Step(u, evs[0]), evs[1..]);
    }
  }

  lemma {:induction false} LimitsStay(u: User, evs: seq<Event>)
    ensures var v := Run(u, evs); v.limit == u.limit && v.limitReq == u.limitReq
    decreases |evs|
  {
    if evs != [] {
      LimitsStay(Step(u, evs[0]), evs[1..]);
    }
  }

  /** A quota reached by polling needs the switch: a reset alone does not re-admit,
      while a quota reached by tracking is lifted by the reset. */
  lemma ResetReadmitsOnlyTracked(u: User, now: Clock, amount: nat)
    requires u.active && !Waiting(u) && amount > 0
    requires u.limit.Some? && u.limit.value > 0 && u.used + amount >= u.limit.value
    requires Allowed(Some(u.(used := 0)), now) == Ok
    ensures Allowed(Some(VolumeReset(Charged(u, amount))), now) == Denied("disabled")
    ensures Allowed(Some(VolumeReset(Tracked(u, now, amount, 0))), now) == Ok
  {
    assert Tracked(u, now, amount, 0).usedReq == u.usedReq;
  }
}
