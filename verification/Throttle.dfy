/** The sliding-window limiter of app/core/security.py: a pruned, capped map that
    answers like the full history it stands for. */
module Throttle {
  import opened Text

  const MAX_KEYS: nat := 4096

  // -------------------------------------------------------------- windows of a list

  /** The entries younger than the window. */
  function Recent(ts: seq<real>, now: real, window: real): seq<real> {
    if ts == [] then []
    else (if now - ts[0] < window then [ts[0]] else []) + Recent(ts[1..], now, window)
  }

  method Younger(ts: seq<real>, now: real, window: real) returns (recent: seq<real>)
    ensures recent == Recent(ts, now, window)
  {
    recent := [];
    for i := 0 to |ts|
      invariant recent == Recent(ts[..i], now, window)
    {
      assert ts[..i + 1] == ts[..i] + [ts[i]];
      RecentConcat(ts[..i], [ts[i]], now, window);
      if now - ts[i] < window {
        recent := recent + [ts[i]];
      }
    }
    assert ts[..|ts|] == ts;
  }

  predicate Sorted(ts: seq<real>) {
    forall i, j | 0 <= i <= j < |ts| :: ts[i] <= ts[j]
  }

  predicate UpTo(ts: seq<real>, now: real) {
    forall i | 0 <= i < |ts| :: ts[i] <= now
  }

  lemma {:induction false} RecentConcat(a: seq<real>, b: seq<real>, now: real, window: real)
    ensures Recent(a + b, now, window) == Recent(a, now, window) + Recent(b, now, window)
  {
    if a == [] {
      assert a + b == b;
    } else {
      assert (a + b)[1..] == a[1..] + b;
      RecentConcat(a[1..], b, now, window);
    }
  }

  /** Pruning now does not change a later answer. */
  lemma {:induction false} RecentTwice(ts: seq<real>, now: real, later: real, window: real)
    requires now <= later
    ensures Recent(Recent(ts, now, window), later, window) == Recent(ts, later, window)
  {
    if ts != [] {
      RecentTwice(ts[1..], now, later, window);
      RecentConcat(if now - ts[0] < window then [ts[0]] else [], Recent(ts[1..], now, window), later, window);
    }
  }

  lemma {:induction false} RecentIsPart(ts: seq<real>, now: real, window: real)
    ensures forall t | t in Recent(ts, now, window) :: t in ts
  {
    if ts != [] {
      RecentIsPart(ts[1..], now, window);
    }
  }

  lemma SortedTail(ts: seq<real>)
    requires Sorted(ts) && ts != []
    ensures Sorted(ts[1..]) && forall t | t in ts[1..] :: ts[0] <= t
  {
  }

  lemma {:induction false} RecentKeepsOrder(ts: seq<real>, now: real, window: real)
    requires Sorted(ts)
    ensures Sorted(Recent(ts, now, window))
  {
    if ts != [] {
      var rest := Recent(ts[1..], now, window);
      SortedTail(ts);
      RecentKeepsOrder(ts[1..], now, window);
      RecentIsPart(ts[1..], now, window);
      hide Sorted;
      OrderedCons(ts[0], rest);
      assert [] + rest == rest;
    }
  }

  lemma OrderedCons(t: real, rest: seq<real>)
    requires Sorted(rest) && forall u | u in rest :: t <= u
    ensures Sorted([t] + rest)
  {
    var all := [t] + rest;
    forall i, j | 0 <= i <= j < |all|
      ensures all[i] <= all[j]
    {
      assert i > 0 ==> all[i] == rest[i - 1];
      assert j > 0 ==> all[j] == rest[j - 1] && rest[j - 1] in rest;
    }
  }

  lemma {:induction false} RecentUpTo(ts: seq<real>, now: real, window: real)
    requires UpTo(ts, now)
    ensures UpTo(Recent(ts, now, window), now)
  {
    if ts != [] {
      RecentUpTo(ts[1..], now, window);
    }
  }

  lemma {:induction false} NothingRecent(ts: seq<real>, now: real, window: real)
    requires forall i | 0 <= i < |ts| :: now - ts[i] >= window
    ensures Recent(ts, now, window) == []
  {
    if ts != [] {
      NothingRecent(ts[1..], now, window);
    }
  }

  lemma {:induction false} AllRecent(ts: seq<real>, now: real, window: real)
    requires forall i | 0 <= i < |ts| :: now - ts[i] < window
    ensures Recent(ts, now, window) == ts
  {
    if ts != [] {
      AllRecent(ts[1..], now, window);
    }
  }

  predicate IsSuffix(a: seq<real>, b: seq<real>) {
    |a| <= |b| && b[|b| - |a|..] == a
  }

  lemma SuffixOfRecent(a: seq<real>, b: seq<real>, now: real, window: real)
    requires IsSuffix(a, b)
    ensures IsSuffix(Recent(a, now, window), Recent(b, now, window))
  {
    var d := b[..|b| - |a|];
    assert b == d + a;
    RecentConcat(d, a, now, window);
  }

  /** A key is answered with "blocked" when its history says so. */
  predicate Full(history: seq<real>, now: real, window: real, limit: nat) {
    |Recent(history, now, window)| >= limit
  }

  /** Any `limit + 1` consecutive failures take at least a window. */
  predicate Spaced(history: seq<real>, window: real, limit: nat) {
    forall i | 0 <= i && i + limit < |history| :: history[i + limit] - history[i] >= window
  }

  /** If fewer than `limit` failures are recent, the `limit`-th last one is not. */
  lemma OldEntryExpired(history: seq<real>, now: real, window: real, limit: nat)
    requires Sorted(history) && !Full(history, now, window, limit) && 0 < limit <= |history|
    ensures now - history[|history| - limit] >= window
  {
    var n := |history| - limit;
    if now - history[n] < window {
      var tail := history[n..];
      assert history == history[..n] + tail;
      RecentConcat(history[..n], tail, now, window);
      AllRecent(tail, now, window);
    }
  }

  lemma {:induction false} RecentIsShorter(ts: seq<real>, now: real, window: real)
    ensures |Recent(ts, now, window)| <= |ts|
  {
    if ts != [] {
      RecentIsShorter(ts[1..], now, window);
    }
  }

  /** And if `limit` are recent, the `limit`-th last one is among them. */
  lemma FullReachesBack(history: seq<real>, now: real, window: real, limit: nat)
    requires Sorted(history) && Full(history, now, window, limit) && 0 < limit
    ensures |history| >= limit && now - history[|history| - limit] < window
  {
    RecentIsShorter(history, now, window);
    var n := |history| - limit;
    if now - history[n] >= window {
      var past, tail := history[..n + 1], history[n + 1..];
      assert history == past + tail;
      RecentConcat(past, tail, now, window);
      NothingRecent(past, now, window);
      RecentIsShorter(tail, now, window);
    }
  }

  /** Recording a failure keeps the failures spaced exactly when `blocked` is false at
      that very moment, whatever was answered before. */
  lemma RecordKeepsSpaced(history: seq<real>, now: real, window: real, limit: nat)
    requires Sorted(history) && UpTo(history, now) && limit > 0 && Spaced(history, window, limit)
    ensures Spaced(history + [now], window, limit) <==> !Full(history, now, window, limit)
  {
    var n, after := |history|, history + [now];
    if Full(history, now, window, limit) {
      FullReachesBack(history, now, window, limit);
      assert after[n - limit + limit] - after[n - limit] < window;
    } else if n >= limit {
      OldEntryExpired(history, now, window, limit);
    }
  }

  // --------------------------------------------------- checks and records apart

  /** One key's attempts: the check that lets one in, and its failure later on. */
  datatype Attempted = Check(now: real) | Record(now: real)

  /** The failures, and how many attempts are let in and not yet decided. */
  datatype Door = Door(history: seq<real>, waiting: nat)

  function Pass(d: Door, ev: Attempted, window: real, limit: nat): Door {
    match ev
    case Check(now) => if Full(d.history, now, window, limit) then d else d.(waiting := d.waiting + 1)
    case Record(now) => if d.waiting == 0 then d else Door(d.history + [now], d.waiting - 1)
  }

  function PassAll(d: Door, evs: seq<Attempted>, window: real, limit: nat): Door
    decreases |evs|
  {
    if evs == [] then d else PassAll(Pass(d, evs[0], window, limit), evs[1..], window, limit)
  }

  /** The clock of a run never goes back. */
  predicate Forward(clock: real, evs: seq<Attempted>)
    decreases |evs|
  {
    evs == [] || (clock <= evs[0].now && Forward(evs[0].now, evs[1..]))
  }

  /** No failure is recorded at a moment when the key is already full. */
  predicate NoneWhileFull(d: Door, evs: seq<Attempted>, window: real, limit: nat)
    decreases |evs|
  {
    evs != [] ==>
    && (evs[0].Record? && d.waiting > 0 ==> !Full(d.history, evs[0].now, window, limit))
    && NoneWhileFull(Pass(d, evs[0], window, limit), evs[1..], window, limit)
  }

  lemma {:induction false} OnceTooClose(d: Door, evs: seq<Attempted>, window: real, limit: nat)
    requires !Spaced(d.history, window, limit)
    ensures !Spaced(PassAll(d, evs, window, limit).history, window, limit)
    decreases |evs|
  {
    if evs != [] {
      var next := Pass(d, evs[0], window, limit);
      var i :| 0 <= i && i + limit < |d.history| && d.history[i + limit] - d.history[i] < window;
      assert next.history[i + limit] - next.history[i] < window;
      OnceTooClose(next, evs[1..], window, limit);
    }
  }

  /** However checks and records interleave, the failures stay spaced exactly when none
      is recorded while the key is full. */
  lemma {:induction false} SpacedExactlyWhen(d: Door, clock: real, evs: seq<Attempted>, window: real, limit: nat)
    requires Sorted(d.history) && UpTo(d.history, clock) && Forward(clock, evs)
    requires limit > 0 && Spaced(d.history, window, limit)
    ensures Spaced(PassAll(d, evs, window, limit).history, window, limit) <==> NoneWhileFull(d, evs, window, limit)
    decreases |evs|
  {
    if evs != [] {
      var next, now := Pass(d, evs[0], window, limit), evs[0].now;
      if evs[0].Record? && d.waiting > 0 {
        RecordKeepsSpaced(d.history, now, window, limit);
      }
      if Spaced(next.history, window, limit) {
        SpacedExactlyWhen(next, now, evs[1..], window, limit);
      } else {
        OnceTooClose(next, evs[1..], window, limit);
      }
    }
  }

  lemma ClockMoves(ts: seq<real>, clock: real, now: real)
    requires UpTo(ts, clock) && clock <= now
    ensures UpTo(ts, now)
  {
  }

  lemma SortedSnoc(ts: seq<real>, now: real)
    requires Sorted(ts) && UpTo(ts, now)
    ensures Sorted(ts + [now]) && UpTo(ts + [now], now)
  {
  }

  /** At most `most` attempts are ever let in and undecided at once. */
  predicate AtMostWaiting(d: Door, evs: seq<Attempted>, window: real, limit: nat, most: nat)
    decreases |evs|
  {
    d.waiting <= most && (evs == [] || AtMostWaiting(Pass(d, evs[0], window, limit), evs[1..], window, limit, most))
  }

  /** The limit is exceeded by no more than the attempts that wait at once, less one: a
      check followed at once by its record, `most == 1`, keeps the limit itself. */
  lemma {:induction false} OvershootIsBounded(d: Door, clock: real, evs: seq<Attempted>, window: real, limit: nat,
                                              most: nat)
    requires Sorted(d.history) && UpTo(d.history, clock) && Forward(clock, evs) && limit > 0 && most > 0
    requires AtMostWaiting(d, evs, window, limit, most)
    requires |Recent(d.history, clock, window)| + d.waiting < limit + most
    requires Spaced(d.history, window, limit - 1 + most)
    ensures Spaced(PassAll(d, evs, window, limit).history, window, limit - 1 + most)
    decreases |evs|
  {
    if evs != [] {
      var next, now := Pass(d, evs[0], window, limit), evs[0].now;
      RecentTwice(d.history, clock, now, window);
      RecentIsShorter(Recent(d.history, clock, window), now, window);
      hide Recent, Spaced, UpTo, PassAll;
      ClockMoves(d.history, clock, now);
      if evs[0].Record? && d.waiting > 0 {
        RecordKeepsSpaced(d.history, now, window, limit - 1 + most);
        RecentConcat(d.history, [now], now, window);
        RecentIsShorter([now], now, window);
        SortedSnoc(d.history, now);
      }
      OvershootIsBounded(next, now, evs[1..], window, limit, most);
    }
  }

  lemma {:induction false} ChecksPile(d: Door, now: real, window: real, limit: nat, most: nat)
    requires !Full(d.history, now, window, limit)
    ensures PassAll(d, Repeat(Check(now), most), window, limit) == d.(waiting := d.waiting + most)
    decreases most
  {
    if most > 0 {
      ChecksPile(Pass(d, Check(now), window, limit), now, window, limit, most - 1);
    }
  }

  lemma {:induction false} RecordsPile(d: Door, now: real, window: real, limit: nat, most: nat)
    requires most <= d.waiting && window > 0.0
    ensures var e := PassAll(d, Repeat(Record(now), most), window, limit);
            |Recent(e.history, now, window)| == |Recent(d.history, now, window)| + most
    decreases most
  {
    if most > 0 {
      RecentConcat(d.history, [now], now, window);
      AllRecent([now], now, window);
      RecordsPile(Pass(d, Record(now), window, limit), now, window, limit, most - 1);
    }
  }

  function Repeat(ev: Attempted, n: nat): (evs: seq<Attempted>)
    ensures |evs| == n
  {
    if n == 0 then [] else [ev] + Repeat(ev, n - 1)
  }

  /** And the bound is reached: from one short of the limit, `most` checks that all
      answer before their failures are recorded put `limit - 1 + most` in one window. */
  lemma InterleavedChecksOvershoot(history: seq<real>, now: real, window: real, limit: nat, most: nat)
    requires window > 0.0 && limit > 0 && |Recent(history, now, window)| == limit - 1
    ensures var d := PassAll(PassAll(Door(history, 0), Repeat(Check(now), most), window, limit),
                             Repeat(Record(now), most), window, limit);
            |Recent(d.history, now, window)| == limit - 1 + most
  {
    ChecksPile(Door(history, 0), now, window, limit, most);
    RecordsPile(Door(history, most), now, window, limit, most);
  }

  // ------------------------------------------------------ a list and its history

  /** The stored list answers like the history, now and at any later time; a key that
      an overflow dropped can only be missing failures. */
  predicate Agrees(stored: seq<real>, history: seq<real>, dropped: bool, clock: real, window: real) {
    && Sorted(history) && UpTo(history, clock)
    && IsSuffix(Recent(stored, clock, window), Recent(history, clock, window))
    && (!dropped ==> Recent(stored, clock, window) == Recent(history, clock, window))
  }

  lemma AgreesLater(stored: seq<real>, history: seq<real>, dropped: bool, clock: real, later: real, window: real)
    requires Agrees(stored, history, dropped, clock, window) && clock <= later
    ensures Agrees(stored, history, dropped, later, window)
  {
    RecentTwice(stored, clock, later, window);
    RecentTwice(history, clock, later, window);
    SuffixOfRecent(Recent(stored, clock, window), Recent(history, clock, window), later, window);
  }

  lemma AgreesPruned(stored: seq<real>, history: seq<real>, dropped: bool, now: real, window: real)
    requires Agrees(stored, history, dropped, now, window)
    ensures Agrees(Recent(stored, now, window), history, dropped, now, window)
  {
    RecentTwice(stored, now, now, window);
  }

  lemma AgreesFailed(stored: seq<real>, history: seq<real>, dropped: bool, now: real, window: real)
    requires Agrees(stored, history, dropped, now, window)
    ensures Agrees(stored + [now], history + [now], dropped, now, window)
  {
    RecentConcat(stored, [now], now, window);
    RecentConcat(history, [now], now, window);
    ExtendSuffix(Recent(stored, now, window), Recent(history, now, window), Recent([now], now, window));
  }

  lemma AgreesForgotten(history: seq<real>, clock: real, window: real)
    requires Sorted(history) && UpTo(history, clock)
    ensures Agrees([], history, true, clock, window)
  {
  }

  lemma ExtendSuffix(a: seq<real>, b: seq<real>, c: seq<real>)
    requires IsSuffix(a, b)
    ensures IsSuffix(a + c, b + c)
  {
    assert (b + c)[|b| - |a|..] == b[|b| - |a|..] + c;
  }

  // -------------------------------------------------------------------- the throttle

  type Lists = map<string, seq<real>>

  function At(m: Lists, key: string): seq<real> {
    if key in m then m[key] else []
  }

  function Last(m: Lists, key: string): real {
    if At(m, key) == [] then 0.0 else At(m, key)[|At(m, key)| - 1]
  }

  /** The map with one key's list replaced; an empty list is not stored. */
  function Put(m: Lists, key: string, ts: seq<real>): Lists {
    if ts == [] then m - {key} else m[key := ts]
  }

  lemma AtPut(m: Lists, key: string, ts: seq<real>, other: string)
    ensures At(Put(m, key, ts), other) == if other == key then ts else At(m, other)
  {
  }

  lemma PutOne(m: Lists, key: string, ts: seq<real>, t: real)
    ensures Put(m, key, ts + [t]) == m[key := ts + [t]]
  {
  }

  lemma PutTwice(m: Lists, key: string, ts: seq<real>, us: seq<real>)
    ensures Put(m, key, ts)[key := us] == m[key := us]
  {
  }

  lemma PutKeepsStored(m: Lists, key: string, ts: seq<real>, clock: real)
    requires Stored(m, clock) && Sorted(ts) && UpTo(ts, clock)
    ensures Stored(Put(m, key, ts), clock)
  {
  }

  lemma StoredList(m: Lists, key: string, clock: real)
    requires Stored(m, clock)
    ensures Sorted(At(m, key)) && UpTo(At(m, key), clock)
  {
  }

  /** What is stored: non-empty lists, sorted, none from the future. */
  predicate Stored(m: Lists, clock: real) {
    forall key | key in m :: m[key] != [] && Sorted(m[key]) && UpTo(m[key], clock)
  }

  ghost predicate AllAgree(hits: Lists, history: Lists, evicted: set<string>, clock: real, window: real) {
    forall key: string :: AgreesAt(hits, history, evicted, clock, window, key)
  }

  predicate AgreesAt(hits: Lists, history: Lists, evicted: set<string>, clock: real, window: real, key: string) {
    Agrees(At(hits, key), At(history, key), key in evicted, clock, window)
  }

  /** Any of the keys longest silent. */
  method PickEarliest(m: Lists) returns (k: string)
    requires |m| > 0
    ensures k in m && forall o | o in m :: Last(m, k) <= Last(m, o)
  {
    ghost var earliest := EarliestIn(m, m.Keys);
    k :| k in m && forall o | o in m :: Last(m, k) <= Last(m, o);
  }

  class LoginThrottle {
    const limit: nat
    const window: real
    var hits: Lists

    ghost var clock: real
    ghost var history: Lists           // every failure of a key since its last reset
    ghost var evicted: set<string>     // keys an overflow dropped since their last reset

    ghost predicate Valid()
      reads this
    {
      && limit > 0 && window > 0.0
      && |hits| <= MAX_KEYS + 1
      && Stored(hits, clock)
      && AllAgree(hits, history, evicted, clock, window)
    }

    constructor (limit: int, window: int)
      ensures Valid() && hits == map[] && history == map[] && evicted == {} && clock == 0.0
      ensures this.limit == Max(1, limit) && this.window == Max(30, window) as real
    {
      this.limit := if limit < 1 then 1 else limit;
      this.window := (if window < 30 then 30 else window) as real;
      hits, history, evicted, clock := map[], map[], {}, 0.0;
    }

    /** The clock only runs forward. */
    ghost method Advance(now: real)
      requires Valid() && clock <= now
      modifies this`clock
      ensures Valid() && clock == now
    {
      forall key
        ensures AgreesAt(hits, history, evicted, now, window, key)
      {
        assert AgreesAt(hits, history, evicted, clock, window, key);
        AgreesLater(At(hits, key), At(history, key), key in evicted, clock, now, window);
      }
      clock := now;
    }

    /** Under the cap nothing happens. Over it expired keys go, which changes no answer;
        if too many are left, the ones longest silent go too, and just as many as needed. */
    method Sweep(now: real)
      requires Valid() && clock == now
      modifies this`hits, this`evicted
      ensures Valid() && |hits| <= MAX_KEYS && OldestGone(old(hits), hits)
      ensures Swept(old(hits), hits, now, window)
      ensures evicted == old(evicted) + Lost(old(hits), hits, now, window)
    {
      if |hits| > MAX_KEYS {
        ghost var before := hits;
        DropExpired(now);
        ghost var alive := hits;
        DropOverflow();
        OldestGoneTwice(before, alive, hits);
      } else {
        assert Lost(hits, hits, now, window) == {};
      }
    }

    method DropExpired(now: real)
      requires Valid() && clock == now
      modifies this`hits
      ensures Valid() && hits == Unexpired(old(hits), now, window)
      ensures Part(hits, old(hits)) && OldestGone(old(hits), hits)
    {
      var alive := map key | key in hits && now - hits[key][|hits[key]| - 1] < window :: hits[key];
      ExpiredKeysAgree(hits, alive, history, evicted, now, window);
      SubsetSize(alive.Keys, hits.Keys);
      hits := alive;
    }

    method DropOverflow()
      requires Valid()
      modifies this`hits, this`evicted
      ensures Valid() && Part(hits, old(hits)) && |hits| == Min(|old(hits)|, MAX_KEYS) && OldestGone(old(hits), hits)
      ensures evicted == old(evicted) + (old(hits).Keys - hits.Keys)
    {
      NothingGone(hits);
      hide Valid, OldestGone, Earlier, Last, Stored, AllAgree;
      while |hits| > MAX_KEYS
        invariant Valid() && Part(hits, old(hits)) && OldestGone(old(hits), hits)
        invariant Min(|old(hits)|, MAX_KEYS) <= |hits| <= |old(hits)|
        invariant evicted == old(evicted) + (old(hits).Keys - hits.Keys)
        decreases |hits|
      {
        var k := PickEarliest(hits);
        DropEarliest(old(hits), hits, k);
        DropKey(k);
      }
    }

    /** An overflow drops one key. */
    method DropKey(k: string)
      requires Valid() && k in hits
      modifies this`hits, this`evicted
      ensures Valid() && hits == old(hits) - {k} && |hits| == |old(hits)| - 1 && evicted == old(evicted) + {k}
    {
      DroppedKeyAgrees(hits, history, evicted, clock, window, k);
      assert (hits - {k}).Keys == hits.Keys - {k};
      hits := hits - {k};
      evicted := evicted + {k};
    }

    method Prune(key: string, now: real) returns (recent: seq<real>)
      requires Valid() && clock == now
      modifies this`hits
      ensures Valid() && recent == Recent(At(old(hits), key), now, window) == At(hits, key)
      ensures hits == Put(old(hits), key, recent)
      ensures |hits| <= |old(hits)|
    {
      hide Stored, AllAgree, Recent, At;
      recent := Younger(At(hits, key), now, window);
      PrunedKeyAgrees(hits, history, evicted, now, window, key);
      SubsetSize(Put(hits, key, recent).Keys, hits.Keys);
      AtPut(hits, key, recent, key);
      hits := if recent != [] then hits[key := recent] else hits - {key};
    }

    /** What the stored list of a key says. */
    ghost method KeyAnswers(key: string)
      requires Valid()
      ensures var n := |Recent(At(hits, key), clock, window)|;
              && (n >= limit ==> Full(At(history, key), clock, window, limit))
              && (key !in evicted ==> (n >= limit <==> Full(At(history, key), clock, window, limit)))
    {
      assert AgreesAt(hits, history, evicted, clock, window, key);
      hide AllAgree, Stored, Recent, At;
    }

    /** The answer is the one the full history gives, unless an overflow dropped the
        key; then it can only be too lenient. */
    method Blocked(key: string, now: real) returns (b: bool)
      requires Valid() && clock <= now
      modifies this
      ensures Valid() && clock == now && history == old(history) && evicted == old(evicted)
      ensures hits == Put(old(hits), key, Recent(At(old(hits), key), now, window)) && |hits| <= |old(hits)|
      ensures key !in evicted ==> (b <==> Full(At(history, key), now, window, limit))
      ensures b ==> Full(At(history, key), now, window, limit)
    {
      hide *;
      Advance(now);
      KeyAnswers(key);
      var recent := Prune(key, now);
      b := |recent| >= limit;
    }

    /** What is left after the sweep, with one more failure of this key. Only an overflow
        evicts: of more than `MAX_KEYS` keys that all failed within the window. */
    method Fail(key: string, now: real) returns (ghost swept: Lists)
      requires Valid() && clock <= now
      modifies this
      ensures Valid() && clock == now && history == old(history)[key := At(old(history), key) + [now]]
      ensures Swept(old(hits), swept, now, window)
      ensures hits == swept[key := Recent(At(swept, key), now, window) + [now]]
      ensures evicted == old(evicted) + Lost(old(hits), swept, now, window)
      ensures |old(hits)| <= MAX_KEYS || |Unexpired(old(hits), now, window)| <= MAX_KEYS ==> evicted == old(evicted)
    {
      hide *;
      Advance(now);
      Sweep(now);
      swept := hits;
      OverflowIsNeeded(old(hits), swept, now, window);
      UnexpiredSize(old(hits), now, window);
      assert old(evicted) + {} == old(evicted);
      var recent := Prune(key, now);
      PutTwice(swept, key, recent, recent + [now]);
      Append(key, recent, now);
    }

    method Append(key: string, recent: seq<real>, now: real)
      requires Valid() && clock == now && recent == At(hits, key) && |hits| <= MAX_KEYS
      modifies this`hits, this`history
      ensures Valid() && hits == old(hits)[key := recent + [now]]
      ensures history == old(history)[key := At(old(history), key) + [now]]
    {
      hide Stored, AllAgree, At;
      AppendAgrees(hits, history, evicted, now, window, key);
      hits := hits[key := recent + [now]];
      history := history[key := At(history, key) + [now]];
    }

    method Reset(key: string)
      requires Valid()
      modifies this
      ensures Valid() && clock == old(clock) && hits == old(hits) - {key}
      ensures history == old(history) - {key} && evicted == old(evicted) - {key}
    {
      ResetKeyAgrees(hits, history, evicted, clock, window, key);
      SubsetSize((hits - {key}).Keys, hits.Keys);
      hits := hits - {key};
      history := history - {key};
      evicted := evicted - {key};
    }

    /** One password attempt, as the login route makes it: refused while blocked,
        recorded when wrong, forgotten when right. Every key that no overflow dropped
        stays spaced. */
    method Attempt(key: string, now: real, correct: bool) returns (refused: bool)
      requires Valid() && clock <= now
      requires AllSpaced(history, evicted, window, limit)
      modifies this
      ensures Valid() && clock == now
      ensures AllSpaced(history, evicted, window, limit)
      ensures key !in old(evicted) ==> (refused <==> Full(At(old(history), key), now, window, limit))
      ensures refused ==> history == old(history)
      ensures |old(hits)| <= MAX_KEYS ==> evicted <= old(evicted)
    {
      refused := Blocked(key, now);
      if refused {
        return;
      }
      if correct {
        ResetKeepsSpaced(history, evicted, key, window, limit);
        Reset(key);
        return;
      }
      ghost var before, dropped := At(history, key), evicted;
      ghost var logged := history;
      assert AgreesAt(hits, history, evicted, now, window, key);
      if key !in evicted {
        RecordKeepsSpaced(before, now, window, limit);
      }
      ghost var _ := Fail(key, now);
      FailureKeepsSpaced(logged, dropped, evicted, key, now, window, limit);
    }
  }

  /** The keys heard from within the window. */
  function Unexpired(m: Lists, now: real, window: real): Lists {
    map key | key in m && now - Last(m, key) < window :: m[key]
  }

  /** What a sweep leaves: everything under the cap, and over it the unexpired keys, of
      which the `MAX_KEYS` last heard from if there are more. */
  predicate Swept(before: Lists, after: Lists, now: real, window: real) {
    if |before| <= MAX_KEYS then after == before
    else
      var alive := Unexpired(before, now, window);
      Part(after, alive) && OldestGone(alive, after) && |after| == Min(|alive|, MAX_KEYS)
  }

  /** The unexpired keys a sweep costs. */
  function Lost(before: Lists, after: Lists, now: real, window: real): set<string> {
    Unexpired(before, now, window).Keys - after.Keys
  }

  /** A stored key is unexpired exactly when it has a failure younger than the window. */
  lemma UnexpiredIs(m: Lists, now: real, window: real, key: string)
    requires Stored(m, now)
    ensures key in Unexpired(m, now, window) <==> key in m && Recent(m[key], now, window) != []
  {
    if key in m {
      var ts := m[key];
      if now - ts[|ts| - 1] < window {
        var front := ts[..|ts| - 1];
        assert ts == front + [ts[|ts| - 1]];
        RecentConcat(front, [ts[|ts| - 1]], now, window);
        AllRecent([ts[|ts| - 1]], now, window);
      } else {
        NothingRecent(ts, now, window);
      }
    }
  }

  lemma UnexpiredSize(m: Lists, now: real, window: real)
    ensures |Unexpired(m, now, window)| <= |m|
  {
    assert Unexpired(m, now, window).Keys <= m.Keys;
    SubsetSize(Unexpired(m, now, window).Keys, m.Keys);
  }

  lemma PartSize(a: set<string>, b: set<string>)
    requires a <= b
    ensures |b - a| == |b| - |a|
  {
    assert b == a + (b - a);
  }

  /** A sweep costs exactly the unexpired keys beyond the cap, and none without them. */
  lemma OverflowIsNeeded(before: Lists, after: Lists, now: real, window: real)
    requires Swept(before, after, now, window)
    ensures |Lost(before, after, now, window)| == Max(0, |Unexpired(before, now, window)| - MAX_KEYS)
    ensures |Unexpired(before, now, window)| <= MAX_KEYS ==> Lost(before, after, now, window) == {}
  {
    UnexpiredSize(before, now, window);
    if |before| > MAX_KEYS {
      PartSize(after.Keys, Unexpired(before, now, window).Keys);
    }
  }

  /** The remaining keys keep their lists. */
  predicate Part(m: Lists, whole: Lists) {
    m.Keys <= whole.Keys && forall key | key in m :: m[key] == whole[key]
  }

  /** No key that went was heard from later than one that stayed. */
  predicate OldestGone(before: Lists, after: Lists) {
    forall gone, kept | gone in before && gone !in after && kept in after :: Earlier(before, gone, kept)
  }

  predicate Earlier(m: Lists, a: string, b: string) {
    Last(m, a) <= Last(m, b)
  }

  lemma NothingGone(m: Lists)
    ensures Part(m, m) && OldestGone(m, m)
  {
  }

  lemma OldestGoneTwice(a: Lists, b: Lists, c: Lists)
    requires Part(c, b) && Part(b, a) && OldestGone(a, b) && OldestGone(b, c)
    ensures OldestGone(a, c)
  {
    forall gone, kept | gone in a && gone !in c && kept in c
      ensures Earlier(a, gone, kept)
    {
      assert gone in b ==> Earlier(b, gone, kept);
      assert gone !in b ==> Earlier(a, gone, kept);
    }
  }

  lemma SameLast(m: Lists, whole: Lists, key: string)
    requires Part(m, whole) && key in m
    ensures Last(m, key) == Last(whole, key)
  {
  }

  lemma DropEarliest(before: Lists, m: Lists, k: string)
    requires Part(m, before) && OldestGone(before, m) && k in m
    requires forall o | o in m :: Last(m, k) <= Last(m, o)
    ensures OldestGone(before, m - {k})
  {
    hide Last;
    forall gone, kept | gone in before && gone !in m - {k} && kept in m - {k}
      ensures Earlier(before, gone, kept)
    {
      assert gone !in m ==> Earlier(before, gone, kept);
      SameLast(m, before, k);
      SameLast(m, before, kept);
      assert Last(m, k) <= Last(m, kept);
    }
  }

  ghost predicate AllSpaced(history: Lists, evicted: set<string>, window: real, limit: nat) {
    forall key: string | key !in evicted :: Spaced(At(history, key), window, limit)
  }

  lemma FailureKeepsSpaced(history: Lists, before: set<string>, evicted: set<string>, key: string,
                           now: real, window: real, limit: nat)
    requires AllSpaced(history, before, window, limit) && before <= evicted
    requires key !in before ==> Spaced(At(history, key) + [now], window, limit)
    ensures AllSpaced(history[key := At(history, key) + [now]], evicted, window, limit)
  {
    var after := history[key := At(history, key) + [now]];
    forall other: string | other !in evicted
      ensures Spaced(At(after, other), window, limit)
    {
      assert other != key ==> At(after, other) == At(history, other);
    }
  }

  lemma ResetKeepsSpaced(history: Lists, evicted: set<string>, key: string, window: real, limit: nat)
    requires AllSpaced(history, evicted, window, limit)
    ensures AllSpaced(history - {key}, evicted - {key}, window, limit)
  {
    forall other: string | other !in evicted - {key}
      ensures Spaced(At(history - {key}, other), window, limit)
    {
      AtPut(history, key, [], other);
    }
  }

  // ------------------------------------------------------------- what the map keeps

  lemma ExpiredKeysAgree(hits: Lists, alive: Lists, history: Lists, evicted: set<string>, now: real, window: real)
    requires Stored(hits, now) && AllAgree(hits, history, evicted, now, window)
    requires alive.Keys <= hits.Keys && forall key | key in alive :: alive[key] == hits[key]
    requires forall key | key in hits && key !in alive :: now - Last(hits, key) >= window
    ensures AllAgree(alive, history, evicted, now, window)
    ensures forall key | key in hits && key !in alive :: Recent(hits[key], now, window) == []
  {
    forall key | key in hits && key !in alive
      ensures Recent(hits[key], now, window) == []
    {
      NothingRecent(hits[key], now, window);
    }
    forall key
      ensures AgreesAt(alive, history, evicted, now, window, key)
    {
      assert AgreesAt(hits, history, evicted, now, window, key);
    }
  }

  /** Replacing a key's list and its history together. */
  lemma PutAgrees(hits: Lists, history: Lists, evicted: set<string>, clock: real, window: real,
                  key: string, ts: seq<real>, hs: seq<real>, dropped: set<string>)
    requires AllAgree(hits, history, evicted, clock, window)
    requires Agrees(ts, hs, key in dropped, clock, window)
    requires forall other: string | other != key :: other in dropped <==> other in evicted
    ensures AllAgree(Put(hits, key, ts), Put(history, key, hs), dropped, clock, window)
  {
    forall other
      ensures AgreesAt(Put(hits, key, ts), Put(history, key, hs), dropped, clock, window, other)
    {
      assert AgreesAt(hits, history, evicted, clock, window, other);
      AtPut(hits, key, ts, other);
      AtPut(history, key, hs, other);
    }
  }

  lemma PrunedKeyAgrees(hits: Lists, history: Lists, evicted: set<string>, now: real, window: real, key: string)
    requires Stored(hits, now) && AllAgree(hits, history, evicted, now, window)
    ensures var after := Put(hits, key, Recent(At(hits, key), now, window));
            Stored(after, now) && AllAgree(after, history, evicted, now, window) && after.Keys <= hits.Keys
  {
    var recent := Recent(At(hits, key), now, window);
    StoredList(hits, key, now);
    RecentKeepsOrder(At(hits, key), now, window);
    RecentUpTo(At(hits, key), now, window);
    PutKeepsStored(hits, key, recent, now);
    forall other
      ensures AgreesAt(Put(hits, key, recent), history, evicted, now, window, other)
    {
      assert AgreesAt(hits, history, evicted, now, window, other);
      AtPut(hits, key, recent, other);
      AgreesPruned(At(hits, other), At(history, other), other in evicted, now, window);
    }
  }

  lemma FailedKeyAgrees(hits: Lists, history: Lists, evicted: set<string>, now: real, window: real, key: string)
    requires Stored(hits, now) && AllAgree(hits, history, evicted, now, window)
    ensures var failed := Put(hits, key, At(hits, key) + [now]);
            && Stored(failed, now)
            && AllAgree(failed, Put(history, key, At(history, key) + [now]), evicted, now, window)
  {
    hide Agrees, Put;
    StoredList(hits, key, now);
    PutKeepsStored(hits, key, At(hits, key) + [now], now);
    assert AgreesAt(hits, history, evicted, now, window, key);
    AgreesFailed(At(hits, key), At(history, key), key in evicted, now, window);
    PutAgrees(hits, history, evicted, now, window, key, At(hits, key) + [now], At(history, key) + [now], evicted);
  }

  lemma AppendAgrees(hits: Lists, history: Lists, evicted: set<string>, now: real, window: real, key: string)
    requires Stored(hits, now) && AllAgree(hits, history, evicted, now, window)
    ensures var failed := hits[key := At(hits, key) + [now]];
            && Stored(failed, now) && |failed| <= |hits| + 1
            && AllAgree(failed, history[key := At(history, key) + [now]], evicted, now, window)
  {
    hide *;
    FailedKeyAgrees(hits, history, evicted, now, window, key);
    PutOne(hits, key, At(hits, key), now);
    PutOne(history, key, At(history, key), now);
    OneMore(hits, key, At(hits, key) + [now]);
  }

  lemma OneMore(m: Lists, key: string, ts: seq<real>)
    ensures |m[key := ts]| <= |m| + 1
  {
    assert m[key := ts].Keys == m.Keys + {key};
  }

  lemma DroppedKeyAgrees(hits: Lists, history: Lists, evicted: set<string>, clock: real, window: real, key: string)
    requires Stored(hits, clock) && AllAgree(hits, history, evicted, clock, window)
    ensures Stored(hits - {key}, clock) && AllAgree(hits - {key}, history, evicted + {key}, clock, window)
  {
    PutKeepsStored(hits, key, [], clock);
    forall other
      ensures AgreesAt(hits - {key}, history, evicted + {key}, clock, window, other)
    {
      assert AgreesAt(hits, history, evicted, clock, window, other);
      AtPut(hits, key, [], other);
      if other == key {
        AgreesForgotten(At(history, key), clock, window);
      }
    }
  }

  lemma ResetKeyAgrees(hits: Lists, history: Lists, evicted: set<string>, clock: real, window: real, key: string)
    requires Stored(hits, clock) && AllAgree(hits, history, evicted, clock, window)
    ensures Stored(hits - {key}, clock)
    ensures AllAgree(hits - {key}, history - {key}, evicted - {key}, clock, window)
  {
    PutKeepsStored(hits, key, [], clock);
    PutAgrees(hits, history, evicted, clock, window, key, [], [], evicted - {key});
  }

  lemma {:induction false} EarliestIn(m: Lists, keys: set<string>) returns (k: string)
    requires keys != {}
    ensures k in keys && forall o | o in keys :: Last(m, k) <= Last(m, o)
    decreases keys
  {
    var first :| first in keys;
    var rest := keys - {first};
    assert forall o | o in keys :: o == first || o in rest;
    k := first;
    if rest != {} {
      var r := EarliestIn(m, rest);
      if Last(m, r) < Last(m, first) {
        k := r;
      }
    }
  }
}
