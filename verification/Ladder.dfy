/** The startup ladder of app/xray.py: configs tried richest first, and the process
    and the published set they lead to. */
module Ladder {
  import opened Text

  /** A profile of the edge catalog; port 0 means it has no listener port. */
  datatype Profile = Profile(id: string, protocol: string, port: nat)

  datatype Inbound = Inbound(tag: string, port: nat)

  /** What the deployment has when a config is built. */
  datatype Setup = Setup(
    edge: seq<Profile>,
    ciphers: seq<string>,            // Shadowsocks cipher ids, in order
    warpId: string,
    warpPeer: bool,                  // an admin registered and enabled a WARP peer
    warpPort: nat,                   // the WARP profile's listener port, 0 for none
    telegram: seq<Inbound>,
    direct: Option<Inbound>,         // the Reality listener, when it can exist
    advanced: seq<Inbound>,
    users: seq<string>)

  /** The parts of the engine config the ladder decides on. */
  datatype Config = Config(
    inbounds: seq<Inbound>,
    warpOutbound: bool,              // a WARP tunnel to leave through
    warpRule: bool,                  // what arrives on the WARP inbound leaves through it
    users: seq<string>)

  function Tags(c: Config): set<string> {
    set i | i in c.inbounds :: i.tag
  }

  // ------------------------------------------------------------------------ configs

  function OwnInbounds(profiles: seq<Profile>): seq<Inbound> {
    if profiles == [] then []
    else OwnInbound(profiles[0]) + OwnInbounds(profiles[1..])
  }

  function OwnInbound(p: Profile): seq<Inbound> {
    if p.port != 0 then [Inbound(p.id, p.port)] else []
  }

  function EdgeInbounds(s: Setup, profiles: seq<Profile>): seq<Inbound> {
    OwnInbounds(profiles) + if s.warpPeer && s.warpPort != 0 then [Inbound(s.warpId, s.warpPort)] else []
  }

  function WithoutTag(items: seq<Inbound>, tag: string): seq<Inbound> {
    if items == [] then []
    else (if items[0].tag == tag then [] else [items[0]]) + WithoutTag(items[1..], tag)
  }

  function DirectInbounds(s: Setup, advanced: bool): seq<Inbound> {
    if s.direct.None? then [] else [s.direct.value] + if advanced then s.advanced else []
  }

  function MakeConfig(s: Setup, edge: seq<Inbound>, withWarp: bool, withDirect: bool,
                      withTelegram: bool, advanced: bool): Config {
    Config(
      (if withWarp then edge else WithoutTag(edge, s.warpId))
      + (if withTelegram then s.telegram else [])
      + (if withDirect then DirectInbounds(s, advanced) else []),
      withWarp && s.warpPeer, withWarp && s.warpPeer, s.users)
  }

  function LastDash(id: string): (i: int)
    ensures -1 <= i < |id|
  {
    if id == "" then -1 else if id[|id| - 1] == '-' then |id| - 1 else LastDash(id[..|id| - 1])
  }

  /** The cipher a Shadowsocks profile belongs to: its id without the path shape. */
  function CipherOf(id: string): string {
    if LastDash(id) < 0 then id else id[..LastDash(id)]
  }

  function KeepCiphers(profiles: seq<Profile>, wanted: seq<string>): seq<Profile> {
    if profiles == [] then []
    else
      (if profiles[0].protocol != "ss" || CipherOf(profiles[0].id) in wanted then [profiles[0]] else [])
      + KeepCiphers(profiles[1..], wanted)
  }

  function Full(s: Setup): Config {
    MakeConfig(s, EdgeInbounds(s, s.edge), true, true, true, true)
  }

  function Lean(s: Setup): Config {
    MakeConfig(s, EdgeInbounds(s, s.edge), true, true, true, false)
  }

  function Trimmed(s: Setup): Config {
    MakeConfig(s, EdgeInbounds(s, s.edge), false, false, true, true)
  }

  function Bare(s: Setup): Config {
    MakeConfig(s, EdgeInbounds(s, s.edge), false, false, false, true)
  }

  function Reduced(s: Setup, keep: nat): Config
    requires keep <= |s.ciphers|
  {
    MakeConfig(s, EdgeInbounds(s, KeepCiphers(s.edge, s.ciphers[..keep])), false, false, false, true)
  }

  /** The path shape is what follows the last dash. */
  lemma {:induction false} LastDashIs(a: string, b: string)
    requires forall i | 0 <= i < |b| :: b[i] != '-'
    ensures LastDash(a + "-" + b) == |a| && LastDash(b) == -1
    decreases |b|
  {
    if b == "" {
      assert (a + "-" + b)[|a|] == '-';
    } else {
      var shorter := b[..|b| - 1];
      assert (a + "-" + b)[..|a| + |b|] == a + "-" + shorter;
      LastDashIs(a, shorter);
    }
  }

  lemma CipherOfIs(cipher: string, shape: string)
    requires forall i | 0 <= i < |shape| :: shape[i] != '-'
    ensures CipherOf(cipher + "-" + shape) == cipher && CipherOf(shape) == shape
  {
    LastDashIs(cipher, shape);
    assert (cipher + "-" + shape)[..|cipher|] == cipher;
  }

  /** The rungs with `keep` ciphers and fewer, in order. */
  function ReducedFrom(s: Setup, keep: nat): (rungs: seq<Config>)
    requires keep <= |s.ciphers|
    ensures |rungs| == keep
  {
    if keep == 0 then [] else [Reduced(s, keep - 1)] + ReducedFrom(s, keep - 1)
  }

  function Rungs(s: Setup): (rungs: seq<Config>)
    ensures rungs != []
  {
    UpperRungs(s) + ReducedFrom(s, |s.ciphers|)
  }

  function UpperRungs(s: Setup): (rungs: seq<Config>)
    ensures rungs != [] && rungs[|rungs| - 1] == Bare(s)
  {
    [Full(s)]
    + (if |Lean(s).inbounds| < |Full(s).inbounds| then [Lean(s)] else [])
    + [Trimmed(s), Bare(s)]
  }

  /** What a rung has dropped, as the admin is told. */
  datatype Note = Complete | NoAdvanced | NoWarpReality | NoTelegram | Ciphers(kept: seq<string>) | Refused

  /** The note that goes with each rung. */
  function Notes(s: Setup): (notes: seq<Note>)
    ensures |notes| == |Rungs(s)|
  {
    UpperNotes(s) + ReducedNotes(s, |s.ciphers|)
  }

  function UpperNotes(s: Setup): (notes: seq<Note>)
    ensures |notes| == |UpperRungs(s)|
  {
    [Complete]
    + (if |Lean(s).inbounds| < |Full(s).inbounds| then [NoAdvanced] else [])
    + [NoWarpReality, NoTelegram]
  }

  function ReducedNotes(s: Setup, keep: nat): (notes: seq<Note>)
    requires keep <= |s.ciphers|
    ensures |notes| == keep
  {
    if keep == 0 then [] else [Ciphers(s.ciphers[..keep - 1])] + ReducedNotes(s, keep - 1)
  }

  // --------------------------------------------------------------------- supervisor

  /** No two processes have the same `pid`. */
  datatype Proc = Proc(pid: nat, live: bool, config: Config)

  datatype State = State(
    proc: Option<Proc>,
    lastHash: Option<Config>,
    served: Option<set<string>>,
    warning: Note,
    started: nat)                    // how many processes were ever started

  const FRESH := State(None, None, None, Complete, 0)

  /** `spawns` says whether the process can be started at all, `survives` whether it is
      still there after the wait. */
  datatype World = World(
    available: bool, setup: Setup, accepts: Config -> bool, spawns: Config -> bool, survives: Config -> bool)

  /** What a reload returns, or the exception it ends with. */
  datatype Report = Report(running: bool, served: Option<set<string>>, warning: Note) | Raised

  predicate Running(r: Report) {
    r.Report? && r.running
  }

  function FirstAccepted(rungs: seq<Config>, accepts: Config -> bool): (i: nat)
    ensures i <= |rungs| && (i < |rungs| ==> accepts(rungs[i]))
    ensures forall j | 0 <= j < i :: !accepts(rungs[j])
  {
    if rungs == [] || accepts(rungs[0]) then 0 else 1 + FirstAccepted(rungs[1..], accepts)
  }

  predicate Live(s: State) {
    s.proc.Some? && s.proc.value.live
  }

  function Reload(s: State, w: World, force: bool): (State, Report) {
    var rungs := Rungs(w.setup);
    var i := FirstAccepted(rungs, w.accepts);
    if !w.available then (s, Report(false, None, Complete))
    else if i == |rungs| then (s.(served := Some({}), warning := Refused), Report(false, Some({}), Refused))
    else
      var c, note := rungs[i], Notes(w.setup)[i];
      var t := s.(served := Some(Tags(c)), warning := note);
      if !force && s.lastHash == Some(c) && Live(s) then (t, Report(true, Some(Tags(c)), note))
      else if !w.spawns(c) then (t.(proc := None), Raised)
      else
        (t.(proc := Some(Proc(s.started, w.survives(c), c)), lastHash := Some(c), started := s.started + 1),
         Report(w.survives(c), Some(Tags(c)), if w.survives(c) then note else Complete))
  }

  class Xray {
    var proc: Option<Proc>
    var lastHash: Option<Config>
    var served: Option<set<string>>
    var warning: Note
    var started: nat

    ghost function Now(): State
      reads this
    {
      State(proc, lastHash, served, warning, started)
    }

    constructor ()
      ensures Now() == FRESH
    {
      proc, lastHash, served, warning, started := None, None, None, Complete, 0;
    }

    method StartOrReload(w: World, force: bool) returns (r: Report)
      modifies this
      ensures (Now(), r) == Reload(old(Now()), w, force)
    {
      hide Rungs, Tags, Notes;
      if !w.available {
        return Report(false, None, Complete);
      }
      var rungs := Rungs(w.setup);
      var i := 0;
      while i < |rungs| && !w.accepts(rungs[i])
        invariant i <= |rungs| && forall j | 0 <= j < i :: !w.accepts(rungs[j])
      {
        i := i + 1;
      }
      ghost var first := FirstAccepted(rungs, w.accepts);
      assert i == first by {
        assert i < |rungs| ==> w.accepts(rungs[i]);
        assert first < |rungs| ==> w.accepts(rungs[first]);
      }
      if i == |rungs| {
        served, warning := Some({}), Refused;
        return Report(false, served, Refused);
      }
      var c := rungs[i];
      served, warning := Some(Tags(c)), Notes(w.setup)[i];
      if !force && lastHash == Some(c) && proc.Some? && proc.value.live {
        return Report(true, served, warning);
      }
      proc := None;
      if !w.spawns(c) {
        return Raised;
      }
      proc := Some(Proc(started, w.survives(c), c));
      lastHash := Some(c);
      started := started + 1;
      return Report(w.survives(c), served, if w.survives(c) then warning else Complete);
    }
  }

  lemma OwnInboundsSnoc(profiles: seq<Profile>, p: Profile)
    ensures OwnInbounds(profiles + [p]) == OwnInbounds(profiles) + OwnInbound(p)
  {
    hide OwnInbound;
    if profiles == [] {
      assert OwnInbounds([p][1..]) == [];
    } else {
      assert (profiles + [p])[1..] == profiles[1..] + [p];
      OwnInboundsSnoc(profiles[1..], p);
    }
  }

  method ListEdgeInbounds(s: Setup, profiles: seq<Profile>) returns (items: seq<Inbound>)
    ensures items == EdgeInbounds(s, profiles)
  {
    items := [];
    for k := 0 to |profiles|
      invariant items == OwnInbounds(profiles[..k])
    {
      OwnInboundsSnoc(profiles[..k], profiles[k]);
      assert profiles[..k] + [profiles[k]] == profiles[..k + 1];
      if profiles[k].port != 0 {
        items := items + [Inbound(profiles[k].id, profiles[k].port)];
      }
    }
    assert profiles[..|profiles|] == profiles;
    if s.warpPeer && s.warpPort != 0 {
      items := items + [Inbound(s.warpId, s.warpPort)];
    }
  }

  // --------------------------------------------------------------- the rungs descend

  predicate Within(a: seq<Inbound>, b: seq<Inbound>) {
    forall x | x in a :: x in b
  }

  /** `a` serves a part of what `b` serves. */
  predicate Below(a: Config, b: Config) {
    Within(a.inbounds, b.inbounds)
  }

  predicate Descends(rungs: seq<Config>) {
    forall i, j | 0 <= i <= j < |rungs| :: Below(rungs[j], rungs[i])
  }

  lemma {:induction false} WithoutTagIs(items: seq<Inbound>, tag: string, x: Inbound)
    ensures x in WithoutTag(items, tag) <==> x in items && x.tag != tag
  {
    if items != [] {
      WithoutTagIs(items[1..], tag, x);
      assert x in items <==> x == items[0] || x in items[1..];
    }
  }

  lemma {:induction false} OwnInboundsAre(profiles: seq<Profile>, x: Inbound)
    ensures x in OwnInbounds(profiles)
       <==> exists p | p in profiles :: p.port != 0 && x == Inbound(p.id, p.port)
  {
    if profiles != [] {
      OwnInboundsAre(profiles[1..], x);
      assert forall p :: p in profiles <==> p == profiles[0] || p in profiles[1..];
    }
  }

  lemma {:induction false} KeptProfilesAre(profiles: seq<Profile>, wanted: seq<string>, p: Profile)
    ensures p in KeepCiphers(profiles, wanted)
       <==> p in profiles && (p.protocol != "ss" || CipherOf(p.id) in wanted)
  {
    if profiles != [] {
      KeptProfilesAre(profiles[1..], wanted, p);
      assert p in profiles <==> p == profiles[0] || p in profiles[1..];
    }
  }

  /** What the rung with `keep` ciphers serves, in full. */
  lemma ReducedIs(s: Setup, keep: nat, x: Inbound)
    requires keep <= |s.ciphers|
    ensures x in Reduced(s, keep).inbounds
       <==> x.tag != s.warpId && exists p | p in s.edge ::
              && p.port != 0 && x == Inbound(p.id, p.port)
              && (p.protocol != "ss" || CipherOf(p.id) in s.ciphers[..keep])
  {
    var kept := KeepCiphers(s.edge, s.ciphers[..keep]);
    WithoutTagIs(EdgeInbounds(s, kept), s.warpId, x);
    OwnInboundsAre(kept, x);
    forall p: Profile
      ensures p in kept <==> p in s.edge && (p.protocol != "ss" || CipherOf(p.id) in s.ciphers[..keep])
    {
      KeptProfilesAre(s.edge, s.ciphers[..keep], p);
    }
  }

  /** So a rung keeps both path shapes of a cipher or neither: exactly those of the
      first ciphers. */
  lemma CipherIsKept(s: Setup, keep: nat, p: Profile, cipher: string, shape: string)
    requires keep <= |s.ciphers| && p in s.edge && p.protocol == "ss" && p.port != 0 && p.id != s.warpId
    requires p.id == cipher + "-" + shape && forall i | 0 <= i < |shape| :: shape[i] != '-'
    requires forall q | q in s.edge && q.id == p.id :: q == p
    ensures Inbound(p.id, p.port) in Reduced(s, keep).inbounds <==> cipher in s.ciphers[..keep]
  {
    CipherOfIs(cipher, shape);
    ReducedIs(s, keep, Inbound(p.id, p.port));
    hide CipherOf, Reduced;
  }

  lemma BareIs(s: Setup, x: Inbound)
    ensures x in Bare(s).inbounds
       <==> x.tag != s.warpId && exists p | p in s.edge :: p.port != 0 && x == Inbound(p.id, p.port)
  {
    WithoutTagIs(EdgeInbounds(s, s.edge), s.warpId, x);
    OwnInboundsAre(s.edge, x);
  }

  /** The inbound of some edge profile. */
  predicate OfEdge(s: Setup, x: Inbound) {
    exists p | p in s.edge :: p.port != 0 && x == Inbound(p.id, p.port)
  }

  /** What each of the first rungs serves, and so what it gives up: first the advanced
      transports, then WARP and Reality; the Telegram proxies are kept longest. */
  lemma UpperRungsAre(s: Setup, x: Inbound)
    ensures x in Full(s).inbounds
       <==> || OfEdge(s, x) || (s.warpPeer && s.warpPort != 0 && x == Inbound(s.warpId, s.warpPort))
            || x in s.telegram
            || (s.direct.Some? && (x == s.direct.value || x in s.advanced))
    ensures x in Lean(s).inbounds
       <==> || OfEdge(s, x) || (s.warpPeer && s.warpPort != 0 && x == Inbound(s.warpId, s.warpPort))
            || x in s.telegram
            || (s.direct.Some? && x == s.direct.value)
    ensures x in Trimmed(s).inbounds <==> (OfEdge(s, x) && x.tag != s.warpId) || x in s.telegram
  {
    OwnInboundsAre(s.edge, x);
    WithoutTagIs(EdgeInbounds(s, s.edge), s.warpId, x);
  }

  /** The WARP profile's id is its own. */
  predicate WarpIsApart(s: Setup) {
    && (forall p | p in s.edge :: p.id != s.warpId)
    && (forall x | x in s.telegram :: x.tag != s.warpId)
    && (s.direct.Some? ==> s.direct.value.tag != s.warpId && forall x | x in s.advanced :: x.tag != s.warpId)
  }

  /** The rungs with WARP: the full one, and the lean one when it exists. */
  predicate KeepsWarp(s: Setup, i: nat) {
    s.warpPeer && i < |UpperRungs(s)| - 2
  }

  /** What arrives on a WARP inbound always leaves through the WARP tunnel, and a rule
      never names a missing tunnel. The rule stands without an inbound exactly when
      the peer has no listener port. */
  lemma WarpRoutesItsInbound(s: Setup, i: nat)
    requires WarpIsApart(s) && i < |Rungs(s)|
    ensures var c := Rungs(s)[i];
            && (s.warpId in Tags(c) <==> KeepsWarp(s, i) && s.warpPort != 0)
            && (c.warpRule <==> KeepsWarp(s, i)) && (c.warpOutbound <==> c.warpRule)
  {
    if i < |UpperRungs(s)| {
      UpperWarp(s, i);
    } else {
      ReducedWarp(s, i - |UpperRungs(s)|);
    }
    hide *;
  }

  lemma UpperWarp(s: Setup, i: nat)
    requires WarpIsApart(s) && i < |UpperRungs(s)|
    ensures var c := Rungs(s)[i];
            && (s.warpId in Tags(c) <==> KeepsWarp(s, i) && s.warpPort != 0)
            && (c.warpRule <==> KeepsWarp(s, i)) && (c.warpOutbound <==> c.warpRule)
  {
    WarpTags(s);
    WarpRules(s);
    hide Tags, Full, Lean, Trimmed, Bare, WarpIsApart;
  }

  lemma ReducedWarp(s: Setup, k: nat)
    requires WarpIsApart(s) && k < |s.ciphers|
    ensures var c := Rungs(s)[|UpperRungs(s)| + k]; s.warpId !in Tags(c) && !c.warpRule && !c.warpOutbound
  {
    var keep := |s.ciphers| - 1 - k;
    ReducedRung(s, |s.ciphers|, k);
    forall x | x in Reduced(s, keep).inbounds
      ensures x.tag != s.warpId
    {
      ReducedIs(s, keep, x);
    }
    hide UpperRungs, WarpIsApart;
    assert Rungs(s)[|UpperRungs(s)| + k] == Reduced(s, keep);
  }

  lemma WarpRules(s: Setup)
    ensures (Full(s).warpRule <==> s.warpPeer) && (Lean(s).warpRule <==> s.warpPeer)
    ensures (Full(s).warpOutbound <==> s.warpPeer) && (Lean(s).warpOutbound <==> s.warpPeer)
    ensures !Trimmed(s).warpRule && !Bare(s).warpRule && !Trimmed(s).warpOutbound && !Bare(s).warpOutbound
  {
  }

  lemma WarpTags(s: Setup)
    requires WarpIsApart(s)
    ensures s.warpId in Tags(Full(s)) <==> s.warpPeer && s.warpPort != 0
    ensures s.warpId in Tags(Lean(s)) <==> s.warpPeer && s.warpPort != 0
    ensures s.warpId !in Tags(Trimmed(s)) && s.warpId !in Tags(Bare(s))
  {
    forall x: Inbound | x.tag == s.warpId
      ensures x in Full(s).inbounds <==> s.warpPeer && s.warpPort != 0 && x == Inbound(s.warpId, s.warpPort)
      ensures x in Lean(s).inbounds <==> s.warpPeer && s.warpPort != 0 && x == Inbound(s.warpId, s.warpPort)
      ensures x !in Trimmed(s).inbounds && x !in Bare(s).inbounds
    {
      UpperRungsAre(s, x);
      BareIs(s, x);
    }
    hide Full, Lean, Trimmed, Bare;
    if s.warpPeer && s.warpPort != 0 {
      assert Inbound(s.warpId, s.warpPort) in Full(s).inbounds && Inbound(s.warpId, s.warpPort) in Lean(s).inbounds;
    }
  }

  /** The config a note stands for. */
  function Noted(s: Setup, n: Note): Option<Config> {
    match n
    case Complete => Some(Full(s))
    case NoAdvanced => Some(Lean(s))
    case NoWarpReality => Some(Trimmed(s))
    case NoTelegram => Some(Bare(s))
    case Ciphers(kept) => if kept <= s.ciphers then Some(Reduced(s, |kept|)) else None
    case Refused => None
  }

  lemma {:induction false} ReducedNote(s: Setup, keep: nat, i: nat)
    requires keep <= |s.ciphers| && i < keep
    ensures ReducedNotes(s, keep)[i] == Ciphers(s.ciphers[..keep - 1 - i])
  {
    if i > 0 {
      ReducedNote(s, keep - 1, i - 1);
    }
  }

  /** The admin is told the truth: the note of a rung says exactly what it serves. */
  lemma NoteTells(s: Setup, i: nat)
    requires i < |Rungs(s)|
    ensures Noted(s, Notes(s)[i]) == Some(Rungs(s)[i])
  {
    hide *;
    RungIsAt(s, i);
    if i < |UpperRungs(s)| {
      UpperNoteTells(s, i);
    } else {
      LowerNoteTells(s, i - |UpperRungs(s)|);
    }
  }

  lemma RungIsAt(s: Setup, i: nat)
    requires i < |Rungs(s)|
    ensures var n := |UpperRungs(s)|;
            && i < n + |s.ciphers|
            && Rungs(s)[i] == (if i < n then UpperRungs(s)[i] else ReducedFrom(s, |s.ciphers|)[i - n])
            && Notes(s)[i] == (if i < n then UpperNotes(s)[i] else ReducedNotes(s, |s.ciphers|)[i - n])
  {
    hide UpperRungs, UpperNotes, ReducedFrom, ReducedNotes;
  }

  lemma UpperNoteTells(s: Setup, i: nat)
    requires i < |UpperRungs(s)|
    ensures Noted(s, UpperNotes(s)[i]) == Some(UpperRungs(s)[i])
  {
    hide Full, Lean, Trimmed, Bare;
  }

  lemma LowerNoteTells(s: Setup, k: nat)
    requires k < |s.ciphers|
    ensures Noted(s, ReducedNotes(s, |s.ciphers|)[k]) == Some(ReducedFrom(s, |s.ciphers|)[k])
  {
    hide *;
    ReducedRung(s, |s.ciphers|, k);
    ReducedNote(s, |s.ciphers|, k);
    NotedCiphers(s, |s.ciphers| - 1 - k);
  }

  lemma NotedCiphers(s: Setup, keep: nat)
    requires keep <= |s.ciphers|
    ensures Noted(s, Ciphers(s.ciphers[..keep])) == Some(Reduced(s, keep))
  {
    hide Reduced, Full, Lean, Trimmed, Bare;
    assert s.ciphers[..keep] <= s.ciphers;
  }

  lemma UpperRungsDescend(s: Setup)
    ensures Descends(UpperRungs(s))
  {
    FullAboveLean(s);
    LeanAboveTrimmed(s);
    TrimmedAboveBare(s);
    hide Lean, Full, Trimmed, Bare;
  }

  lemma FullAboveLean(s: Setup)
    ensures Below(Lean(s), Full(s))
  {
  }

  lemma LeanAboveTrimmed(s: Setup)
    ensures Below(Trimmed(s), Lean(s))
  {
    forall x: Inbound
      ensures x in WithoutTag(EdgeInbounds(s, s.edge), s.warpId) ==> x in EdgeInbounds(s, s.edge)
    {
      WithoutTagIs(EdgeInbounds(s, s.edge), s.warpId, x);
    }
  }

  lemma TrimmedAboveBare(s: Setup)
    ensures Below(Bare(s), Trimmed(s))
  {
  }

  lemma ReducedDescend(s: Setup, more: nat, fewer: nat)
    requires fewer <= more <= |s.ciphers|
    ensures Below(Reduced(s, fewer), Reduced(s, more)) && Below(Reduced(s, more), Bare(s))
  {
    assert forall c | c in s.ciphers[..fewer] :: c in s.ciphers[..more];
    forall x: Inbound
      ensures x in Reduced(s, fewer).inbounds ==> x in Reduced(s, more).inbounds
      ensures x in Reduced(s, more).inbounds ==> x in Bare(s).inbounds
    {
      ReducedIs(s, fewer, x);
      ReducedIs(s, more, x);
      BareIs(s, x);
    }
  }

  lemma {:induction false} ReducedRung(s: Setup, keep: nat, i: nat)
    requires keep <= |s.ciphers| && i < keep
    ensures ReducedFrom(s, keep)[i] == Reduced(s, keep - 1 - i)
  {
    if i > 0 {
      ReducedRung(s, keep - 1, i - 1);
    }
  }

  lemma ReducedPair(s: Setup, rungs: seq<Config>, i: nat, j: nat)
    requires rungs == ReducedFrom(s, |s.ciphers|) && i <= j < |rungs|
    ensures Below(rungs[j], rungs[i]) && Below(rungs[i], Bare(s))
  {
    var more, fewer := |s.ciphers| - 1 - i, |s.ciphers| - 1 - j;
    var a, b := Reduced(s, more), Reduced(s, fewer);
    assert rungs[i] == a && rungs[j] == b by {
      ReducedRung(s, |s.ciphers|, i);
      ReducedRung(s, |s.ciphers|, j);
    }
    assert Below(b, a) && Below(a, Bare(s)) by {
      ReducedDescend(s, more, fewer);
    }
  }

  lemma DescendConcat(a: seq<Config>, b: seq<Config>)
    requires Descends(a) && Descends(b) && a != []
    requires forall j | 0 <= j < |b| :: Below(b[j], a[|a| - 1])
    ensures Descends(a + b)
  {
    forall i, j | 0 <= i <= j < |a + b|
      ensures Below((a + b)[j], (a + b)[i])
    {
      if i < |a| <= j {
        assert Below(a[|a| - 1], a[i]);
        assert Below(b[j - |a|], a[|a| - 1]);
      }
    }
  }

  /** Each rung serves a part of every rung before it. */
  lemma RungsDescend(s: Setup)
    ensures Descends(Rungs(s))
  {
    var upper, lower := UpperRungs(s), ReducedFrom(s, |s.ciphers|);
    UpperRungsDescend(s);
    forall i, j | 0 <= i <= j < |lower|
      ensures Below(lower[j], lower[i])
    {
      ReducedPair(s, lower, i, j);
    }
    forall j | 0 <= j < |lower|
      ensures Below(lower[j], upper[|upper| - 1])
    {
      ReducedPair(s, lower, j, j);
    }
    DescendConcat(upper, lower);
  }

  /** So the first accepted rung serves all that any accepted rung would. */
  lemma FirstAcceptedIsRichest(s: Setup, accepts: Config -> bool, j: nat)
    requires j < |Rungs(s)| && accepts(Rungs(s)[j])
    ensures var i := FirstAccepted(Rungs(s), accepts);
            i < |Rungs(s)| && Tags(Rungs(s)[j]) <= Tags(Rungs(s)[i])
  {
    RungsDescend(s);
    var i := FirstAccepted(Rungs(s), accepts);
    assert Below(Rungs(s)[j], Rungs(s)[i]);
  }

  /** No rung gives up an edge transport other than Shadowsocks and WARP. */
  lemma RungsKeepTransports(s: Setup, i: nat, p: Profile)
    requires i < |Rungs(s)|
    requires p in s.edge && p.protocol != "ss" && p.port != 0 && p.id != s.warpId
    ensures p.id in Tags(Rungs(s)[i])
  {
    var last := |Rungs(s)| - 1;
    var x := Inbound(p.id, p.port);
    RungsDescend(s);
    assert x in Rungs(s)[last].inbounds by {
      if |s.ciphers| > 0 {
        ReducedRung(s, |s.ciphers|, |s.ciphers| - 1);
        ReducedIs(s, 0, x);
      } else {
        BareIs(s, x);
      }
    }
    assert Below(Rungs(s)[last], Rungs(s)[i]);
  }

  // ------------------------------------------------------------------------ every run

  /** The recorded hash is the one of the live process. */
  predicate Honest(s: State) {
    && (s.proc.Some? ==> s.proc.value.pid < s.started)
    && (Live(s) ==> s.lastHash == Some(s.proc.value.config))
  }

  datatype Event = OnReload(w: World, force: bool) | OnDeath | OnStop

  function Step(s: State, ev: Event): State {
    match ev
    case OnReload(w, force) => Reload(s, w, force).0
    case OnDeath => if s.proc.Some? then s.(proc := Some(s.proc.value.(live := false))) else s
    case OnStop => s.(proc := None)
  }

  function Run(s: State, evs: seq<Event>): State
    decreases |evs|
  {
    if evs == [] then s else Run(Step(s, evs[0]), evs[1..])
  }

  lemma {:induction false} RunIsHonest(s: State, evs: seq<Event>)
    requires Honest(s)
    ensures Honest(Run(s, evs))
    decreases |evs|
  {
    if evs != [] {
      RunIsHonest(Step(s, evs[0]), evs[1..]);
    }
  }

  /** After any run, a reload that reports success published exactly the inbounds of
      the process that is live; one that finds no acceptable config published nothing
      and left the process alone. */
  lemma PublishedIsServed(evs: seq<Event>, w: World, force: bool)
    requires w.available
    ensures var s := Run(FRESH, evs);
            var (t, r) := Reload(s, w, force);
            && (Running(r) ==> Live(t) && t.served == Some(Tags(t.proc.value.config)) && r.served == t.served)
            && ((forall j | 0 <= j < |Rungs(w.setup)| :: !w.accepts(Rungs(w.setup)[j])) ==>
                  t.served == Some({}) && t.proc == s.proc)
  {
    RunIsHonest(FRESH, evs);
  }

  /** What a reload reports is true: it raises, or says it is running, for exactly these
      reasons, and what it then says is served and dropped is what it announced. */
  lemma ReloadReports(s: State, w: World, force: bool)
    requires Honest(s)
    ensures var (t, r) := Reload(s, w, force);
            var rungs := Rungs(w.setup);
            var i := FirstAccepted(rungs, w.accepts);
            var found := w.available && i < |rungs|;
            var kept := found && !force && Live(s) && s.proc.value.config == rungs[i];
            && (r.Raised? <==> found && !kept && !w.spawns(rungs[i]))
            && (Running(r) <==> kept || (found && w.spawns(rungs[i]) && w.survives(rungs[i])))
            && (Running(r) ==>
                  Live(t) && t.proc.value.config == rungs[i] && r.warning == t.warning == Notes(w.setup)[i])
            && (r.Report? && w.available ==> r.served == t.served)
            && (found && r.Report? && !r.running ==> r.warning == Complete && !Live(t))
            && (w.available && !found ==> t.warning == r.warning == Refused)
            && (!w.available ==> t == s)
            && (found && !kept ==> Live(t) == (w.spawns(rungs[i]) && w.survives(rungs[i])))
            && (t.started == s.started + if found && !kept && w.spawns(rungs[i]) then 1 else 0)
  {
    hide Rungs, Tags, Notes;
  }

  /** A live process outlives a reload exactly when the binary is missing, no rung is
      accepted, or the first accepted one is what it already runs and nothing is forced. */
  lemma KeptExactlyWhen(s: State, w: World, force: bool)
    requires Honest(s) && Live(s)
    ensures var t := Reload(s, w, force).0;
            var i := FirstAccepted(Rungs(w.setup), w.accepts);
            (t.proc.Some? && t.proc.value.pid == s.proc.value.pid)
            <==> !w.available || i == |Rungs(w.setup)| || (!force && s.proc.value.config == Rungs(w.setup)[i])
    ensures var t := Reload(s, w, force).0;
            t.proc.Some? && t.proc.value.pid == s.proc.value.pid ==> t.proc == s.proc
  {
    hide Rungs, Tags;
  }

  /** Everything published has an inbound in the live process. */
  predicate ServesPublished(s: State) {
    s.served.Some? && (s.served.value == {} || (Live(s) && s.served.value <= Tags(s.proc.value.config)))
  }

  /** Every rung lets in the active users, all of them and nobody else. */
  lemma RungUsers(s: Setup, i: nat)
    requires i < |Rungs(s)|
    ensures Rungs(s)[i].users == s.users
  {
    RungIsAt(s, i);
    if i < |UpperRungs(s)| {
      UpperRungIs(s, i);
    } else {
      ReducedRung(s, |s.ciphers|, i - |UpperRungs(s)|);
    }
    hide UpperRungs, ReducedFrom, Rungs;
  }

  lemma UpperRungIs(s: Setup, i: nat)
    requires i < |UpperRungs(s)|
    ensures var c := UpperRungs(s)[i]; c == Full(s) || c == Lean(s) || c == Trimmed(s) || c == Bare(s)
  {
    hide Full, Lean, Trimmed, Bare;
  }

  /** After any run, a reload that reports success leaves a process that lets in exactly
      the users of the moment; and when an accepted config has other users than the
      live process, that process is never kept. */
  lemma UsersAreCurrent(evs: seq<Event>, w: World, force: bool)
    requires w.available
    ensures var s := Run(FRESH, evs);
            var (t, r) := Reload(s, w, force);
            && (Running(r) ==> Live(t) && t.proc.value.config.users == w.setup.users)
            && (FirstAccepted(Rungs(w.setup), w.accepts) < |Rungs(w.setup)| && Live(s)
                && s.proc.value.config.users != w.setup.users ==>
                  t.proc.None? || t.proc.value.pid != s.proc.value.pid)
  {
    var s := Run(FRESH, evs);
    RunIsHonest(FRESH, evs);
    var i := FirstAccepted(Rungs(w.setup), w.accepts);
    if i < |Rungs(w.setup)| {
      RungUsers(w.setup, i);
    }
    hide Rungs, Tags, Notes, Run;
  }

  /** The published set is announced before the new process is there. It is served
      exactly when there is nothing to serve, the live process already runs the first
      accepted config unforced, or a new one can be started and survives. */
  lemma PublishedBeforeSurvival(s: State, w: World, force: bool)
    requires Honest(s) && w.available
    ensures var rungs := Rungs(w.setup);
            var i := FirstAccepted(rungs, w.accepts);
            ServesPublished(Reload(s, w, force).0)
            <==> || i == |rungs| || Tags(rungs[i]) == {}
                 || (!force && Live(s) && s.proc.value.config == rungs[i])
                 || (w.spawns(rungs[i]) && w.survives(rungs[i]))
  {
    hide Rungs, Tags, Notes;
  }

  /** So one accepted config whose process dies at once stays published, unserved. */
  lemma DeadButPublished()
    ensures var setup := Setup([Profile("vless-ws", "vless", 10001)], [], "warp-ws", false, 0, [], None, [], ["ann"]);
            var t := Reload(FRESH, World(true, setup, _ => true, _ => true, _ => false), false).0;
            t.served == Some({"vless-ws"}) && !Live(t) && !ServesPublished(t)
  {
    var setup := Setup([Profile("vless-ws", "vless", 10001)], [], "warp-ws", false, 0, [], None, [], ["ann"]);
    var x := Inbound("vless-ws", 10001);
    assert setup.edge[1..] == [] && OwnInbounds([]) == [];
    assert OwnInbounds(setup.edge) == [x];
    assert Full(setup).inbounds == [x];
    assert Tags(Full(setup)) == {"vless-ws"} by {
      assert x in Full(setup).inbounds;
    }
    assert Rungs(setup)[0] == Full(setup);
  }

  // ------------------------------------------------------------- published profiles

  datatype Group = Edge | Warp | Direct | Hysteria | Core

  datatype Offer = Offer(id: string, group: Group)

  /** The subscription offers a profile of the Xray engine only when it is served. */
  function Available(items: seq<Offer>, served: Option<set<string>>): seq<Offer> {
    if items == [] then []
    else
      (if served.None? || items[0].id in served.value || items[0].group in {Hysteria, Core}
       then [items[0]] else [])
      + Available(items[1..], served)
  }

  lemma {:induction false} AvailableIs(items: seq<Offer>, served: Option<set<string>>, x: Offer)
    ensures x in Available(items, served)
       <==> x in items && (served.None? || x.id in served.value || x.group in {Hysteria, Core})
  {
    if items != [] {
      AvailableIs(items[1..], served, x);
      assert x in items <==> x == items[0] || x in items[1..];
    }
  }

  /** After a successful reload every offered profile of the engine has an inbound. */
  lemma OffersAnswer(evs: seq<Event>, w: World, force: bool, items: seq<Offer>, x: Offer)
    requires w.available
    requires var s := Run(FRESH, evs); Running(Reload(s, w, force).1)
    requires x in Available(items, Reload(Run(FRESH, evs), w, force).0.served)
    ensures var t := Reload(Run(FRESH, evs), w, force).0;
            x.group in {Hysteria, Core} || (Live(t) && x.id in Tags(t.proc.value.config))
  {
    PublishedIsServed(evs, w, force);
    AvailableIs(items, Reload(Run(FRESH, evs), w, force).0.served, x);
  }
}
