/** The edge sources of app/edge/sources.py: their ids, the addresses sampled from
    their ranges, and the addresses a source publishes. */
module EdgeSources {
  import opened Text
  import opened Names
  import NodeCatalog

  // ------------------------------------------------------------------------- the ids

  /** A stored source; the validated fields besides the id are not looked into. */
  datatype Source = Source(id: string, fields: string)

  function IdsOf(items: seq<Source>): set<string> {
    set s | s in items :: s.id
  }

  predicate DistinctIds(items: seq<Source>) {
    forall i, j | 0 <= i < j < |items| :: items[i].id != items[j].id
  }

  function Without(items: seq<Source>, id: string): (kept: seq<Source>)
    ensures forall s :: s in kept <==> s in items && s.id != id
  {
    if items == [] then []
    else (if items[0].id == id then [] else [items[0]]) + Without(items[1..], id)
  }

  lemma DistinctCons(s: Source, rest: seq<Source>)
    requires DistinctIds(rest) && forall r | r in rest :: r.id != s.id
    ensures DistinctIds([s] + rest)
  {
  }

  lemma TailIsDistinct(items: seq<Source>)
    requires items != [] && DistinctIds(items)
    ensures DistinctIds(items[1..]) && forall s | s in items[1..] :: s.id != items[0].id
  {
    var tail := items[1..];
    assert forall i | 0 <= i < |tail| :: tail[i] == items[i + 1];
  }

  lemma {:induction false} WithoutKeepsDistinct(items: seq<Source>, id: string)
    requires DistinctIds(items)
    ensures DistinctIds(Without(items, id))
  {
    if items != [] {
      TailIsDistinct(items);
      WithoutKeepsDistinct(items[1..], id);
      hide DistinctIds;
      var rest := Without(items[1..], id);
      DistinctCons(items[0], rest);
      assert [] + rest == rest;
    }
  }

  lemma {:induction false} WithoutAbsent(items: seq<Source>, id: string)
    requires forall s | s in items :: s.id != id
    ensures Without(items, id) == items
  {
    if items != [] {
      WithoutAbsent(items[1..], id);
      assert items == [items[0]] + items[1..];
    }
  }

  /** What saving does to the list: the id's own entry moves to the end. */
  function Saved(items: seq<Source>, s: Source): seq<Source> {
    Without(items, s.id) + [s]
  }

  lemma SavedKeepsDistinct(items: seq<Source>, s: Source)
    requires DistinctIds(items)
    ensures DistinctIds(Saved(items, s)) && IdsOf(Saved(items, s)) == IdsOf(items) + {s.id}
  {
    WithoutKeepsDistinct(items, s.id);
  }

  class Store {
    var items: seq<Source>
    var rows: NodeCatalog.Table        // the node table

    ghost predicate Valid()
      reads this
    {
      DistinctIds(items)
    }

    constructor (rows: NodeCatalog.Table)
      ensures Valid() && items == [] && this.rows == rows
    {
      items := [];
      this.rows := rows;
    }

    /** A new source takes an unused id and overwrites nothing; an existing one keeps
        its id; an unknown id is refused. `base` is the slug asked for. */
    method SaveSource(base: string, fields: string, sourceId: string) returns (r: Option<Source>)
      requires Valid()
      modifies this`items
      ensures Valid()
      ensures r.None? <==> sourceId != "" && sourceId !in IdsOf(old(items))
      ensures r.None? ==> items == old(items)
      ensures r.Some? ==> items == Saved(old(items), r.value) && r.value.fields == fields
      ensures r.Some? && sourceId != "" ==> r.value.id == sourceId
      ensures r.Some? && sourceId == "" ==>
                && r.value.id !in IdsOf(old(items)) && items == old(items) + [r.value]
                && (base !in IdsOf(old(items)) ==> r.value.id == base)
                && (base in IdsOf(old(items)) ==> exists n :: n >= 2 && r.value.id == Numbered(base, "-", n))
    {
      if sourceId != "" && sourceId !in IdsOf(items) {
        return None;
      }
      var taken := set s | s in items && (sourceId == "" || s.id != sourceId) :: s.id;
      var id := base;
      if base in taken {
        var n := FirstFree(base, "-", taken);
        id := Numbered(base, "-", n);
      }
      if sourceId != "" {
        id := sourceId;
      } else {
        assert taken == IdsOf(items);
        WithoutAbsent(items, id);
      }
      var s := Source(id, fields);
      SavedKeepsDistinct(items, s);
      items := Saved(items, s);
      r := Some(s);
    }

    /** Nodes of a removed location disappear with it, those of others and those without
        a source stay; an unknown id changes nothing. */
    method DeleteSource(sourceId: string)
      requires Valid()
      modifies this
      ensures Valid() && items == Without(old(items), sourceId)
      ensures rows.Keys <= old(rows).Keys && forall n | n in rows :: rows[n] == old(rows)[n]
      ensures forall n | n in old(rows) ::
                n !in rows <==>
                  && (exists s :: s in old(items) && s.id == sourceId)
                  && (old(rows)[n].kind == "cloudflare" || old(rows)[n].kind == "edge")
                  && (old(rows)[n].meta.sourceId == Some(sourceId)
                      || (sourceId == "" && old(rows)[n].meta.sourceId == None))
    {
      WithoutKeepsDistinct(items, sourceId);
      var kept := Without(items, sourceId);
      WithoutLength(items, sourceId);
      if |kept| != |items| {
        rows := map n | n in rows && !IsNodeOf(rows[n], sourceId) :: rows[n];
      }
      items := kept;
    }
  }

  /** An edge node made for this source. */
  predicate IsNodeOf(n: NodeCatalog.Node, sourceId: string) {
    NodeCatalog.IsEdge(n) && (if n.meta.sourceId.Some? then n.meta.sourceId.value else "") == sourceId
  }

  lemma {:induction false} WithoutLength(items: seq<Source>, id: string)
    ensures |Without(items, id)| <= |items|
    ensures |Without(items, id)| == |items| <==> id !in IdsOf(items)
  {
    if items != [] {
      WithoutLength(items[1..], id);
      assert IdsOf(items) == {items[0].id} + IdsOf(items[1..]);
    }
  }

  // ------------------------------------------------------------------------ sampling

  const SPACE: nat := 0x1_0000_0000

  /** An IPv4 network: its first address and how many it has. */
  datatype Net = Net(base: nat, size: nat)

  predicate IsNet(n: Net) {
    n.size > 0 && n.base + n.size <= SPACE
  }

  predicate Holds(n: Net, a: nat) {
    n.base <= a < n.base + n.size
  }

  /** A CIDR text, parsed. */
  datatype Cidr = Malformed | V6 | V4(net: Net)

  predicate AreNets(cidrs: seq<Cidr>) {
    forall i | 0 <= i < |cidrs| && cidrs[i].V4? :: IsNet(cidrs[i].net)
  }

  function Steps(size: nat, room: int, perNet: int): int {
    Min(Min(Max(1, perNet), room), Max(1, size - 2))
  }

  function Span(size: nat, steps: int): int
    requires steps > 0
  {
    if size > 4 then Max(1, (size - 3) / steps) else 1
  }

  function AddressAt(n: Net, span: int, i: int): (a: nat)
    requires span > 0 && i >= 0
    ensures a == n.base + 1 + i * span
  {
    assert i * span >= 0;
    n.base + 1 + i * span
  }

  /** The candidate addresses of one network, from the `i`-th on. */
  function Offers(n: Net, span: int, i: int, steps: int): seq<nat>
    requires span > 0 && i >= 0
    decreases steps - i
  {
    if i >= steps then []
    else
      var a := AddressAt(n, span, i);
      if a >= SPACE then [] else (if Holds(n, a) then [a] else []) + Offers(n, span, i + 1, steps)
  }

  /** The list with the new addresses of another behind it. */
  function Extend<T(==)>(picked: seq<T>, more: seq<T>): seq<T>
    decreases |more|
  {
    if more == [] then picked
    else Extend(if more[0] in picked then picked else picked + [more[0]], more[1..])
  }

  function PickFrom(picked: seq<nat>, n: Net, limit: int, perNet: int): seq<nat>
    requires |picked| < limit
  {
    var steps := Steps(n.size, limit - |picked|, perNet);
    Extend(picked, Offers(n, Span(n.size, steps), 0, steps))
  }

  function Sampled(picked: seq<nat>, cidrs: seq<Cidr>, limit: int, perNet: int): seq<nat>
    decreases |cidrs|
  {
    if cidrs == [] || |picked| >= limit then picked
    else
      Sampled(if cidrs[0].V4? then PickFrom(picked, cidrs[0].net, limit, perNet) else picked,
              cidrs[1..], limit, perNet)
  }

  lemma OffersStep(picked: seq<nat>, n: Net, span: int, i: int, steps: int)
    requires span > 0 && 0 <= i < steps
    ensures var a := AddressAt(n, span, i);
            Extend(picked, Offers(n, span, i, steps))
            == if a >= SPACE then picked
               else Extend(if Holds(n, a) && a !in picked then picked + [a] else picked, Offers(n, span, i + 1, steps))
  {
    var a, more := AddressAt(n, span, i), Offers(n, span, i + 1, steps);
    assert ([a] + more)[1..] == more;
    assert [] + more == more;
  }

  method PickNet(before: seq<nat>, n: Net, limit: int, perNet: int) returns (picked: seq<nat>)
    requires |before| < limit
    ensures picked == PickFrom(before, n, limit, perNet)
  {
    var steps := Steps(n.size, limit - |before|, perNet);
    var span := Span(n.size, steps);
    picked := before;
    var index := 0;
    while index < steps
      invariant 0 <= index <= steps
      invariant Extend(picked, Offers(n, span, index, steps)) == PickFrom(before, n, limit, perNet)
      decreases steps - index
    {
      var address := AddressAt(n, span, index);
      OffersStep(picked, n, span, index, steps);
      if address >= SPACE {
        break;
      }
      if Holds(n, address) && address !in picked {
        picked := picked + [address];
      }
      index := index + 1;
    }
  }

  method Sample(cidrs: seq<Cidr>, limit: int, perNet: int) returns (picked: seq<nat>)
    requires AreNets(cidrs)
    ensures picked == Sampled([], cidrs, limit, perNet)
  {
    picked := [];
    for k := 0 to |cidrs|
      invariant Sampled(picked, cidrs[k..], limit, perNet) == Sampled([], cidrs, limit, perNet)
    {
      assert cidrs[k..][1..] == cidrs[k + 1..];
      if |picked| >= limit {
        break;
      }
      if !cidrs[k].V4? {
        continue;
      }
      picked := PickNet(picked, cidrs[k].net, limit, perNet);
    }
    SampleStaysWithin([], cidrs, limit, perNet);
    var cut := if limit < 0 then 0 else Min(limit, |picked|);
    assert picked[..|picked|] == picked;
    picked := picked[..cut];
  }

  // --------------------------------------------------------------- what is sampled

  predicate Distinct<T(==)>(s: seq<T>) {
    forall i, j | 0 <= i < j < |s| :: s[i] != s[j]
  }

  /** Strictly between the network and the broadcast address, where there is room. */
  predicate Inside(n: Net, a: nat) {
    Holds(n, a) && a > n.base && (n.size >= 4 ==> a < n.base + n.size - 1)
  }

  lemma SpanBound(size: nat, steps: int)
    requires size >= 2 && 0 < steps <= Max(1, size - 2)
    ensures var span := Span(size, steps); span > 0 && (steps - 1) * span <= Max(0, size - 3)
  {
    var span := Span(size, steps);
    if span == 1 {
      assert (steps - 1) * span == steps - 1;
    } else {
      assert steps * ((size - 3) / steps) <= size - 3;
      assert (steps - 1) * span == steps * span - span;
    }
  }

  lemma StepsBound(span: int, steps: int, i: int)
    requires span > 0 && 0 <= i < steps
    ensures i * span <= (steps - 1) * span
  {
    assert (steps - 1 - i) * span >= 0;
    assert (steps - 1 - i) * span == (steps - 1) * span - i * span;
  }

  lemma StrideFits(size: nat, steps: int, i: int)
    requires size >= 2 && 0 <= i < steps <= Max(1, size - 2)
    ensures var span := Span(size, steps);
            span > 0 && 1 + i * span < size && (size >= 4 ==> 1 + i * span < size - 1)
  {
    var span := Span(size, steps);
    SpanBound(size, steps);
    StepsBound(span, steps, i);
  }

  lemma OfferIsInside(n: Net, i: int, steps: int)
    requires IsNet(n) && n.size >= 2 && 0 <= i < steps <= Max(1, n.size - 2)
    ensures var span := Span(n.size, steps);
            span > 0 && AddressAt(n, span, i) < SPACE && Holds(n, AddressAt(n, span, i)) && Inside(n, AddressAt(n, span, i))
  {
    hide Span;
    StrideFits(n.size, steps, i);
    StrideIsNatural(Span(n.size, steps), i);
  }

  lemma StrideIsNatural(span: int, i: int)
    requires span > 0 && i >= 0
    ensures i * span >= 0
  {
  }

  /** A network offers as many different addresses as it has steps. */
  lemma {:induction false} OffersAreInside(n: Net, i: int, steps: int)
    requires IsNet(n) && n.size >= 2 && 0 <= i <= steps <= Max(1, n.size - 2) && steps > 0
    ensures var span := Span(n.size, steps);
            && |Offers(n, span, i, steps)| == steps - i
            && (forall k | 0 <= k < steps - i :: Offers(n, span, i, steps)[k] == AddressAt(n, span, i + k))
            && (forall a | a in Offers(n, span, i, steps) :: Inside(n, a))
    decreases steps - i
  {
    hide Span, Inside, IsNet;
    if i < steps {
      OfferIsInside(n, i, steps);
      OffersAreInside(n, i + 1, steps);
    } else {
      StrideFits(n.size, steps, 0);
    }
  }

  /** Each address lies `d` behind the one before. */
  predicate EvenSteps(offers: seq<nat>, d: nat) {
    forall k | 0 < k < |offers| :: offers[k] == offers[k - 1] + d
  }

  /** The addresses offered are spread over the network: the first one behind its network
      address, then equal steps, as wide as fit. */
  lemma OffersSpread(n: Net, steps: int) returns (d: nat)
    requires IsNet(n) && n.size >= 2 && 0 < steps <= Max(1, n.size - 2)
    ensures var offers := Offers(n, Span(n.size, steps), 0, steps);
            && |offers| == steps && offers[0] == n.base + 1 && EvenSteps(offers, d)
    ensures if n.size > 4 && steps <= n.size - 3 then steps * d <= n.size - 3 < steps * (d + 1) else d == 1
  {
    d := Span(n.size, steps);
    OffersAreInside(n, 0, steps);
    WidestStep(n.size, steps);
    hide Span;
    var offers := Offers(n, d, 0, steps);
    forall k | 0 < k < steps
      ensures offers[k] == offers[k - 1] + d
    {
      assert offers[k] == AddressAt(n, d, 0 + k) && offers[k - 1] == AddressAt(n, d, 0 + (k - 1));
      assert k * d == (k - 1) * d + d;
    }
    assert offers[0] == AddressAt(n, d, 0 + 0);
  }

  lemma WidestStep(size: nat, steps: int)
    requires steps > 0 && size >= 2
    ensures var d := Span(size, steps);
            d > 0 && if size > 4 && steps <= size - 3 then steps * d <= size - 3 < steps * (d + 1) else d == 1
  {
    if size > 4 {
      DivisionBounds(size - 3, steps);
    }
  }

  lemma DivisionBounds(a: int, b: int)
    requires a >= 0 && b > 0
    ensures b * (a / b) <= a < b * (a / b + 1) && (if a < b then a / b == 0 else a / b >= 1)
  {
  }

  /** The sample of one network of 256 addresses, four of them and spread. */
  lemma SampleOfClassC(base: nat)
    requires base + 256 <= SPACE
    ensures Sampled([], [V4(Net(base, 256))], 10, PER_NET) == [base + 1, base + 64, base + 127, base + 190]
  {
    var n := Net(base, 256);
    var offers := Offers(n, 63, 0, 4);
    assert Steps(256, 10, PER_NET) == 4 && Span(256, 4) == 63;
    OffersAreInside(n, 0, 4);
    assert offers == [base + 1, base + 64, base + 127, base + 190] by {
      assert |offers| == 4;
      assert offers[0] == AddressAt(n, 63, 0 + 0) && offers[1] == AddressAt(n, 63, 0 + 1);
      assert offers[2] == AddressAt(n, 63, 0 + 2) && offers[3] == AddressAt(n, 63, 0 + 3);
    }
    OffersAreDistinct(n, 4);
    ExtendFromNothing(offers);
    assert [V4(n)][1..] == [];
    assert PickFrom([], n, 10, PER_NET) == offers;
    hide Offers, Extend;
    assert Sampled([], [V4(n)], 10, PER_NET) == Sampled(offers, [], 10, PER_NET);
  }

  lemma {:induction false} ExtendByNew<T>(picked: seq<T>, more: seq<T>)
    requires Distinct(picked + more)
    ensures Extend(picked, more) == picked + more
    decreases |more|
  {
    if more == [] {
      assert picked + [] == picked;
    } else {
      assert (picked + more)[|picked|] == more[0];
      assert forall i | 0 <= i < |picked| :: (picked + more)[i] == picked[i];
      assert picked + more == picked + [more[0]] + more[1..];
      ExtendByNew(picked + [more[0]], more[1..]);
    }
  }

  lemma ExtendFromNothing<T>(more: seq<T>)
    requires Distinct(more)
    ensures Extend([], more) == more
  {
    assert [] + more == more;
    ExtendByNew([], more);
  }

  lemma OffersAreDistinct(n: Net, steps: int)
    requires IsNet(n) && n.size >= 2 && 0 < steps <= Max(1, n.size - 2)
    ensures Distinct(Offers(n, Span(n.size, steps), 0, steps))
  {
    var span := Span(n.size, steps);
    OffersAreInside(n, 0, steps);
    var offers := Offers(n, span, 0, steps);
    forall j, k | 0 <= j < k < |offers|
      ensures offers[j] != offers[k]
    {
      assert offers[j] == AddressAt(n, span, 0 + j) && offers[k] == AddressAt(n, span, 0 + k);
      AddressesDiffer(n, span, j, k);
    }
  }

  lemma {:induction false} AddressesDiffer(n: Net, span: int, j: int, k: int)
    requires span > 0 && 0 <= j < k
    ensures AddressAt(n, span, j) < AddressAt(n, span, k)
    decreases k
  {
    assert (k - 1) * span + span == k * span;
    if j < k - 1 {
      AddressesDiffer(n, span, j, k - 1);
    }
  }

  lemma SingleOffersNothing(n: Net, steps: int)
    requires n.size == 1 && steps <= 1
    ensures Offers(n, 1, 0, steps) == []
  {
  }

  lemma {:induction false} ExtendKeeps<T>(picked: seq<T>, more: seq<T>)
    requires Distinct(picked)
    ensures var r := Extend(picked, more);
            && Distinct(r) && |picked| <= |r| <= |picked| + |more|
            && (forall a :: a in r <==> a in picked || a in more)
    ensures Distinct(more) && (forall a | a in more :: a !in picked) ==> |Extend(picked, more)| == |picked| + |more|
    decreases |more|
  {
    if more != [] {
      var next := if more[0] in picked then picked else picked + [more[0]];
      ExtendKeeps(next, more[1..]);
      assert forall a :: a in more <==> a == more[0] || a in more[1..];
      assert forall i | 0 <= i < |more[1..]| :: more[1..][i] == more[i + 1];
    }
  }

  /** How many addresses a network contributes when nothing limits it. */
  function Yield(size: nat, perNet: int): nat {
    if size < 2 then 0 else Min(Max(1, perNet), Max(1, size - 2))
  }

  function TotalYield(cidrs: seq<Cidr>, perNet: int): nat {
    if cidrs == [] then 0
    else (if cidrs[0].V4? then Yield(cidrs[0].net.size, perNet) else 0) + TotalYield(cidrs[1..], perNet)
  }

  lemma PickFromIs(picked: seq<nat>, n: Net, limit: int, perNet: int)
    requires IsNet(n) && Distinct(picked) && |picked| < limit
    ensures var r := PickFrom(picked, n, limit, perNet);
            && Distinct(r) && |picked| <= |r| <= limit
            && (forall a | a in r :: a in picked || Inside(n, a))
            && (forall a | a in picked :: a in r)
            && ((forall a | a in picked :: !Holds(n, a)) ==>
                  |r| == Min(limit, |picked| + Yield(n.size, perNet)))
  {
    var steps := Steps(n.size, limit - |picked|, perNet);
    var offers := Offers(n, Span(n.size, steps), 0, steps);
    ExtendKeeps(picked, offers);
    if n.size >= 2 {
      OffersAreInside(n, 0, steps);
      OffersAreDistinct(n, steps);
    } else {
      SingleOffersNothing(n, steps);
    }
  }

  /** At most `limit` different addresses, each inside one of the networks. */
  lemma {:induction false} SampleStaysWithin(picked: seq<nat>, cidrs: seq<Cidr>, limit: int, perNet: int)
    requires AreNets(cidrs) && Distinct(picked) && |picked| <= Max(0, limit)
    ensures var r := Sampled(picked, cidrs, limit, perNet);
            && Distinct(r) && |r| <= Max(0, limit)
            && forall a | a in r ::
                 a in picked || exists i | 0 <= i < |cidrs| :: cidrs[i].V4? && Inside(cidrs[i].net, a)
    decreases |cidrs|
  {
    if cidrs != [] && |picked| < limit {
      var tail := cidrs[1..];
      assert forall i | 0 <= i < |tail| :: tail[i] == cidrs[i + 1];
      var next := picked;
      if cidrs[0].V4? {
        next := PickFrom(picked, cidrs[0].net, limit, perNet);
        PickFromIs(picked, cidrs[0].net, limit, perNet);
      }
      SampleStaysWithin(next, tail, limit, perNet);
      forall a | a in Sampled(next, tail, limit, perNet) && a !in picked
        ensures exists i | 0 <= i < |cidrs| :: cidrs[i].V4? && Inside(cidrs[i].net, a)
      {
        if a in next {
          assert Inside(cidrs[0].net, a);
        } else {
          var i :| 0 <= i < |tail| && tail[i].V4? && Inside(tail[i].net, a);
          assert cidrs[i + 1].V4? && Inside(cidrs[i + 1].net, a);
        }
      }
    }
  }

  predicate Disjoint(a: Net, b: Net) {
    a.base + a.size <= b.base || b.base + b.size <= a.base
  }

  predicate PairwiseDisjoint(cidrs: seq<Cidr>) {
    forall i, j | 0 <= i < j < |cidrs| && cidrs[i].V4? && cidrs[j].V4? :: Disjoint(cidrs[i].net, cidrs[j].net)
  }

  predicate Outside(picked: seq<nat>, cidrs: seq<Cidr>) {
    forall a, i | a in picked && 0 <= i < |cidrs| && cidrs[i].V4? :: !Holds(cidrs[i].net, a)
  }

  /** Disjoint networks yield exactly the sum of what each can give, up to the limit;
      a single address gives nothing. */
  lemma {:induction false} SampleCounts(picked: seq<nat>, cidrs: seq<Cidr>, limit: int, perNet: int)
    requires AreNets(cidrs) && PairwiseDisjoint(cidrs)
    requires Distinct(picked) && |picked| <= limit && Outside(picked, cidrs)
    ensures |Sampled(picked, cidrs, limit, perNet)| == Min(limit, |picked| + TotalYield(cidrs, perNet))
    decreases |cidrs|
  {
    if cidrs != [] && |picked| < limit {
      var tail := cidrs[1..];
      assert forall i | 0 <= i < |tail| :: tail[i] == cidrs[i + 1];
      var next := picked;
      if cidrs[0].V4? {
        assert forall a | a in picked :: !Holds(cidrs[0].net, a);
        next := PickFrom(picked, cidrs[0].net, limit, perNet);
        PickFromIs(picked, cidrs[0].net, limit, perNet);
      }
      NextIsOutside(picked, next, cidrs);
      SampleCounts(next, tail, limit, perNet);
    }
  }

  lemma NextIsOutside(picked: seq<nat>, next: seq<nat>, cidrs: seq<Cidr>)
    requires cidrs != [] && AreNets(cidrs) && PairwiseDisjoint(cidrs) && Outside(picked, cidrs)
    requires forall a | a in next :: a in picked || (cidrs[0].V4? && Inside(cidrs[0].net, a))
    ensures Outside(next, cidrs[1..])
  {
    forall a, i | a in next && 0 <= i < |cidrs[1..]| && cidrs[1..][i].V4?
      ensures !Holds(cidrs[1..][i].net, a)
    {
      assert cidrs[1..][i] == cidrs[i + 1];
      if a !in picked {
        assert Disjoint(cidrs[0].net, cidrs[i + 1].net);
      }
    }
  }

  /** A sample is empty exactly when nothing may be sampled or every IPv4 network is a
      single address, whose only candidate lies outside it. */
  lemma {:induction false} SinglesSampleToNothing(cidrs: seq<Cidr>, limit: int, perNet: int)
    requires AreNets(cidrs)
    ensures Sampled([], cidrs, limit, perNet) == []
       <==> limit <= 0 || forall i | 0 <= i < |cidrs| && cidrs[i].V4? :: cidrs[i].net.size == 1
    decreases |cidrs|
  {
    if cidrs != [] && limit > 0 {
      var tail := cidrs[1..];
      assert forall i | 0 <= i < |tail| :: tail[i] == cidrs[i + 1];
      if cidrs[0].V4? {
        var next := PickFrom([], cidrs[0].net, limit, perNet);
        PickFromIs([], cidrs[0].net, limit, perNet);
        SampledKeeps(next, tail, limit, perNet);
      }
      SinglesSampleToNothing(tail, limit, perNet);
    }
  }

  lemma {:induction false} SampledKeeps(picked: seq<nat>, cidrs: seq<Cidr>, limit: int, perNet: int)
    ensures picked <= Sampled(picked, cidrs, limit, perNet)
    decreases |cidrs|
  {
    if cidrs != [] && |picked| < limit {
      var next := picked;
      if cidrs[0].V4? {
        var n := cidrs[0].net;
        var steps := Steps(n.size, limit - |picked|, perNet);
        next := PickFrom(picked, n, limit, perNet);
        ExtendPrefix(picked, Offers(n, Span(n.size, steps), 0, steps));
      }
      SampledKeeps(next, cidrs[1..], limit, perNet);
    }
  }

  // ------------------------------------------------------------- published addresses

  /** An address of the pool: an IPv4 number, or any other text. */
  datatype Address = Ip(n: nat) | Other(text: string)

  predicate InRanges(a: Address, ranges: seq<Net>) {
    a.Ip? && exists i | 0 <= i < |ranges| :: Holds(ranges[i], a.n)
  }

  function Filtered(pool: seq<Address>, ranges: seq<Net>): (kept: seq<Address>)
    ensures forall a | a in kept :: InRanges(a, ranges)
  {
    if pool == [] then []
    else (if InRanges(pool[0], ranges) then [pool[0]] else []) + Filtered(pool[1..], ranges)
  }

  method AppendNew(ordered: seq<Address>, more: seq<Address>) returns (r: seq<Address>)
    ensures r == Extend(ordered, more)
  {
    r := ordered;
    for k := 0 to |more|
      invariant Extend(r, more[k..]) == Extend(ordered, more)
    {
      assert more[k..][1..] == more[k + 1..];
      if more[k] !in r {
        r := r + [more[k]];
      }
    }
  }

  function AsCidrs(ranges: seq<Net>): (cs: seq<Cidr>)
    ensures |cs| == |ranges| && forall i | 0 <= i < |cs| :: cs[i] == V4(ranges[i])
  {
    seq(|ranges|, i requires 0 <= i < |ranges| => V4(ranges[i]))
  }

  function AsAddresses(ns: seq<nat>): (a: seq<Address>)
    ensures |a| == |ns| && forall i | 0 <= i < |a| :: a[i] == Ip(ns[i])
  {
    seq(|ns|, i requires 0 <= i < |ns| => Ip(ns[i]))
  }

  const PER_NET: int := 4

  /** The measured addresses a location may use. */
  function Measured(pool: seq<Address>, ranges: seq<Net>): seq<Address> {
    if ranges != [] then Filtered(pool, ranges) else pool
  }

  function Samples(ranges: seq<Net>, limit: nat): seq<Address> {
    AsAddresses(Sampled([], AsCidrs(ranges), Max(limit * 2, 8), PER_NET))
  }

  /** Everything a location could publish, in order of preference and without repeats:
      what the admin typed, the measured pool, samples of the ranges. */
  function Preferred(literal: seq<Address>, pool: seq<Address>, ranges: seq<Net>, limit: nat): seq<Address> {
    Extend([], literal + Measured(pool, ranges) + if ranges != [] then Samples(ranges, limit) else [])
  }

  function First<T>(s: seq<T>, n: nat): seq<T> {
    if |s| < n then s else s[..n]
  }

  /** The most preferred addresses, although the ranges are sampled only when the
      others do not suffice. */
  method OrderedIps(literal: seq<Address>, pool: seq<Address>, ranges: seq<Net>, limit: nat)
    returns (published: seq<Address>)
    requires limit > 0 && forall i | 0 <= i < |ranges| :: IsNet(ranges[i])
    ensures published == First(Preferred(literal, pool, ranges, limit), limit)
  {
    var ordered := AppendNew([], literal + Measured(pool, ranges));
    ExtendConcat([], literal + Measured(pool, ranges), Samples(ranges, limit));
    ExtendPrefix(ordered, Samples(ranges, limit));
    if ranges != [] && |ordered| < limit {
      var extras := Sample(AsCidrs(ranges), Max(limit * 2, 8), PER_NET);
      ordered := AppendNew(ordered, AsAddresses(extras));
    }
    assert literal + Measured(pool, ranges) + [] == literal + Measured(pool, ranges);
    published := if |ordered| < limit then ordered else ordered[..limit];
  }

  lemma {:induction false} ExtendConcat<T>(picked: seq<T>, a: seq<T>, b: seq<T>)
    ensures Extend(picked, a + b) == Extend(Extend(picked, a), b)
    decreases |a|
  {
    if a == [] {
      assert a + b == b;
    } else {
      assert (a + b)[1..] == a[1..] + b;
      ExtendConcat(if a[0] in picked then picked else picked + [a[0]], a[1..], b);
    }
  }

  lemma {:induction false} ExtendPrefix<T>(picked: seq<T>, more: seq<T>)
    ensures picked <= Extend(picked, more)
    decreases |more|
  {
    if more != [] {
      ExtendPrefix(if more[0] in picked then picked else picked + [more[0]], more[1..]);
    }
  }

  /** What a location publishes: at most `limit` different addresses, all typed, in its
      ranges, or from the pool when it has no ranges; typed ones come first. */
  lemma PublishedIs(literal: seq<Address>, pool: seq<Address>, ranges: seq<Net>, limit: nat)
    requires limit > 0 && forall i | 0 <= i < |ranges| :: IsNet(ranges[i])
    ensures var published := First(Preferred(literal, pool, ranges, limit), limit);
            && |published| <= limit && Distinct(published)
            && First(Extend([], literal), limit) <= published
            && (ranges != [] ==> forall a | a in published :: a in literal || InRanges(a, ranges))
            && (ranges == [] ==> forall a | a in published :: a in literal || a in pool)
  {
    hide Extend, Sampled;
    var rest := Measured(pool, ranges) + if ranges != [] then Samples(ranges, limit) else [];
    assert literal + Measured(pool, ranges) + (if ranges != [] then Samples(ranges, limit) else []) == literal + rest;
    ExtendKeeps([], literal + rest);
    ExtendConcat([], literal, rest);
    ExtendPrefix(Extend([], literal), rest);
    if ranges != [] {
      SampleIsInRanges(ranges, Max(limit * 2, 8), Sampled([], AsCidrs(ranges), Max(limit * 2, 8), PER_NET));
    }
  }

  lemma {:induction false} FilteredIs(pool: seq<Address>, ranges: seq<Net>, a: Address)
    ensures a in Filtered(pool, ranges)
       <==> a in pool && a.Ip?
            && exists i | 0 <= i < |ranges| :: ranges[i].base <= a.n < ranges[i].base + ranges[i].size
  {
    assert InRanges(a, ranges)
      <==> a.Ip? && exists i | 0 <= i < |ranges| :: ranges[i].base <= a.n < ranges[i].base + ranges[i].size by {
      assert forall i | 0 <= i < |ranges| && a.Ip? ::
          Holds(ranges[i], a.n) <==> ranges[i].base <= a.n < ranges[i].base + ranges[i].size;
    }
    hide InRanges;
    if pool != [] {
      FilteredIs(pool[1..], ranges, a);
      assert a in pool <==> a == pool[0] || a in pool[1..];
    }
  }

  lemma {:induction false} FilteredConcat(a: seq<Address>, b: seq<Address>, ranges: seq<Net>)
    ensures Filtered(a + b, ranges) == Filtered(a, ranges) + Filtered(b, ranges)
  {
    hide InRanges;
    if a == [] {
      assert a + b == b;
    } else {
      assert (a + b)[1..] == a[1..] + b;
      FilteredConcat(a[1..], b, ranges);
    }
  }

  /** An address a location may publish: typed, or measured and, with ranges, inside. */
  predicate Offered(a: Address, typed: seq<Address>, pool: seq<Address>, ranges: seq<Net>) {
    a in typed || (a in pool && (ranges == [] || LiesIn(a, ranges)))
  }

  /** An IPv4 address between the first and the last of one of the networks. */
  predicate LiesIn(a: Address, ranges: seq<Net>) {
    a.Ip? && exists i | 0 <= i < |ranges| :: ranges[i].base <= a.n < ranges[i].base + ranges[i].size
  }

  lemma MeasuredIs(pool: seq<Address>, ranges: seq<Net>, a: Address)
    ensures a in Measured(pool, ranges) <==> a in pool && (ranges == [] || LiesIn(a, ranges))
  {
    FilteredIs(pool, ranges, a);
  }

  lemma MeasuredConcat(pool: seq<Address>, k: nat, ranges: seq<Net>)
    requires k <= |pool|
    ensures Measured(pool, ranges) == Measured(pool[..k], ranges) + Measured(pool[k..], ranges)
  {
    FilteredConcat(pool[..k], pool[k..], ranges);
    assert pool == pool[..k] + pool[k..];
  }

  /** Nothing is passed over: take any of the typed addresses from the front, or all of
      them and any of the pool from the front. A first part of the list is made of the
      usable ones among them, and holds all of them unless the list is full. So typed
      addresses come before measured ones, these in pool order, and samples last. */
  lemma PublishedInOrder(literal: seq<Address>, pool: seq<Address>, ranges: seq<Net>, limit: nat, typed: nat, k: nat)
      returns (n: nat)
    requires limit > 0 && typed <= |literal| && k <= |pool| && (k > 0 ==> typed == |literal|)
    ensures var published := First(Preferred(literal, pool, ranges, limit), limit);
            && n <= |published|
            && (forall a | a in published[..n] :: Offered(a, literal[..typed], pool[..k], ranges))
            && (n < limit ==> forall a | Offered(a, literal[..typed], pool[..k], ranges) :: a in published[..n])
  {
    var front := literal[..typed] + Measured(pool[..k], ranges);
    var samples := if ranges != [] then Samples(ranges, limit) else [];
    var rest := literal[typed..] + Measured(pool[k..], ranges) + samples;
    OfferedFirst(literal, pool, ranges, typed, k, samples);
    FrontIs(literal[..typed], pool[..k], ranges);
    assert Preferred(literal, pool, ranges, limit) == Extend([], front + rest);
    hide *;
    n := FirstPart(front, rest, limit);
  }

  lemma FrontIs(typed: seq<Address>, pool: seq<Address>, ranges: seq<Net>)
    ensures forall a :: a in typed + Measured(pool, ranges) <==> Offered(a, typed, pool, ranges)
  {
    forall a: Address
      ensures a in typed + Measured(pool, ranges) <==> Offered(a, typed, pool, ranges)
    {
      MeasuredIs(pool, ranges, a);
    }
  }

  /** Of two parts of a list, the first fills the front. */
  lemma FirstPart(front: seq<Address>, rest: seq<Address>, limit: nat) returns (n: nat)
    ensures var published := First(Extend([], front + rest), limit);
            && n <= |published|
            && (forall a | a in published[..n] :: a in front)
            && (n < limit ==> forall a | a in front :: a in published[..n])
  {
    ExtendConcat([], front, rest);
    ExtendPrefix(Extend([], front), rest);
    ExtendKeeps([], front);
    var published := First(Extend([], front + rest), limit);
    n := Min(|Extend([], front)|, |published|);
    hide Extend;
    assert published[..n] == Extend([], front)[..n];
    if n < limit {
      assert Extend([], front)[..n] == Extend([], front);
    }
  }

  lemma OfferedFirst(literal: seq<Address>, pool: seq<Address>, ranges: seq<Net>, typed: nat, k: nat,
                     samples: seq<Address>)
    requires typed <= |literal| && k <= |pool| && (k > 0 ==> typed == |literal|)
    ensures literal + Measured(pool, ranges) + samples
         == literal[..typed] + Measured(pool[..k], ranges) + (literal[typed..] + Measured(pool[k..], ranges) + samples)
  {
    MeasuredConcat(pool, k, ranges);
    var m, n := Measured(pool[..k], ranges), Measured(pool[k..], ranges);
    assert k == 0 ==> m == [] by {
      assert k == 0 ==> pool[..k] == [];
    }
    hide Measured;
    if k == 0 {
      CutInThree(literal[..typed], literal[typed..], n, samples);
      assert literal == literal[..typed] + literal[typed..];
    } else {
      Regroup(literal, m, n, samples);
      assert literal[..typed] == literal && literal[typed..] == [];
    }
  }

  lemma CutInThree(a: seq<Address>, b: seq<Address>, c: seq<Address>, d: seq<Address>)
    ensures a + b + ([] + c) + d == a + [] + (b + c + d)
  {
  }

  lemma Regroup(a: seq<Address>, b: seq<Address>, c: seq<Address>, d: seq<Address>)
    ensures a + (b + c) + d == a + b + ([] + c + d)
  {
  }

  /** Disjoint ranges fill the location as far as they reach. */
  lemma RangesFill(literal: seq<Address>, pool: seq<Address>, ranges: seq<Net>, limit: nat)
    requires limit > 0 && ranges != [] && forall i | 0 <= i < |ranges| :: IsNet(ranges[i])
    requires PairwiseDisjoint(AsCidrs(ranges))
    ensures |First(Preferred(literal, pool, ranges, limit), limit)| >= Min(limit, TotalYield(AsCidrs(ranges), PER_NET))
  {
    hide Extend, Sampled;
    var extras := Sampled([], AsCidrs(ranges), Max(limit * 2, 8), PER_NET);
    SampleIsInRanges(ranges, Max(limit * 2, 8), extras);
    SampleCounts([], AsCidrs(ranges), Max(limit * 2, 8), PER_NET);
    ExtendKeeps([], literal + Measured(pool, ranges) + Samples(ranges, limit));
    ManyDistinct(AsAddresses(extras), Preferred(literal, pool, ranges, limit));
  }

  lemma SampleIsInRanges(ranges: seq<Net>, limit: int, extras: seq<nat>)
    requires forall i | 0 <= i < |ranges| :: IsNet(ranges[i])
    requires extras == Sampled([], AsCidrs(ranges), limit, PER_NET)
    ensures Distinct(extras) && Distinct(AsAddresses(extras))
    ensures forall a | a in AsAddresses(extras) :: InRanges(a, ranges)
  {
    SampleStaysWithin([], AsCidrs(ranges), limit, PER_NET);
    forall a | a in AsAddresses(extras)
      ensures InRanges(a, ranges)
    {
      assert a.n in extras;
      var i :| 0 <= i < |AsCidrs(ranges)| && AsCidrs(ranges)[i].V4? && Inside(AsCidrs(ranges)[i].net, a.n);
      assert Holds(ranges[i], a.n);
    }
  }

  /** A list holding as many different addresses is at least as long. */
  lemma {:induction false} ManyDistinct(some: seq<Address>, all: seq<Address>)
    requires Distinct(some) && forall a | a in some :: a in all
    ensures |some| <= |all|
  {
    SeqSize(some);
    SeqSize(all);
    SubsetSize(set a | a in some, set a | a in all);
  }

  lemma {:induction false} SeqSize(s: seq<Address>)
    ensures |set a | a in s| <= |s|
    ensures Distinct(s) ==> |set a | a in s| == |s|
  {
    if s != [] {
      SeqSize(s[1..]);
      assert (set a | a in s) == (set a | a in s[1..]) + {s[0]};
      assert forall i | 0 <= i < |s[1..]| :: s[1..][i] == s[i + 1];
    }
  }

  datatype Location = Location(literal: seq<Address>, pool: seq<Address>, ranges: seq<Net>, limit: nat)

  predicate DisjointLocations(a: Location, b: Location) {
    && a.literal == [] && b.literal == [] && a.ranges != [] && b.ranges != []
    && forall i, j | 0 <= i < |a.ranges| && 0 <= j < |b.ranges| :: Disjoint(a.ranges[i], b.ranges[j])
  }

  predicate NoneShared(a: seq<Address>, b: seq<Address>) {
    forall x | x in a :: x !in b
  }

  predicate IsLocation(l: Location) {
    l.limit > 0 && forall i | 0 <= i < |l.ranges| :: IsNet(l.ranges[i])
  }

  function PublishedBy(l: Location): seq<Address> {
    First(Preferred(l.literal, l.pool, l.ranges, l.limit), l.limit)
  }

  /** Locations with disjoint ranges and no literal addresses publish none in common. */
  lemma OwnAddresses(a: Location, b: Location)
    requires IsLocation(a) && IsLocation(b) && DisjointLocations(a, b)
    ensures NoneShared(PublishedBy(a), PublishedBy(b))
  {
    PublishedIs(a.literal, a.pool, a.ranges, a.limit);
    PublishedIs(b.literal, b.pool, b.ranges, b.limit);
    hide Preferred, First;
    forall x | x in PublishedBy(a)
      ensures x !in PublishedBy(b)
    {
      var i :| 0 <= i < |a.ranges| && Holds(a.ranges[i], x.n);
      assert forall j | 0 <= j < |b.ranges| :: Disjoint(a.ranges[i], b.ranges[j]);
    }
  }
}
