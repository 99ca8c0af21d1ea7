/**
 Traffic statistics: reports are added up under an identifier until someone asks,
 and are then handed over and forgotten.
 */
module Traffic {
  import opened Common

  datatype Report = Report(name: string, kind: string, source: string, proxy: string, downlink: int, uplink: int)

  /** Reports with the same identifier are added up. */
  function Id(r: Report): string {
    r.name + "_" + r.kind + "_" + r.source + "_" + r.proxy
  }

  function Plus(a: Report, b: Report): Report {
    a.(downlink := a.downlink + b.downlink, uplink := a.uplink + b.uplink)
  }

  type Pending = map<string, Report>

  function AddReport(p: Pending, r: Report): Pending {
    p[Id(r) := if Id(r) in p then Plus(p[Id(r)], r) else r]
  }

  function Entries(p: Pending, order: seq<string>): (rs: seq<Report>)
    requires forall id :: id in order ==> id in p
    ensures |rs| == |order|
  {
    seq(|order|, i requires 0 <= i < |order| => p[order[i]])
  }

  // ---------------------------------------------------------------- sums

  datatype Direction = Down | Up

  function Amount(r: Report, d: Direction): int {
    if d.Down? then r.downlink else r.uplink
  }

  /** The traffic in one direction that was reported under the chosen identifiers. */
  function Sum(rs: seq<Report>, pick: string -> bool, d: Direction): int {
    if rs == [] then 0
    else Sum(rs[..|rs| - 1], pick, d) + if pick(Id(rs[|rs| - 1])) then Amount(rs[|rs| - 1], d) else 0
  }

  lemma {:induction false} SumAppend(a: seq<Report>, b: seq<Report>, pick: string -> bool, d: Direction)
    ensures Sum(a + b, pick, d) == Sum(a, pick, d) + Sum(b, pick, d)
  {
    if b == [] {
      assert a + b == a;
    } else {
      var k := |b| - 1;
      SumAppend(a, b[..k], pick, d);
      assert (a + b)[..|a + b| - 1] == a + b[..k];
    }
  }

  /** Entries are kept under their own identifier. */
  ghost predicate Keyed(p: Pending) {
    forall id :: id in p ==> Id(p[id]) == id
  }

  lemma {:induction false} OrderFree(p: Pending, a: seq<string>, b: seq<string>, pick: string -> bool, d: Direction)
    requires forall i, j :: 0 <= i < j < |a| ==> a[i] != a[j]
    requires forall i, j :: 0 <= i < j < |b| ==> b[i] != b[j]
    requires (forall id :: id in a <==> id in b) && (forall id :: id in a ==> id in p)
    ensures Sum(Entries(p, a), pick, d) == Sum(Entries(p, b), pick, d)
    decreases |a|
  {
    assert b != [] ==> b[0] in b;
    if a != [] {
      var k := |a| - 1;
      var id := a[k];
      assert id in b;
      var i :| 0 <= i < |b| && b[i] == id;
      var b' := b[..i] + b[i + 1..];
      SameRest(a, b, k, i);
      OrderFree(p, a[..k], b', pick, d);
      assert Entries(p, a)[..k] == Entries(p, a[..k]);
      TakeOut(p, b, i, pick, d);
    }
  }

  lemma SameRest(a: seq<string>, b: seq<string>, k: nat, i: nat)
    requires k == |a| - 1 && i < |b| && a[k] == b[i]
    requires forall i, j :: 0 <= i < j < |a| ==> a[i] != a[j]
    requires forall i, j :: 0 <= i < j < |b| ==> b[i] != b[j]
    requires forall id :: id in a <==> id in b
    ensures forall id :: id in a[..k] <==> id in b[..i] + b[i + 1..]
  {
    var b' := b[..i] + b[i + 1..];
    assert a == a[..k] + [a[k]];
    assert b == b[..i] + [b[i]] + b[i + 1..];
    assert a[k] !in a[..k];
    assert b[i] !in b[..i] && b[i] !in b[i + 1..];
    forall id ensures id in a[..k] <==> id in b' {
      assert id in b' <==> id in b && id != b[i];
      assert id in a[..k] <==> id in a && id != a[k];
    }
  }

  lemma TakeOut(p: Pending, b: seq<string>, i: nat, pick: string -> bool, d: Direction)
    requires i < |b| && forall id :: id in b ==> id in p
    ensures forall id :: id in b[..i] + b[i + 1..] ==> id in p
    ensures var r := p[b[i]];
            Sum(Entries(p, b), pick, d)
            == Sum(Entries(p, b[..i] + b[i + 1..]), pick, d) + if pick(Id(r)) then Amount(r, d) else 0
  {
    var r := p[b[i]];
    var x, y := Entries(p, b[..i]), Entries(p, b[i + 1..]);
    assert Entries(p, b) == x + [r] + y;
    assert Entries(p, b[..i] + b[i + 1..]) == x + y;
    SumAppend(x + [r], y, pick, d);
    SumAppend(x, [r], pick, d);
    SumAppend(x, y, pick, d);
    assert Sum([r], pick, d) == if pick(Id(r)) then Amount(r, d) else 0;
  }

  // ---------------------------------------------------------------- runs

  datatype Event = Deliver(r: Report) | Drain(order: seq<string>)

  ghost predicate Possible(p: Pending, es: seq<Event>)
    decreases |es|
  {
    es != [] ==>
      match es[0]
      case Deliver(r) => Possible(AddReport(p, r), es[1..])
      case Drain(order) => Orders(order, p.Keys) && Possible(map[], es[1..])
  }

  function After(p: Pending, es: seq<Event>): Pending
    decreases |es|
  {
    if es == [] then p
    else
      match es[0]
      case Deliver(r) => After(AddReport(p, r), es[1..])
      case Drain(_) => After(map[], es[1..])
  }

  /** All that was reported. */
  function Delivered(es: seq<Event>): seq<Report> {
    if es == [] then []
    else (if es[0].Deliver? then [es[0].r] else []) + Delivered(es[1..])
  }

  /** All that the replies said. */
  ghost function Replied(p: Pending, es: seq<Event>): seq<Report>
    requires Possible(p, es)
    decreases |es|
  {
    if es == [] then []
    else
      match es[0]
      case Deliver(r) => Replied(AddReport(p, r), es[1..])
      case Drain(order) => Entries(p, order) + Replied(map[], es[1..])
  }

  lemma PlusKeepsId(a: Report, b: Report)
    ensures Id(Plus(a, b)) == Id(a)
  {
  }

  lemma CollectOld(p: Pending, r: Report, order: seq<string>, pick: string -> bool, d: Direction)
    requires Keyed(p) && Orders(order, p.Keys) && Id(r) in p
    ensures Keyed(AddReport(p, r)) && Orders(order, AddReport(p, r).Keys)
    ensures Sum(Entries(AddReport(p, r), order), pick, d)
        == Sum(Entries(p, order), pick, d) + if pick(Id(r)) then Amount(r, d) else 0
  {
    hide Id;
    var p', id := AddReport(p, r), Id(r);
    PlusKeepsId(p[id], r);
    var i :| 0 <= i < |order| && order[i] == id;
    var rest := order[..i] + order[i + 1..];
    TakeOut(p, order, i, pick, d);
    TakeOut(p', order, i, pick, d);
    assert Entries(p', rest) == Entries(p, rest) by {
      assert id !in order[..i] && id !in order[i + 1..];
      assert forall k :: 0 <= k < |rest| ==> rest[k] in rest && rest[k] != id;
    }
  }

  lemma CollectNew(p: Pending, r: Report, order: seq<string>, pick: string -> bool, d: Direction)
    requires Keyed(p) && Orders(order, p.Keys) && Id(r) !in p
    ensures Keyed(AddReport(p, r)) && Orders(order + [Id(r)], AddReport(p, r).Keys)
    ensures Sum(Entries(AddReport(p, r), order + [Id(r)]), pick, d)
        == Sum(Entries(p, order), pick, d) + if pick(Id(r)) then Amount(r, d) else 0
  {
    hide Id;
    var p' := AddReport(p, r);
    assert forall k :: 0 <= k < |order| ==> order[k] in order;
    assert Entries(p', order + [Id(r)]) == Entries(p, order) + [r];
    assert (Entries(p, order) + [r])[..|order|] == Entries(p, order);
  }

  lemma CollectSum(p: Pending, r: Report, order: seq<string>, pick: string -> bool, d: Direction)
      returns (order': seq<string>)
    requires Keyed(p) && Orders(order, p.Keys)
    ensures Keyed(AddReport(p, r)) && Orders(order', AddReport(p, r).Keys)
    ensures Sum(Entries(AddReport(p, r), order'), pick, d) == Sum(Entries(p, order), pick, d) + Sum([r], pick, d)
  {
    SumOne(r, pick, d);
    hide Id, Keyed, AddReport, Orders, Sum;
    if Id(r) in p {
      order' := order;
      CollectOld(p, r, order, pick, d);
    } else {
      order' := order + [Id(r)];
      CollectNew(p, r, order, pick, d);
    }
  }

  lemma SumOne(r: Report, pick: string -> bool, d: Direction)
    ensures Sum([r], pick, d) == if pick(Id(r)) then Amount(r, d) else 0
  {
    assert [r][..0] == [];
  }

  /**
   Conservation: for any choice of identifiers and in each direction, what was pending at first and what
   was delivered since is what the replies reported and what is pending now.
   */
  lemma {:induction false} Conserved(p: Pending, es: seq<Event>, before: seq<string>, after: seq<string>,
      pick: string -> bool, d: Direction)
    requires Keyed(p) && Possible(p, es) && Orders(before, p.Keys) && Orders(after, After(p, es).Keys)
    ensures Sum(Entries(p, before), pick, d) + Sum(Delivered(es), pick, d)
         == Sum(Replied(p, es), pick, d) + Sum(Entries(After(p, es), after), pick, d)
    decreases |es|
  {
    hide Id;
    if es == [] {
      OrderFree(p, before, after, pick, d);
    } else {
      match es[0] {
        case Deliver(r) =>
          var before' := CollectSum(p, r, before, pick, d);
          Conserved(AddReport(p, r), es[1..], before', after, pick, d);
          SumAppend([r], Delivered(es[1..]), pick, d);
        case Drain(order) =>
          OrderFree(p, before, order, pick, d);
          Conserved(map[], es[1..], [], after, pick, d);
          SumAppend(Entries(p, order), Replied(map[], es[1..]), pick, d);
          assert [] + Delivered(es[1..]) == Delivered(es[1..]);
      }
    }
  }

  /** From an empty table, in total and for each identifier. */
  lemma TrafficConserved(es: seq<Event>, after: seq<string>, id: string, d: Direction)
    requires Possible(map[], es) && Orders(after, After(map[], es).Keys)
    ensures Sum(Delivered(es), _ => true, d)
        == Sum(Replied(map[], es), _ => true, d) + Sum(Entries(After(map[], es), after), _ => true, d)
    ensures var one := (s: string) => s == id;
            Sum(Delivered(es), one, d) == Sum(Replied(map[], es), one, d)
                + Sum(Entries(After(map[], es), after), one, d)
  {
    Conserved(map[], es, [], after, _ => true, d);
    Conserved(map[], es, [], after, (s: string) => s == id, d);
  }

  // ---------------------------------------------------------------- identifiers

  /** What the collectors deliver: three kinds of traffic and two proxies, under the name of this server. */
  const KINDS: seq<string> := ["user", "inbound", "outbound"]
  const PROXIES: seq<string> := ["Xray/V2ray", "hysteria"]

  predicate Deliverable(r: Report) {
    r.kind in KINDS && r.proxy in PROXIES
  }

  predicate SameSource(r: Report, q: Report) {
    r.name == q.name && r.kind == q.kind && r.source == q.source && r.proxy == q.proxy
  }

  /**
   Reports of one server are added up exactly when they are about the same thing, whatever characters the
   names hold.
   */
  lemma IdInjective(r: Report, q: Report)
    requires Deliverable(r) && Deliverable(q) && r.source == q.source
    ensures Id(r) == Id(q) <==> SameSource(r, q)
  {
    if Id(r) == Id(q) {
      IdEnds(r);
      IdEnds(q);
      SameProxy(r, q);
      var tail := "_" + r.source + "_" + r.proxy;
      SameHead(r.name + "_" + r.kind, q.name + "_" + q.kind, tail);
      SameKind(r.name + "_", r.kind, q.name + "_", q.kind);
      SameHead(r.name, q.name, "_" + r.kind);
    }
  }

  /** Reports about one thing from different servers are kept apart. */
  lemma SourcesApart(r: Report, q: Report)
    requires r.name == q.name && r.kind == q.kind && r.proxy == q.proxy
    ensures Id(r) == Id(q) <==> r.source == q.source
  {
    if Id(r) == Id(q) {
      var head, tail := r.name + "_" + r.kind + "_", "_" + r.proxy;
      assert Id(r) == head + (r.source + tail) && Id(q) == head + (q.source + tail);
      assert (head + (r.source + tail))[|head|..] == r.source + tail;
      assert (head + (q.source + tail))[|head|..] == q.source + tail;
      SameHead(r.source, q.source, tail);
    }
  }

  /** Where both name and server differ the identifiers may clash. */
  lemma IdsMayClash(kind: string, proxy: string)
    ensures Id(Report("a", kind, "b_" + kind + "_c", proxy, 1, 1))
        == Id(Report("a_" + kind + "_b", kind, "c", proxy, 1, 1))
  {
    var r, q := Report("a", kind, "b_" + kind + "_c", proxy, 1, 1), Report("a_" + kind + "_b", kind, "c", proxy, 1, 1);
    var text := "a_" + kind + "_b_" + kind + "_c_" + proxy;
    assert Id(r) == text;
    assert Id(q) == text;
  }

  lemma IdEnds(r: Report)
    ensures Id(r) == (r.name + "_" + r.kind) + ("_" + r.source + "_" + r.proxy)
    ensures r.proxy != "" ==> Id(r)[|Id(r)| - 1] == r.proxy[|r.proxy| - 1]
    ensures r.name + "_" + r.kind == r.name + ("_" + r.kind)
  {
  }

  /** The last letters of the two proxies differ. */
  lemma SameProxy(r: Report, q: Report)
    requires Id(r) == Id(q) && r.proxy in PROXIES && q.proxy in PROXIES
    ensures r.proxy == q.proxy
  {
    IdEnds(r);
    IdEnds(q);
    hide Id;
    assert PROXIES[0][9] == 'y' && PROXIES[1][7] == 'a';
  }

  lemma SameHead(a: string, b: string, tail: string)
    requires a + tail == b + tail
    ensures a == b
  {
    assert |a| == |b|;
    assert (a + tail)[..|a|] == a && (b + tail)[..|b|] == b;
  }

  /** So do the last letters of the kinds, or the ones before "bound". */
  lemma SameKind(a: string, k: string, b: string, l: string)
    requires a + k == b + l && k in KINDS && l in KINDS
    ensures k == l
  {
    var s := a + k;
    KindEnds(a, k);
    KindEnds(b, l);
  }

  lemma KindEnds(a: string, k: string)
    requires k in KINDS
    ensures var s := a + k;
            && |s| >= 4
            && (k == "user" <==> s[|s| - 1] == 'r')
            && (k == "inbound" ==> |s| >= 6 && s[|s| - 1] == 'd' && s[|s| - 6] == 'n')
            && (k == "outbound" ==> |s| >= 6 && s[|s| - 1] == 'd' && s[|s| - 6] == 't')
  {
    assert KINDS[0] == "user" && KINDS[1] == "inbound" && KINDS[2] == "outbound";
    assert (a + k)[|a|..] == k;
  }

  // ---------------------------------------------------------------- in place

  class Stats {
    const name: string
    const kind: string
    const source: string
    const proxy: string
    var downlink: int
    var uplink: int

    constructor (r: Report)
      ensures Abs() == r
    {
      name, kind, source, proxy, downlink, uplink := r.name, r.kind, r.source, r.proxy, r.downlink, r.uplink;
    }

    function Abs(): (r: Report)
      reads this
    {
      Report(name, kind, source, proxy, downlink, uplink)
    }
  }

  class Collector {
    var statsMap: map<string, Stats>
    ghost var returned: set<Stats>  // the objects in replies

    constructor ()
      ensures Valid() && Abs(statsMap) == map[] && returned == {}
    {
      statsMap, returned := map[], {};
    }

    /** No object is in the table twice, and none that has been returned is in it. */
    ghost predicate Valid()
      reads this
    {
      && (forall i, j :: i in statsMap && j in statsMap && i != j ==> statsMap[i] != statsMap[j])
      && (forall i :: i in statsMap ==> statsMap[i] !in returned)
    }

    static ghost function Abs(m: map<string, Stats>): (p: Pending)
      reads m.Values
    {
      map id | id in m :: m[id].Abs()
    }

    method Collect(r: Report)
      requires Valid()
      modifies this`statsMap, statsMap.Values
      ensures Valid() && Abs(statsMap) == AddReport(old(Abs(statsMap)), r)
      ensures forall s :: s in statsMap.Values ==> fresh(s) || s in old(statsMap.Values)
      ensures forall s :: s in returned ==> s.Abs() == old(s.Abs())
    {
      var id := Id(r);
      if id in statsMap {
        var s := statsMap[id];
        s.downlink := s.downlink + r.downlink;
        s.uplink := s.uplink + r.uplink;
      } else {
        var s := new Stats(r);
        statsMap := statsMap[id := s];
      }
    }

    method GetBandWidthStats() returns (stats: seq<Stats>, ghost order: seq<string>)
      requires Valid()
      modifies this
      ensures Valid() && Abs(statsMap) == map[]
      ensures Orders(order, old(Abs(statsMap)).Keys) && |stats| == |order|
      ensures forall i :: 0 <= i < |stats| ==> stats[i].Abs() == old(Abs(statsMap))[order[i]] && stats[i] in returned
      ensures returned == old(returned) + old(statsMap.Values)
    {
      stats, order := [], [];
      var todo := statsMap.Keys;
      while todo != {}
        invariant todo <= statsMap.Keys && |stats| == |order|
        invariant forall id :: id in order <==> id in statsMap && id !in todo
        invariant forall i, j :: 0 <= i < j < |order| ==> order[i] != order[j]
        invariant forall i :: 0 <= i < |stats| ==> stats[i] == statsMap[order[i]]
        decreases todo
      {
        var id :| id in todo;
        todo := todo - {id};
        stats, order := stats + [statsMap[id]], order + [id];
      }
      returned := returned + statsMap.Values;
      statsMap := map[];
    }
  }

}
