/**
 The membership protocol as a transition system: any number of end nodes and
 one centre node, a clock, and events that happen in any order.  An event is one
 contact between two nodes (whose request or reply may be lost), one late
 request, one contact with the centre, one half of a Filter, or a (re)start.
 */
module ClusterSystem {
  import opened Common
  import opened NodeTable
  import opened NodeSafety

  /** The centre's tables: one per cluster name. */
  type Hub = map<string, map<string, Entry>>

  datatype System = System(
    nodes: map<nat, EndNode>,
    hub: Hub,
    clock: int,
    issued: set<string>)  // every token made so far

  /** Which node answers at an address. */
  type Net = map<(string, int), nat>

  /** How far a contact gets. */
  datatype Delivery = NoConnection | RequestLost | ReplyLost | Delivered

  datatype Event =
    | Tick(seconds: nat)
    | Start(n: nat, me: Meta, clusterToken: string, localToken: string, list: seq<StaticNode>)
    | Contact(b: nat, key: string, delivery: Delivery, uuid: string, order: seq<string>)
    | Call(b: nat, key: string)
    | LateRegister(a: nat, b: nat, uuid: string)
    | LateHeartbeat(a: nat, b: nat, token: string)
    | HubContact(b: nat, delivery: Delivery, order: seq<string>)
    | HubFilter
    | FilterMain(n: nat)
    | FilterRead(n: nat)
    | FilterWrite(n: nat)
    | FilterWrongList(n: nat)

  // ---------------------------------------------------------------- the centre

  predicate IsComplete(m: Meta) {
    m.host != "" && m.port > 1000 && m.cluster != "" && m.name != ""
  }

  function HubHeartBeat(hub: Hub, m: Meta, now: int): (Hub, HeartbeatRsp) {
    var node := Entry(m, "", "", now, 0, now, false);
    if !IsComplete(m) then (hub, HeartbeatRsp(500, map[]))
    else if m.cluster in hub then
      var t := hub[m.cluster];
      var t' := if m.name in t then t[m.name := t[m.name].(getTime := now)] else t[m.name := node];
      (hub[m.cluster := t'],
       HeartbeatRsp(0, map k | k in t' && t'[k].IsValid(now) :: t'[k].meta))
    else (hub[m.cluster := map[m.name := node]], HeartbeatRsp(0, map[]))
  }

  function HubFiltered(hub: Hub, now: int): Hub {
    map c | c in hub :: map k | k in hub[c] && hub[c][k].IsValid(now) :: hub[c][k]
  }

  // ---------------------------------------------------------------- contacts

  function Addr(m: Meta): (string, int) {
    (m.host, m.port)
  }

  function Target(s: System, net: Net, m: Meta): Option<nat> {
    if Addr(m) in net && net[Addr(m)] in s.nodes then Some(net[Addr(m)]) else None
  }

  ghost predicate AllRanged(s: System) {
    forall n :: n in s.nodes ==> s.nodes[n].Ranged()
  }

  /** The reply to a heartbeat that node b, after preparing record i, sends to node a. */
  function HeartbeatAt(s: System, a: nat, b: nat, i: nat): (r: (EndNode, HeartbeatRsp))
    requires AllRanged(s) && a in s.nodes && b in s.nodes && i < |s.nodes[b].objs|
    ensures r.0.Ranged() && |r.0.objs| == |s.nodes[a].objs|
  {
    ServeHeartbeat(s.nodes[a], s.nodes[b].me, s.nodes[b].objs[i].outToken, s.clock)
  }

  /** Node b registers at the node that answers for record i. */
  function RegisterVia(s: System, net: Net, b: nat, i: nat, delivery: Delivery, uuid: string): (r: System)
    requires AllRanged(s) && b in s.nodes && i < |s.nodes[b].objs|
    ensures AllRanged(r)
  {
    var target := Target(s, net, s.nodes[b].objs[i].meta);
    if target.None? || delivery.RequestLost? || delivery.NoConnection? then
      s.(nodes := s.nodes[b := FinishRegister(s.nodes[b], i, Lost, s.clock)])
    else
      var a := target.value;
      var (A, rsp) := RegisterNode(s.nodes[a], s.nodes[b].me, s.nodes[b].clusterToken, s.clock, uuid);
      var nodes := s.nodes[a := A];
      var reply := if delivery.Delivered? then Got(rsp) else Lost;
      assert i < |nodes[b].objs|;
      s.(nodes := nodes[b := FinishRegister(nodes[b], i, reply, s.clock)], issued := s.issued + {uuid})
  }

  /** Node b reports a heartbeat to the node that answers for record i. */
  function HeartbeatVia(s: System, net: Net, b: nat, i: nat, delivery: Delivery, order: seq<string>): (r: System)
    requires AllRanged(s) && b in s.nodes && i < |s.nodes[b].objs|
    ensures AllRanged(r)
  {
    var target := Target(s, net, s.nodes[b].objs[i].meta);
    if delivery.NoConnection? then s
    else if target.None? || delivery.RequestLost? then
      s.(nodes := s.nodes[b := FinishHeartbeat(s.nodes[b], i, Lost, [], s.clock)])
    else
      var a := target.value;
      var (A, rsp) := HeartbeatAt(s, a, b, i);
      var nodes := s.nodes[a := A];
      assert i < |nodes[b].objs|;
      if delivery.Delivered? && forall k :: k in order ==> k in rsp.nodes then
        s.(nodes := nodes[b := FinishHeartbeat(nodes[b], i, Got(rsp), order, s.clock)])
      else
        s.(nodes := nodes[b := FinishHeartbeat(nodes[b], i, Lost, [], s.clock)])
  }

  function Touched(s: System, b: nat, key: string): (r: System)
    requires AllRanged(s) && b in s.nodes && key in s.nodes[b].main
    ensures AllRanged(r)
  {
    s.(nodes := s.nodes[b := Touch(s.nodes[b], s.nodes[b].main[key], s.clock)])
  }

  // ---------------------------------------------------------------- steps

  ghost predicate Fresh(s: System, token: string) {
    token != "" && token !in s.issued
  }

  function LocalTokens(s: System): set<string> {
    set n | n in s.nodes :: s.nodes[n].localToken
  }

  ghost predicate Enabled(s: System, net: Net, e: Event) {
    && AllRanged(s)
    && match e
       case Tick(d) => s.clock + d <= LAST_TIME
       case Start(n, me, clusterToken, localToken, list) =>
         && Fresh(s, localToken)
         && (n in s.nodes ==> s.nodes[n].me == me && s.nodes[n].clusterToken == clusterToken)
       case Contact(b, key, delivery, uuid, order) =>
         && b in s.nodes && key in s.nodes[b].main && Fresh(s, uuid)
         && s.nodes[b].At(key).meta.name != s.nodes[b].me.name
         && var s1 := Touched(s, b, key);
            var i := s.nodes[b].main[key];
            var e := s1.nodes[b].objs[i];
         && e.IsValid(s.clock)
         && (e.RegisteredRemote(s.clock) && delivery.Delivered? ==>
               var t := Target(s1, net, e.meta);
               t.Some? ==> Orders(order, HeartbeatAt(s1, t.value, b, i).1.nodes.Keys))
       case Call(b, key) => b in s.nodes && key in s.nodes[b].main
       case LateRegister(a, b, uuid) => a in s.nodes && b in s.nodes && Fresh(s, uuid)
       // a request that was sent with a token b held for some peer
       case LateHeartbeat(a, b, token) => a in s.nodes && b in s.nodes && token !in LocalTokens(s)
       case HubContact(b, delivery, order) =>
         && b in s.nodes
         && Orders(order, HubHeartBeat(s.hub, s.nodes[b].me, s.clock).1.nodes.Keys)
       case HubFilter => true
       case FilterMain(n) => n in s.nodes && s.nodes[n].snap.None?
       case FilterRead(n) => n in s.nodes && s.nodes[n].snap.None?
       case FilterWrite(n) => n in s.nodes && s.nodes[n].snap.Some?
       case FilterWrongList(n) => n in s.nodes
  }

  ghost function Apply(s: System, net: Net, e: Event): (s': System)
    requires Enabled(s, net, e)
    ensures AllRanged(s')
  {
    match e
    case Tick(d) => s.(clock := s.clock + d)
    case Start(n, me, clusterToken, localToken, list) =>
      s.(nodes := s.nodes[n := Boot(me, clusterToken, localToken, list, s.clock)], issued := s.issued + {localToken})
    case Contact(b, key, delivery, uuid, order) =>
      var s1 := Touched(s, b, key);
      var i := s.nodes[b].main[key];
      if s1.nodes[b].objs[i].RegisteredRemote(s.clock)
      then HeartbeatVia(s1, net, b, i, delivery, order)
      else RegisterVia(s1, net, b, i, delivery, uuid)
    case Call(b, key) =>
      var e := s.nodes[b].At(key);
      var target := Target(s, net, e.meta);
      if target.None? then s
      else
        var a := target.value;
        s.(nodes := s.nodes[a := Authenticate(s.nodes[a], s.nodes[b].me, e.outToken, s.clock).0])
    case LateRegister(a, b, uuid) =>
      s.(nodes := s.nodes[a := RegisterNode(s.nodes[a], s.nodes[b].me, s.nodes[b].clusterToken, s.clock, uuid).0],
         issued := s.issued + {uuid})
    case LateHeartbeat(a, b, token) =>
      s.(nodes := s.nodes[a := ServeHeartbeat(s.nodes[a], s.nodes[b].me, token, s.clock).0])
    case HubContact(b, delivery, order) =>
      if delivery.RequestLost? || delivery.NoConnection? then s
      else
        var (hub, rsp) := HubHeartBeat(s.hub, s.nodes[b].me, s.clock);
        var s1 := s.(hub := hub);
        if delivery.ReplyLost? then s1
        else s1.(nodes := s.nodes[b := AddRemotes(s.nodes[b], order, rsp.nodes, s.clock)])
    case HubFilter => s.(hub := HubFiltered(s.hub, s.clock))
    case FilterMain(n) => s.(nodes := s.nodes[n := Filter(s.nodes[n], s.clock)])
    case FilterRead(n) => s.(nodes := s.nodes[n := Snapshot(s.nodes[n], s.clock)])
    case FilterWrite(n) => s.(nodes := s.nodes[n := Swap(s.nodes[n])])
    case FilterWrongList(n) => s.(nodes := s.nodes[n := FilterWrong(s.nodes[n], s.clock)])
  }

  // ---------------------------------------------------------------- the invariant

  ghost predicate HubSorted(hub: Hub) {
    forall c, k :: c in hub && k in hub[c] ==> hub[c][k].meta.name == k && hub[c][k].meta.cluster == c
  }

  /** The tokens a peer may hold. */
  function Pool(s: System): set<string> {
    s.issued + {""} - LocalTokens(s)
  }

  ghost predicate Ledger(s: System) {
    0 <= s.clock <= LAST_TIME && HubSorted(s.hub) && "" !in s.issued && LocalTokens(s) <= s.issued
  }

  ghost predicate Inv(s: System) {
    Ledger(s) && forall n :: n in s.nodes ==> Sound(s.nodes[n], Pool(s))
  }

  /** Only node n changed, it kept its local token, and perhaps new tokens were made. */
  ghost predicate OneNode(s: System, s': System, n: nat, tokens: set<string>) {
    && s'.hub == s.hub && s'.clock == s.clock
    && s'.issued == s.issued + tokens && "" !in tokens && tokens !! s.issued
    && n in s.nodes && s'.nodes.Keys == s.nodes.Keys
    && (forall m :: m in s.nodes && m != n ==> s'.nodes[m] == s.nodes[m])
    && s'.nodes[n].localToken == s.nodes[n].localToken
  }

  lemma PoolGrows(s: System, s': System, n: nat, tokens: set<string>)
    requires Ledger(s) && OneNode(s, s', n, tokens)
    ensures LocalTokens(s') == LocalTokens(s) && Pool(s') == Pool(s) + tokens && Ledger(s')
  {
    assert forall m :: m in s.nodes ==> s'.nodes[m].localToken == s.nodes[m].localToken;
    assert forall t :: t in LocalTokens(s') <==> exists m :: m in s.nodes && s.nodes[m].localToken == t;
  }

  lemma InvUpdate(s: System, s': System, n: nat, tokens: set<string>)
    requires Inv(s) && OneNode(s, s', n, tokens)
    requires Sound(s'.nodes[n], Pool(s) + tokens)
    ensures Inv(s') && Pool(s') == Pool(s) + tokens
  {
    PoolGrows(s, s', n, tokens);
    forall m | m in s'.nodes && m != n ensures Sound(s'.nodes[m], Pool(s')) {
      assert s.nodes[m].localToken in LocalTokens(s);
      WiderPool(s.nodes[m], Pool(s), Pool(s'));
    }
  }

  // ---------------------------------------------------------------- every step is safe

  /** Every node that was there moved on safely; `stable` says that no name changed its meaning. */
  ghost predicate Moves(s: System, s': System, stable: bool) {
    forall n :: n in s.nodes ==>
      && n in s'.nodes
      && Evolves(s.nodes[n], s'.nodes[n])
      && (stable ==> SamePeers(s.nodes[n], s'.nodes[n]))
  }

  ghost predicate Extends(m: map<string, nat>, m': map<string, nat>) {
    forall k :: k in m ==> k in m' && m'[k] == m[k]
  }

  /** As Moves, and no entry was removed, so that another step can follow within the same event. */
  ghost predicate Grows(s: System, s': System) {
    Moves(s, s', true) && forall n :: n in s.nodes ==> Extends(s.nodes[n].main, s'.nodes[n].main)
  }

  lemma EvolvesThen(st: EndNode, st1: EndNode, st2: EndNode)
    requires Evolves(st, st1) && Evolves(st1, st2)
    ensures Evolves(st, st2)
  {
    forall k | Pinned(st, k) ensures k in st2.main && st2.main[k] == st.main[k] {
      assert Pinned(st1, k);
    }
  }

  lemma SamePeersThen(st: EndNode, st1: EndNode, st2: EndNode)
    requires SamePeers(st, st1) && SamePeers(st1, st2) && Extends(st.main, st1.main)
    ensures SamePeers(st, st2)
  {
  }

  lemma GrowsThen(s: System, s1: System, s2: System, stable: bool)
    requires Grows(s, s1) && Moves(s1, s2, stable)
    ensures Moves(s, s2, stable)
  {
    hide Evolves, SamePeers;
    forall n | n in s.nodes ensures Evolves(s.nodes[n], s2.nodes[n])
        && (stable ==> SamePeers(s.nodes[n], s2.nodes[n])) {
      EvolvesThen(s.nodes[n], s1.nodes[n], s2.nodes[n]);
      if stable { SamePeersThen(s.nodes[n], s1.nodes[n], s2.nodes[n]); }
    }
  }

  lemma SelfEvolves(st: EndNode, pool: set<string>)
    requires Sound(st, pool)
    ensures Evolves(st, st) && SamePeers(st, st) && st.Ranged()
  {
  }

  /** From one node to the system. */
  lemma OneNodeSafe(s: System, s': System, n: nat, tokens: set<string>, stable: bool)
    requires Inv(s) && OneNode(s, s', n, tokens)
    requires Sound(s'.nodes[n], Pool(s) + tokens) && Evolves(s.nodes[n], s'.nodes[n])
    requires stable ==> SamePeers(s.nodes[n], s'.nodes[n])
    ensures Inv(s') && Pool(s') == Pool(s) + tokens && Moves(s, s', stable)
    ensures stable && Extends(s.nodes[n].main, s'.nodes[n].main) ==> Grows(s, s')
  {
    hide Sound, Evolves, SamePeers, Ledger;
    InvUpdate(s, s', n, tokens);
    forall m | m in s.nodes ensures Evolves(s.nodes[m], s'.nodes[m])
        && (stable ==> SamePeers(s.nodes[m], s'.nodes[m])) {
      if m != n { SelfEvolves(s.nodes[m], Pool(s)); }
    }
  }

  lemma SoundWithin(s: System, n: nat, tokens: set<string>)
    requires Inv(s) && n in s.nodes && tokens !! s.issued
    ensures Sound(s.nodes[n], Pool(s) + tokens) && Sound(s.nodes[n], Pool(s)) && s.nodes[n].Ranged()
  {
    assert s.nodes[n].localToken in LocalTokens(s);
    WiderPool(s.nodes[n], Pool(s), Pool(s) + tokens);
  }

  function Registered(s: System, a: nat, m: Meta, token: string, uuid: string): System
    requires a in s.nodes && s.nodes[a].Ranged()
  {
    s.(nodes := s.nodes[a := RegisterNode(s.nodes[a], m, token, s.clock, uuid).0], issued := s.issued + {uuid})
  }

  lemma RegisterSafe(s: System, a: nat, m: Meta, token: string, uuid: string)
    requires Inv(s) && a in s.nodes && s.nodes[a].Ranged() && Fresh(s, uuid)
    ensures var s' := Registered(s, a, m, token, uuid);
            Inv(s') && Grows(s, s') && Pool(s') == Pool(s) + {uuid}
    ensures RegisterNode(s.nodes[a], m, token, s.clock, uuid).1.data in Pool(s) + {uuid}
  {
    hide Sound, Evolves, SamePeers;
    SoundWithin(s, a, {uuid});
    SafeRegister(s.nodes[a], m, token, s.clock, uuid, Pool(s) + {uuid});
    var s' := Registered(s, a, m, token, uuid);
    EvolvesKeepsTokens(s.nodes[a], s'.nodes[a]);
    OneNodeSafe(s, s', a, {uuid}, true);
  }

  lemma EvolvesKeepsTokens(st: EndNode, st': EndNode)
    requires Evolves(st, st')
    ensures st'.localToken == st.localToken && st'.me == st.me && st'.clusterToken == st.clusterToken
  {
  }

  lemma AuthenticateSafe(s: System, a: nat, m: Meta, token: string)
    requires Inv(s) && a in s.nodes && s.nodes[a].Ranged()
    ensures var s' := s.(nodes := s.nodes[a := Authenticate(s.nodes[a], m, token, s.clock).0]);
            Inv(s') && Grows(s, s') && Pool(s') == Pool(s)
  {
    hide Sound, Evolves, SamePeers;
    SafeAuthenticate(s.nodes[a], m, token, s.clock, Pool(s));
    assert s.issued + {} == s.issued && Pool(s) + {} == Pool(s);
    OneNodeSafe(s, s.(nodes := s.nodes[a := Authenticate(s.nodes[a], m, token, s.clock).0]), a, {}, true);
  }

  // ---------------------------------------------------------------- contacts

  /** What a contact knows about the record it works on: it is b's entry for a peer other than b. */
  ghost predicate Talks(s: System, b: nat, key: string, i: nat) {
    && b in s.nodes && s.nodes[b].Ranged()
    && key in s.nodes[b].main && s.nodes[b].main[key] == i
    && key != s.nodes[b].me.name
  }

  lemma TalksOn(s: System, s': System, b: nat, key: string, i: nat)
    requires Talks(s, b, key, i) && Grows(s, s')
    ensures Talks(s', b, key, i) && s'.nodes[b].me == s.nodes[b].me
  {
    assert Evolves(s.nodes[b], s'.nodes[b]);
  }

  lemma TouchSafe(s: System, b: nat, key: string)
    requires Inv(s) && AllRanged(s) && b in s.nodes && key in s.nodes[b].main && Talks(s, b, key, s.nodes[b].main[key])
    ensures Inv(Touched(s, b, key)) && Grows(s, Touched(s, b, key)) && Pool(Touched(s, b, key)) == Pool(s)
  {
    hide Sound, Evolves, SamePeers;
    SafeTouch(s.nodes[b], key, s.clock, Pool(s));
    assert s.issued + {} == s.issued && Pool(s) + {} == Pool(s);
    OneNodeSafe(s, Touched(s, b, key), b, {}, true);
  }

  lemma FinishRegisterSafe(s: System, b: nat, key: string, i: nat, reply: Reply<RegisterRsp>)
    requires Inv(s) && Talks(s, b, key, i)
    requires reply.Got? ==> reply.rsp.data in Pool(s)
    ensures var s' := s.(nodes := s.nodes[b := FinishRegister(s.nodes[b], i, reply, s.clock)]);
            Inv(s') && Moves(s, s', true)
  {
    hide Sound, Evolves, SamePeers;
    SafeFinishRegister(s.nodes[b], key, reply, s.clock, Pool(s));
    assert s.issued + {} == s.issued && Pool(s) + {} == Pool(s);
    OneNodeSafe(s, s.(nodes := s.nodes[b := FinishRegister(s.nodes[b], i, reply, s.clock)]), b, {}, true);
  }

  lemma FinishHeartbeatSafe(s: System, b: nat, key: string, i: nat, reply: Reply<HeartbeatRsp>, order: seq<string>)
    requires Inv(s) && Talks(s, b, key, i)
    requires reply.Got? ==> (forall k :: k in order ==> k in reply.rsp.nodes)
    requires reply.Got? && reply.rsp.code == 0 ==> Kin(reply.rsp.nodes, s.nodes[b].me.cluster)
    ensures var s' := s.(nodes := s.nodes[b := FinishHeartbeat(s.nodes[b], i, reply, order, s.clock)]);
            Inv(s') && Moves(s, s', true)
  {
    hide Sound, Evolves, SamePeers;
    SafeFinishHeartbeat(s.nodes[b], key, reply, order, s.clock, Pool(s));
    assert s.issued + {} == s.issued && Pool(s) + {} == Pool(s);
    var s' := s.(nodes := s.nodes[b := FinishHeartbeat(s.nodes[b], i, reply, order, s.clock)]);
    EvolvesKeepsTokens(s.nodes[b], s'.nodes[b]);
    OneNodeSafe(s, s', b, {}, true);
  }

  lemma RegisterViaSafe(s: System, net: Net, b: nat, key: string, i: nat, delivery: Delivery, uuid: string)
    requires Inv(s) && AllRanged(s) && Talks(s, b, key, i) && Fresh(s, uuid)
    ensures var s' := RegisterVia(s, net, b, i, delivery, uuid);
            Inv(s') && Moves(s, s', true)
  {
    hide Sound, Evolves, SamePeers, Ledger;
    var target := Target(s, net, s.nodes[b].objs[i].meta);
    if target.None? || delivery.RequestLost? || delivery.NoConnection? {
      FinishRegisterSafe(s, b, key, i, Lost);
    } else {
      var me, token := s.nodes[b].me, s.nodes[b].clusterToken;
      var s1 := Registered(s, target.value, me, token, uuid);
      var rsp := RegisterNode(s.nodes[target.value], me, token, s.clock, uuid).1;
      RegisterSafe(s, target.value, me, token, uuid);
      TalksOn(s, s1, b, key, i);
      var reply := if delivery.Delivered? then Got(rsp) else Lost;
      FinishRegisterSafe(s1, b, key, i, reply);
      GrowsThen(s, s1, s1.(nodes := s1.nodes[b := FinishRegister(s1.nodes[b], i, reply, s1.clock)]), true);
    }
  }

  /** A peer that accepts b's heartbeat is in b's cluster, and so is everything it hands on. */
  lemma HeartbeatKin(s: System, a: nat, b: nat, key: string, i: nat)
    requires Inv(s) && AllRanged(s) && a in s.nodes && Talks(s, b, key, i)
    ensures var (A, rsp) := HeartbeatAt(s, a, b, i);
            rsp.code == 0 ==> Kin(rsp.nodes, s.nodes[b].me.cluster) && s.nodes[a].me.cluster == s.nodes[b].me.cluster
  {
    var token := s.nodes[b].objs[i].outToken;
    assert token in Pool(s) by {
      assert Named(s.nodes[b]);
    }
    assert s.nodes[a].localToken in LocalTokens(s);
    SafeHeartbeat(s.nodes[a], s.nodes[b].me, token, s.clock, Pool(s));
  }

  lemma ServeHeartbeatSafe(s: System, a: nat, m: Meta, token: string)
    requires Inv(s) && AllRanged(s) && a in s.nodes
    ensures var s' := s.(nodes := s.nodes[a := ServeHeartbeat(s.nodes[a], m, token, s.clock).0]);
            Inv(s') && Grows(s, s')
  {
    AuthenticateSafe(s, a, m, token);
  }

  lemma HeartbeatViaSafe(s: System, net: Net, b: nat, key: string, i: nat, delivery: Delivery, order: seq<string>)
    requires Inv(s) && AllRanged(s) && Talks(s, b, key, i)
    ensures var s' := HeartbeatVia(s, net, b, i, delivery, order);
            Inv(s') && Moves(s, s', true)
  {
    hide Sound, Evolves, SamePeers, Ledger;
    var target := Target(s, net, s.nodes[b].objs[i].meta);
    if delivery.NoConnection? {
      StillSafe(s);
    } else if target.None? || delivery.RequestLost? {
      FinishHeartbeatSafe(s, b, key, i, Lost, []);
    } else {
      var a := target.value;
      var (A, rsp) := HeartbeatAt(s, a, b, i);
      var s1 := s.(nodes := s.nodes[a := A]);
      HeartbeatKin(s, a, b, key, i);
      ServeHeartbeatSafe(s, a, s.nodes[b].me, s.nodes[b].objs[i].outToken);
      TalksOn(s, s1, b, key, i);
      if delivery.Delivered? && forall k :: k in order ==> k in rsp.nodes {
        FinishHeartbeatSafe(s1, b, key, i, Got(rsp), order);
        GrowsThen(s, s1, s1.(nodes := s1.nodes[b := FinishHeartbeat(s1.nodes[b], i, Got(rsp), order, s1.clock)]), true);
      } else {
        FinishHeartbeatSafe(s1, b, key, i, Lost, []);
        GrowsThen(s, s1, s1.(nodes := s1.nodes[b := FinishHeartbeat(s1.nodes[b], i, Lost, [], s1.clock)]), true);
      }
    }
  }

  lemma ContactSafe(s: System, net: Net, b: nat, key: string, delivery: Delivery, uuid: string, order: seq<string>)
    requires Inv(s) && Enabled(s, net, Contact(b, key, delivery, uuid, order))
    ensures var s' := Apply(s, net, Contact(b, key, delivery, uuid, order));
            Inv(s') && Moves(s, s', true)
  {
    hide Evolves, SamePeers, Ledger;
    var i := s.nodes[b].main[key];
    assert Talks(s, b, key, i) by {
      assert Named(s.nodes[b]);
    }
    ContactSafeTalks(s, net, b, key, delivery, uuid, order);
  }

  lemma TouchedStillFresh(s: System, b: nat, key: string, uuid: string)
    requires AllRanged(s) && b in s.nodes && key in s.nodes[b].main && Fresh(s, uuid)
    ensures Fresh(Touched(s, b, key), uuid) && Touched(s, b, key).clock == s.clock
  {
  }

  lemma ContactSafeTalks(s: System, net: Net, b: nat, key: string, delivery: Delivery, uuid: string, order: seq<string>)
    requires Inv(s) && Enabled(s, net, Contact(b, key, delivery, uuid, order)) && Talks(s, b, key, s.nodes[b].main[key])
    ensures var s' := Apply(s, net, Contact(b, key, delivery, uuid, order));
            Inv(s') && Moves(s, s', true)
  {
    hide Sound, Evolves, SamePeers, Ledger, Touched, HeartbeatVia, RegisterVia, Target, HeartbeatAt;
    var i := s.nodes[b].main[key];
    var s1 := Touched(s, b, key);
    TouchSafe(s, b, key);
    TalksOn(s, s1, b, key, i);
    TouchedStillFresh(s, b, key, uuid);
    if s1.nodes[b].objs[i].RegisteredRemote(s.clock) {
      HeartbeatViaSafe(s1, net, b, key, i, delivery, order);
    } else {
      RegisterViaSafe(s1, net, b, key, i, delivery, uuid);
    }
    GrowsThen(s, s1, Apply(s, net, Contact(b, key, delivery, uuid, order)), true);
  }

  // ---------------------------------------------------------------- the other events

  /** A node that is replaced without new tokens. */
  lemma QuietSafe(s: System, n: nat, st': EndNode, stable: bool)
    requires Inv(s) && n in s.nodes
    requires Safe(s.nodes[n], st', Pool(s)) && (stable ==> SamePeers(s.nodes[n], st'))
    ensures var s' := s.(nodes := s.nodes[n := st']);
            Inv(s') && Moves(s, s', stable)
  {
    hide Sound, Evolves, SamePeers;
    EvolvesKeepsTokens(s.nodes[n], st');
    assert s.issued + {} == s.issued && Pool(s) + {} == Pool(s);
    OneNodeSafe(s, s.(nodes := s.nodes[n := st']), n, {}, stable);
  }

  lemma HubHeartBeatSorted(hub: Hub, m: Meta, now: int)
    requires HubSorted(hub)
    ensures var (hub', rsp) := HubHeartBeat(hub, m, now);
            HubSorted(hub') && Kin(rsp.nodes, m.cluster)
  {
  }

  lemma HubContactSafe(s: System, net: Net, b: nat, delivery: Delivery, order: seq<string>)
    requires Inv(s) && Enabled(s, net, HubContact(b, delivery, order))
    ensures var s' := Apply(s, net, HubContact(b, delivery, order));
            Inv(s') && Moves(s, s', true)
  {
    hide Sound, Evolves, SamePeers;
    StillSafe(s);
    if !delivery.RequestLost? && !delivery.NoConnection? {
      var (hub, rsp) := HubHeartBeat(s.hub, s.nodes[b].me, s.clock);
      HubHeartBeatSorted(s.hub, s.nodes[b].me, s.clock);
      var s1 := s.(hub := hub);
      assert LocalTokens(s1) == LocalTokens(s) && Pool(s1) == Pool(s);
      if delivery.Delivered? {
        SafeAddRemotes(s.nodes[b], order, rsp.nodes, s.clock, Pool(s));
        QuietSafe(s1, b, AddRemotes(s.nodes[b], order, rsp.nodes, s.clock), true);
      }
    }
  }

  lemma StillSafe(s: System)
    requires Inv(s)
    ensures Moves(s, s, true)
  {
    hide Sound, Evolves, SamePeers;
    forall n | n in s.nodes ensures Evolves(s.nodes[n], s.nodes[n]) && SamePeers(s.nodes[n], s.nodes[n]) {
      SelfEvolves(s.nodes[n], Pool(s));
    }
  }

  lemma QuietEventSafe(s: System, net: Net, e: Event)
    requires Inv(s) && Enabled(s, net, e) && (e.Tick? || e.HubFilter?)
    ensures var s' := Apply(s, net, e);
            Inv(s') && Moves(s, s', true)
  {
    hide Sound, Evolves, SamePeers;
    StillSafe(s);
    var s' := Apply(s, net, e);
    assert LocalTokens(s') == LocalTokens(s) && Pool(s') == Pool(s);
    assert HubSorted(s'.hub);
  }

  lemma FilterSafe(s: System, net: Net, e: Event)
    requires Inv(s) && Enabled(s, net, e)
    requires e.FilterMain? || e.FilterRead? || e.FilterWrite? || e.FilterWrongList?
    ensures var s' := Apply(s, net, e);
            Inv(s') && Moves(s, s', !e.FilterWrite?)
  {
    hide Sound, Evolves, SamePeers;
    var st := s.nodes[e.n];
    SafeEviction(st, s.clock, Pool(s));
    SafeSwap(st, Pool(s));
    var st' := Apply(s, net, e).nodes[e.n];
    QuietSafe(s, e.n, st', !e.FilterWrite?);
  }

  lemma ServeOnlySafe(s: System, net: Net, e: Event)
    requires Inv(s) && Enabled(s, net, e)
    requires e.Call? || e.LateRegister? || e.LateHeartbeat?
    ensures var s' := Apply(s, net, e);
            Inv(s') && Moves(s, s', true)
  {
    hide Sound, Evolves, SamePeers, Ledger;
    match e
    case LateRegister(a, b, uuid) => RegisterSafe(s, a, s.nodes[b].me, s.nodes[b].clusterToken, uuid);
    case LateHeartbeat(a, b, token) => ServeHeartbeatSafe(s, a, s.nodes[b].me, token);
    case Call(b, key) =>
      StillSafe(s);
      var target := Target(s, net, s.nodes[b].At(key).meta);
      if target.Some? {
        AuthenticateSafe(s, target.value, s.nodes[b].me, s.nodes[b].At(key).outToken);
      }
  }

  /** A started node has a new local token; one that it replaces is forgotten. */
  lemma StartPool(s: System, net: Net, e: Event)
    requires Ledger(s) && Enabled(s, net, e) && e.Start?
    ensures var s' := Apply(s, net, e);
            && Ledger(s') && Pool(s) <= Pool(s')
            && (forall n :: n in s'.nodes ==>
                s'.nodes[n].localToken in LocalTokens(s') && s'.nodes[n].localToken !in Pool(s'))
            && s'.nodes[e.n].localToken == e.localToken
  {
    hide Sound;
    var s' := Apply(s, net, e);
    BootSound(e.me, e.clusterToken, e.localToken, e.list, s.clock, {""});
    assert s'.nodes[e.n].localToken == e.localToken;
    assert forall n :: n in s'.nodes && n != e.n ==>
        s'.nodes[n] == s.nodes[n] && s.nodes[n].localToken in LocalTokens(s);
    assert LocalTokens(s') <= LocalTokens(s) + {e.localToken};
  }

  lemma StartSafe(s: System, net: Net, e: Event)
    requires Inv(s) && Enabled(s, net, e) && e.Start?
    ensures var s' := Apply(s, net, e);
            Inv(s') && forall n :: n in s.nodes && n != e.n ==> n in s'.nodes && s'.nodes[n] == s.nodes[n]
  {
    hide Sound;
    var s' := Apply(s, net, e);
    StartPool(s, net, e);
    forall n | n in s'.nodes ensures Sound(s'.nodes[n], Pool(s')) {
      if n == e.n {
        BootSound(e.me, e.clusterToken, e.localToken, e.list, s.clock, Pool(s'));
      } else {
        WiderPool(s.nodes[n], Pool(s), Pool(s'));
      }
    }
  }

  // ---------------------------------------------------------------- main results

  /** Every event keeps the invariant; unless it restarts a node it moves every node on safely. */
  lemma StepSafe(s: System, net: Net, e: Event)
    requires Inv(s) && Enabled(s, net, e)
    ensures Inv(Apply(s, net, e))
    ensures !e.Start? ==> Moves(s, Apply(s, net, e), !e.FilterWrite?)
    ensures e.Start? ==> forall n :: n in s.nodes && n != e.n ==>
              n in Apply(s, net, e).nodes && Apply(s, net, e).nodes[n] == s.nodes[n]
  {
    hide Sound, Evolves, SamePeers, Ledger, Moves;
    match e
    case Tick(_) => QuietEventSafe(s, net, e);
    case HubFilter => QuietEventSafe(s, net, e);
    case Start(_, _, _, _, _) => StartSafe(s, net, e);
    case Contact(b, key, delivery, uuid, order) => ContactSafe(s, net, b, key, delivery, uuid, order);
    case HubContact(b, delivery, order) => HubContactSafe(s, net, b, delivery, order);
    case FilterMain(_) => FilterSafe(s, net, e);
    case FilterRead(_) => FilterSafe(s, net, e);
    case FilterWrite(_) => FilterSafe(s, net, e);
    case FilterWrongList(_) => FilterSafe(s, net, e);
    case Call(_, _) => ServeOnlySafe(s, net, e);
    case LateRegister(_, _, _) => ServeOnlySafe(s, net, e);
    case LateHeartbeat(_, _, _) => ServeOnlySafe(s, net, e);
  }

  /** Before any node is started. */
  ghost predicate Origin(s: System) {
    s.nodes == map[] && s.hub == map[] && s.issued == {} && 0 <= s.clock <= LAST_TIME
  }

  ghost predicate Runs(s: System, net: Net, es: seq<Event>)
    decreases |es|
  {
    es == [] || (Enabled(s, net, es[0]) && Runs(Apply(s, net, es[0]), net, es[1..]))
  }

  ghost function After(s: System, net: Net, es: seq<Event>): System
    requires Runs(s, net, es)
    decreases |es|
  {
    if es == [] then s else After(Apply(s, net, es[0]), net, es[1..])
  }

  lemma {:induction false} RunSafe(s: System, net: Net, es: seq<Event>)
    requires Inv(s) && Runs(s, net, es)
    ensures Inv(After(s, net, es))
    decreases |es|
  {
    hide Inv, Enabled;
    if es != [] {
      StepSafe(s, net, es[0]);
      RunSafe(Apply(s, net, es[0]), net, es[1..]);
    }
  }
}
