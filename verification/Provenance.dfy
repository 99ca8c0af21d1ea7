/**
 Where tokens come from.  Along a run the registrations that were accepted are collected;
 every token a node holds for a peer is one of these, and a node's own entry holds the
 token it was started with.
 */
module Provenance {
  import opened Common
  import opened NodeTable
  import opened NodeSafety
  import opened ClusterSystem
  import opened MembershipSafety

  /** The issuer accepted the registration of the peer and gave it the token. */
  datatype Grant = Grant(issuer: nat, peer: Meta, token: string)

  // ---------------------------------------------------------------- one record

  /** The node's own entry, or an entry for a peer. */
  ghost predicate Traced(e: Entry, st: EndNode, n: nat, net: Net, grants: set<Grant>) {
    || (e.meta == st.me && e.inToken == e.outToken == st.localToken)
    || (InTraced(e, n, grants) && OutTraced(e, st.me, net, grants))
  }

  /** A token that a peer is to present here was given by this node to that peer. */
  ghost predicate InTraced(e: Entry, n: nat, grants: set<Grant>) {
    e.inToken != "" ==> Grant(n, e.meta, e.inToken) in grants
  }

  /** A token to present at a peer was given to this node by the node at the peer's address. */
  ghost predicate OutTraced(e: Entry, me: Meta, net: Net, grants: set<Grant>) {
    e.outToken != "" ==> Addr(e.meta) in net && Grant(net[Addr(e.meta)], me, e.outToken) in grants
  }

  ghost predicate NodeTraced(st: EndNode, n: nat, net: Net, grants: set<Grant>) {
    forall i :: 0 <= i < |st.objs| ==> Traced(st.objs[i], st, n, net, grants)
  }

  ghost predicate AllTraced(s: System, net: Net, grants: set<Grant>) {
    forall n :: n in s.nodes ==> NodeTraced(s.nodes[n], n, net, grants)
  }

  lemma MoreGrants(st: EndNode, n: nat, net: Net, grants: set<Grant>, grants': set<Grant>)
    requires NodeTraced(st, n, net, grants) && grants <= grants'
    ensures NodeTraced(st, n, net, grants')
  {
  }

  // ---------------------------------------------------------------- the handlers of one node

  function GrantOf(n: nat, node: Meta, rsp: RegisterRsp): set<Grant> {
    if rsp.code == 0 then {Grant(n, node, rsp.data)} else {}
  }

  /** An accepted registration is granted; a token given out again was granted before. */
  lemma RegisterTraced(st: EndNode, n: nat, net: Net, grants: set<Grant>, node: Meta, token: string, now: int,
      uuid: string)
    requires st.Ranged() && NodeTraced(st, n, net, grants)
    ensures var (st', rsp) := RegisterNode(st, node, token, now, uuid);
            && NodeTraced(st', n, net, grants + GrantOf(n, node, rsp)) && st'.me == st.me
            && (rsp.data != "" ==> Grant(n, node, rsp.data) in grants + GrantOf(n, node, rsp))
  {
    var (st', rsp) := RegisterNode(st, node, token, now, uuid);
    MoreGrants(st, n, net, grants, grants + GrantOf(n, node, rsp));
    if node.name in st.main {
      assert Traced(st.objs[st.main[node.name]], st, n, net, grants);
    }
    assert st'.me == st.me && st'.localToken == st.localToken;
  }

  /** Records keep their tokens. */
  ghost predicate SameTokens(st: EndNode, st': EndNode) {
    && st'.me == st.me && st'.localToken == st.localToken && |st'.objs| == |st.objs|
    && forall i :: 0 <= i < |st.objs| ==>
         && st'.objs[i].meta == st.objs[i].meta
         && st'.objs[i].inToken == st.objs[i].inToken && st'.objs[i].outToken == st.objs[i].outToken
  }

  lemma SameTokensTraced(st: EndNode, st': EndNode, n: nat, net: Net, grants: set<Grant>)
    requires NodeTraced(st, n, net, grants) && SameTokens(st, st')
    ensures NodeTraced(st', n, net, grants)
  {
    forall i | 0 <= i < |st'.objs| ensures Traced(st'.objs[i], st', n, net, grants) {
      assert Traced(st.objs[i], st, n, net, grants);
    }
  }

  lemma ServeSameTokens(st: EndNode, node: Meta, token: string, now: int)
    requires st.Ranged()
    ensures SameTokens(st, Authenticate(st, node, token, now).0)
        && SameTokens(st, ServeHeartbeat(st, node, token, now).0)
  {
  }

  lemma TouchSameTokens(st: EndNode, i: nat, now: int)
    requires st.Ranged() && i < |st.objs|
    ensures SameTokens(st, Touch(st, i, now))
  {
  }

  lemma FilterSameTokens(st: EndNode, now: int)
    requires st.Ranged()
    ensures SameTokens(st, Filter(st, now)) && SameTokens(st, Snapshot(st, now))
    ensures SameTokens(st, Swap(st)) && SameTokens(st, FilterWrong(st, now))
  {
  }

  lemma FinishRegisterTraced(st: EndNode, n: nat, net: Net, grants: set<Grant>, i: nat, reply: Reply<RegisterRsp>,
      now: int)
    requires st.Ranged() && i < |st.objs| && st.objs[i].meta.name != st.me.name && NodeTraced(st, n, net, grants)
    requires reply.Got? ==> OutTraced(st.objs[i].(outToken := reply.rsp.data), st.me, net, grants)
    ensures NodeTraced(FinishRegister(st, i, reply, now), n, net, grants)
  {
    var st' := FinishRegister(st, i, reply, now);
    forall j | 0 <= j < |st'.objs| ensures Traced(st'.objs[j], st', n, net, grants) {
      assert Traced(st.objs[j], st, n, net, grants);
    }
  }

  lemma PutTraced(st: EndNode, n: nat, net: Net, grants: set<Grant>, i: nat, e: Entry)
    requires i < |st.objs| && NodeTraced(st, n, net, grants) && st.objs[i].meta.name != st.me.name
    requires e.meta == st.objs[i].meta && e.inToken == st.objs[i].inToken
    requires e.outToken == "" || e.outToken == st.objs[i].outToken
    ensures NodeTraced(st.Put(i, e), n, net, grants)
  {
    forall j | 0 <= j < |st.objs| ensures Traced(st.Put(i, e).objs[j], st.Put(i, e), n, net, grants) {
      assert Traced(st.objs[j], st, n, net, grants) && Traced(st.objs[i], st, n, net, grants);
    }
  }

  lemma InsertTraced(st: EndNode, n: nat, net: Net, grants: set<Grant>, e: Entry)
    requires NodeTraced(st, n, net, grants) && e.inToken == "" && e.outToken == ""
    ensures NodeTraced(st.Insert(e), n, net, grants)
  {
    forall j | 0 <= j < |st.Insert(e).objs| ensures Traced(st.Insert(e).objs[j], st.Insert(e), n, net, grants) {
      assert j < |st.objs| ==> Traced(st.objs[j], st, n, net, grants);
    }
  }

  lemma {:induction false} AddRemotesTraced(st: EndNode, n: nat, net: Net, grants: set<Grant>, order: seq<string>,
      nodes: map<string, Meta>, now: int)
    requires st.Ranged() && NodeTraced(st, n, net, grants) && forall k :: k in order ==> k in nodes
    ensures NodeTraced(AddRemotes(st, order, nodes, now), n, net, grants)
    decreases |order|
  {
    if order != [] {
      hide NodeTraced;
      var m := nodes[order[0]];
      InsertTraced(st, n, net, grants, Entry(m, "", "", 0, 0, now, false));
      AddRemotesTraced(AddRemote(st, order[0], m, now), n, net, grants, order[1..], nodes, now);
    }
  }

  lemma FinishHeartbeatTraced(st: EndNode, n: nat, net: Net, grants: set<Grant>, i: nat, reply: Reply<HeartbeatRsp>,
      order: seq<string>, now: int)
    requires st.Ranged() && i < |st.objs| && st.objs[i].meta.name != st.me.name && NodeTraced(st, n, net, grants)
    requires reply.Got? ==> forall k :: k in order ==> k in reply.rsp.nodes
    ensures NodeTraced(FinishHeartbeat(st, i, reply, order, now), n, net, grants)
  {
    hide NodeTraced;
    var e := st.objs[i];
    PutTraced(st, n, net, grants, i, e.(outToken := ""));
    PutTraced(st, n, net, grants, i, e.(outToken := "", reportTime := now));
    PutTraced(st, n, net, grants, i, e.(reportTime := now));
    if reply.Got? && reply.rsp.code == 0 {
      AddRemotesTraced(st.Put(i, e.(reportTime := now)), n, net, grants, order, reply.rsp.nodes, now);
    }
  }

  lemma {:induction false} LoadStaticTraced(st: EndNode, n: nat, net: Net, grants: set<Grant>, list: seq<StaticNode>,
      now: int)
    requires st.Ranged() && NodeTraced(st, n, net, grants)
    ensures NodeTraced(LoadStatic(st, list, now), n, net, grants)
    decreases |list|
  {
    if list != [] {
      hide NodeTraced;
      var x := list[0];
      var e := Entry(Meta(x.name, x.host, x.port, st.me.cluster), "", "", 0, 0, now, true);
      InsertTraced(st, n, net, grants, e);
      LoadStaticTraced(if x.IsValid(st.me) then st.Insert(e) else st, n, net, grants, list[1..], now);
    }
  }

  lemma BootTraced(n: nat, net: Net, grants: set<Grant>, me: Meta, clusterToken: string, localToken: string,
      list: seq<StaticNode>, now: int)
    ensures NodeTraced(Boot(me, clusterToken, localToken, list, now), n, net, grants)
  {
    var blank := EndNode(me, clusterToken, localToken, [], map[], map[], None);
    var st := blank.Insert(Entry(me, localToken, localToken, LAST_TIME, LAST_TIME, now, false));
    LoadStaticTraced(st, n, net, grants, list, now);
  }

  // ---------------------------------------------------------------- events

  /** What the registration of b at the node that answers for record i grants. */
  function GrantVia(s: System, net: Net, b: nat, i: nat, delivery: Delivery, uuid: string): set<Grant>
    requires AllRanged(s) && b in s.nodes && i < |s.nodes[b].objs|
  {
    var target := Target(s, net, s.nodes[b].objs[i].meta);
    if target.None? || delivery.RequestLost? || delivery.NoConnection? then {}
    else
      var B := s.nodes[b];
      GrantOf(target.value, B.me, RegisterNode(s.nodes[target.value], B.me, B.clusterToken, s.clock, uuid).1)
  }

  /** The registration an event brings about, if it is accepted. */
  ghost function Granted(s: System, net: Net, e: Event): set<Grant>
    requires Enabled(s, net, e)
  {
    match e
    case Contact(b, key, delivery, uuid, order) =>
      var s1, i := Touched(s, b, key), s.nodes[b].main[key];
      if s1.nodes[b].objs[i].RegisteredRemote(s.clock) then {} else GrantVia(s1, net, b, i, delivery, uuid)
    case LateRegister(a, b, uuid) =>
      GrantOf(a, s.nodes[b].me, RegisterNode(s.nodes[a], s.nodes[b].me, s.nodes[b].clusterToken, s.clock, uuid).1)
    case _ => {}
  }

  /** One node was replaced by one that is traced, with perhaps more grants. */
  lemma ReplaceTraced(s: System, s': System, n: nat, net: Net, grants: set<Grant>, grants': set<Grant>)
    requires AllTraced(s, net, grants) && grants <= grants'
    requires n in s'.nodes && s'.nodes == s.nodes[n := s'.nodes[n]] && NodeTraced(s'.nodes[n], n, net, grants')
    ensures AllTraced(s', net, grants')
  {
    forall m | m in s'.nodes ensures NodeTraced(s'.nodes[m], m, net, grants') {
      if m != n { MoreGrants(s.nodes[m], m, net, grants, grants'); }
    }
  }

  lemma SameTokensStep(s: System, s': System, n: nat, net: Net, grants: set<Grant>)
    requires AllTraced(s, net, grants) && n in s.nodes
    requires n in s'.nodes && s'.nodes == s.nodes[n := s'.nodes[n]] && SameTokens(s.nodes[n], s'.nodes[n])
    ensures AllTraced(s', net, grants)
  {
    hide NodeTraced, SameTokens;
    SameTokensTraced(s.nodes[n], s'.nodes[n], n, net, grants);
    ReplaceTraced(s, s', n, net, grants, grants);
  }

  lemma RegisterViaTraced(s: System, net: Net, b: nat, i: nat, delivery: Delivery, uuid: string, grants: set<Grant>)
    requires AllRanged(s) && b in s.nodes && i < |s.nodes[b].objs| && s.nodes[b].objs[i].meta.name != s.nodes[b].me.name
    requires AllTraced(s, net, grants)
    ensures AllTraced(RegisterVia(s, net, b, i, delivery, uuid), net, grants + GrantVia(s, net, b, i, delivery, uuid))
  {
    hide NodeTraced, RegisterNode, FinishRegister;
    var grants' := grants + GrantVia(s, net, b, i, delivery, uuid);
    var B := s.nodes[b];
    var target := Target(s, net, B.objs[i].meta);
    if target.None? || delivery.RequestLost? || delivery.NoConnection? {
      assert grants' == grants;
      FinishRegisterTraced(B, b, net, grants, i, Lost, s.clock);
      ReplaceTraced(s, RegisterVia(s, net, b, i, delivery, uuid), b, net, grants, grants');
    } else {
      var a := target.value;
      var (A, rsp) := RegisterNode(s.nodes[a], B.me, B.clusterToken, s.clock, uuid);
      RegisterTraced(s.nodes[a], a, net, grants, B.me, B.clusterToken, s.clock, uuid);
      RegisterKeepsRecords(s.nodes[a], B.me, B.clusterToken, s.clock, uuid);
      var s1 := s.(nodes := s.nodes[a := A]);
      ReplaceTraced(s, s1, a, net, grants, grants');
      var reply := if delivery.Delivered? then Got(rsp) else Lost;
      FinishRegisterTraced(s1.nodes[b], b, net, grants', i, reply, s.clock);
      ReplaceTraced(s1, RegisterVia(s, net, b, i, delivery, uuid), b, net, grants', grants');
    }
  }

  lemma RegisterKeepsRecords(st: EndNode, node: Meta, token: string, now: int, uuid: string)
    requires st.Ranged()
    ensures var st' := RegisterNode(st, node, token, now, uuid).0;
            && st'.me == st.me && |st'.objs| >= |st.objs|
            && forall i :: 0 <= i < |st.objs| ==> st'.objs[i].meta == st.objs[i].meta
  {
  }

  lemma HeartbeatViaTraced(s: System, net: Net, b: nat, i: nat, delivery: Delivery, order: seq<string>,
      grants: set<Grant>)
    requires AllRanged(s) && b in s.nodes && i < |s.nodes[b].objs| && s.nodes[b].objs[i].meta.name != s.nodes[b].me.name
    requires AllTraced(s, net, grants)
    ensures AllTraced(HeartbeatVia(s, net, b, i, delivery, order), net, grants)
  {
    hide NodeTraced, ServeHeartbeat, FinishHeartbeat;
    var target := Target(s, net, s.nodes[b].objs[i].meta);
    var s2 := HeartbeatVia(s, net, b, i, delivery, order);
    if delivery.NoConnection? {
    } else if target.None? || delivery.RequestLost? {
      FinishHeartbeatTraced(s.nodes[b], b, net, grants, i, Lost, [], s.clock);
      ReplaceTraced(s, s2, b, net, grants, grants);
    } else {
      var a := target.value;
      var (A, rsp) := HeartbeatAt(s, a, b, i);
      var s1 := s.(nodes := s.nodes[a := A]);
      ServeSameTokens(s.nodes[a], s.nodes[b].me, s.nodes[b].objs[i].outToken, s.clock);
      SameTokensStep(s, s1, a, net, grants);
      if delivery.Delivered? && forall k :: k in order ==> k in rsp.nodes {
        FinishHeartbeatTraced(s1.nodes[b], b, net, grants, i, Got(rsp), order, s.clock);
      } else {
        FinishHeartbeatTraced(s1.nodes[b], b, net, grants, i, Lost, [], s.clock);
      }
      ReplaceTraced(s1, s2, b, net, grants, grants);
    }
  }

  lemma ContactTraced(s: System, net: Net, e: Event, grants: set<Grant>)
    requires Enabled(s, net, e) && e.Contact? && AllTraced(s, net, grants)
    ensures AllTraced(Apply(s, net, e), net, grants + Granted(s, net, e))
  {
    hide NodeTraced, Touch, HeartbeatAt, HeartbeatVia, RegisterVia, GrantVia;
    var s1, i := Touched(s, e.b, e.key), s.nodes[e.b].main[e.key];
    TouchSameTokens(s.nodes[e.b], i, s.clock);
    SameTokensStep(s, s1, e.b, net, grants);
    HeartbeatViaTraced(s1, net, e.b, i, e.delivery, e.order, grants);
    RegisterViaTraced(s1, net, e.b, i, e.delivery, e.uuid, grants);
    assert grants + {} == grants;
  }

  lemma ServedTraced(s: System, net: Net, e: Event, grants: set<Grant>)
    requires Enabled(s, net, e) && (e.LateRegister? || e.LateHeartbeat? || e.Call?) && AllTraced(s, net, grants)
    ensures AllTraced(Apply(s, net, e), net, grants + Granted(s, net, e))
  {
    hide NodeTraced, RegisterNode, Authenticate, ServeHeartbeat;
    assert grants + {} == grants;
    match e {
      case LateRegister(a, b, uuid) =>
        var B := s.nodes[b];
        RegisterTraced(s.nodes[a], a, net, grants, B.me, B.clusterToken, s.clock, uuid);
        ReplaceTraced(s, Apply(s, net, e), a, net, grants, grants + Granted(s, net, e));
      case LateHeartbeat(a, b, token) =>
        ServeSameTokens(s.nodes[a], s.nodes[b].me, token, s.clock);
        SameTokensStep(s, Apply(s, net, e), a, net, grants);
      case Call(b, key) =>
        var o := s.nodes[b].At(key);
        var target := Target(s, net, o.meta);
        if target.Some? {
          ServeSameTokens(s.nodes[target.value], s.nodes[b].me, o.outToken, s.clock);
          SameTokensStep(s, Apply(s, net, e), target.value, net, grants);
        }
    }
  }

  lemma OtherTraced(s: System, net: Net, e: Event, grants: set<Grant>)
    requires Enabled(s, net, e) && AllTraced(s, net, grants)
    requires !e.Contact? && !e.LateRegister? && !e.LateHeartbeat? && !e.Call?
    ensures AllTraced(Apply(s, net, e), net, grants)
  {
    hide NodeTraced, Boot, AddRemotes, HubHeartBeat, HubFiltered, Filter, Snapshot, Swap, FilterWrong;
    match e {
      case Start(n, me, clusterToken, localToken, list) =>
        BootTraced(n, net, grants, me, clusterToken, localToken, list, s.clock);
        ReplaceTraced(s, Apply(s, net, e), n, net, grants, grants);
      case HubContact(b, delivery, order) =>
        var nodes := HubHeartBeat(s.hub, s.nodes[b].me, s.clock).1.nodes;
        AddRemotesTraced(s.nodes[b], b, net, grants, order, nodes, s.clock);
        if delivery.Delivered? { ReplaceTraced(s, Apply(s, net, e), b, net, grants, grants); }
      case FilterMain(n) =>
        FilterSameTokens(s.nodes[n], s.clock);
        SameTokensStep(s, Apply(s, net, e), n, net, grants);
      case FilterRead(n) =>
        FilterSameTokens(s.nodes[n], s.clock);
        SameTokensStep(s, Apply(s, net, e), n, net, grants);
      case FilterWrite(n) =>
        FilterSameTokens(s.nodes[n], s.clock);
        SameTokensStep(s, Apply(s, net, e), n, net, grants);
      case FilterWrongList(n) =>
        FilterSameTokens(s.nodes[n], s.clock);
        SameTokensStep(s, Apply(s, net, e), n, net, grants);
      case _ =>
    }
  }

  lemma StepTraced(s: System, net: Net, e: Event, grants: set<Grant>)
    requires Enabled(s, net, e) && AllTraced(s, net, grants)
    ensures AllTraced(Apply(s, net, e), net, grants + Granted(s, net, e))
  {
    hide AllTraced, Apply, Enabled;
    if e.Contact? {
      ContactTraced(s, net, e, grants);
    } else if e.LateRegister? || e.LateHeartbeat? || e.Call? {
      ServedTraced(s, net, e, grants);
    } else {
      OtherTraced(s, net, e, grants);
      assert grants + {} == grants;
    }
  }

  // ---------------------------------------------------------------- runs

  /** All registrations that were accepted in a run. */
  ghost function Grants(s: System, net: Net, es: seq<Event>): set<Grant>
    requires Runs(s, net, es)
    decreases |es|
  {
    if es == [] then {} else Granted(s, net, es[0]) + Grants(Apply(s, net, es[0]), net, es[1..])
  }

  lemma {:induction false} RunTraced(s: System, net: Net, es: seq<Event>, grants: set<Grant>)
    requires Runs(s, net, es) && AllTraced(s, net, grants)
    ensures AllTraced(After(s, net, es), net, grants + Grants(s, net, es))
    decreases |es|
  {
    hide AllTraced, Apply, Enabled, Granted;
    if es == [] {
      assert grants + {} == grants;
    } else {
      StepTraced(s, net, es[0], grants);
      var s1, now := Apply(s, net, es[0]), Granted(s, net, es[0]);
      RunTraced(s1, net, es[1..], grants + now);
      assert grants + now + Grants(s1, net, es[1..]) == grants + (now + Grants(s1, net, es[1..]));
    }
  }

  /**
   In every reachable state every token held for a peer was given out: here to that peer, or to this node at
   the peer's address.
   */
  lemma TokensWereGranted(s0: System, net: Net, es: seq<Event>, n: nat, i: nat)
    requires Origin(s0) && Runs(s0, net, es)
    requires n in After(s0, net, es).nodes && i < |After(s0, net, es).nodes[n].objs|
    ensures var st := After(s0, net, es).nodes[n];
            var e := st.objs[i];
            || (e.meta == st.me && e.inToken == e.outToken == st.localToken)
            || ((e.inToken == "" || Grant(n, e.meta, e.inToken) in Grants(s0, net, es))
                && (e.outToken == "" ||
                    (Addr(e.meta) in net && Grant(net[Addr(e.meta)], st.me, e.outToken) in Grants(s0, net, es))))
  {
    RunTraced(s0, net, es, {});
    assert {} + Grants(s0, net, es) == Grants(s0, net, es);
    assert Traced(After(s0, net, es).nodes[n].objs[i], After(s0, net, es).nodes[n], n, net, Grants(s0, net, es));
  }

  // ---------------------------------------------------------------- one token, one grant

  /** Nodes that are there stay, with their identity and the cluster's token, and tokens that were made stay made. */
  ghost predicate Lasts(s: System, s': System) {
    && s.issued <= s'.issued
    && forall n :: n in s.nodes ==>
         n in s'.nodes && s'.nodes[n].me == s.nodes[n].me && s'.nodes[n].clusterToken == s.nodes[n].clusterToken
  }

  lemma StepLasts(s: System, net: Net, e: Event)
    requires Inv(s) && Enabled(s, net, e)
    ensures Lasts(s, Apply(s, net, e))
  {
    hide Inv, Enabled, Apply;
    StepSafe(s, net, e);
    IssuedGrows(s, net, e);
    if e.Start? {
      StartLasts(s, net, e);
    } else {
      forall n | n in s.nodes ensures Evolves(s.nodes[n], Apply(s, net, e).nodes[n]) {
      }
    }
  }

  lemma StartLasts(s: System, net: Net, e: Event)
    requires Enabled(s, net, e) && e.Start?
    ensures var s' := Apply(s, net, e);
            && e.n in s'.nodes && s'.nodes[e.n].me == e.me && s'.nodes[e.n].clusterToken == e.clusterToken
            && (e.n in s.nodes ==> s.nodes[e.n].me == e.me && s.nodes[e.n].clusterToken == e.clusterToken)
  {
    BootIdentity(e.me, e.clusterToken, e.localToken, e.list, s.clock);
    hide Boot;
  }

  lemma BootIdentity(me: Meta, clusterToken: string, localToken: string, list: seq<StaticNode>, now: int)
    ensures var st := Boot(me, clusterToken, localToken, list, now); st.me == me && st.clusterToken == clusterToken
  {
    var blank := EndNode(me, clusterToken, localToken, [], map[], map[], None);
    LoadStaticIdentity(blank.Insert(Entry(me, localToken, localToken, LAST_TIME, LAST_TIME, now, false)), list, now);
  }

  lemma {:induction false} LoadStaticIdentity(st: EndNode, list: seq<StaticNode>, now: int)
    requires st.Ranged()
    ensures var st' := LoadStatic(st, list, now); st'.me == st.me && st'.clusterToken == st.clusterToken
    decreases |list|
  {
    if list != [] {
      var x := list[0];
      var e := Entry(Meta(x.name, x.host, x.port, st.me.cluster), "", "", 0, 0, now, true);
      LoadStaticIdentity(if x.IsValid(st.me) then st.Insert(e) else st, list[1..], now);
    }
  }

  lemma IssuedGrows(s: System, net: Net, e: Event)
    requires Enabled(s, net, e)
    ensures s.issued <= Apply(s, net, e).issued
  {
    hide RegisterNode, ServeHeartbeat, Authenticate, FinishRegister, FinishHeartbeat, AddRemotes, Touch, HubHeartBeat;
    hide Boot, Filter, Snapshot, Swap, FilterWrong, HubFiltered;
  }

  /** The grantee is a node that presented the issuer's cluster name and cluster token. */
  ghost predicate Deserved(s: System, g: Grant) {
    && g.token in s.issued && g.issuer in s.nodes && g.peer.cluster == s.nodes[g.issuer].me.cluster
    && exists b :: b in s.nodes && s.nodes[b].me == g.peer && s.nodes[b].clusterToken == s.nodes[g.issuer].clusterToken
  }

  lemma DeservedLasts(s: System, s': System, g: Grant)
    requires Deserved(s, g) && Lasts(s, s')
    ensures Deserved(s', g)
  {
    var b :| b in s.nodes && s.nodes[b].me == g.peer && s.nodes[b].clusterToken == s.nodes[g.issuer].clusterToken;
    assert s'.nodes[b].me == g.peer;
  }

  /** A registration is accepted with a new token, and only from a node of the cluster. */
  lemma AcceptedIsKin(st: EndNode, node: Meta, token: string, now: int, uuid: string)
    requires st.Ranged() && RegisterNode(st, node, token, now, uuid).1.code == 0
    ensures node.cluster == st.me.cluster && token == st.clusterToken
    ensures RegisterNode(st, node, token, now, uuid).1.data == uuid
  {
  }

  /** The token an event makes, if it may make one. */
  function NewToken(e: Event): string {
    match e
    case Contact(_, _, _, uuid, _) => uuid
    case LateRegister(_, _, uuid) => uuid
    case _ => ""
  }

  /** What an event grants: at most one token, which is new, to a node of the cluster. */
  lemma GrantIsNew(s: System, net: Net, e: Event, g: Grant)
    requires Enabled(s, net, e) && g in Granted(s, net, e)
    ensures (e.Contact? || e.LateRegister?) && Granted(s, net, e) == {g}
    ensures g.token == NewToken(e) && g.token !in s.issued && g.issuer in s.nodes
    ensures g.peer.cluster == s.nodes[g.issuer].me.cluster
    ensures exists b ::
              b in s.nodes && s.nodes[b].me == g.peer && s.nodes[b].clusterToken == s.nodes[g.issuer].clusterToken
  {
    if e.LateRegister? {
      var B := s.nodes[e.b];
      AcceptedIsKin(s.nodes[e.a], B.me, B.clusterToken, s.clock, e.uuid);
      hide RegisterNode;
      assert s.nodes[e.b].me == g.peer;
    } else {
      GrantViaContact(s, net, e, g);
    }
  }

  lemma GrantViaContact(s: System, net: Net, e: Event, g: Grant)
    requires Enabled(s, net, e) && e.Contact? && g in Granted(s, net, e)
    ensures Granted(s, net, e) == {g} && g.token == e.uuid && g.issuer in s.nodes
    ensures g.peer == s.nodes[e.b].me && g.peer.cluster == s.nodes[g.issuer].me.cluster
    ensures s.nodes[e.b].clusterToken == s.nodes[g.issuer].clusterToken
  {
    hide RegisterNode, HeartbeatAt;
    var s1, i := Touched(s, e.b, e.key), s.nodes[e.b].main[e.key];
    TouchKeepsIdentity(s.nodes[e.b], i, s.clock);
    hide Touch;
    var target := Target(s1, net, s1.nodes[e.b].objs[i].meta);
    var B := s1.nodes[e.b];
    AcceptedIsKin(s1.nodes[target.value], B.me, B.clusterToken, s.clock, e.uuid);
  }

  lemma TouchKeepsIdentity(st: EndNode, i: nat, now: int)
    requires st.Ranged() && i < |st.objs|
    ensures Touch(st, i, now).me == st.me && Touch(st, i, now).clusterToken == st.clusterToken
    ensures |Touch(st, i, now).objs| == |st.objs|
  {
  }

  /** Every grant is deserved, and no token is granted twice. */
  ghost predicate GrantsInOrder(s: System, grants: set<Grant>) {
    && (forall g :: g in grants ==> Deserved(s, g))
    && (forall g, h :: g in grants && h in grants && g.token == h.token ==> g == h)
  }

  lemma StepGrants(s: System, net: Net, e: Event, grants: set<Grant>)
    requires Inv(s) && Enabled(s, net, e) && GrantsInOrder(s, grants)
    ensures GrantsInOrder(Apply(s, net, e), grants + Granted(s, net, e))
  {
    hide Inv, Enabled, Apply, Granted, Lasts, Deserved;
    StepLasts(s, net, e);
    var s', more := Apply(s, net, e), Granted(s, net, e);
    forall g | g in grants + more ensures Deserved(s', g) {
      if g in grants {
        DeservedLasts(s, s', g);
      } else {
        NewIsDeserved(s, net, e, g);
      }
    }
    forall g, h | g in grants + more && h in grants + more && g.token == h.token ensures g == h {
      if g in more { GrantIsNew(s, net, e, g); }
      if h in more { GrantIsNew(s, net, e, h); }
      if g in grants { TokenIssued(s, g); }
      if h in grants { TokenIssued(s, h); }
    }
  }

  lemma TokenIssued(s: System, g: Grant)
    requires Deserved(s, g)
    ensures g.token in s.issued
  {
  }

  lemma NewIsDeserved(s: System, net: Net, e: Event, g: Grant)
    requires Enabled(s, net, e) && g in Granted(s, net, e) && Lasts(s, Apply(s, net, e))
    ensures Deserved(Apply(s, net, e), g)
  {
    GrantIsNew(s, net, e, g);
    IssuedNow(s, net, e, g);
    hide Enabled, Apply, Granted;
    var s' := Apply(s, net, e);
    var b :| b in s.nodes && s.nodes[b].me == g.peer && s.nodes[b].clusterToken == s.nodes[g.issuer].clusterToken;
    assert s'.nodes[b].me == g.peer;
  }

  lemma IssuedNow(s: System, net: Net, e: Event, g: Grant)
    requires Enabled(s, net, e) && g in Granted(s, net, e)
    ensures g.token in Apply(s, net, e).issued
  {
    GrantIsNew(s, net, e, g);
    hide RegisterNode, FinishRegister, HeartbeatVia, Touch;
  }

  lemma {:induction false} RunGrants(s: System, net: Net, es: seq<Event>, grants: set<Grant>)
    requires Inv(s) && Runs(s, net, es) && GrantsInOrder(s, grants)
    ensures GrantsInOrder(After(s, net, es), grants + Grants(s, net, es))
    decreases |es|
  {
    hide Inv, GrantsInOrder, Apply, Enabled, Granted;
    if es == [] {
      assert grants + {} == grants;
    } else {
      StepGrants(s, net, es[0], grants);
      StepSafe(s, net, es[0]);
      var s1, now := Apply(s, net, es[0]), Granted(s, net, es[0]);
      RunGrants(s1, net, es[1..], grants + now);
      assert grants + now + Grants(s1, net, es[1..]) == grants + (now + Grants(s1, net, es[1..]));
    }
  }

  /**
   In every run a token identifies its issuer and its grantee, and every grantee presented the issuer's
   cluster name and token.
   */
  lemma TokensIdentifyGrants(s0: System, net: Net, es: seq<Event>)
    requires Origin(s0) && Runs(s0, net, es)
    ensures forall g :: g in Grants(s0, net, es) ==> Deserved(After(s0, net, es), g)
    ensures forall g, h :: g in Grants(s0, net, es) && h in Grants(s0, net, es) && g.token == h.token ==> g == h
  {
    OriginInv(s0);
    hide Inv, Runs, After, Grants, Deserved;
    assert GrantsInOrder(s0, {});
    RunGrants(s0, net, es, {});
    assert {} + Grants(s0, net, es) == Grants(s0, net, es);
  }

  // ---------------------------------------------------------------- which calls pass

  /** The entry under which the caller is known, not timed out. */
  ghost predicate KnownFresh(st: EndNode, node: Meta, now: int)
    requires st.Ranged()
  {
    && node.name in st.main && st.At(node.name).meta == node
    && (st.At(node.name).getTime == 0 || Add64(st.At(node.name).getTime, NODE_TIMEOUT) >= now)
  }

  /**
   In every reachable state a call passes exactly in three cases: with the node's own token; with a token that
   the node gave to exactly this caller, and that is still the one it expects; and without a token, from a
   caller that is known, as by gossip or configuration, and of whom it expects none.
   */
  lemma CallsThatPass(s0: System, net: Net, es: seq<Event>, n: nat, node: Meta, token: string)
    requires Origin(s0) && Runs(s0, net, es) && n in After(s0, net, es).nodes
    ensures var s := After(s0, net, es);
            var st := s.nodes[n];
            && st.Ranged()
            && (Authenticate(st, node, token, s.clock).1 <==>
                  || token == st.localToken
                  || (KnownFresh(st, node, s.clock) && token != "" && st.At(node.name).inToken == token
                      && Grant(n, node, token) in Grants(s0, net, es))
                  || (KnownFresh(st, node, s.clock) && token == "" && st.At(node.name).inToken == ""))
  {
    OriginRanged(s0, net, es);
    var st := After(s0, net, es).nodes[n];
    if node.name in st.main {
      TokensWereGranted(s0, net, es, n, st.main[node.name]);
    }
    hide Runs, After, Grants;
  }

  lemma {:induction false} OriginRanged(s: System, net: Net, es: seq<Event>)
    requires AllRanged(s) && Runs(s, net, es)
    ensures AllRanged(After(s, net, es))
    decreases |es|
  {
    hide Enabled, Apply;
    if es != [] { OriginRanged(Apply(s, net, es[0]), net, es[1..]); }
  }
}
