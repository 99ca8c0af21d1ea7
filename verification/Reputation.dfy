/**
 Whether the nodes of a cluster tell the truth about a node m: if everybody who
 knows m's name means m, every event keeps it so.
 */
module Reputation {
  import opened Common
  import opened NodeTable
  import opened NodeSafety
  import opened ClusterSystem

  /** If the table knows a node by the name of m, it knows it as m. */
  ghost predicate Tells(st: EndNode, m: Meta)
    requires st.Ranged()
  {
    m.name in st.main ==> st.At(m.name).meta == m
  }

  /** Everybody in m's cluster who uses or knows m's name means m. */
  ghost predicate Known(s: System, m: Meta) {
    && (forall n :: n in s.nodes && s.nodes[n].me.cluster == m.cluster ==>
          s.nodes[n].Ranged() && Tells(s.nodes[n], m) && (s.nodes[n].me.name == m.name ==> s.nodes[n].me == m))
    && (m.cluster in s.hub && m.name in s.hub[m.cluster] ==> s.hub[m.cluster][m.name].meta == m)
  }

  /** A start-up that does not give m's name to anybody else. */
  ghost predicate Honest(e: Event, m: Meta) {
    e.Start? && e.me.cluster == m.cluster ==>
      && (e.me.name == m.name ==> e.me == m)
      && forall i :: 0 <= i < |e.list| && e.list[i].name == m.name ==>
          e.list[i].host == m.host && e.list[i].port == m.port
  }

  lemma TellsRegister(st: EndNode, node: Meta, token: string, now: int, uuid: string, m: Meta)
    requires st.Ranged() && Tells(st, m) && (node.name == m.name && node.cluster == m.cluster ==> node == m)
    requires st.me.cluster == m.cluster
    ensures Tells(RegisterNode(st, node, token, now, uuid).0, m)
  {
  }

  lemma {:induction false} TellsAddRemotes(st: EndNode, order: seq<string>, nodes: map<string, Meta>, now: int, m: Meta)
    requires st.Ranged() && Tells(st, m)
    requires forall k :: k in order ==> k in nodes && (nodes[k].name == m.name ==> nodes[k] == m)
    ensures Tells(AddRemotes(st, order, nodes, now), m)
    decreases |order|
  {
    if order != [] {
      var st1 := AddRemote(st, order[0], nodes[order[0]], now);
      TellsAddRemotes(st1, order[1..], nodes, now, m);
    }
  }

  lemma {:induction false} TellsLoadStatic(st: EndNode, list: seq<StaticNode>, now: int, m: Meta)
    requires st.Ranged() && Tells(st, m) && st.me.cluster == m.cluster
    requires forall i :: 0 <= i < |list| && list[i].name == m.name ==> list[i].host == m.host && list[i].port == m.port
    ensures Tells(LoadStatic(st, list, now), m)
    decreases |list|
  {
    if list != [] {
      var n := list[0];
      var st1 :=
        if n.IsValid(st.me)
        then st.Insert(Entry(Meta(n.name, n.host, n.port, st.me.cluster), "", "", 0, 0, now, true))
        else st;
      TellsLoadStatic(st1, list[1..], now, m);
    }
  }

  // ---------------------------------------------------------------- the truth spreads

  lemma KnownReplace(s: System, s': System, n: nat, m: Meta)
    requires Known(s, m) && n in s.nodes
    requires s'.hub == s.hub && n in s'.nodes && s'.nodes == s.nodes[n := s'.nodes[n]]
    requires s'.nodes[n].Ranged() && s'.nodes[n].me == s.nodes[n].me
    requires s.nodes[n].me.cluster == m.cluster ==> Tells(s'.nodes[n], m)
    ensures Known(s', m)
  {
  }

  lemma RegisterKeepsMe(st: EndNode, node: Meta, token: string, now: int, uuid: string)
    requires st.Ranged()
    ensures RegisterNode(st, node, token, now, uuid).0.me == st.me
  {
  }

  lemma KnownRegistered(s: System, d: nat, c: nat, token: string, uuid: string, m: Meta)
    requires Known(s, m) && AllRanged(s) && c in s.nodes && d in s.nodes
    ensures Known(Registered(s, d, s.nodes[c].me, token, uuid), m)
  {
    var s' := Registered(s, d, s.nodes[c].me, token, uuid);
    RegisterKeepsMe(s.nodes[d], s.nodes[c].me, token, s.clock, uuid);
    if s.nodes[d].me.cluster == m.cluster {
      TellsRegister(s.nodes[d], s.nodes[c].me, token, s.clock, uuid, m);
    }
    KnownReplace(s, s', d, m);
  }

  lemma KnownServed(s: System, d: nat, node: Meta, token: string, m: Meta)
    requires Known(s, m) && d in s.nodes && s.nodes[d].Ranged()
    ensures Known(s.(nodes := s.nodes[d := ServeHeartbeat(s.nodes[d], node, token, s.clock).0]), m)
    ensures Known(s.(nodes := s.nodes[d := Authenticate(s.nodes[d], node, token, s.clock).0]), m)
  {
    KnownReplace(s, s.(nodes := s.nodes[d := Authenticate(s.nodes[d], node, token, s.clock).0]), d, m);
  }

  lemma KnownFinishRegister(s: System, c: nat, i: nat, reply: Reply<RegisterRsp>, m: Meta)
    requires Known(s, m) && c in s.nodes && s.nodes[c].Ranged() && i < |s.nodes[c].objs|
    ensures Known(s.(nodes := s.nodes[c := FinishRegister(s.nodes[c], i, reply, s.clock)]), m)
  {
    KnownReplace(s, s.(nodes := s.nodes[c := FinishRegister(s.nodes[c], i, reply, s.clock)]), c, m);
  }

  /** A reply that tells the truth about m, if it comes from m's cluster. */
  ghost predicate ReplyTells(reply: Reply<HeartbeatRsp>, m: Meta) {
    reply.Got? && reply.rsp.code == 0 ==>
      forall k :: k in reply.rsp.nodes ==> reply.rsp.nodes[k].name == k && (k == m.name ==> reply.rsp.nodes[k] == m)
  }

  lemma TellsFinishHeartbeat(st: EndNode, i: nat, reply: Reply<HeartbeatRsp>, order: seq<string>, now: int, m: Meta)
    requires st.Ranged() && i < |st.objs|
    requires reply.Got? ==> forall k :: k in order ==> k in reply.rsp.nodes
    ensures FinishHeartbeat(st, i, reply, order, now).me == st.me
    ensures Tells(st, m) && ReplyTells(reply, m) ==> Tells(FinishHeartbeat(st, i, reply, order, now), m)
  {
    if reply.Got? && reply.rsp.code == 0 {
      var st1 := st.Put(i, st.objs[i].(reportTime := now));
      AddRemotesKeepMe(st1, order, reply.rsp.nodes, now);
      if Tells(st, m) && ReplyTells(reply, m) {
        TellsAddRemotes(st1, order, reply.rsp.nodes, now, m);
      }
    }
  }

  lemma {:induction false} AddRemotesKeepMe(st: EndNode, order: seq<string>, nodes: map<string, Meta>, now: int)
    requires st.Ranged() && forall k :: k in order ==> k in nodes
    ensures AddRemotes(st, order, nodes, now).me == st.me
    decreases |order|
  {
    if order != [] {
      AddRemotesKeepMe(AddRemote(st, order[0], nodes[order[0]], now), order[1..], nodes, now);
    }
  }

  lemma KnownFinishHeartbeat(s: System, c: nat, i: nat, reply: Reply<HeartbeatRsp>, order: seq<string>, m: Meta)
    requires Known(s, m) && c in s.nodes && s.nodes[c].Ranged() && i < |s.nodes[c].objs|
    requires reply.Got? ==> forall k :: k in order ==> k in reply.rsp.nodes
    requires s.nodes[c].me.cluster == m.cluster ==> ReplyTells(reply, m)
    ensures Known(s.(nodes := s.nodes[c := FinishHeartbeat(s.nodes[c], i, reply, order, s.clock)]), m)
  {
    TellsFinishHeartbeat(s.nodes[c], i, reply, order, s.clock, m);
    KnownReplace(s, s.(nodes := s.nodes[c := FinishHeartbeat(s.nodes[c], i, reply, order, s.clock)]), c, m);
  }

  lemma PeersTell(st: EndNode, node: Meta, token: string, now: int, m: Meta)
    requires st.Ranged() && Tells(st, m)
    ensures var rsp := ServeHeartbeat(st, node, token, now).1;
            m.name in rsp.nodes ==> rsp.nodes[m.name] == m
  {
  }

  lemma HeartbeatTells(s: System, d: nat, c: nat, key: string, i: nat, m: Meta)
    requires Inv(s) && AllRanged(s) && Known(s, m) && d in s.nodes && Talks(s, c, key, i)
    requires s.nodes[c].me.cluster == m.cluster
    ensures ReplyTells(Got(HeartbeatAt(s, d, c, i).1), m)
  {
    hide Inv;
    HeartbeatKin(s, d, c, key, i);
    if s.nodes[d].me.cluster == m.cluster {
      PeersTell(s.nodes[d], s.nodes[c].me, s.nodes[c].objs[i].outToken, s.clock, m);
    }
  }

  lemma KnownTouched(s: System, c: nat, key: string, m: Meta)
    requires Known(s, m) && AllRanged(s) && c in s.nodes && key in s.nodes[c].main
    ensures Known(Touched(s, c, key), m)
  {
    KnownReplace(s, Touched(s, c, key), c, m);
  }

  lemma KnownRegisterVia(s: System, net: Net, c: nat, i: nat, delivery: Delivery, uuid: string, m: Meta)
    requires Known(s, m) && AllRanged(s) && c in s.nodes && i < |s.nodes[c].objs|
    ensures Known(RegisterVia(s, net, c, i, delivery, uuid), m)
  {
    hide Known;
    var target := Target(s, net, s.nodes[c].objs[i].meta);
    if target.None? || delivery.RequestLost? || delivery.NoConnection? {
      KnownFinishRegister(s, c, i, Lost, m);
    } else {
      var d := target.value;
      var rsp := RegisterNode(s.nodes[d], s.nodes[c].me, s.nodes[c].clusterToken, s.clock, uuid).1;
      KnownRegistered(s, d, c, s.nodes[c].clusterToken, uuid, m);
      var s1 := Registered(s, d, s.nodes[c].me, s.nodes[c].clusterToken, uuid);
      KnownFinishRegister(s1, c, i, if delivery.Delivered? then Got(rsp) else Lost, m);
    }
  }

  lemma KnownHeartbeatVia(s: System, net: Net, c: nat, key: string, i: nat, delivery: Delivery, order: seq<string>,
      m: Meta)
    requires Inv(s) && Known(s, m) && AllRanged(s) && Talks(s, c, key, i)
    ensures Known(HeartbeatVia(s, net, c, i, delivery, order), m)
  {
    hide Known, Inv, ReplyTells;
    var target := Target(s, net, s.nodes[c].objs[i].meta);
    assert ReplyTells(Lost, m) by { LostTells(m); }
    if delivery.NoConnection? {
    } else if target.None? || delivery.RequestLost? {
      KnownFinishHeartbeat(s, c, i, Lost, [], m);
    } else {
      var d := target.value;
      var (D, rsp) := HeartbeatAt(s, d, c, i);
      var s1 := s.(nodes := s.nodes[d := D]);
      KnownServed(s, d, s.nodes[c].me, s.nodes[c].objs[i].outToken, m);
      if s.nodes[c].me.cluster == m.cluster {
        HeartbeatTells(s, d, c, key, i, m);
      }
      if delivery.Delivered? && forall k :: k in order ==> k in rsp.nodes {
        KnownFinishHeartbeat(s1, c, i, Got(rsp), order, m);
      } else {
        KnownFinishHeartbeat(s1, c, i, Lost, [], m);
      }
    }
  }

  lemma LostTells(m: Meta)
    ensures ReplyTells(Lost, m)
  {
  }

  lemma KnownContact(s: System, net: Net, e: Event, m: Meta)
    requires Inv(s) && Known(s, m) && Enabled(s, net, e) && e.Contact?
    ensures Known(Apply(s, net, e), m)
  {
    hide Known, Inv;
    var i := s.nodes[e.b].main[e.key];
    TalksAtStart(s, net, e);
    KnownTouched(s, e.b, e.key, m);
    TouchSafe(s, e.b, e.key);
    var s1 := Touched(s, e.b, e.key);
    TalksOn(s, s1, e.b, e.key, i);
    if s1.nodes[e.b].objs[i].RegisteredRemote(s.clock) {
      KnownHeartbeatVia(s1, net, e.b, e.key, i, e.delivery, e.order, m);
    } else {
      KnownRegisterVia(s1, net, e.b, i, e.delivery, e.uuid, m);
    }
  }

  lemma TalksAtStart(s: System, net: Net, e: Event)
    requires Inv(s) && Enabled(s, net, e) && e.Contact?
    ensures Talks(s, e.b, e.key, s.nodes[e.b].main[e.key])
  {
    assert Named(s.nodes[e.b]);
  }

  lemma KnownHubContact(s: System, net: Net, e: Event, m: Meta)
    requires Inv(s) && Known(s, m) && Enabled(s, net, e) && e.HubContact?
    ensures Known(Apply(s, net, e), m)
  {
    hide Inv;
    if !e.delivery.RequestLost? && !e.delivery.NoConnection? {
      var me := s.nodes[e.b].me;
      var (hub, rsp) := HubHeartBeat(s.hub, me, s.clock);
      HubTells(s.hub, me, s.clock, m);
      var s1 := s.(hub := hub);
      assert Known(s1, m);
      if e.delivery.Delivered? {
        AddRemotesKeepMe(s.nodes[e.b], e.order, rsp.nodes, s.clock);
        if me.cluster == m.cluster {
          HubSortedOf(s);
          HubHeartBeatSorted(s.hub, me, s.clock);
          TellsAddRemotes(s.nodes[e.b], e.order, rsp.nodes, s.clock, m);
        }
        KnownReplace(s1, Apply(s, net, e), e.b, m);
      }
    }
  }

  lemma HubSortedOf(s: System)
    requires Inv(s)
    ensures HubSorted(s.hub)
  {
  }

  lemma HubTells(hub: Hub, me: Meta, now: int, m: Meta)
    requires m.cluster in hub && m.name in hub[m.cluster] ==> hub[m.cluster][m.name].meta == m
    requires me.cluster == m.cluster && me.name == m.name ==> me == m
    ensures var (hub', rsp) := HubHeartBeat(hub, me, now);
            && (m.cluster in hub' && m.name in hub'[m.cluster] ==> hub'[m.cluster][m.name].meta == m)
            && (me.cluster == m.cluster && m.name in rsp.nodes ==> rsp.nodes[m.name] == m)
  {
  }

  lemma KnownStart(s: System, net: Net, e: Event, m: Meta)
    requires Known(s, m) && Enabled(s, net, e) && e.Start? && Honest(e, m)
    ensures Known(Apply(s, net, e), m)
  {
    var own := Entry(e.me, e.localToken, e.localToken, LAST_TIME, LAST_TIME, s.clock, false);
    var st := EndNode(e.me, e.clusterToken, e.localToken, [], map[], map[], None).Insert(own);
    LoadStaticKeepsMe(st, e.list, s.clock);
    if e.me.cluster == m.cluster {
      TellsLoadStatic(st, e.list, s.clock, m);
    }
  }

  lemma {:induction false} LoadStaticKeepsMe(st: EndNode, list: seq<StaticNode>, now: int)
    requires st.Ranged()
    ensures LoadStatic(st, list, now).me == st.me && LoadStatic(st, list, now).clusterToken == st.clusterToken
    decreases |list|
  {
    if list != [] {
      var n := list[0];
      var st1 :=
        if n.IsValid(st.me)
        then st.Insert(Entry(Meta(n.name, n.host, n.port, st.me.cluster), "", "", 0, 0, now, true))
        else st;
      LoadStaticKeepsMe(st1, list[1..], now);
    }
  }

  lemma KnownStep(s: System, net: Net, e: Event, m: Meta)
    requires Inv(s) && Known(s, m) && Enabled(s, net, e) && Honest(e, m)
    requires !e.FilterWrite?
    ensures Known(Apply(s, net, e), m)
  {
    hide Inv;
    match e
    case Contact(_, _, _, _, _) => KnownContact(s, net, e, m);
    case HubContact(_, _, _) => KnownHubContact(s, net, e, m);
    case Start(_, _, _, _, _) => KnownStart(s, net, e, m);
    case LateRegister(a, b, uuid) => KnownRegistered(s, a, b, s.nodes[b].clusterToken, uuid, m);
    case LateHeartbeat(a, b, token) => KnownServed(s, a, s.nodes[b].me, token, m);
    case Call(b, key) =>
      var target := Target(s, net, s.nodes[b].At(key).meta);
      if target.Some? {
        KnownServed(s, target.value, s.nodes[b].me, s.nodes[b].At(key).outToken, m);
      }
    case Tick(_) =>
    case HubFilter =>
    case FilterMain(n) => KnownReplace(s, Apply(s, net, e), n, m);
    case FilterRead(n) => KnownReplace(s, Apply(s, net, e), n, m);
    case FilterWrongList(n) => KnownReplace(s, Apply(s, net, e), n, m);
  }
}
