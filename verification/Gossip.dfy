/**
 Gossip between nodes: what a heartbeat brings to the sender's table, and what the centre keeps,
 answers and forgets.
 */
module Gossip {
  import opened Common
  import opened NodeTable
  import opened NodeSafety
  import opened ClusterSystem
  import opened NodeOutcomes

  // ---------------------------------------------------------------- from node to node

  /** b's contact with key is a heartbeat that reaches node a and is accepted there. */
  ghost predicate AcceptedAt(s: System, net: Net, e: Event, a: nat) {
    && Enabled(s, net, e) && e.Contact? && e.delivery.Delivered?
    && var s1, i := Touched(s, e.b, e.key), s.nodes[e.b].main[e.key];
    && s1.nodes[e.b].objs[i].RegisteredRemote(s.clock)
    && Target(s1, net, s1.nodes[e.b].objs[i].meta) == Some(a)
    && HeartbeatAt(s1, a, e.b, i).1.code == 0
  }

  lemma TouchedOther(s: System, b: nat, key: string, a: nat)
    requires AllRanged(s) && b in s.nodes && key in s.nodes[b].main && a in s.nodes && a != b
    ensures var s1 := Touched(s, b, key);
            && s1.nodes[a] == s.nodes[a] && s1.clock == s.clock && s1.nodes[b].me == s.nodes[b].me
            && s1.nodes[b].main == s.nodes[b].main && s1.nodes[b].wrong == s.nodes[b].wrong
  {
  }

  /** What b's side of the exchange makes of the reply. */
  lemma AcceptedIsFinished(s: System, net: Net, e: Event, a: nat)
    requires AcceptedAt(s, net, e, a) && a != e.b
    ensures var s1, i := Touched(s, e.b, e.key), s.nodes[e.b].main[e.key];
            var rsp := HeartbeatAt(s1, a, e.b, i).1;
            && Orders(e.order, rsp.nodes.Keys) && e.b in Apply(s, net, e).nodes
            && Apply(s, net, e).nodes[e.b] == FinishHeartbeat(s1.nodes[e.b], i, Got(rsp), e.order, s.clock)
  {
    hide FinishHeartbeat, ServeHeartbeat, RegisterVia, Touch;
  }

  /**
   A peer that a holds with a recent timestamp is in b's table after b's accepted heartbeat to a, with the
   metadata a has unless b knew the name already, and except itself and what is on b's wrong-node list.
   */
  lemma GossipReaches(s: System, net: Net, e: Event, a: nat, k: string)
    requires Inv(s) && AcceptedAt(s, net, e, a) && a in s.nodes && a != e.b
    requires k in s.nodes[a].main && k != s.nodes[a].me.name && Recent(s.nodes[a].At(k), s.clock)
    requires k != s.nodes[e.b].me.name && k !in s.nodes[e.b].wrong
    ensures var B := Apply(s, net, e).nodes;
            && e.b in B && B[e.b].Ranged() && k in B[e.b].main
            && (k !in s.nodes[e.b].main ==> B[e.b].At(k).meta == s.nodes[a].At(k).meta)
  {
    var s1, i := Touched(s, e.b, e.key), s.nodes[e.b].main[e.key];
    AcceptedIsFinished(s, net, e, a);
    TouchedOther(s, e.b, e.key, a);
    GoodOf(s, a);
    ReplyLists(s.nodes[a], s1.nodes[e.b].me, s1.nodes[e.b].objs[i].outToken, s.clock, k);
    hide Inv, Apply, FinishHeartbeat, ServeHeartbeat, Good, Touch;
    LearnsExactly(s1.nodes[e.b], i, HeartbeatAt(s1, a, e.b, i).1, e.order, s.clock);
  }

  lemma GoodOf(s: System, n: nat)
    requires Inv(s) && n in s.nodes
    ensures Good(s.nodes[n]) && 0 <= s.clock <= LAST_TIME
  {
    assert Sound(s.nodes[n], Pool(s));
  }

  /** The reply to an accepted heartbeat lists k, and everything under its own name. */
  lemma ReplyLists(st: EndNode, node: Meta, token: string, now: int, k: string)
    requires Good(st) && 0 <= now <= LAST_TIME && ServeHeartbeat(st, node, token, now).1.code == 0
    requires k in st.main && k != st.me.name && Recent(st.At(k), now)
    ensures var nodes := ServeHeartbeat(st, node, token, now).1.nodes;
            k in nodes && nodes[k] == st.At(k).meta && forall j :: j in nodes ==> nodes[j].name == j
  {
    ReplyExactly(st, node, token, now);
    HeartbeatAccepted(st, node, token, now);
    var st' := ServeHeartbeat(st, node, token, now).0;
    assert Recent(st'.At(k), now) && st'.At(k).meta == st.At(k).meta;
    forall j | j in st'.main ensures st'.At(j).meta.name == j {
      assert st.At(j).meta.name == j;
      assert st'.At(j).meta == st.At(j).meta;
    }
    hide ServeHeartbeat, OnlyName;
  }

  // ---------------------------------------------------------------- the centre

  ghost predicate HubTimes(hub: Hub) {
    forall c, k :: c in hub && k in hub[c] ==> hub[c][k].InTime()
  }

  /** The centre takes a node with a name, a cluster and an address on a port above 1000. */
  ghost predicate Complete(m: Meta) {
    m.host != "" && m.port > 1000 && m.cluster != "" && m.name != ""
  }

  /** A heartbeat refreshes a known node and enters a new one; nobody else is touched. */
  lemma HubTakes(hub: Hub, m: Meta, now: int)
    ensures var (hub', rsp) := HubHeartBeat(hub, m, now);
            if !Complete(m) then rsp == HeartbeatRsp(500, map[]) && hub' == hub
            else
              && rsp.code == 0 && m.cluster in hub' && m.name in hub'[m.cluster]
              && hub'[m.cluster][m.name] ==
                 (if m.cluster in hub && m.name in hub[m.cluster] then hub[m.cluster][m.name].(getTime := now)
                  else Entry(m, "", "", now, 0, now, false))
              && (forall c :: c != m.cluster ==> (c in hub' <==> c in hub) && (c in hub ==> hub'[c] == hub[c]))
              && (forall k :: k != m.name ==>
                    (k in hub'[m.cluster] <==> m.cluster in hub && k in hub[m.cluster])
                    && (m.cluster in hub && k in hub[m.cluster] ==> hub'[m.cluster][k] == hub[m.cluster][k]))
  {
  }

  /**
   The reply holds exactly the nodes of the cluster with a recent timestamp; the first node of a cluster
   gets none.
   */
  lemma HubReplies(hub: Hub, m: Meta, now: int)
    requires HubTimes(hub) && 0 <= now <= LAST_TIME && Complete(m)
    ensures var (hub', rsp) := HubHeartBeat(hub, m, now);
            && m.cluster in hub'
            && (m.cluster !in hub ==> rsp.nodes == map[])
            && (m.cluster in hub ==>
                  && (forall k :: k in rsp.nodes <==> k in hub'[m.cluster] && Recent(hub'[m.cluster][k], now))
                  && (forall k :: k in rsp.nodes ==> rsp.nodes[k] == hub'[m.cluster][k].meta))
  {
    HubTimesKept(hub, m, now);
    var hub': Hub := HubHeartBeat(hub, m, now).0;
    var t: map<string, Entry> := hub'[m.cluster];
    forall k | k in t ensures t[k].IsValid(now) <==> Recent(t[k], now) {
      ValidIsRecent(t[k], now);
    }
  }

  lemma HubTimesKept(hub: Hub, m: Meta, now: int)
    requires HubTimes(hub) && 0 <= now <= LAST_TIME
    ensures HubTimes(HubHeartBeat(hub, m, now).0) && HubTimes(HubFiltered(hub, now))
  {
  }

  /** The centre's Filter keeps every cluster, and in it exactly the nodes with a recent timestamp. */
  lemma HubForgets(hub: Hub, now: int)
    requires HubTimes(hub)
    ensures var hub' := HubFiltered(hub, now);
            && hub'.Keys == hub.Keys
            && (forall c, k :: c in hub ==> (k in hub'[c] <==> k in hub[c] && Recent(hub[c][k], now)))
            && (forall c, k :: c in hub && k in hub'[c] ==> hub'[c][k] == hub[c][k])
  {
    forall c, k | c in hub && k in hub[c] ensures hub[c][k].IsValid(now) <==> Recent(hub[c][k], now) {
      ValidIsRecent(hub[c][k], now);
    }
  }

  /** Only heartbeats to the centre and its Filter change what it holds. */
  lemma HubStays(s: System, net: Net, e: Event)
    requires Enabled(s, net, e) && !e.HubContact? && !e.HubFilter?
    ensures Apply(s, net, e).hub == s.hub
  {
    hide RegisterNode, ServeHeartbeat, HubHeartBeat, HubFiltered, RegisterVia, HeartbeatVia;
    hide Boot, Filter, Snapshot, Swap, FilterWrong, Authenticate, AddRemotes, Target;
    if e.Contact? {
      var s1, i := Touched(s, e.b, e.key), s.nodes[e.b].main[e.key];
      ContactSparesHub(s1, net, e.b, i, e.delivery, e.uuid, e.order);
    }
  }

  lemma ContactSparesHub(s: System, net: Net, b: nat, i: nat, delivery: Delivery, uuid: string, order: seq<string>)
    requires AllRanged(s) && b in s.nodes && i < |s.nodes[b].objs|
    ensures RegisterVia(s, net, b, i, delivery, uuid).hub == s.hub
    ensures HeartbeatVia(s, net, b, i, delivery, order).hub == s.hub
  {
    hide RegisterNode, ServeHeartbeat, FinishRegister, FinishHeartbeat, Target;
  }

  lemma HubTimesStep(s: System, net: Net, e: Event)
    requires Inv(s) && HubTimes(s.hub) && Enabled(s, net, e)
    ensures HubTimes(Apply(s, net, e).hub)
  {
    hide HubTimes, HubHeartBeat, HubFiltered, AddRemotes, Sound;
    if e.HubContact? {
      HubTimesKept(s.hub, s.nodes[e.b].me, s.clock);
    } else if e.HubFilter? {
      HubTimesKept(s.hub, Meta("", "", 0, ""), s.clock);
    } else {
      HubStays(s, net, e);
      hide Apply, Enabled;
    }
  }

  /** In every reachable state the centre's times are in range, so that the two statements above apply. */
  lemma {:induction false} HubTimesRun(s: System, net: Net, es: seq<Event>)
    requires Inv(s) && HubTimes(s.hub) && Runs(s, net, es)
    ensures HubTimes(After(s, net, es).hub)
    decreases |es|
  {
    hide Inv, HubTimes, Enabled, Apply;
    if es != [] {
      HubTimesStep(s, net, es[0]);
      StepSafe(s, net, es[0]);
      HubTimesRun(Apply(s, net, es[0]), net, es[1..]);
    }
  }
}
