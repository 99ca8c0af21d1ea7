/**
 What holds of the membership tables in every reachable state and along every
 run, for any number of nodes and any order of events.
 */
module MembershipSafety {
  import opened Common
  import opened NodeTable
  import opened NodeSafety
  import opened ClusterSystem

  lemma OriginInv(s: System)
    requires Origin(s)
    ensures Inv(s)
  {
    assert LocalTokens(s) == {};
  }

  /** Clusters never mix, and every table stores every node under the node's own name. */
  lemma ClustersNeverMix(s0: System, net: Net, es: seq<Event>)
    requires Origin(s0) && Runs(s0, net, es)
    ensures var s := After(s0, net, es);
            && AllRanged(s)
            && (forall n, k :: n in s.nodes && k in s.nodes[n].main ==>
                  s.nodes[n].At(k).meta.cluster == s.nodes[n].me.cluster && s.nodes[n].At(k).meta.name == k)
            && (forall c, k :: c in s.hub && k in s.hub[c] ==>
                  s.hub[c][k].meta.cluster == c && s.hub[c][k].meta.name == k)
  {
    OriginInv(s0);
    RunSafe(s0, net, es);
  }

  ghost predicate NoWrap(e: Entry) {
    && Add64(e.getTime, NODE_TIMEOUT) == e.getTime + NODE_TIMEOUT
    && Add64(e.reportTime, NODE_TIMEOUT) == e.reportTime + NODE_TIMEOUT
    && Add64(e.createTime, NODE_TIMEOUT) == e.createTime + NODE_TIMEOUT
  }

  /** A node never loses sight of itself, and no validity test in the system wraps around. */
  lemma OwnEntryLives(s0: System, net: Net, es: seq<Event>, n: nat)
    requires Origin(s0) && Runs(s0, net, es) && n in After(s0, net, es).nodes
    ensures var s := After(s0, net, es);
            var st := s.nodes[n];
            && st.Ranged() && st.me.name in st.main
            && st.At(st.me.name).meta == st.me
            && st.At(st.me.name).IsValid(s.clock)
            && st.At(st.me.name).RegisteredRemote(s.clock)
            && forall i :: 0 <= i < |st.objs| ==> NoWrap(st.objs[i])
  {
    OriginInv(s0);
    RunSafe(s0, net, es);
    var s := After(s0, net, es);
    assert Sound(s.nodes[n], Pool(s));
    OwnEntryValid(s.nodes[n], s.clock);
  }

  lemma OwnEntryValid(st: EndNode, now: int)
    requires Good(st) && 0 <= now <= LAST_TIME
    ensures st.At(st.me.name).IsValid(now) && st.At(st.me.name).RegisteredRemote(now)
    ensures forall i :: 0 <= i < |st.objs| ==> NoWrap(st.objs[i])
  {
  }

  /** Node n is not restarted in this run. */
  ghost predicate KeepsRunning(es: seq<Event>, n: nat) {
    forall i :: 0 <= i < |es| ==> !(es[i].Start? && es[i].n == n)
  }

  /** The own entry and the configured entries of a running node are never dropped or replaced. */
  lemma {:induction false} PinnedForever(s: System, net: Net, es: seq<Event>, n: nat, k: string)
    requires Inv(s) && AllRanged(s) && Runs(s, net, es) && KeepsRunning(es, n)
    requires n in s.nodes && Pinned(s.nodes[n], k)
    ensures var s' := After(s, net, es);
            && AllRanged(s') && n in s'.nodes
            && Pinned(s'.nodes[n], k)
            && s'.nodes[n].main[k] == s.nodes[n].main[k]
            && s'.nodes[n].At(k).meta == s.nodes[n].At(k).meta
    decreases |es|
  {
    hide Inv, Enabled;
    if es != [] {
      PinnedStep(s, net, es[0], n, k);
      PinnedForever(Apply(s, net, es[0]), net, es[1..], n, k);
    }
  }

  lemma PinnedStep(s: System, net: Net, e: Event, n: nat, k: string)
    requires Inv(s) && Enabled(s, net, e) && !(e.Start? && e.n == n)
    requires n in s.nodes && Pinned(s.nodes[n], k)
    ensures var s' := Apply(s, net, e);
            && Inv(s') && AllRanged(s') && n in s'.nodes
            && Pinned(s'.nodes[n], k)
            && s'.nodes[n].main[k] == s.nodes[n].main[k]
            && s'.nodes[n].At(k).meta == s.nodes[n].At(k).meta
  {
    hide Inv, Enabled;
    StepSafe(s, net, e);
    if !e.Start? {
      assert Evolves(s.nodes[n], Apply(s, net, e).nodes[n]);
    }
  }

  /** The name k is in node n's table now and after every event of the run. */
  ghost predicate Stays(s: System, net: Net, es: seq<Event>, n: nat, k: string)
    requires Runs(s, net, es)
    decreases |es|
  {
    && n in s.nodes && k in s.nodes[n].main
    && (es != [] ==> Stays(Apply(s, net, es[0]), net, es[1..], n, k))
  }

  /** A Filter under way, if there is one, has read the name with the meaning it has now. */
  ghost predicate SnapAgrees(st: EndNode, k: string)
    requires st.Ranged() && k in st.main
  {
    st.snap.Some? && k in st.snap.value ==> st.objs[st.snap.value[k]].meta == st.At(k).meta
  }

  /**
   While a name stays in a running node's table it denotes the same host, port and cluster, interrupted
   Filters included.
   */
  lemma {:induction false} NamesKeepTheirMeaning(s: System, net: Net, es: seq<Event>, n: nat, k: string)
    requires Inv(s) && AllRanged(s) && Runs(s, net, es) && Stays(s, net, es, n, k)
    requires KeepsRunning(es, n) && SnapAgrees(s.nodes[n], k)
    ensures var s' := After(s, net, es);
            AllRanged(s') && n in s'.nodes && k in s'.nodes[n].main && s'.nodes[n].At(k).meta == s.nodes[n].At(k).meta
    decreases |es|
  {
    hide Inv, Enabled, SnapAgrees;
    if es != [] {
      MeaningStep(s, net, es[0], n, k);
      NamesKeepTheirMeaning(Apply(s, net, es[0]), net, es[1..], n, k);
    }
  }

  lemma MeaningStep(s: System, net: Net, e: Event, n: nat, k: string)
    requires Inv(s) && Enabled(s, net, e) && !(e.Start? && e.n == n)
    requires n in s.nodes && k in s.nodes[n].main && SnapAgrees(s.nodes[n], k)
    requires n in Apply(s, net, e).nodes && k in Apply(s, net, e).nodes[n].main
    ensures var s' := Apply(s, net, e);
            && Inv(s') && AllRanged(s') && s'.nodes[n].At(k).meta == s.nodes[n].At(k).meta
            && SnapAgrees(s'.nodes[n], k)
  {
    hide Inv, SnapAgrees;
    StepSafe(s, net, e);
    if e.FilterWrite? || (e.FilterRead? && e.n == n) {
      MeaningFiltered(s, net, e, n, k);
    } else if !e.Start? {
      SnapStep(s, net, e, n);
      hide Enabled, Apply;
      MeaningStays(s.nodes[n], Apply(s, net, e).nodes[n], k);
    }
  }

  lemma MeaningStays(st: EndNode, st': EndNode, k: string)
    requires Evolves(st, st') && SamePeers(st, st') && k in st.main && k in st'.main && st'.snap == st.snap
        && SnapAgrees(st, k)
    ensures st'.At(k).meta == st.At(k).meta && SnapAgrees(st', k)
  {
  }

  lemma MeaningFiltered(s: System, net: Net, e: Event, n: nat, k: string)
    requires (e.FilterWrite? || (e.FilterRead? && e.n == n)) && Enabled(s, net, e)
    requires n in s.nodes && k in s.nodes[n].main && SnapAgrees(s.nodes[n], k)
    requires n in Apply(s, net, e).nodes && k in Apply(s, net, e).nodes[n].main
    ensures var st' := Apply(s, net, e).nodes[n];
            st'.At(k).meta == s.nodes[n].At(k).meta && SnapAgrees(st', k)
  {
  }

  lemma {:induction false} AddRemotesKeepSnap(st: EndNode, order: seq<string>, nodes: map<string, Meta>, now: int)
    requires st.Ranged() && forall k :: k in order ==> k in nodes
    ensures AddRemotes(st, order, nodes, now).snap == st.snap
    decreases |order|
  {
    if order != [] {
      AddRemotesKeepSnap(AddRemote(st, order[0], nodes[order[0]], now), order[1..], nodes, now);
    }
  }

  lemma RegisterViaSnap(s: System, net: Net, b: nat, i: nat, delivery: Delivery, uuid: string, n: nat)
    requires AllRanged(s) && b in s.nodes && i < |s.nodes[b].objs| && n in s.nodes
    ensures n in RegisterVia(s, net, b, i, delivery, uuid).nodes
    ensures RegisterVia(s, net, b, i, delivery, uuid).nodes[n].snap == s.nodes[n].snap
  {
    hide RegisterNode, FinishRegister;
    var target := Target(s, net, s.nodes[b].objs[i].meta);
    if target.Some? { RegisterNodeSnap(s.nodes[target.value], s.nodes[b].me, s.nodes[b].clusterToken, s.clock, uuid); }
    hide Target;
    if target.None? || delivery.RequestLost? || delivery.NoConnection? {
      FinishRegisterSnap(s.nodes[b], i, Lost, s.clock);
    } else {
      var (A, rsp) := RegisterNode(s.nodes[target.value], s.nodes[b].me, s.nodes[b].clusterToken, s.clock, uuid);
      var B := s.nodes[target.value := A][b];
      FinishRegisterSnap(B, i, if delivery.Delivered? then Got(rsp) else Lost, s.clock);
    }
  }

  lemma RegisterNodeSnap(st: EndNode, node: Meta, token: string, now: int, uuid: string)
    requires st.Ranged()
    ensures RegisterNode(st, node, token, now, uuid).0.snap == st.snap
    ensures |RegisterNode(st, node, token, now, uuid).0.objs| >= |st.objs|
  {
  }

  lemma FinishRegisterSnap(st: EndNode, i: nat, reply: Reply<RegisterRsp>, now: int)
    requires st.Ranged() && i < |st.objs|
    ensures FinishRegister(st, i, reply, now).snap == st.snap
  {
  }

  lemma FinishHeartbeatSnap(st: EndNode, i: nat, reply: Reply<HeartbeatRsp>, order: seq<string>, now: int)
    requires st.Ranged() && i < |st.objs|
    requires reply.Got? ==> forall k :: k in order ==> k in reply.rsp.nodes
    ensures FinishHeartbeat(st, i, reply, order, now).snap == st.snap
  {
    if reply.Got? && reply.rsp.code == 0 {
      AddRemotesKeepSnap(st.Put(i, st.objs[i].(reportTime := now)), order, reply.rsp.nodes, now);
    }
  }

  lemma HeartbeatAtSnap(s: System, a: nat, b: nat, i: nat)
    requires AllRanged(s) && a in s.nodes && b in s.nodes && i < |s.nodes[b].objs|
    ensures HeartbeatAt(s, a, b, i).0.snap == s.nodes[a].snap && |HeartbeatAt(s, a, b, i).0.objs| == |s.nodes[a].objs|
  {
  }

  lemma HeartbeatViaSnap(s: System, net: Net, b: nat, i: nat, delivery: Delivery, order: seq<string>, n: nat)
    requires AllRanged(s) && b in s.nodes && i < |s.nodes[b].objs| && n in s.nodes
    ensures n in HeartbeatVia(s, net, b, i, delivery, order).nodes
    ensures HeartbeatVia(s, net, b, i, delivery, order).nodes[n].snap == s.nodes[n].snap
  {
    hide FinishHeartbeat, HeartbeatAt, ServeHeartbeat, Authenticate, HeartBeat;
    var target := Target(s, net, s.nodes[b].objs[i].meta);
    if target.Some? { HeartbeatAtSnap(s, target.value, b, i); }
    hide Target;
    if delivery.NoConnection? {
    } else if target.None? || delivery.RequestLost? {
      FinishHeartbeatSnap(s.nodes[b], i, Lost, [], s.clock);
    } else {
      var (A, rsp) := HeartbeatAt(s, target.value, b, i);
      var B := s.nodes[target.value := A][b];
      if delivery.Delivered? && forall k :: k in order ==> k in rsp.nodes {
        FinishHeartbeatSnap(B, i, Got(rsp), order, s.clock);
      } else {
        FinishHeartbeatSnap(B, i, Lost, [], s.clock);
      }
    }
  }

  /** Only the two halves of a Filter touch what it has read. */
  lemma SnapStep(s: System, net: Net, e: Event, n: nat)
    requires Enabled(s, net, e) && n in s.nodes && !e.Start? && !e.FilterWrite? && !(e.FilterRead? && e.n == n)
    ensures n in Apply(s, net, e).nodes && Apply(s, net, e).nodes[n].snap == s.nodes[n].snap
  {
    hide RegisterVia, HeartbeatVia, AddRemotes, HubHeartBeat, HubFiltered, RegisterNode, Authenticate, ServeHeartbeat;
    if e.Contact? {
      ContactSnap(s, net, e, n);
    } else if e.LateRegister? {
      RegisterNodeSnap(s.nodes[e.a], s.nodes[e.b].me, s.nodes[e.b].clusterToken, s.clock, e.uuid);
    } else if e.LateHeartbeat? {
      ServeSnap(s.nodes[e.a], s.nodes[e.b].me, e.token, s.clock);
    } else if e.Call? {
      var o := s.nodes[e.b].At(e.key);
      var target := Target(s, net, o.meta);
      if target.Some? { ServeSnap(s.nodes[target.value], s.nodes[e.b].me, o.outToken, s.clock); }
    } else if e.HubContact? {
      AddRemotesKeepSnap(s.nodes[e.b], e.order, HubHeartBeat(s.hub, s.nodes[e.b].me, s.clock).1.nodes, s.clock);
    }
  }

  lemma ServeSnap(st: EndNode, node: Meta, token: string, now: int)
    requires st.Ranged()
    ensures ServeHeartbeat(st, node, token, now).0.snap == st.snap
        && Authenticate(st, node, token, now).0.snap == st.snap
  {
  }

  lemma ContactSnap(s: System, net: Net, e: Event, n: nat)
    requires e.Contact? && Enabled(s, net, e) && n in s.nodes
    ensures n in Apply(s, net, e).nodes && Apply(s, net, e).nodes[n].snap == s.nodes[n].snap
  {
    hide RegisterVia, HeartbeatVia, Target, HeartbeatAt;
    var s1, i := Touched(s, e.b, e.key), s.nodes[e.b].main[e.key];
    HeartbeatViaSnap(s1, net, e.b, i, e.delivery, e.order, n);
    RegisterViaSnap(s1, net, e.b, i, e.delivery, e.uuid, n);
  }

  /** An entry survives a Filter exactly when it is configured or one of its timestamps is later than 60 seconds ago. */
  lemma SurvivesFilterExactly(st: EndNode, k: string, now: int)
    requires st.Ranged() && AllInTime(st) && k in st.main
    ensures var e := st.At(k);
            k in Filter(st, now).main <==>
              e.isLocal || e.getTime > now - 60 || e.reportTime > now - 60 || e.createTime > now - 60
  {
    assert st.At(k).InTime();
  }

  // ---------------------------------------------------------------- a Filter that is interrupted

  /** The first half of a Filter of node n, and what happened to the node since: the records keep their metadata. */
  ghost predicate ReadFrom(st0: EndNode, st: EndNode, now: int)
    requires st0.Ranged()
  {
    && st.Ranged() && st.snap == Some(Surviving(st0, now)) && |st0.objs| <= |st.objs|
    && forall i :: 0 <= i < |st0.objs| ==> st.objs[i].meta == st0.objs[i].meta
  }

  lemma ReadFromStep(s: System, net: Net, e: Event, n: nat, st0: EndNode, now: int)
    requires Inv(s) && Enabled(s, net, e) && n in s.nodes && st0.Ranged() && ReadFrom(st0, s.nodes[n], now)
    requires !((e.Start? || e.FilterWrite?) && e.n == n)
    ensures var s' := Apply(s, net, e);
            Inv(s') && n in s'.nodes && ReadFrom(st0, s'.nodes[n], now)
  {
    hide Inv;
    StepSafe(s, net, e);
    if e.Start? || e.FilterWrite? {
      hide Boot, Swap;
    } else {
      assert !(e.FilterRead? && e.n == n);
      SnapStep(s, net, e, n);
      hide Enabled, Apply;
      assert Evolves(s.nodes[n], Apply(s, net, e).nodes[n]);
    }
  }

  lemma {:induction false} ReadFromRun(s: System, net: Net, es: seq<Event>, n: nat, st0: EndNode, now: int)
    requires Inv(s) && Runs(s, net, es) && n in s.nodes && st0.Ranged() && ReadFrom(st0, s.nodes[n], now)
    requires forall i :: 0 <= i < |es| ==> !((es[i].Start? || es[i].FilterWrite?) && es[i].n == n)
    ensures var s' := After(s, net, es);
            Inv(s') && n in s'.nodes && ReadFrom(st0, s'.nodes[n], now)
    decreases |es|
  {
    hide Inv, Enabled, ReadFrom, Apply;
    if es != [] {
      ReadFromStep(s, net, es[0], n, st0, now);
      ReadFromRun(Apply(s, net, es[0]), net, es[1..], n, st0, now);
    }
  }

  /**
   Whatever happens between the two halves of a Filter, the table is afterwards exactly what survived at the
   read, with the meanings of the read: what came in between is lost and what was taken away is back.
   */
  lemma SwapRestores(s: System, net: Net, es: seq<Event>, n: nat)
    requires Inv(s) && Enabled(s, net, FilterRead(n)) && Runs(Apply(s, net, FilterRead(n)), net, es)
    requires forall i :: 0 <= i < |es| ==> !((es[i].Start? || es[i].FilterWrite?) && es[i].n == n)
    requires Enabled(After(Apply(s, net, FilterRead(n)), net, es), net, FilterWrite(n))
    ensures var st := s.nodes[n];
            var s' := Apply(After(Apply(s, net, FilterRead(n)), net, es), net, FilterWrite(n));
            && n in s'.nodes
            && (forall k :: k in s'.nodes[n].main <==> k in st.main && Kept(st.At(k), s.clock))
            && (forall k :: k in s'.nodes[n].main ==> s'.nodes[n].At(k).meta == st.At(k).meta)
  {
    ReadStarts(s, net, n);
    hide Inv, Enabled, Apply, ReadFrom, Swap;
    var s1 := Apply(s, net, FilterRead(n));
    ReadFromRun(s1, net, es, n, s.nodes[n], s.clock);
    var s2 := After(s1, net, es);
    SwapEnds(s.nodes[n], s2.nodes[n], s.clock);
    WriteIsSwap(s2, net, n);
  }

  lemma ReadStarts(s: System, net: Net, n: nat)
    requires Inv(s) && Enabled(s, net, FilterRead(n))
    ensures var s1 := Apply(s, net, FilterRead(n));
            && n in s.nodes && s.nodes[n].Ranged() && n in s1.nodes
            && Inv(s1) && ReadFrom(s.nodes[n], s1.nodes[n], s.clock)
  {
    hide Inv;
    StepSafe(s, net, FilterRead(n));
  }

  lemma WriteIsSwap(s: System, net: Net, n: nat)
    requires Enabled(s, net, FilterWrite(n))
    ensures var s' := Apply(s, net, FilterWrite(n));
            n in s.nodes && s.nodes[n].Ranged() && n in s'.nodes && s'.nodes[n] == Swap(s.nodes[n])
  {
  }

  lemma SwapEnds(st0: EndNode, st: EndNode, now: int)
    requires st0.Ranged() && ReadFrom(st0, st, now)
    ensures var st' := Swap(st);
            && (forall k :: k in st'.main <==> k in st0.main && Kept(st0.At(k), now))
            && (forall k :: k in st'.main ==> st'.At(k).meta == st0.At(k).meta)
  {
  }

  /**
   A registration in the gap that is accepted, or answered with the token of before, is kept exactly when the
   node was in the table at the read and survived it; without the gap it is always kept.
   */
  lemma GapKeepsIff(st: EndNode, m: Meta, token: string, now: int, at: int, uuid: string)
    requires st.Ranged() && 0 <= at <= LAST_TIME
    requires var code := RegisterNode(st, m, token, at, uuid).1.code; code == 0 || code == 102
    ensures var (between, rsp) := RegisterNode(Snapshot(st, now), m, token, at, uuid);
            && (rsp.code == 0 || rsp.code == 102) && m.name in between.main
            && (m.name in Swap(between).main <==> m.name in st.main && Kept(st.At(m.name), now))
    ensures m.name in Filter(RegisterNode(st, m, token, at, uuid).0, at).main
  {
    var st' := RegisterNode(st, m, token, at, uuid).0;
    assert st'.At(m.name).IsValid(at);
  }

  /** So a newcomer is lost, and so is a node that was stale at the read and has registered again. */
  lemma GapLosesNewcomers(st: EndNode, m: Meta, now: int, uuid: string)
    requires st.Ranged() && 0 <= now <= LAST_TIME && !(m.name in st.main && Kept(st.At(m.name), now))
    requires RegisterNode(st, m, st.clusterToken, now, uuid).1.code == 0
    ensures var between := RegisterNode(Snapshot(st, now), m, st.clusterToken, now, uuid).0;
            m.name in between.main && m.name !in Swap(between).main
    ensures m.name in Filter(RegisterNode(st, m, st.clusterToken, now, uuid).0, now).main
  {
    hide RegisterNode, Filter, Swap, Snapshot;
    GapKeepsIff(st, m, st.clusterToken, now, now, uuid);
  }

  /** The second half changes the meaning of a name that stays exactly when the first half had read it otherwise. */
  lemma SwapMeansIff(st: EndNode, k: string)
    requires st.Ranged() && st.snap.Some? && k in st.main && k in Swap(st).main
    ensures Swap(st).At(k).meta != st.At(k).meta <==> !SnapAgrees(st, k)
  {
  }

  /**
   A name that is given up and taken by another node between the two halves of a Filter gets its
   old meaning back: that it stayed in the table is needed.
   */
  lemma GapRevertsNames(st: EndNode, k: string, m: Meta, code: int, now: int, uuid: string)
    requires st.Ranged() && k in st.main && st.At(k).meta.name == k && Kept(st.At(k), now) && !st.At(k).isLocal
    requires code > 0 && code != 102
    requires m.name == k && m != st.At(k).meta && m.host != "" && m.port > 0 && m.cluster == st.me.cluster
        && k != st.me.name
    ensures var read := Snapshot(st, now);
            var refused := FinishRegister(read, st.main[k], Got(RegisterRsp(code, "")), now);
            var (taken, rsp) := RegisterNode(refused, m, st.clusterToken, now, uuid);
            && k !in refused.main && rsp.code == 0
            && k in taken.main && taken.At(k).meta == m
            && k in Swap(taken).main && Swap(taken).At(k).meta == st.At(k).meta
  {
  }
}
