/**
 What every handler keeps about the tables of a single end node, whatever its
 peers send.  The facts are about one node; ClusterSystem puts them together.
 */
module NodeSafety {
  import opened Common
  import opened NodeTable

  /** A table stores every record under the record's own name. */
  ghost predicate Named(st: EndNode)
    requires st.Ranged()
  {
    && (forall k :: k in st.main ==> st.At(k).meta.name == k)
    && (forall k :: k in st.wrong ==> st.objs[st.wrong[k]].meta.name == k)
    && (st.snap.Some? ==> forall k :: k in st.snap.value ==> st.objs[st.snap.value[k]].meta.name == k)
  }

  /** Every record that is, or is about to be, in the main table belongs to the node's own cluster. */
  ghost predicate OneCluster(st: EndNode)
    requires st.Ranged()
  {
    && (forall k :: k in st.main ==> st.At(k).meta.cluster == st.me.cluster)
    && (st.snap.Some? ==> forall k :: k in st.snap.value ==> st.objs[st.snap.value[k]].meta.cluster == st.me.cluster)
  }

  /** The node's own entry is present, with the token and the report time it was started with. */
  ghost predicate OwnEntry(st: EndNode)
    requires st.Ranged()
  {
    && st.me.name in st.main
    && var e := st.At(st.me.name);
    && e.meta == st.me
    && !e.isLocal
    && st.localToken != ""
    && e.inToken == e.outToken == st.localToken
    && e.reportTime == LAST_TIME
  }

  /** The entries no Filter may drop: the node itself and those of the configuration file. */
  ghost predicate Pinned(st: EndNode, k: string)
    requires st.Ranged()
  {
    k in st.main && (k == st.me.name || st.At(k).isLocal)
  }

  ghost predicate SnapPinned(st: EndNode)
    requires st.Ranged()
  {
    st.snap.Some? ==>
      forall k :: Pinned(st, k) ==> k in st.snap.value && st.snap.value[k] == st.main[k]
  }

  ghost predicate AllInTime(st: EndNode) {
    forall i :: 0 <= i < |st.objs| ==> st.objs[i].InTime()
  }

  ghost predicate Good(st: EndNode) {
    st.Ranged() && Named(st) && OneCluster(st) && OwnEntry(st) && SnapPinned(st) && AllInTime(st)
  }

  /** Apart from the node's own entry every record holds only tokens that were handed out to peers. */
  ghost predicate TokensApart(st: EndNode, pool: set<string>) {
    forall i :: 0 <= i < |st.objs| && !(st.me.name in st.main && i == st.main[st.me.name]) ==>
      st.objs[i].inToken in pool && st.objs[i].outToken in pool
  }

  /**
   One step of one node: identity and configuration stay, records keep their metadata, pinned entries stay
   in place.
   */
  ghost predicate Evolves(st: EndNode, st': EndNode) {
    && st.Ranged() && st'.Ranged()
    && st'.me == st.me && st'.clusterToken == st.clusterToken && st'.localToken == st.localToken
    && |st.objs| <= |st'.objs|
    && (forall i :: 0 <= i < |st.objs| ==>
        st'.objs[i].meta == st.objs[i].meta && st'.objs[i].isLocal == st.objs[i].isLocal)
    && (forall k :: Pinned(st, k) ==> k in st'.main && st'.main[k] == st.main[k])
  }

  /** A name that is in the table before and after denotes the same peer. */
  ghost predicate SamePeers(st: EndNode, st': EndNode) {
    && st.Ranged() && st'.Ranged()
    && forall k :: k in st.main && k in st'.main ==> st'.At(k).meta == st.At(k).meta
  }

  ghost predicate Secret(pool: set<string>, st: EndNode) {
    "" in pool && st.localToken !in pool
  }

  /** A node in good order whose secrets are kept. */
  ghost predicate Sound(st: EndNode, pool: set<string>) {
    Good(st) && TokensApart(st, pool) && Secret(pool, st)
  }

  ghost predicate Safe(st: EndNode, st': EndNode, pool: set<string>) {
    Sound(st', pool) && Evolves(st, st')
  }

  lemma SafeThenSafe(st: EndNode, st1: EndNode, st2: EndNode, pool: set<string>)
    requires st.Ranged() && Safe(st, st1, pool) && Safe(st1, st2, pool)
    ensures Safe(st, st2, pool)
  {
    forall k | Pinned(st, k) ensures k in st2.main && st2.main[k] == st.main[k] {
      assert Pinned(st1, k);
    }
  }

  // -------------------------------------------------- the elementary updates

  lemma SafePut(st: EndNode, i: nat, e: Entry, pool: set<string>)
    requires Sound(st, pool) && i < |st.objs|
    requires e.meta == st.objs[i].meta && e.isLocal == st.objs[i].isLocal && e.InTime()
    requires if i == st.main[st.me.name]
             then e.inToken == st.objs[i].inToken && e.outToken == st.objs[i].outToken
                 && e.reportTime == st.objs[i].reportTime
             else e.inToken in pool && e.outToken in pool
    ensures Safe(st, st.Put(i, e), pool) && SamePeers(st, st.Put(i, e))
  {
    var st' := st.Put(i, e);
    assert forall k :: Pinned(st', k) <==> Pinned(st, k);
    assert Good(st');
  }

  lemma GoodInsert(st: EndNode, e: Entry)
    requires Good(st) && e.InTime()
    requires e.meta.name !in st.main && e.meta.cluster == st.me.cluster && !e.isLocal
    ensures Good(st.Insert(e))
  {
    assert forall k :: Pinned(st.Insert(e), k) <==> Pinned(st, k);
  }

  lemma SafeInsert(st: EndNode, e: Entry, pool: set<string>)
    requires Sound(st, pool) && e.InTime()
    requires e.meta.name !in st.main && e.meta.cluster == st.me.cluster && !e.isLocal
    requires e.inToken in pool && e.outToken in pool
    ensures Safe(st, st.Insert(e), pool) && SamePeers(st, st.Insert(e))
  {
    GoodInsert(st, e);
  }

  lemma SafeWrong(st: EndNode, wrong: map<string, nat>, pool: set<string>)
    requires Sound(st, pool)
    requires forall k :: k in wrong ==> wrong[k] < |st.objs| && st.objs[wrong[k]].meta.name == k
    ensures Safe(st, st.(wrong := wrong), pool) && SamePeers(st, st.(wrong := wrong))
  {
    var st' := st.(wrong := wrong);
    assert forall k :: Pinned(st', k) <==> Pinned(st, k);
    assert Good(st');
  }

  lemma SafeInsertWrong(st: EndNode, e: Entry, pool: set<string>)
    requires Sound(st, pool) && e.InTime() && e.inToken in pool && e.outToken in pool
    ensures Safe(st, st.InsertWrong(e), pool) && SamePeers(st, st.InsertWrong(e))
  {
    var st' := st.InsertWrong(e);
    assert forall k :: Pinned(st', k) <==> Pinned(st, k);
    assert Good(st');
  }

  lemma SafeForget(st: EndNode, k: string, pool: set<string>)
    requires Sound(st, pool) && !Pinned(st, k)
    ensures Safe(st, st.(main := st.main - {k}), pool) && SamePeers(st, st.(main := st.main - {k}))
  {
    var st' := st.(main := st.main - {k});
    assert forall j :: Pinned(st', j) <==> Pinned(st, j);
    assert Good(st');
  }

  // -------------------------------------------------- the handlers

  lemma SafeRegister(st: EndNode, node: Meta, token: string, now: int, uuid: string, pool: set<string>)
    requires Sound(st, pool)
    requires 0 <= now <= LAST_TIME && uuid in pool
    ensures var (st', rsp) := RegisterNode(st, node, token, now, uuid);
            Safe(st, st', pool) && SamePeers(st, st') && rsp.data in pool
  {
    if node.host == "" || node.port <= 0 || node.name == st.me.name {
    } else if st.me.cluster != node.cluster || st.clusterToken != token {
      SafeInsertWrong(st, Entry(node, "", "", 0, 0, now, false), pool);
    } else {
      var s := st.(wrong := st.wrong - {node.name});
      SafeWrong(st, s.wrong, pool);
      if node.name in s.main {
        var i := s.main[node.name];
        var n := s.objs[i];
        if n.meta == node {
          assert i != s.main[s.me.name];
          var e := if n.RegisteredLocal(now) then n.(getTime := now) else n.(inToken := uuid, getTime := now);
          SafePut(s, i, e, pool);
          SafeThenSafe(st, s, s.Put(i, e), pool);
        }
      } else {
        var e := Entry(node, uuid, "", now, 0, now, false);
        SafeInsert(s, e, pool);
        SafeThenSafe(st, s, s.Insert(e), pool);
      }
    }
  }

  lemma SafeAuthenticate(st: EndNode, node: Meta, token: string, now: int, pool: set<string>)
    requires Sound(st, pool) && 0 <= now <= LAST_TIME
    ensures var (st', ok) := Authenticate(st, node, token, now);
            && Safe(st, st', pool) && SamePeers(st, st')
            && (ok && token != st.localToken ==> node.cluster == st.me.cluster)
  {
    if Authentic(st, node, token, now) {
      SafePut(st, st.main[node.name], st.At(node.name).(getTime := now), pool);
    }
  }

  lemma SafeHeartbeat(st: EndNode, node: Meta, token: string, now: int, pool: set<string>)
    requires Sound(st, pool) && 0 <= now <= LAST_TIME
    ensures var (st', rsp) := ServeHeartbeat(st, node, token, now);
            && Safe(st, st', pool) && SamePeers(st, st')
            && (rsp.code == 0 && token != st.localToken ==> node.cluster == st.me.cluster)
            && Kin(rsp.nodes, st.me.cluster)
  {
    SafeAuthenticate(st, node, token, now, pool);
  }

  lemma SafeTouch(st: EndNode, k: string, now: int, pool: set<string>)
    requires Sound(st, pool) && 0 <= now <= LAST_TIME && k in st.main && k != st.me.name
    ensures var st' := Touch(st, st.main[k], now);
            Safe(st, st', pool) && SamePeers(st, st')
  {
    SafePut(st, st.main[k], st.At(k).(reportTime := now), pool);
  }

  lemma SafeBanish(st: EndNode, k: string, pool: set<string>)
    requires Sound(st, pool) && k in st.main && k != st.me.name && !st.At(k).isLocal
    ensures var st' := st.(main := st.main - {k}, wrong := st.wrong[k := st.main[k]]);
            Safe(st, st', pool) && SamePeers(st, st')
  {
    var s := st.(main := st.main - {k});
    SafeForget(st, k, pool);
    SafeWrong(s, st.wrong[k := st.main[k]], pool);
    hide Sound, Evolves;
    SafeThenSafe(st, s, s.(wrong := st.wrong[k := st.main[k]]), pool);
  }

  /** A token received for a record that is not the node's own, in a table that may have lost it. */
  lemma SafeToken(st: EndNode, i: nat, token: string, now: int, pool: set<string>)
    requires Sound(st, pool) && i < |st.objs| && i != st.main[st.me.name] && token in pool && 0 <= now <= LAST_TIME
    ensures var st' := st.Put(i, st.objs[i].(outToken := token, reportTime := now));
            Safe(st, st', pool) && SamePeers(st, st')
  {
    assert st.objs[i].InTime();
    SafePut(st, i, st.objs[i].(outToken := token, reportTime := now), pool);
  }

  lemma NotOwn(st: EndNode, k: string)
    requires Good(st) && k in st.main && k != st.me.name
    ensures st.At(k).meta.name == k && st.me.name in st.main && st.main[k] != st.main[st.me.name]
  {
  }

  lemma SafeFinishRegister(st: EndNode, k: string, reply: Reply<RegisterRsp>, now: int, pool: set<string>)
    requires Sound(st, pool) && 0 <= now <= LAST_TIME && k in st.main && k != st.me.name
    requires reply.Got? ==> reply.rsp.data in pool
    ensures var st' := FinishRegister(st, st.main[k], reply, now);
            Safe(st, st', pool) && SamePeers(st, st')
  {
    NotOwn(st, k);
    SelfSafe(st, pool);
    if reply.Got? {
      var i := st.main[k];
      var banish := !st.objs[i].isLocal && reply.rsp.code > 0 && reply.rsp.code != 102;
      var s := if banish then st.(main := st.main - {k}, wrong := st.wrong[k := i]) else st;
      if banish { SafeBanish(st, k, pool); }
      if reply.rsp.data != "" {
        StillOwn(st, s);
        SafeToken(s, i, reply.rsp.data, now, pool);
        var s' := s.Put(i, s.objs[i].(outToken := reply.rsp.data, reportTime := now));
        hide Sound, Evolves;
        SafeThenSafe(st, s, s', pool);
      }
    }
  }

  lemma StillOwn(st: EndNode, s: EndNode)
    requires Good(st) && Good(s) && Evolves(st, s)
    ensures s.main[s.me.name] == st.main[st.me.name]
  {
    assert Pinned(st, st.me.name);
  }

  lemma SelfSafe(st: EndNode, pool: set<string>)
    requires Sound(st, pool)
    ensures Safe(st, st, pool) && SamePeers(st, st)
  {
  }

  /** The peers of a reply that may be learned: stored under their own names, all of the learner's cluster. */
  ghost predicate Kin(nodes: map<string, Meta>, cluster: string) {
    forall k :: k in nodes ==> nodes[k].name == k && nodes[k].cluster == cluster
  }

  lemma {:induction false} SafeAddRemotes(st: EndNode, order: seq<string>, nodes: map<string, Meta>, now: int,
      pool: set<string>)
    requires Sound(st, pool) && 0 <= now <= LAST_TIME
    requires (forall k :: k in order ==> k in nodes) && Kin(nodes, st.me.cluster)
    ensures var st' := AddRemotes(st, order, nodes, now);
            Safe(st, st', pool) && SamePeers(st, st')
    decreases |order|
  {
    if order == [] {
      SelfSafe(st, pool);
    } else {
      hide Good, TokensApart, Secret, Evolves, AddRemote;
      var st1 := AddRemote(st, order[0], nodes[order[0]], now);
      SafeAddRemote(st, order[0], nodes[order[0]], now, pool);
      SafeAddRemotes(st1, order[1..], nodes, now, pool);
      SafeThenSafe(st, st1, AddRemotes(st, order, nodes, now), pool);
    }
  }

  lemma SafeAddRemote(st: EndNode, key: string, m: Meta, now: int, pool: set<string>)
    requires Sound(st, pool) && 0 <= now <= LAST_TIME && m.name == key && m.cluster == st.me.cluster
    ensures var st' := AddRemote(st, key, m, now);
            && Safe(st, st', pool) && SamePeers(st, st') && st'.me == st.me
            && forall k :: k in st.main ==> k in st'.main
  {
    SelfSafe(st, pool);
    if AddRemote(st, key, m, now) != st {
      SafeInsert(st, Entry(m, "", "", 0, 0, now, false), pool);
    }
  }

  /** Learning adds records and entries and leaves those that are there. */
  lemma {:induction false} AddRemotesKeeps(st: EndNode, order: seq<string>, nodes: map<string, Meta>, now: int)
    requires st.Ranged()
    requires forall k :: k in order ==> k in nodes && nodes[k].name == k
    ensures var st' := AddRemotes(st, order, nodes, now);
            && st'.me == st.me && |st.objs| <= |st'.objs|
            && (forall i :: 0 <= i < |st.objs| ==> st'.objs[i] == st.objs[i])
            && (forall k :: k in st.main ==> k in st'.main && st'.main[k] == st.main[k])
            && (forall k :: k in st'.main && k !in st.main ==>
                  k in nodes && st'.At(k) == Entry(nodes[k], "", "", 0, 0, now, false))
    decreases |order|
  {
    if order != [] {
      AddRemotesKeeps(AddRemote(st, order[0], nodes[order[0]], now), order[1..], nodes, now);
    }
  }

  lemma SafeFinishHeartbeat(st: EndNode, k: string, reply: Reply<HeartbeatRsp>, order: seq<string>, now: int,
      pool: set<string>)
    requires Sound(st, pool) && 0 <= now <= LAST_TIME && k in st.main && k != st.me.name
    requires reply.Got? ==> (forall k :: k in order ==> k in reply.rsp.nodes)
    requires reply.Got? && reply.rsp.code == 0 ==> Kin(reply.rsp.nodes, st.me.cluster)
    ensures var st' := FinishHeartbeat(st, st.main[k], reply, order, now);
            Safe(st, st', pool) && SamePeers(st, st')
  {
    var i := st.main[k];
    var e := st.objs[i];
    SafePut(st, i, e.(outToken := ""), pool);
    SafePut(st, i, e.(outToken := "", reportTime := now), pool);
    if reply.Got? && reply.rsp.code == 0 {
      var st1 := st.Put(i, e.(reportTime := now));
      SafePut(st, i, e.(reportTime := now), pool);
      SafeAddRemotes(st1, order, reply.rsp.nodes, now, pool);
      SafeThenSafe(st, st1, AddRemotes(st1, order, reply.rsp.nodes, now), pool);
    }
  }

  lemma SafeEviction(st: EndNode, now: int, pool: set<string>)
    requires Sound(st, pool) && 0 <= now <= LAST_TIME
    ensures Safe(st, Filter(st, now), pool) && SamePeers(st, Filter(st, now))
    ensures Safe(st, Snapshot(st, now), pool) && SamePeers(st, Snapshot(st, now))
    ensures Safe(st, FilterWrong(st, now), pool) && SamePeers(st, FilterWrong(st, now))
  {
    SafeWrong(st, FilterWrong(st, now).wrong, pool);
    SafeFilter(st, now, pool);
    SafeSnapshot(st, now, pool);
  }

  lemma SafeFilter(st: EndNode, now: int, pool: set<string>)
    requires Sound(st, pool) && 0 <= now <= LAST_TIME
    ensures Safe(st, Filter(st, now), pool) && SamePeers(st, Filter(st, now))
  {
    var st' := Filter(st, now);
    assert forall k :: Pinned(st, k) ==> k in Surviving(st, now);
    assert forall k :: Pinned(st', k) <==> Pinned(st, k);
    assert Good(st');
  }

  lemma SafeSnapshot(st: EndNode, now: int, pool: set<string>)
    requires Sound(st, pool) && 0 <= now <= LAST_TIME
    ensures Safe(st, Snapshot(st, now), pool) && SamePeers(st, Snapshot(st, now))
  {
    var st' := Snapshot(st, now);
    assert forall k :: Pinned(st, k) ==> k in Surviving(st, now);
    assert forall k :: Pinned(st', k) <==> Pinned(st, k);
    assert Good(st');
  }

  lemma SafeSwap(st: EndNode, pool: set<string>)
    requires Sound(st, pool)
    ensures Safe(st, Swap(st), pool)
  {
    var st' := Swap(st);
    assert Pinned(st, st.me.name);
    assert Good(st');
  }

  lemma WiderPool(st: EndNode, pool: set<string>, pool': set<string>)
    requires Sound(st, pool) && pool <= pool' && st.localToken !in pool'
    ensures Sound(st, pool')
  {
  }

  // -------------------------------------------------- start-up

  lemma {:induction false} LoadStaticSound(st: EndNode, list: seq<StaticNode>, now: int, pool: set<string>)
    requires Sound(st, pool) && st.snap.None? && 0 <= now <= LAST_TIME
    ensures var st' := LoadStatic(st, list, now);
            && Sound(st', pool)
            && st'.me == st.me && st'.clusterToken == st.clusterToken && st'.localToken == st.localToken
    decreases |list|
  {
    if list != [] {
      var n := list[0];
      var st1 := st;
      if n.IsValid(st.me) {
        st1 := st.Insert(Entry(Meta(n.name, n.host, n.port, st.me.cluster), "", "", 0, 0, now, true));
        assert Good(st1);
      }
      LoadStaticSound(st1, list[1..], now, pool);
    }
  }

  lemma BootSound(me: Meta, clusterToken: string, localToken: string, list: seq<StaticNode>, now: int,
      pool: set<string>)
    requires 0 <= now <= LAST_TIME && localToken != "" && "" in pool && localToken !in pool
    ensures var st := Boot(me, clusterToken, localToken, list, now);
            Sound(st, pool) && st.me == me && st.clusterToken == clusterToken && st.localToken == localToken
  {
    var own := Entry(me, localToken, localToken, LAST_TIME, LAST_TIME, now, false);
    var blank := EndNode(me, clusterToken, localToken, [], map[], map[], None);
    var st := blank.Insert(own);
    assert st.objs == [own] && st.main == map[me.name := 0];
    assert Good(st);
    LoadStaticSound(st, list, now, pool);
  }
}
