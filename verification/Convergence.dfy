/**
 Two nodes that can reach each other agree on a token after two contacts, and
 keep agreeing while contacts keep coming, whatever the other nodes do.
 */
module Convergence {
  import opened Common
  import opened NodeTable
  import opened NodeSafety
  import opened ClusterSystem
  import opened Reputation

  // ---------------------------------------------------------------- the pair

  /** Nodes a and b belong together and reach each other at the addresses they announce. */
  ghost predicate Pair(s: System, net: Net, a: nat, b: nat) {
    && a in s.nodes && b in s.nodes && a != b
    && var A, B := s.nodes[a].me, s.nodes[b].me;
    && A.cluster == B.cluster && s.nodes[a].clusterToken == s.nodes[b].clusterToken
    && A.name != B.name
    && A.host != "" && A.port > 0 && B.host != "" && B.port > 0
    && Addr(A) in net && net[Addr(A)] == a && Addr(B) in net && net[Addr(B)] == b
    && Known(s, A) && Known(s, B)
  }

  /** B presents at A the token A expects of it, and both sides have been refreshed since t. */
  ghost predicate AgreeSince(A: EndNode, B: EndNode, t: int) {
    && A.Ranged() && B.Ranged()
    && A.me.name in B.main && B.me.name in A.main
    && B.At(A.me.name).outToken == A.At(B.me.name).inToken
    && B.At(A.me.name).outToken != ""
    && B.At(A.me.name).reportTime >= t
    && A.At(B.me.name).getTime >= t
  }

  /** B has been in contact with A since t; it either agrees with A or knows that it has to register again. */
  ghost predicate Settling(A: EndNode, B: EndNode, t: int) {
    && A.Ranged() && B.Ranged()
    && A.me.name in B.main
    && B.At(A.me.name).reportTime >= t
    && (B.At(A.me.name).outToken != "" ==> AgreeSince(A, B, t))
  }

  // ---------------------------------------------------------------- what an update can do to a pair

  /** The update of a node that serves a request: entries stay, and only what the caller has a claim on changes. */
  ghost predicate ServerLike(st: EndNode, st': EndNode, now: int) {
    && st.Ranged() && st'.Ranged() && st'.me == st.me
    && forall k :: k in st.main ==>
         && k in st'.main
         && Served(st.At(k), st'.At(k), now)
  }

  ghost predicate Served(e: Entry, e': Entry, now: int) {
    && e'.outToken == e.outToken && e'.reportTime == e.reportTime
    && (e'.getTime == e.getTime || e'.getTime == now)
    && (e.RegisteredLocal(now) ==> e'.inToken == e.inToken)
  }

  /** The update of a node that contacts the peer `key`: all other entries stay as they are. */
  ghost predicate ClientLike(st: EndNode, st': EndNode, key: string) {
    && st.Ranged() && st'.Ranged() && st'.me == st.me
    && forall k :: k in st.main && k != key ==> k in st'.main && st'.At(k) == st.At(k)
  }

  lemma RegisterServes(st: EndNode, node: Meta, token: string, now: int, uuid: string)
    requires st.Ranged() && Named(st)
    ensures ServerLike(st, RegisterNode(st, node, token, now, uuid).0, now)
  {
  }

  lemma HeartbeatServes(st: EndNode, node: Meta, token: string, now: int)
    requires st.Ranged() && Named(st)
    ensures ServerLike(st, Authenticate(st, node, token, now).0, now)
    ensures ServerLike(st, ServeHeartbeat(st, node, token, now).0, now)
  {
  }

  lemma RegisterClient(st: EndNode, key: string, reply: Reply<RegisterRsp>, now: int)
    requires st.Ranged() && Named(st) && key in st.main
    ensures ClientLike(st, FinishRegister(st, st.main[key], reply, now), key)
  {
  }

  lemma HeartbeatClient(st: EndNode, key: string, reply: Reply<HeartbeatRsp>, order: seq<string>, now: int)
    requires st.Ranged() && Named(st) && key in st.main
    requires reply.Got? ==> (forall k :: k in order ==> k in reply.rsp.nodes && reply.rsp.nodes[k].name == k)
    ensures ClientLike(st, FinishHeartbeat(st, st.main[key], reply, order, now), key)
  {
    if reply.Got? && reply.rsp.code == 0 {
      var st1 := st.Put(st.main[key], st.At(key).(reportTime := now));
      AddRemotesKeeps(st1, order, reply.rsp.nodes, now);
    }
  }

  /** Serving anybody does not disturb the pair. */
  lemma ServingKeeps(A: EndNode, B: EndNode, A': EndNode, B': EndNode, t: int, now: int)
    requires Settling(A, B, t) && AllInTime(A) && t <= now < t + NODE_TIMEOUT && now <= LAST_TIME
    requires A' == A || ServerLike(A, A', now)
    requires B' == B || ServerLike(B, B', now)
    ensures Settling(A', B', t)
    ensures AgreeSince(A, B, t) ==> AgreeSince(A', B', t)
  {
    if AgreeSince(A, B, t) {
      assert A.At(B.me.name).InTime();
      assert A.At(B.me.name).RegisteredLocal(now);
    }
  }

  /** Nor does contacting somebody else. */
  lemma ContactingOthersKeeps(A: EndNode, B: EndNode, A': EndNode, B': EndNode, ka: string, kb: string, t: int)
    requires Settling(A, B, t)
    requires A' == A || (ClientLike(A, A', ka) && ka != B.me.name)
    requires B' == B || (ClientLike(B, B', kb) && kb != A.me.name)
    ensures Settling(A', B', t)
    ensures AgreeSince(A, B, t) ==> AgreeSince(A', B', t)
  {
  }

  // ---------------------------------------------------------------- one contact, seen from each side

  lemma RegisterAccepts(A: EndNode, m: Meta, token: string, now: int, uuid: string)
    requires A.Ranged() && Tells(A, m) && uuid != ""
    requires m.host != "" && m.port > 0 && m.name != A.me.name && m.cluster == A.me.cluster && token == A.clusterToken
    ensures var (A', rsp) := RegisterNode(A, m, token, now, uuid);
            && (rsp.code == 0 || rsp.code == 102) && rsp.data != ""
            && m.name in A'.main && A'.At(m.name).inToken == rsp.data && A'.At(m.name).getTime == now
            && A'.me == A.me
  {
  }

  lemma FinishRegisterTakes(B: EndNode, key: string, rsp: RegisterRsp, now: int)
    requires B.Ranged() && key in B.main && (rsp.code == 0 || rsp.code == 102) && rsp.data != ""
    ensures var B' := FinishRegister(B, B.main[key], Got(rsp), now);
            && B'.me == B.me && key in B'.main && B'.At(key).outToken == rsp.data && B'.At(key).reportTime == now
            && B'.At(key).inToken == B.At(key).inToken && B'.At(key).getTime == B.At(key).getTime
  {
  }

  lemma FinishHeartbeatTakes(B: EndNode, key: string, rsp: HeartbeatRsp, order: seq<string>, now: int)
    requires B.Ranged() && key in B.main
    requires forall k :: k in order ==> k in rsp.nodes && rsp.nodes[k].name == k
    ensures var B' := FinishHeartbeat(B, B.main[key], Got(rsp), order, now);
            && B'.me == B.me && key in B'.main && B'.At(key).reportTime == now
            && B'.At(key).outToken == (if rsp.code == 0 then B.At(key).outToken else "")
            && B'.At(key).inToken == B.At(key).inToken && B'.At(key).getTime == B.At(key).getTime
  {
    if rsp.code == 0 {
      AddRemotesKeeps(B.Put(B.main[key], B.At(key).(reportTime := now)), order, rsp.nodes, now);
    }
  }

  /** What the pair looks like when b, having prepared its record for a, is about to speak. */
  ghost predicate Speaks(s: System, net: Net, b: nat, a: nat, i: nat) {
    && AllRanged(s) && Inv(s) && Pair(s, net, a, b)
    && Talks(s, b, s.nodes[a].me.name, i)
  }

  lemma SpeaksTo(s: System, net: Net, b: nat, a: nat, i: nat)
    requires Speaks(s, net, b, a, i)
    ensures i < |s.nodes[b].objs| && Target(s, net, s.nodes[b].objs[i].meta) == Some(a)
  {
    hide Inv;
    assert Tells(s.nodes[b], s.nodes[a].me);
  }

  lemma DeliveredRegistration(s: System, net: Net, b: nat, a: nat, i: nat, uuid: string)
    requires Speaks(s, net, b, a, i) && uuid != ""
    ensures i < |s.nodes[b].objs|
    ensures var s' := RegisterVia(s, net, b, i, Delivered, uuid);
            a in s'.nodes && b in s'.nodes && AgreeSince(s'.nodes[a], s'.nodes[b], s.clock)
  {
    hide Inv, Known;
    SpeaksTo(s, net, b, a, i);
    var A, B := s.nodes[a], s.nodes[b];
    KnownTells(s, a, B.me);
    RegisterAccepts(A, B.me, B.clusterToken, s.clock, uuid);
    FinishRegisterTakes(B, A.me.name, RegisterNode(A, B.me, B.clusterToken, s.clock, uuid).1, s.clock);
  }

  lemma KnownTells(s: System, n: nat, m: Meta)
    requires Known(s, m) && n in s.nodes && s.nodes[n].me.cluster == m.cluster
    ensures s.nodes[n].Ranged() && Tells(s.nodes[n], m)
  {
  }

  lemma HeartbeatOutcome(A: EndNode, m: Meta, token: string, now: int)
    requires A.Ranged() && token != A.localToken
    ensures var (A', rsp) := ServeHeartbeat(A, m, token, now);
            && A'.me == A.me
            && (Authentic(A, m, token, now) ==>
                  rsp.code == 0 && m.name in A'.main && A'.At(m.name).inToken == token && A'.At(m.name).getTime == now)
            && (!Authentic(A, m, token, now) ==> rsp.code != 0)
  {
  }

  lemma TokenIsNotLocal(s: System, a: nat, b: nat, key: string, i: nat)
    requires Inv(s) && a in s.nodes && Talks(s, b, key, i)
    ensures s.nodes[b].objs[i].outToken != s.nodes[a].localToken
  {
    assert Sound(s.nodes[b], Pool(s)) && Named(s.nodes[b]);
    assert s.nodes[a].localToken in LocalTokens(s);
  }

  lemma TalksAbout(s: System, b: nat, key: string, i: nat)
    requires AllRanged(s) && Talks(s, b, key, i)
    ensures b in s.nodes && key in s.nodes[b].main && s.nodes[b].main[key] == i
  {
  }

  lemma DeliveredHeartbeat(s: System, net: Net, b: nat, a: nat, i: nat, order: seq<string>)
    requires Speaks(s, net, b, a, i) && i < |s.nodes[b].objs| && s.nodes[b].objs[i].outToken != ""
    requires Orders(order, HeartbeatAt(s, a, b, i).1.nodes.Keys)
    ensures var s' := HeartbeatVia(s, net, b, i, Delivered, order);
            && a in s'.nodes && b in s'.nodes
            && Settling(s'.nodes[a], s'.nodes[b], s.clock)
            && (Authentic(s.nodes[a], s.nodes[b].me, s.nodes[b].objs[i].outToken, s.clock) ==>
                  AgreeSince(s'.nodes[a], s'.nodes[b], s.clock))
  {
    hide Inv, Known, FinishHeartbeat, ServeHeartbeat, Authentic, Authenticate, HeartBeat, Talks;
    SpeaksTo(s, net, b, a, i);
    var A, B := s.nodes[a], s.nodes[b];
    var token := B.objs[i].outToken;
    TokenIsNotLocal(s, a, b, A.me.name, i);
    TalksAbout(s, b, A.me.name, i);
    HeartbeatOutcome(A, B.me, token, s.clock);
    HeartbeatNames(s, a, b, i);
    FinishHeartbeatTakes(B, A.me.name, HeartbeatAt(s, a, b, i).1, order, s.clock);
  }

  lemma HeartbeatNames(s: System, a: nat, b: nat, i: nat)
    requires Inv(s) && AllRanged(s) && a in s.nodes && b in s.nodes && i < |s.nodes[b].objs|
    ensures forall k :: k in HeartbeatAt(s, a, b, i).1.nodes ==> HeartbeatAt(s, a, b, i).1.nodes[k].name == k
  {
    SafeHeartbeat(s.nodes[a], s.nodes[b].me, s.nodes[b].objs[i].outToken, s.clock, Pool(s));
  }

  // ---------------------------------------------------------------- the pair persists

  /**
   Events under which a and b stay a pair: neither is restarted, nobody takes their names, Filters are not
   interrupted.
   */
  ghost predicate Calm(e: Event, a: nat, b: nat, A: Meta, B: Meta) {
    && !e.FilterRead? && !e.FilterWrite?
    && (e.Start? ==> e.n != a && e.n != b)
    && Honest(e, A) && Honest(e, B)
  }

  lemma PairStep(s: System, net: Net, e: Event, a: nat, b: nat)
    requires Inv(s) && Pair(s, net, a, b) && Enabled(s, net, e)
    requires Calm(e, a, b, s.nodes[a].me, s.nodes[b].me)
    ensures var s' := Apply(s, net, e);
            && Inv(s') && Pair(s', net, a, b)
            && s'.nodes[a].me == s.nodes[a].me && s'.nodes[b].me == s.nodes[b].me
  {
    hide Inv, Enabled, Known, Honest, Evolves;
    var s' := Apply(s, net, e);
    KnownStep(s, net, e, s.nodes[a].me);
    KnownStep(s, net, e, s.nodes[b].me);
    StepSafe(s, net, e);
    if !e.Start? {
      EvolvesKeepsTokens(s.nodes[a], s'.nodes[a]);
      EvolvesKeepsTokens(s.nodes[b], s'.nodes[b]);
    }
  }

  lemma PairTouched(s: System, net: Net, c: nat, key: string, a: nat, b: nat)
    requires AllRanged(s) && Inv(s) && Pair(s, net, a, b)
    requires c in s.nodes && key in s.nodes[c].main && Talks(s, c, key, s.nodes[c].main[key])
    ensures var s1 := Touched(s, c, key);
            Inv(s1) && Pair(s1, net, a, b) && Talks(s1, c, key, s.nodes[c].main[key])
  {
    hide Inv, Known, Evolves, SamePeers;
    TouchSafe(s, c, key);
    TalksOn(s, Touched(s, c, key), c, key, s.nodes[c].main[key]);
    KnownTouched(s, c, key, s.nodes[a].me);
    KnownTouched(s, c, key, s.nodes[b].me);
  }

  // ---------------------------------------------------------------- a completed contact from b to a

  lemma StillAuthentic(A: EndNode, B: EndNode, t: int, now: int)
    requires AgreeSince(A, B, t) && AllInTime(A) && Tells(A, B.me) && 0 <= t <= now < t + NODE_TIMEOUT
    ensures Authentic(A, B.me, B.At(A.me.name).outToken, now)
  {
    assert A.At(B.me.name).InTime();
  }

  lemma InvInTime(s: System, n: nat)
    requires Inv(s) && n in s.nodes
    ensures AllInTime(s.nodes[n]) && s.nodes[n].Ranged() && Named(s.nodes[n]) && 0 <= s.clock <= LAST_TIME
  {
    assert Sound(s.nodes[n], Pool(s));
  }

  ghost predicate IsContact(e: Event, b: nat, name: string) {
    e.Contact? && e.b == b && e.key == name
  }

  lemma DeliveredContact(s: System, net: Net, e: Event, a: nat, b: nat, t: int)
    requires Inv(s) && Pair(s, net, a, b) && Enabled(s, net, e)
    requires IsContact(e, b, s.nodes[a].me.name) && e.delivery.Delivered?
    ensures var s' := Apply(s, net, e);
            && a in s'.nodes && b in s'.nodes
            && Settling(s'.nodes[a], s'.nodes[b], s.clock)
            && (Settling(s.nodes[a], s.nodes[b], t) && 0 <= t <= s.clock < t + NODE_TIMEOUT ==>
                  AgreeSince(s'.nodes[a], s'.nodes[b], s.clock))
  {
    hide Inv, Known, Settling, AgreeSince;
    var key, i := e.key, s.nodes[b].main[e.key];
    TalksAtStart(s, net, e);
    PairTouched(s, net, b, key, a, b);
    var s1 := Touched(s, b, key);
    SpeaksTo(s1, net, b, a, i);
    if s1.nodes[b].objs[i].RegisteredRemote(s.clock) {
      DeliveredHeartbeat(s1, net, b, a, i, e.order);
      if Settling(s.nodes[a], s.nodes[b], t) && 0 <= t <= s.clock < t + NODE_TIMEOUT {
        SettledSpeaker(s, net, a, b, t);
      }
    } else {
      DeliveredRegistration(s1, net, b, a, i, e.uuid);
      AgreeIsSettling(Apply(s, net, e).nodes[a], Apply(s, net, e).nodes[b], s.clock);
    }
  }

  lemma AgreeIsSettling(A: EndNode, B: EndNode, t: int)
    requires AgreeSince(A, B, t)
    ensures Settling(A, B, t)
  {
  }

  /** If b still holds a token for a, it is the right one. */
  lemma SettledSpeaker(s: System, net: Net, a: nat, b: nat, t: int)
    requires Inv(s) && Pair(s, net, a, b) && 0 <= t <= s.clock < t + NODE_TIMEOUT
    requires Settling(s.nodes[a], s.nodes[b], t)
    ensures var A, B := s.nodes[a], s.nodes[b];
            B.At(A.me.name).outToken != "" ==>
              Authentic(A, B.me, B.At(A.me.name).outToken, s.clock)
  {
    InvInTime(s, a);
    KnownTells(s, a, s.nodes[b].me);
    if s.nodes[b].At(s.nodes[a].me.name).outToken != "" {
      StillAuthentic(s.nodes[a], s.nodes[b], t, s.clock);
    }
  }

  // ---------------------------------------------------------------- everything else that can happen to the pair

  /** What an event that is not a completed contact from b to a leaves of the pair. */
  ghost predicate LeavesPair(A: EndNode, B: EndNode, A': EndNode, B': EndNode, t: int) {
    && (Settling(A, B, t) ==> Settling(A', B', t))
    && (AgreeSince(A, B, t) ==> AgreeSince(A', B', t))
  }

  ghost predicate PairKept(s: System, s': System, a: nat, b: nat, t: int) {
    && a in s.nodes && b in s.nodes && a in s'.nodes && b in s'.nodes
    && LeavesPair(s.nodes[a], s.nodes[b], s'.nodes[a], s'.nodes[b], t)
  }

  lemma KeptThen(s: System, s1: System, s2: System, a: nat, b: nat, t: int)
    requires PairKept(s, s1, a, b, t) && PairKept(s1, s2, a, b, t)
    ensures PairKept(s, s2, a, b, t)
  {
    hide Settling, AgreeSince;
  }

  /** The window in which a contact at time t still counts. */
  ghost predicate Recent(s: System, t: int) {
    0 <= t <= s.clock < t + 60 && s.clock <= LAST_TIME
  }

  lemma ServingKeepsPair(s: System, s': System, d: nat, a: nat, b: nat, t: int)
    requires a in s.nodes && b in s.nodes && a != b && d in s.nodes && Recent(s, t) && AllInTime(s.nodes[a])
    requires d in s'.nodes && s'.nodes == s.nodes[d := s'.nodes[d]] && ServerLike(s.nodes[d], s'.nodes[d], s.clock)
    ensures PairKept(s, s', a, b, t)
  {
    var A, B := s.nodes[a], s.nodes[b];
    if Settling(A, B, t) {
      ServingKeeps(A, B, s'.nodes[a], s'.nodes[b], t, s.clock);
    } else if AgreeSince(A, B, t) {
      assert false;
    }
  }

  lemma OthersKeepPair(s: System, s': System, c: nat, key: string, a: nat, b: nat, t: int)
    requires a in s.nodes && b in s.nodes && a != b && c in s.nodes
    requires c in s'.nodes && s'.nodes == s.nodes[c := s'.nodes[c]] && ClientLike(s.nodes[c], s'.nodes[c], key)
    requires c == a ==> key != s.nodes[b].me.name
    requires c == b ==> key != s.nodes[a].me.name
    ensures PairKept(s, s', a, b, t)
  {
    var A, B := s.nodes[a], s.nodes[b];
    if Settling(A, B, t) {
      ContactingOthersKeeps(A, B, s'.nodes[a], s'.nodes[b], key, key, t);
    } else if AgreeSince(A, B, t) {
      assert false;
    }
  }

  /** What is recent stays, with its tokens, and stays recent. */
  ghost predicate Refreshes(st: EndNode, st': EndNode, t: int) {
    && st.Ranged() && st'.Ranged() && st'.me == st.me
    && forall k :: k in st.main && (st.At(k).reportTime >= t || st.At(k).getTime >= t) ==>
         && k in st'.main
         && st'.At(k).outToken == st.At(k).outToken && st'.At(k).inToken == st.At(k).inToken
         && (st.At(k).reportTime >= t ==> st'.At(k).reportTime >= t)
         && (st.At(k).getTime >= t ==> st'.At(k).getTime >= t)
  }

  lemma RefreshKeeps(A: EndNode, B: EndNode, A': EndNode, B': EndNode, t: int)
    requires (A' == A || Refreshes(A, A', t)) && (B' == B || Refreshes(B, B', t))
    ensures LeavesPair(A, B, A', B', t)
  {
  }

  lemma RefreshKeepsPair(s: System, s': System, c: nat, a: nat, b: nat, t: int)
    requires a in s.nodes && b in s.nodes && c in s.nodes && a != b
    requires c in s'.nodes && s'.nodes == s.nodes[c := s'.nodes[c]] && Refreshes(s.nodes[c], s'.nodes[c], t)
    ensures PairKept(s, s', a, b, t)
  {
    hide Refreshes, LeavesPair;
    RefreshKeeps(s.nodes[a], s.nodes[b], s'.nodes[a], s'.nodes[b], t);
  }

  lemma TouchRefreshes(st: EndNode, i: nat, t: int, now: int)
    requires st.Ranged() && i < |st.objs| && t <= now
    ensures Refreshes(st, Touch(st, i, now), t)
  {
  }

  lemma TouchKeepsPair(s: System, c: nat, key: string, a: nat, b: nat, t: int)
    requires AllRanged(s) && a in s.nodes && b in s.nodes && a != b && c in s.nodes && key in s.nodes[c].main
    requires Named(s.nodes[c]) && Recent(s, t)
    ensures PairKept(s, Touched(s, c, key), a, b, t)
  {
    hide Touch, Refreshes, Named;
    TouchRefreshes(s.nodes[c], s.nodes[c].main[key], t, s.clock);
    RefreshKeepsPair(s, Touched(s, c, key), c, a, b, t);
  }

  /** a's contact with b: a keeps what b presents to it. */
  lemma AnswerKeepsPair(s: System, s': System, a: nat, b: nat, t: int)
    requires a in s.nodes && b in s.nodes && a != b
    requires a in s'.nodes && s'.nodes == s.nodes[a := s'.nodes[a]]
    requires var A, A', k := s.nodes[a], s'.nodes[a], s.nodes[b].me.name;
             && A.Ranged() && A'.Ranged() && A'.me == A.me
             && (k in A.main ==>
                   && k in A'.main
                   && A'.At(k).inToken == A.At(k).inToken && A'.At(k).getTime == A.At(k).getTime)
    ensures PairKept(s, s', a, b, t)
  {
  }

  /** b's contact with a that got lost: b keeps its token or gives it up. */
  lemma LostKeepsSettling(s: System, s': System, a: nat, b: nat, t: int)
    requires a in s.nodes && b in s.nodes && a != b
    requires b in s'.nodes && s'.nodes == s.nodes[b := s'.nodes[b]]
    requires var B, B', k := s.nodes[b], s'.nodes[b], s.nodes[a].me.name;
             && B.Ranged() && B'.Ranged() && B'.me == B.me
             && (k in B.main ==> k in B'.main && B'.At(k).reportTime == B.At(k).reportTime
                                 && (B'.At(k).outToken == B.At(k).outToken || B'.At(k).outToken == ""))
    ensures Settling(s.nodes[a], s.nodes[b], t) ==> Settling(s'.nodes[a], s'.nodes[b], t)
  {
  }

  lemma FilterKeepsPair(s: System, n: nat, a: nat, b: nat, t: int)
    requires Inv(s) && a in s.nodes && b in s.nodes && a != b && n in s.nodes && s.nodes[n].Ranged() && Recent(s, t)
    ensures PairKept(s, s.(nodes := s.nodes[n := Filter(s.nodes[n], s.clock)]), a, b, t)
  {
    hide Inv, Filter, Refreshes;
    InvInTime(s, n);
    FilterRefreshes(s.nodes[n], t, s.clock);
    RefreshKeepsPair(s, s.(nodes := s.nodes[n := Filter(s.nodes[n], s.clock)]), n, a, b, t);
  }

  lemma FilterRefreshes(st: EndNode, t: int, now: int)
    requires st.Ranged() && AllInTime(st) && t <= now < t + NODE_TIMEOUT
    ensures Refreshes(st, Filter(st, now), t)
  {
    FilterKeepsFresh(st, t, now);
    hide Filter;
  }

  lemma FilterKeepsFresh(st: EndNode, t: int, now: int)
    requires st.Ranged() && AllInTime(st) && t <= now < t + NODE_TIMEOUT
    ensures Filter(st, now).me == st.me
    ensures forall k :: k in st.main && (st.At(k).reportTime >= t || st.At(k).getTime >= t) ==>
              k in Filter(st, now).main && Filter(st, now).At(k) == st.At(k)
  {
    forall k | k in st.main && (st.At(k).reportTime >= t || st.At(k).getTime >= t) ensures st.At(k).IsValid(now) {
      assert st.At(k).InTime();
    }
  }

  lemma SameKeepsPair(s: System, s': System, a: nat, b: nat, t: int)
    requires a in s.nodes && b in s.nodes && s'.nodes == s.nodes
    ensures PairKept(s, s', a, b, t)
  {
  }

  /** b's own contact with a. */
  ghost predicate Main(s: System, c: nat, key: string, a: nat, b: nat) {
    a in s.nodes && c == b && key == s.nodes[a].me.name
  }

  /** The exchange of c, which speaks to `key`, in a system where a and b are a pair. */
  ghost predicate Scene(s: System, net: Net, c: nat, key: string, i: nat, a: nat, b: nat, t: int) {
    AllRanged(s) && Inv(s) && Pair(s, net, a, b) && Talks(s, c, key, i) && Recent(s, t)
  }

  lemma AnswerIsAccepted(s: System, net: Net, i: nat, a: nat, b: nat, uuid: string)
    requires Speaks(s, net, a, b, i) && uuid != ""
    ensures i < |s.nodes[a].objs| && Target(s, net, s.nodes[a].objs[i].meta) == Some(b)
    ensures var rsp := RegisterNode(s.nodes[b], s.nodes[a].me, s.nodes[a].clusterToken, s.clock, uuid).1;
            (rsp.code == 0 || rsp.code == 102) && rsp.data != ""
  {
    hide Inv, Known;
    SpeaksTo(s, net, a, b, i);
    KnownTells(s, b, s.nodes[a].me);
    RegisterAccepts(s.nodes[b], s.nodes[a].me, s.nodes[a].clusterToken, s.clock, uuid);
  }

  /** The client's half of a registration, when the server's half is done. */
  lemma RegisterFinishKeeps(s: System, s': System, c: nat, key: string, i: nat, reply: Reply<RegisterRsp>, a: nat,
      b: nat, t: int)
    requires Inv(s) && Talks(s, c, key, i) && a in s.nodes && b in s.nodes && a != b
    requires s' == s.(nodes := s.nodes[c := FinishRegister(s.nodes[c], i, reply, s.clock)])
    requires c == a && key == s.nodes[b].me.name && reply.Got? ==>
               (reply.rsp.code == 0 || reply.rsp.code == 102) && reply.rsp.data != ""
    requires Main(s, c, key, a, b) ==> reply.Lost?
    ensures PairKept(s, s', a, b, t)
  {
    hide Inv, PairKept;
    InvInTime(s, c);
    if reply.Lost? {
      SameKeepsPair(s, s', a, b, t);
    } else if c == a && key == s.nodes[b].me.name {
      FinishRegisterTakes(s.nodes[a], key, reply.rsp, s.clock);
      AnswerKeepsPair(s, s', a, b, t);
    } else {
      RegisterClient(s.nodes[c], key, reply, s.clock);
      OthersKeepPair(s, s', c, key, a, b, t);
    }
  }

  lemma RegisterViaKeeps(s: System, net: Net, c: nat, key: string, i: nat, delivery: Delivery, uuid: string, a: nat,
      b: nat, t: int)
    requires Scene(s, net, c, key, i, a, b, t) && Fresh(s, uuid)
    requires Main(s, c, key, a, b) ==> !delivery.Delivered?
    ensures PairKept(s, RegisterVia(s, net, c, i, delivery, uuid), a, b, t)
  {
    hide Inv, Known, PairKept, Grows;
    var target := Target(s, net, s.nodes[c].objs[i].meta);
    if target.None? || delivery.RequestLost? || delivery.NoConnection? {
      SameKeepsPair(s, RegisterVia(s, net, c, i, delivery, uuid), a, b, t);
    } else {
      var d := target.value;
      var C := s.nodes[c];
      var s1 := Registered(s, d, C.me, C.clusterToken, uuid);
      var rsp := RegisterNode(s.nodes[d], C.me, C.clusterToken, s.clock, uuid).1;
      InvInTime(s, d);
      InvInTime(s, a);
      RegisterServes(s.nodes[d], C.me, C.clusterToken, s.clock, uuid);
      ServingKeepsPair(s, s1, d, a, b, t);
      RegisterSafe(s, d, C.me, C.clusterToken, uuid);
      TalksOn(s, s1, c, key, i);
      if c == a && key == s.nodes[b].me.name {
        AnswerIsAccepted(s, net, i, a, b, uuid);
      }
      RegisterKeepsMe(s.nodes[d], C.me, C.clusterToken, s.clock, uuid);
      var s2 := RegisterVia(s, net, c, i, delivery, uuid);
      RegisterFinishKeeps(s1, s2, c, key, i, if delivery.Delivered? then Got(rsp) else Lost, a, b, t);
      KeptThen(s, s1, s2, a, b, t);
    }
  }

  /** The client's half of a heartbeat. */
  lemma HeartbeatFinishKeeps(s: System, s': System, c: nat, key: string, i: nat, reply: Reply<HeartbeatRsp>,
      order: seq<string>, a: nat, b: nat, t: int)
    requires Inv(s) && Talks(s, c, key, i) && a in s.nodes && b in s.nodes && a != b
    requires reply.Got? ==> forall k :: k in order ==> k in reply.rsp.nodes && reply.rsp.nodes[k].name == k
    requires s' == s.(nodes := s.nodes[c := FinishHeartbeat(s.nodes[c], i, reply, order, s.clock)])
    requires Main(s, c, key, a, b) ==> reply.Lost?
    ensures !Main(s, c, key, a, b) ==> PairKept(s, s', a, b, t)
    ensures Settling(s.nodes[a], s.nodes[b], t) ==> Settling(s'.nodes[a], s'.nodes[b], t)
  {
    hide Inv, Settling, AgreeSince;
    InvInTime(s, c);
    if Main(s, c, key, a, b) {
      LostKeepsSettling(s, s', a, b, t);
    } else if c == a && key == s.nodes[b].me.name {
      if reply.Got? { FinishHeartbeatTakes(s.nodes[a], key, reply.rsp, order, s.clock); }
      AnswerKeepsPair(s, s', a, b, t);
    } else {
      HeartbeatClient(s.nodes[c], key, reply, order, s.clock);
      OthersKeepPair(s, s', c, key, a, b, t);
    }
  }

  lemma HeartbeatViaKeeps(s: System, net: Net, c: nat, key: string, i: nat, delivery: Delivery, order: seq<string>,
      a: nat, b: nat, t: int)
    requires Scene(s, net, c, key, i, a, b, t)
    requires Main(s, c, key, a, b) ==> !delivery.Delivered?
    ensures var s' := HeartbeatVia(s, net, c, i, delivery, order);
            && a in s'.nodes && b in s'.nodes
            && (!Main(s, c, key, a, b) ==> PairKept(s, s', a, b, t))
            && (Settling(s.nodes[a], s.nodes[b], t) ==> Settling(s'.nodes[a], s'.nodes[b], t))
  {
    hide Inv, Known, Settling, AgreeSince, Grows;
    var target := Target(s, net, s.nodes[c].objs[i].meta);
    var s2 := HeartbeatVia(s, net, c, i, delivery, order);
    if delivery.NoConnection? {
      SameKeepsPair(s, s, a, b, t);
    } else if target.None? || delivery.RequestLost? {
      HeartbeatFinishKeeps(s, s2, c, key, i, Lost, [], a, b, t);
    } else {
      var d := target.value;
      var C := s.nodes[c];
      var (D, rsp) := HeartbeatAt(s, d, c, i);
      var s1 := s.(nodes := s.nodes[d := D]);
      InvInTime(s, d);
      InvInTime(s, a);
      HeartbeatServes(s.nodes[d], C.me, C.objs[i].outToken, s.clock);
      ServingKeepsPair(s, s1, d, a, b, t);
      ServeHeartbeatSafe(s, d, C.me, C.objs[i].outToken);
      TalksOn(s, s1, c, key, i);
      HeartbeatNames(s, d, c, i);
      if delivery.Delivered? && forall k :: k in order ==> k in rsp.nodes {
        HeartbeatFinishKeeps(s1, s2, c, key, i, Got(rsp), order, a, b, t);
      } else {
        HeartbeatFinishKeeps(s1, s2, c, key, i, Lost, [], a, b, t);
      }
      if !Main(s, c, key, a, b) { KeptThen(s, s1, s2, a, b, t); }
    }
  }

  lemma Weaken(A: EndNode, B: EndNode, t: int, t': int)
    requires t <= t'
    ensures Settling(A, B, t') ==> Settling(A, B, t)
    ensures AgreeSince(A, B, t') ==> AgreeSince(A, B, t)
  {
  }

  /**
   What any event keeps: a settling pair settles on, and agreement is lost only by a contact from b to a
   that fails.
   */
  ghost predicate Holds(s: System, s': System, e: Event, a: nat, b: nat, t: int) {
    && a in s.nodes && b in s.nodes && a in s'.nodes && b in s'.nodes
    && (Settling(s.nodes[a], s.nodes[b], t) ==> Settling(s'.nodes[a], s'.nodes[b], t))
    && (AgreeSince(s.nodes[a], s.nodes[b], t) && !(IsContact(e, b, s.nodes[a].me.name) && !e.delivery.Delivered?) ==>
          AgreeSince(s'.nodes[a], s'.nodes[b], t))
  }

  lemma KeptHolds(s: System, s': System, e: Event, a: nat, b: nat, t: int)
    requires PairKept(s, s', a, b, t)
    ensures Holds(s, s', e, a, b, t)
  {
  }

  lemma DeliveredHolds(s: System, net: Net, e: Event, a: nat, b: nat, t: int)
    requires Inv(s) && Pair(s, net, a, b) && Enabled(s, net, e) && Recent(s, t)
    requires IsContact(e, b, s.nodes[a].me.name) && e.delivery.Delivered?
    ensures Holds(s, Apply(s, net, e), e, a, b, t)
  {
    hide Inv, Known, Enabled, Apply, Settling, AgreeSince;
    var s' := Apply(s, net, e);
    DeliveredContact(s, net, e, a, b, t);
    Weaken(s'.nodes[a], s'.nodes[b], t, s.clock);
    if AgreeSince(s.nodes[a], s.nodes[b], t) { AgreeIsSettling(s.nodes[a], s.nodes[b], t); }
  }

  lemma ContactHolds(s: System, net: Net, e: Event, a: nat, b: nat, t: int)
    requires Inv(s) && Pair(s, net, a, b) && Enabled(s, net, e) && e.Contact? && Recent(s, t)
    ensures Holds(s, Apply(s, net, e), e, a, b, t)
  {
    hide Inv, Known, Settling, AgreeSince;
    var c, key, i := e.b, e.key, s.nodes[e.b].main[e.key];
    if Main(s, c, key, a, b) && e.delivery.Delivered? {
      DeliveredHolds(s, net, e, a, b, t);
    } else {
      hide HeartbeatVia, RegisterVia, Target, HeartbeatAt, Touch;
      TalksAtStart(s, net, e);
      var s1 := Touched(s, c, key);
      InvInTime(s, c);
      TouchKeepsPair(s, c, key, a, b, t);
      PairTouched(s, net, c, key, a, b);
      TouchKeepsMe(s.nodes[c], i, s.clock);
      if s1.nodes[c].objs[i].RegisteredRemote(s.clock) {
        HeartbeatViaKeeps(s1, net, c, key, i, e.delivery, e.order, a, b, t);
      } else {
        RegisterViaKeeps(s1, net, c, key, i, e.delivery, e.uuid, a, b, t);
      }
    }
  }

  lemma TouchKeepsMe(st: EndNode, i: nat, now: int)
    requires st.Ranged() && i < |st.objs|
    ensures Touch(st, i, now).me == st.me
  {
  }

  lemma ServeHolds(s: System, net: Net, e: Event, a: nat, b: nat, t: int)
    requires Inv(s) && Pair(s, net, a, b) && Enabled(s, net, e) && Recent(s, t)
    requires e.LateRegister? || e.LateHeartbeat? || e.Call?
    ensures PairKept(s, Apply(s, net, e), a, b, t)
  {
    hide Inv, Known, Settling, AgreeSince, ServerLike;
    InvInTime(s, a);
    match e
    case LateRegister(d, c, uuid) =>
      InvInTime(s, d);
      RegisterServes(s.nodes[d], s.nodes[c].me, s.nodes[c].clusterToken, s.clock, uuid);
      ServingKeepsPair(s, Apply(s, net, e), d, a, b, t);
    case LateHeartbeat(d, c, token) =>
      InvInTime(s, d);
      HeartbeatServes(s.nodes[d], s.nodes[c].me, token, s.clock);
      ServingKeepsPair(s, Apply(s, net, e), d, a, b, t);
    case Call(c, key) =>
      var target := Target(s, net, s.nodes[c].At(key).meta);
      if target.Some? {
        InvInTime(s, target.value);
        HeartbeatServes(s.nodes[target.value], s.nodes[c].me, s.nodes[c].At(key).outToken, s.clock);
        ServingKeepsPair(s, Apply(s, net, e), target.value, a, b, t);
      }
  }

  lemma HubHolds(s: System, net: Net, e: Event, a: nat, b: nat, t: int)
    requires Inv(s) && Pair(s, net, a, b) && Enabled(s, net, e) && e.HubContact?
    ensures PairKept(s, Apply(s, net, e), a, b, t)
  {
    hide Inv, Known, Settling, AgreeSince;
    if e.delivery.Delivered? {
      var C := s.nodes[e.b];
      var rsp := HubHeartBeat(s.hub, C.me, s.clock).1;
      HubSortedOf(s);
      HubHeartBeatSorted(s.hub, C.me, s.clock);
      AddRemotesKeeps(C, e.order, rsp.nodes, s.clock);
      OthersKeepPair(s, Apply(s, net, e), e.b, C.me.name, a, b, t);
    }
  }

  lemma HoldsStep(s: System, net: Net, e: Event, a: nat, b: nat, t: int)
    requires Inv(s) && Pair(s, net, a, b) && Enabled(s, net, e) && Recent(s, t)
    requires Calm(e, a, b, s.nodes[a].me, s.nodes[b].me)
    ensures Holds(s, Apply(s, net, e), e, a, b, t)
  {
    hide Inv, Known, Settling, AgreeSince, PairKept, Holds;
    var s' := Apply(s, net, e);
    if e.Contact? {
      ContactHolds(s, net, e, a, b, t);
    } else {
      match e {
        case LateRegister(_, _, _) => ServeHolds(s, net, e, a, b, t);
        case LateHeartbeat(_, _, _) => ServeHolds(s, net, e, a, b, t);
        case Call(_, _) => ServeHolds(s, net, e, a, b, t);
        case HubContact(_, _, _) => HubHolds(s, net, e, a, b, t);
        case FilterMain(n) => FilterKeepsPair(s, n, a, b, t);
        case FilterWrongList(n) => WrongKeepsPair(s, n, a, b, t);
        case Start(n, _, _, _, _) => StartKeepsPair(s, s', n, a, b, t);
        case Tick(_) => SameKeepsPair(s, s', a, b, t);
        case HubFilter => SameKeepsPair(s, s', a, b, t);
      }
      KeptHolds(s, s', e, a, b, t);
    }
  }

  lemma WrongKeepsPair(s: System, n: nat, a: nat, b: nat, t: int)
    requires a in s.nodes && b in s.nodes && a != b && n in s.nodes && s.nodes[n].Ranged()
    ensures PairKept(s, s.(nodes := s.nodes[n := FilterWrong(s.nodes[n], s.clock)]), a, b, t)
  {
  }

  lemma StartKeepsPair(s: System, s': System, n: nat, a: nat, b: nat, t: int)
    requires a in s.nodes && b in s.nodes && n != a && n != b
    requires n in s'.nodes && s'.nodes == s.nodes[n := s'.nodes[n]]
    ensures PairKept(s, s', a, b, t)
  {
  }

  // ---------------------------------------------------------------- runs

  ghost predicate CalmRun(es: seq<Event>, a: nat, b: nat, A: Meta, B: Meta) {
    forall i :: 0 <= i < |es| ==> Calm(es[i], a, b, A, B)
  }

  lemma {:induction false} SettlingRun(s: System, net: Net, es: seq<Event>, a: nat, b: nat, t: int)
    requires Inv(s) && Pair(s, net, a, b) && Runs(s, net, es)
    requires CalmRun(es, a, b, s.nodes[a].me, s.nodes[b].me)
    requires 0 <= t <= s.clock && After(s, net, es).clock < t + NODE_TIMEOUT
    requires Settling(s.nodes[a], s.nodes[b], t)
    ensures var s' := After(s, net, es);
            && Inv(s') && Pair(s', net, a, b) && Settling(s'.nodes[a], s'.nodes[b], t) && s.clock <= s'.clock
            && s'.nodes[a].me == s.nodes[a].me && s'.nodes[b].me == s.nodes[b].me
    decreases |es|
  {
    hide Inv, Known, Settling, AgreeSince, Enabled, Calm;
    if es != [] {
      ClockAdvances(s, net, es);
      InvInTime(s, a);
      PairStep(s, net, es[0], a, b);
      HoldsStep(s, net, es[0], a, b, t);
      SettlingRun(Apply(s, net, es[0]), net, es[1..], a, b, t);
    }
  }

  lemma {:induction false} ClockAdvances(s: System, net: Net, es: seq<Event>)
    requires Runs(s, net, es)
    ensures s.clock <= After(s, net, es).clock
    ensures es != [] ==> s.clock <= Apply(s, net, es[0]).clock
    decreases |es|
  {
    if es != [] {
      ClockAdvances(Apply(s, net, es[0]), net, es[1..]);
    }
  }

  /** Both sides take the other to be registered. */
  ghost predicate BothRegistered(A: EndNode, B: EndNode, now: int) {
    && A.Ranged() && B.Ranged()
    && A.me.name in B.main && B.me.name in A.main
    && B.At(A.me.name).RegisteredRemote(now)
    && A.At(B.me.name).RegisteredLocal(now)
  }

  lemma AgreedIsRegistered(s: System, a: nat, b: nat, t: int)
    requires Inv(s) && a in s.nodes && b in s.nodes && Recent(s, t)
    requires AgreeSince(s.nodes[a], s.nodes[b], t)
    ensures BothRegistered(s.nodes[a], s.nodes[b], s.clock)
  {
    hide Inv;
    InvInTime(s, a);
    InvInTime(s, b);
    assert s.nodes[a].At(s.nodes[b].me.name).InTime() && s.nodes[b].At(s.nodes[a].me.name).InTime();
  }

  /**
   Whatever the tables of a and b hold, two completed contacts from b to a less than 60 seconds apart,
   with anything calm in between, leave b with the non-empty token that a expects.
   */
  lemma TwoContactsAgree(s: System, net: Net, first: Event, between: seq<Event>, second: Event, a: nat, b: nat)
    requires Inv(s) && Pair(s, net, a, b)
    requires Enabled(s, net, first) && Runs(Apply(s, net, first), net, between)
    requires Enabled(After(Apply(s, net, first), net, between), net, second)
    requires CalmRun(between, a, b, s.nodes[a].me, s.nodes[b].me)
    requires IsContact(first, b, s.nodes[a].me.name) && first.delivery.Delivered?
    requires IsContact(second, b, s.nodes[a].me.name) && second.delivery.Delivered?
    requires After(Apply(s, net, first), net, between).clock < s.clock + 60
    ensures var s' := Apply(After(Apply(s, net, first), net, between), net, second);
            && a in s'.nodes && b in s'.nodes
            && AgreeSince(s'.nodes[a], s'.nodes[b], s'.clock)
            && BothRegistered(s'.nodes[a], s'.nodes[b], s'.clock)
  {
    hide Inv, Known, Settling, AgreeSince, Calm, BothRegistered;
    ContactIsCalm(first, a, b, s.nodes[a].me, s.nodes[b].me);
    InvInTime(s, a);
    PairStep(s, net, first, a, b);
    DeliveredContact(s, net, first, a, b, s.clock);
    ContactKeepsClock(s, net, first);
    SettlingRun(Apply(s, net, first), net, between, a, b, s.clock);
    SecondContact(After(Apply(s, net, first), net, between), net, second, a, b, s.clock);
  }

  /** The contact after which the pair agrees. */
  lemma SecondContact(s: System, net: Net, e: Event, a: nat, b: nat, t: int)
    requires Inv(s) && Pair(s, net, a, b) && Enabled(s, net, e)
    requires IsContact(e, b, s.nodes[a].me.name) && e.delivery.Delivered?
    requires 0 <= t <= s.clock < t + NODE_TIMEOUT && Settling(s.nodes[a], s.nodes[b], t)
    ensures var s' := Apply(s, net, e);
            && a in s'.nodes && b in s'.nodes
            && AgreeSince(s'.nodes[a], s'.nodes[b], s'.clock)
            && BothRegistered(s'.nodes[a], s'.nodes[b], s'.clock)
  {
    hide Inv, Known, Settling, AgreeSince, Calm, BothRegistered;
    ContactIsCalm(e, a, b, s.nodes[a].me, s.nodes[b].me);
    DeliveredContact(s, net, e, a, b, t);
    PairStep(s, net, e, a, b);
    ContactKeepsClock(s, net, e);
    var s' := Apply(s, net, e);
    InvInTime(s', a);
    AgreedIsRegistered(s', a, b, s'.clock);
  }

  lemma ContactKeepsClock(s: System, net: Net, e: Event)
    requires Enabled(s, net, e) && e.Contact?
    ensures Apply(s, net, e).clock == s.clock
  {
  }

  lemma ContactIsCalm(e: Event, a: nat, b: nat, A: Meta, B: Meta)
    requires e.Contact?
    ensures Calm(e, a, b, A, B)
  {
  }

  /**
   No contact from b to a fails in this run, and each comes less than 60 seconds after the one before, the
   first after t.
   */
  ghost predicate Steady(s: System, net: Net, es: seq<Event>, a: nat, b: nat, t: int)
    requires Runs(s, net, es) && a in s.nodes
    decreases |es|
  {
    && Recent(s, t)
    && (es != [] ==>
          && (IsContact(es[0], b, s.nodes[a].me.name) ==> es[0].delivery.Delivered?)
          && a in Apply(s, net, es[0]).nodes
          && Steady(Apply(s, net, es[0]), net, es[1..], a, b,
                    if IsContact(es[0], b, s.nodes[a].me.name) then s.clock else t))
  }

  /** While contacts keep coming, agreement and both registrations last. */
  lemma {:induction false} AgreementPersists(s: System, net: Net, es: seq<Event>, a: nat, b: nat, t: int)
    requires Inv(s) && Pair(s, net, a, b) && Runs(s, net, es)
    requires CalmRun(es, a, b, s.nodes[a].me, s.nodes[b].me)
    requires AgreeSince(s.nodes[a], s.nodes[b], t) && Steady(s, net, es, a, b, t)
    ensures var s' := After(s, net, es);
            && a in s'.nodes && b in s'.nodes
            && BothRegistered(s'.nodes[a], s'.nodes[b], s'.clock)
            && s'.nodes[b].At(s'.nodes[a].me.name).outToken == s'.nodes[a].At(s'.nodes[b].me.name).inToken
    decreases |es|
  {
    hide Inv, Known, Settling, Enabled, Calm;
    if es == [] {
      AgreedIsRegistered(s, a, b, t);
    } else {
      PairStep(s, net, es[0], a, b);
      var s1 := Apply(s, net, es[0]);
      if IsContact(es[0], b, s.nodes[a].me.name) {
        AgreeIsSettling(s.nodes[a], s.nodes[b], t);
        DeliveredContact(s, net, es[0], a, b, t);
        AgreementPersists(s1, net, es[1..], a, b, s.clock);
      } else {
        HoldsStep(s, net, es[0], a, b, t);
        AgreementPersists(s1, net, es[1..], a, b, t);
      }
    }
  }
}
