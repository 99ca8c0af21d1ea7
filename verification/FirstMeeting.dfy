/**
 Two nodes from their start to their agreement: a is started, b is started with a in
 its configuration file, and b contacts a twice.
 */
module FirstMeeting {
  import opened Common
  import opened NodeTable
  import opened ClusterSystem
  import opened Reputation
  import opened Convergence
  import opened MembershipSafety

  function Own(m: Meta, token: string, now: int): Entry {
    Entry(m, token, token, LAST_TIME, LAST_TIME, now, false)
  }

  function NodeA(A: Meta, token: string, la: string, now: int): EndNode {
    EndNode(A, token, la, [Own(A, la, now)], map[A.name := 0], map[], None)
  }

  /** b, knowing a, with what it has for a. */
  function NodeB(A: Meta, B: Meta, token: string, lb: string, now: int, e: Entry): EndNode {
    EndNode(B, token, lb, [Own(B, lb, now), e], map[B.name := 0][A.name := 1], map[], None)
  }

  ghost predicate Suitable(A: Meta, B: Meta, net: Net) {
    && A.cluster == B.cluster && A.name != B.name && A.host != B.host
    && A.host != "" && B.host != "" && A.port > 1000 && B.port > 0
    && Addr(A) in net && net[Addr(A)] == 0 && Addr(B) in net && net[Addr(B)] == 1
  }

  function StartA(A: Meta, token: string, la: string): Event {
    Start(0, A, token, la, [])
  }

  function StartB(A: Meta, B: Meta, token: string, lb: string): Event {
    Start(1, B, token, lb, [StaticNode(A.name, A.host, A.port)])
  }

  function Static(A: Meta, now: int): Entry {
    Entry(A, "", "", 0, 0, now, true)
  }

  lemma BootA(A: Meta, token: string, la: string, now: int)
    ensures Boot(A, token, la, [], now) == NodeA(A, token, la, now)
  {
  }

  lemma BootB(A: Meta, B: Meta, token: string, lb: string, now: int)
    requires A.cluster == B.cluster && A.name != B.name && A.host != B.host && A.host != "" && A.port > 1000
    ensures Boot(B, token, lb, [StaticNode(A.name, A.host, A.port)], now) == NodeB(A, B, token, lb, now, Static(A, now))
  {
    var blank := EndNode(B, token, lb, [], map[], map[], None);
    var st := blank.Insert(Own(B, lb, now));
    var list := [StaticNode(A.name, A.host, A.port)];
    assert list[0].IsValid(st.me);
    assert LoadStatic(st, list, now) == LoadStatic(st.Insert(Static(A, now)), list[1..], now);
    assert list[1..] == [];
    assert [Own(B, lb, now)] + [Static(A, now)] == [Own(B, lb, now), Static(A, now)];
  }

  ghost function Started(s0: System, A: Meta, B: Meta, token: string, la: string, lb: string): System {
    var now := s0.clock;
    System(map[0 := NodeA(A, token, la, now), 1 := NodeB(A, B, token, lb, now, Static(A, now))], map[], now, {la, lb})
  }

  lemma StartsA(s0: System, net: Net, A: Meta, token: string, la: string)
    requires Origin(s0) && la != ""
    ensures Enabled(s0, net, StartA(A, token, la))
    ensures Apply(s0, net, StartA(A, token, la))
        == System(map[0 := NodeA(A, token, la, s0.clock)], map[], s0.clock, {la})
  {
    BootA(A, token, la, s0.clock);
  }

  lemma StartsB(s0: System, net: Net, A: Meta, B: Meta, token: string, la: string, lb: string)
    requires Suitable(A, B, net) && lb != "" && la != lb && 0 <= s0.clock <= LAST_TIME
    ensures var s1 := System(map[0 := NodeA(A, token, la, s0.clock)], map[], s0.clock, {la});
            && Enabled(s1, net, StartB(A, B, token, lb))
            && Apply(s1, net, StartB(A, B, token, lb)) == Started(s0, A, B, token, la, lb)
  {
    BootB(A, B, token, lb, s0.clock);
    var s1 := System(map[0 := NodeA(A, token, la, s0.clock)], map[], s0.clock, {la});
    var s2 := Apply(s1, net, StartB(A, B, token, lb));
    assert s2.nodes == Started(s0, A, B, token, la, lb).nodes;
  }

  lemma StartedKnown(s0: System, net: Net, A: Meta, B: Meta, token: string, la: string, lb: string)
    requires Suitable(A, B, net)
    ensures Pair(Started(s0, A, B, token, la, lb), net, 0, 1)
  {
    var s := Started(s0, A, B, token, la, lb);
    assert forall n :: n in s.nodes ==> n == 0 || n == 1;
    assert Known(s, A) && Known(s, B);
  }

  lemma {:induction false} TwoEvents(s: System, net: Net, e: Event, f: Event)
    requires Enabled(s, net, e) && Enabled(Apply(s, net, e), net, f)
    ensures Runs(s, net, [e, f]) && After(s, net, [e, f]) == Apply(Apply(s, net, e), net, f)
  {
    hide Enabled, Apply;
    var es := [e, f];
    assert es[1..] == [f] && [f][1..] == [];
    var s1 := Apply(s, net, e);
    var s2 := Apply(s1, net, f);
    assert Runs(s2, net, []) && After(s2, net, []) == s2;
    assert Runs(s1, net, [f]) && After(s1, net, [f]) == s2;
    assert Runs(s, net, es) && After(s, net, es) == After(s1, net, es[1..]);
  }

  /** After both starts they are a pair in a system in good order. */
  lemma StartedPair(s0: System, net: Net, A: Meta, B: Meta, token: string, la: string, lb: string)
    requires Origin(s0) && Suitable(A, B, net) && la != "" && lb != "" && la != lb
    ensures Runs(s0, net, [StartA(A, token, la), StartB(A, B, token, lb)])
    ensures var s := After(s0, net, [StartA(A, token, la), StartB(A, B, token, lb)]);
            s == Started(s0, A, B, token, la, lb) && Inv(s) && Pair(s, net, 0, 1)
  {
    StartsA(s0, net, A, token, la);
    StartsB(s0, net, A, B, token, la, lb);
    TwoEvents(s0, net, StartA(A, token, la), StartB(A, B, token, lb));
    StartedKnown(s0, net, A, B, token, la, lb);
    OriginInv(s0);
    hide Inv, Pair, Enabled, Apply, Started, Origin;
    RunSafe(s0, net, [StartA(A, token, la), StartB(A, B, token, lb)]);
  }

  // ---------------------------------------------------------------- the contacts

  function Meet(A: Meta, uuid: string, order: seq<string>): Event {
    Contact(1, A.name, Delivered, uuid, order)
  }

  /** a after b's registration, and b after it. */
  function Met(s0: System, A: Meta, B: Meta, token: string, la: string, lb: string, u: string): System {
    var now := s0.clock;
    System(map[0 := NodeA(A, token, la, now).Insert(Entry(B, u, "", now, 0, now, false)),
               1 := NodeB(A, B, token, lb, now, Static(A, now).(outToken := u, reportTime := now))],
           map[], now, {la, lb, u})
  }

  lemma RegistersAtA(A: Meta, B: Meta, token: string, la: string, now: int, u: string)
    requires A.cluster == B.cluster && A.name != B.name && B.host != "" && B.port > 0
    ensures RegisterNode(NodeA(A, token, la, now), B, token, now, u)
         == (NodeA(A, token, la, now).Insert(Entry(B, u, "", now, 0, now, false)), RegisterRsp(0, u))
  {
  }

  lemma FinishesAtB(A: Meta, B: Meta, token: string, lb: string, now: int, u: string, e: Entry)
    requires A.name != B.name && u != ""
    ensures FinishRegister(NodeB(A, B, token, lb, now, e), 1, Got(RegisterRsp(0, u)), now)
         == NodeB(A, B, token, lb, now, e.(outToken := u, reportTime := now))
  {
  }

  lemma TouchesAtB(A: Meta, B: Meta, token: string, lb: string, now: int, e: Entry)
    requires A.name != B.name && e.isLocal
    ensures Touch(NodeB(A, B, token, lb, now, e), 1, now) == NodeB(A, B, token, lb, now, e.(reportTime := now))
  {
  }

  /** The system in which b is about to contact a. */
  lemma Touches(s: System, a: EndNode, A: Meta, B: Meta, token: string, lb: string, e: Entry)
    requires a.Ranged() && A.name != B.name && e.isLocal
    requires s.nodes == map[0 := a, 1 := NodeB(A, B, token, lb, s.clock, e)]
    ensures AllRanged(s)
    ensures Touched(s, 1, A.name) == s.(nodes := map[0 := a,
        1 := NodeB(A, B, token, lb, s.clock, e.(reportTime := s.clock))])
  {
    TouchesAtB(A, B, token, lb, s.clock, e);
    hide Touch;
    assert Touched(s, 1, A.name).nodes == map[0 := a, 1 := NodeB(A, B, token, lb, s.clock, e.(reportTime := s.clock))];
  }

  lemma FirstIsPossible(s0: System, net: Net, A: Meta, B: Meta, token: string, la: string, lb: string, u: string)
    requires Suitable(A, B, net) && 0 <= s0.clock <= LAST_TIME && u != "" && u != la && u != lb
    ensures Enabled(Started(s0, A, B, token, la, lb), net, Meet(A, u, []))
  {
    var s, now := Started(s0, A, B, token, la, lb), s0.clock;
    var touched := Static(A, now).(reportTime := now);
    assert touched.IsValid(now) && !touched.RegisteredRemote(now);
    Touches(s, NodeA(A, token, la, now), A, B, token, lb, Static(A, now));
    hide Touched, HeartbeatAt, Target, Suitable;
  }

  lemma FirstContact(s0: System, net: Net, A: Meta, B: Meta, token: string, la: string, lb: string, u: string)
    requires Suitable(A, B, net) && 0 <= s0.clock <= LAST_TIME && u != "" && u != la && u != lb
    ensures var s := Started(s0, A, B, token, la, lb);
            && Enabled(s, net, Meet(A, u, []))
            && Apply(s, net, Meet(A, u, [])) == Met(s0, A, B, token, la, lb, u)
  {
    hide Enabled, Touched, RegisterNode, FinishRegister, HeartbeatVia, HeartbeatAt;
    var s, now := Started(s0, A, B, token, la, lb), s0.clock;
    FirstIsPossible(s0, net, A, B, token, la, lb, u);
    var touched := Static(A, now).(reportTime := now);
    Touches(s, NodeA(A, token, la, now), A, B, token, lb, Static(A, now));
    RegistersAtA(A, B, token, la, now, u);
    FinishesAtB(A, B, token, lb, now, u, touched);
    var s1 := Touched(s, 1, A.name);
    assert Target(s1, net, A) == Some(0);
    hide Target, Suitable;
    var s2 := RegisterVia(s1, net, 1, 1, Delivered, u);
    assert s2.nodes == Met(s0, A, B, token, la, lb, u).nodes;
  }

  lemma RepliesToB(A: Meta, B: Meta, token: string, la: string, now: int, u: string)
    requires A.name != B.name && 0 <= now <= LAST_TIME
    ensures ServeHeartbeat(NodeA(A, token, la, now).Insert(Entry(B, u, "", now, 0, now, false)), B, u, now).1.nodes
        == map[B.name := B]
  {
    var a := NodeA(A, token, la, now).Insert(Entry(B, u, "", now, 0, now, false));
    assert a.At(B.name) == Entry(B, u, "", now, 0, now, false);
    assert Authentic(a, B, u, now);
  }

  lemma SecondReply(s0: System, A: Meta, B: Meta, token: string, la: string, lb: string, u: string)
    requires A.name != B.name && 0 <= s0.clock <= LAST_TIME
    ensures var s := Met(s0, A, B, token, la, lb, u);
            AllRanged(s) && Orders([B.name], HeartbeatAt(s, 0, 1, 1).1.nodes.Keys)
  {
    RepliesToB(A, B, token, la, s0.clock, u);
    hide ServeHeartbeat;
  }

  /** A heartbeat of b to a is possible when b's record for a is in order and the reply is read in some order. */
  lemma HeartbeatPossible(s: System, net: Net, A: Meta, uuid: string, order: seq<string>, i: nat)
    requires AllRanged(s) && 0 in s.nodes && 1 in s.nodes && A.name in s.nodes[1].main && s.nodes[1].main[A.name] == i
    requires Touched(s, 1, A.name) == s && s.nodes[1].objs[i].meta == A && A.name != s.nodes[1].me.name
    requires Fresh(s, uuid) && s.nodes[1].objs[i].IsValid(s.clock) && Target(s, net, A) == Some(0)
    requires Orders(order, HeartbeatAt(s, 0, 1, i).1.nodes.Keys)
    ensures Enabled(s, net, Meet(A, uuid, order))
  {
    hide Touched, HeartbeatAt, Target, Orders;
  }

  lemma SecondIsPossible(s0: System, net: Net, A: Meta, B: Meta, token: string, la: string, lb: string, u: string,
      v: string)
    requires Suitable(A, B, net) && 0 <= s0.clock <= LAST_TIME && u != "" && v != "" && v != la && v != lb && v != u
    ensures Enabled(Met(s0, A, B, token, la, lb, u), net, Meet(A, v, [B.name]))
  {
    var s, now := Met(s0, A, B, token, la, lb, u), s0.clock;
    var e := Static(A, now).(outToken := u, reportTime := now);
    assert e.IsValid(now);
    SecondReply(s0, A, B, token, la, lb, u);
    Touches(s, s.nodes[0], A, B, token, lb, e);
    assert Touched(s, 1, A.name) == s;
    assert Target(s, net, A) == Some(0);
    hide Touched, HeartbeatAt, Target, Suitable, Orders, Enabled;
    HeartbeatPossible(s, net, A, v, [B.name], 1);
  }

  /**
   From nothing to agreement: the premises of TwoContactsAgree are met by every suitable pair, and so is its
   conclusion.
   */
  lemma MeetAndAgree(s0: System, net: Net, A: Meta, B: Meta, token: string, la: string, lb: string, u: string,
      v: string)
    requires Origin(s0) && Suitable(A, B, net)
    requires la != "" && lb != "" && u != "" && v != "" && la != lb && u != la && u != lb && v != la && v != lb
        && v != u
    ensures var starts := [StartA(A, token, la), StartB(A, B, token, lb)];
            && Runs(s0, net, starts)
            && var s := After(s0, net, starts);
            && Inv(s) && Pair(s, net, 0, 1)
            && Enabled(s, net, Meet(A, u, []))
            && Enabled(Apply(s, net, Meet(A, u, [])), net, Meet(A, v, [B.name]))
            && var s' := Apply(Apply(s, net, Meet(A, u, [])), net, Meet(A, v, [B.name]));
            && 0 in s'.nodes && 1 in s'.nodes
            && AgreeSince(s'.nodes[0], s'.nodes[1], s0.clock)
            && BothRegistered(s'.nodes[0], s'.nodes[1], s0.clock)
  {
    StartedPair(s0, net, A, B, token, la, lb);
    FirstContact(s0, net, A, B, token, la, lb, u);
    SecondIsPossible(s0, net, A, B, token, la, lb, u, v);
    hide Inv, Enabled, AgreeSince, BothRegistered, Pair;
    var s := Started(s0, A, B, token, la, lb);
    assert s.nodes[0].me == A && s.nodes[1].me == B;
    var s1 := Apply(s, net, Meet(A, u, []));
    assert Runs(s1, net, []) && After(s1, net, []) == s1;
    TwoContactsAgree(s, net, Meet(A, u, []), [], Meet(A, v, [B.name]), 0, 1);
    ContactKeepsClock(s1, net, Meet(A, v, [B.name]));
  }

  // ---------------------------------------------------------------- meeting through the centre

  /** Both nodes are complete, and neither has the other in its configuration. */
  ghost predicate Strangers(A: Meta, B: Meta) {
    IsComplete(A) && IsComplete(B) && A.cluster == B.cluster && A.name != B.name
  }

  function Entered(m: Meta, now: int): Entry {
    Entry(m, "", "", now, 0, now, false)
  }

  /** After both starts; `hub` is what the centre knows. */
  function Apart(s0: System, A: Meta, B: Meta, token: string, la: string, lb: string, hub: Hub): System {
    System(map[0 := NodeA(A, token, la, s0.clock), 1 := NodeA(B, token, lb, s0.clock)], hub, s0.clock, {la, lb})
  }

  function HubA(A: Meta, now: int): Hub {
    map[A.cluster := map[A.name := Entered(A, now)]]
  }

  function HubAB(A: Meta, B: Meta, now: int): Hub {
    map[A.cluster := map[A.name := Entered(A, now), B.name := Entered(B, now)]]
  }

  lemma StartApart(s0: System, net: Net, A: Meta, B: Meta, token: string, la: string, lb: string)
    requires Origin(s0) && la != "" && lb != "" && la != lb
    ensures Runs(s0, net, [StartA(A, token, la), Start(1, B, token, lb, [])])
    ensures After(s0, net, [StartA(A, token, la), Start(1, B, token, lb, [])]) == Apart(s0, A, B, token, la, lb, map[])
  {
    StartsA(s0, net, A, token, la);
    BootA(B, token, lb, s0.clock);
    var s1 := Apply(s0, net, StartA(A, token, la));
    var f := Start(1, B, token, lb, []);
    assert Enabled(s1, net, f);
    assert Apply(s1, net, f).nodes == Apart(s0, A, B, token, la, lb, map[]).nodes;
    TwoEvents(s0, net, StartA(A, token, la), f);
  }

  lemma HubMeetsA(s0: System, net: Net, A: Meta, B: Meta, token: string, la: string, lb: string)
    requires Strangers(A, B) && 0 <= s0.clock <= LAST_TIME
    ensures var s, e := Apart(s0, A, B, token, la, lb, map[]), HubContact(0, Delivered, []);
            Enabled(s, net, e) && Apply(s, net, e) == Apart(s0, A, B, token, la, lb, HubA(A, s0.clock))
  {
    var s := Apart(s0, A, B, token, la, lb, map[]);
    assert HubHeartBeat(map[], A, s0.clock) == (HubA(A, s0.clock), HeartbeatRsp(0, map[]));
    assert s.nodes[0 := NodeA(A, token, la, s0.clock)] == s.nodes;
  }

  /** b after it has heard of a. */
  function HeardOf(s0: System, A: Meta, B: Meta, token: string, la: string, lb: string): System {
    var now := s0.clock;
    Apart(s0, A, B, token, la, lb, HubAB(A, B, now)).(
      nodes := map[0 := NodeA(A, token, la, now),
                   1 := NodeA(B, token, lb, now).Insert(Entry(A, "", "", 0, 0, now, false))])
  }

  lemma HubAnswersB(A: Meta, B: Meta, now: int)
    requires Strangers(A, B) && 0 <= now <= LAST_TIME
    ensures HubHeartBeat(HubA(A, now), B, now) == (HubAB(A, B, now), HeartbeatRsp(0, map[A.name := A, B.name := B]))
  {
    var t := map[A.name := Entered(A, now), B.name := Entered(B, now)];
    assert HubA(A, now)[B.cluster][B.name := Entered(B, now)] == t;
    assert Entered(A, now).IsValid(now) && Entered(B, now).IsValid(now);
    assert (map k | k in t && t[k].IsValid(now) :: t[k].meta) == map[A.name := A, B.name := B];
    assert HubA(A, now)[B.cluster := t] == HubAB(A, B, now);
  }

  lemma LearnsA(A: Meta, B: Meta, token: string, lb: string, now: int)
    requires A.name != B.name
    ensures AddRemotes(NodeA(B, token, lb, now), [A.name, B.name], map[A.name := A, B.name := B], now)
         == NodeA(B, token, lb, now).Insert(Entry(A, "", "", 0, 0, now, false))
  {
    var order, nodes := [A.name, B.name], map[A.name := A, B.name := B];
    var st := NodeA(B, token, lb, now);
    var st1 := st.Insert(Entry(A, "", "", 0, 0, now, false));
    assert order[1..] == [B.name] && order[1..][1..] == [];
    assert AddRemote(st, A.name, A, now) == st1;
    assert AddRemote(st1, B.name, B, now) == st1;
    assert AddRemotes(st1, [B.name], nodes, now) == AddRemotes(st1, [], nodes, now);
  }

  lemma BothInOrder(A: Meta, B: Meta)
    requires A.name != B.name
    ensures Orders([A.name, B.name], map[A.name := A, B.name := B].Keys)
  {
  }

  lemma HubMeetsB(s0: System, net: Net, A: Meta, B: Meta, token: string, la: string, lb: string)
    requires Strangers(A, B) && 0 <= s0.clock <= LAST_TIME
    ensures var s, e := Apart(s0, A, B, token, la, lb, HubA(A, s0.clock)), HubContact(1, Delivered, [A.name, B.name]);
            Enabled(s, net, e) && Apply(s, net, e) == HeardOf(s0, A, B, token, la, lb)
  {
    hide HubHeartBeat, AddRemotes, IsComplete;
    HubAnswersB(A, B, s0.clock);
    LearnsA(A, B, token, lb, s0.clock);
    var s, e := Apart(s0, A, B, token, la, lb, HubA(A, s0.clock)), HubContact(1, Delivered, [A.name, B.name]);
    BothInOrder(A, B);
    assert Enabled(s, net, e);
    hide Enabled, Orders;
    assert Apply(s, net, e).nodes == HeardOf(s0, A, B, token, la, lb).nodes;
  }

  /**
   Two strangers of one cluster are started, and each reports to the centre: after this run b has only heard of
   a and holds no token of its, and a call from a without a token passes at b.
   */
  lemma HeardOfPasses(s0: System, net: Net, A: Meta, B: Meta, token: string, la: string, lb: string)
    requires Origin(s0) && Strangers(A, B) && la != "" && lb != "" && la != lb
    ensures var es := [StartA(A, token, la), Start(1, B, token, lb, [])]
                      + [HubContact(0, Delivered, []), HubContact(1, Delivered, [A.name, B.name])];
            && Runs(s0, net, es)
            && var s := After(s0, net, es);
            && 1 in s.nodes && s.nodes[1].Ranged() && A.name in s.nodes[1].main
            && s.nodes[1].At(A.name).meta == A && s.nodes[1].At(A.name).inToken == "" != s.nodes[1].localToken
            && Authenticate(s.nodes[1], A, "", s.clock).1
  {
    StartApart(s0, net, A, B, token, la, lb);
    HubMeetsA(s0, net, A, B, token, la, lb);
    HubMeetsB(s0, net, A, B, token, la, lb);
    var starts := [StartA(A, token, la), Start(1, B, token, lb, [])];
    var e, f := HubContact(0, Delivered, []), HubContact(1, Delivered, [A.name, B.name]);
    TwoEvents(Apart(s0, A, B, token, la, lb, map[]), net, e, f);
    RunsOn(s0, net, starts, [e, f]);
    HeardState(s0, A, B, token, la, lb);
    hide Runs, After, Enabled, Apply, Authenticate, HeardOf, Apart;
  }

  lemma HeardState(s0: System, A: Meta, B: Meta, token: string, la: string, lb: string)
    requires A.name != B.name && lb != ""
    ensures var s := HeardOf(s0, A, B, token, la, lb);
            && 1 in s.nodes && s.nodes[1].Ranged() && A.name in s.nodes[1].main
            && s.nodes[1].At(A.name).meta == A && s.nodes[1].At(A.name).inToken == "" != s.nodes[1].localToken
            && Authenticate(s.nodes[1], A, "", s.clock).1
  {
  }

  /** One run after another. */
  lemma {:induction false} RunsOn(s: System, net: Net, es: seq<Event>, fs: seq<Event>)
    requires Runs(s, net, es) && Runs(After(s, net, es), net, fs)
    ensures Runs(s, net, es + fs) && After(s, net, es + fs) == After(After(s, net, es), net, fs)
    decreases |es|
  {
    hide Enabled, Apply;
    if es == [] {
      assert es + fs == fs;
    } else {
      RunsOn(Apply(s, net, es[0]), net, es[1..], fs);
      assert (es + fs)[1..] == es[1..] + fs;
    }
  }
}
