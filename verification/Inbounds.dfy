/**
 The inbounds of the proxy, the index of their ports, and the runtime they are
 installed in.  The functions say what the operations of ProxyManager do, given
 what the runtime answers to each of their requests.
 */
module Inbounds {

  const API_TAG: string := "api"
  const MIN_PORT: int := 100
  const MAX_PORT: int := 65535

  datatype Inbound = Inbound(
    tag: string,
    configTag: string,
    port: int,
    protocol: string,
    settings: string,  // protocol specific, with the clients
    stream: string)    // the rest of the configuration

  datatype Manager = Manager(
    inbounds: map<string, Inbound>,
    ports: set<int>,        // the ports marked as used
    live: set<string>,      // the tags installed in the runtime
    needFlush: bool)

  // ---------------------------------------------------------------- the runtime

  /** A failed installation may nevertheless leave the tag behind. */
  datatype Install = Installed | Refused | HalfInstalled

  function AfterInstall(live: set<string>, tag: string, o: Install): set<string> {
    if o.Refused? then live else live + {tag}
  }

  /** A failed removal may nevertheless have taken the tag away, as when its reply is lost. */
  datatype Removal = Removed | Denied | HalfRemoved

  function AfterRemoval(live: set<string>, tag: string, o: Removal): set<string> {
    if o.Denied? then live else live - {tag}
  }

  // ---------------------------------------------------------------- the two maps

  function Index(m: Manager, i: Inbound): Manager {
    m.(inbounds := m.inbounds[i.tag := i], ports := m.ports + {i.port})
  }

  predicate CanIndex(m: Manager, i: Inbound) {
    i.tag != "" && i.port !in m.ports && i.tag !in m.inbounds
  }

  function Unindex(m: Manager, tag: string): Manager
    requires tag in m.inbounds
  {
    m.(inbounds := m.inbounds - {tag}, ports := m.ports - {m.inbounds[tag].port})
  }

  // ---------------------------------------------------------------- operations

  predicate InRange(port: int) {
    MIN_PORT <= port <= MAX_PORT
  }

  function AddInbound(m: Manager, i: Inbound, o: Install): (Manager, bool) {
    if i.tag == API_TAG || !InRange(i.port) || !CanIndex(m, i) then (m, false)
    else
      var live := AfterInstall(m.live, i.configTag, o);
      if o.Installed? then (Index(m, i).(live := live, needFlush := true), true)
      else (Unindex(Index(m, i), i.tag).(live := live), false)
  }

  function DeleteInbound(m: Manager, tag: string, o: Removal): (Manager, bool) {
    if tag == API_TAG then (m, false)
    else
      var m1 := m.(live := AfterRemoval(m.live, tag, o));
      if !o.Removed? || tag !in m.inbounds then (m1, false)
      else (Unindex(m1, tag).(needFlush := true), true)
  }

  /** What the runtime answers in the course of a transfer. */
  datatype Answers = Answers(removed: Removal, moved: Install, cleaned: Removal, restored: Install)

  function TransferInbound(m: Manager, tag: string, newPort: int, o: Answers): (Manager, bool) {
    if tag == API_TAG || !InRange(newPort) || tag !in m.inbounds then (m, false)
    else
      var i := m.inbounds[tag];
      var (m1, deleted) := DeleteInbound(m, tag, o.removed);
      if !deleted then (m1, false)
      else if i.port == newPort then (m1, false)
      else
        var (m2, added) := AddInbound(m1, i.(port := newPort), o.moved);
        if added then (m2, true)
        else
          var m3 := DeleteInbound(m2, tag, o.cleaned).0;
          (AddInbound(m3, i, o.restored).0, false)
  }

  function CopyNewInbound(src: Inbound, protocol: string, tag: string, port: int, settings: string): Inbound {
    src.(tag := tag, configTag := tag, port := port, protocol := protocol, settings := settings)
  }

  function CopyInbound(m: Manager, srcTag: string, tag: string, protocol: string, port: int, settings: string,
      o: Install): (Manager, bool) {
    if srcTag == API_TAG || !InRange(port) || srcTag == tag || srcTag !in m.inbounds || tag in m.inbounds
    then (m, false)
    else AddInbound(m, CopyNewInbound(m.inbounds[srcTag], protocol, tag, port, settings), o)
  }

  // ---------------------------------------------------------------- what holds in every state

  ghost predicate PortsIndexed(m: Manager) {
    && (forall t :: t in m.inbounds ==> m.inbounds[t].port in m.ports)
    && (forall p :: p in m.ports ==> exists t :: t in m.inbounds && m.inbounds[t].port == p)
  }

  ghost predicate PortsDistinct(m: Manager) {
    forall t, u :: t in m.inbounds && u in m.inbounds && t != u ==> m.inbounds[t].port != m.inbounds[u].port
  }

  ghost predicate TagsAgree(m: Manager) {
    forall t :: t in m.inbounds ==> t != "" && m.inbounds[t].tag == t && m.inbounds[t].configTag == t
  }

  /** The two maps and the tags are in order. */
  ghost predicate InOrder(m: Manager) {
    PortsIndexed(m) && PortsDistinct(m) && TagsAgree(m)
  }

  /** The tags that are managed but not installed. */
  function Dead(m: Manager): set<string> {
    m.inbounds.Keys - m.live
  }

  ghost predicate Consistent(m: Manager) {
    InOrder(m) && Dead(m) == {}
  }

  /** The inbound through which the runtime is controlled stays where it is. */
  ghost predicate ApiKept(m: Manager, m': Manager) {
    API_TAG in m.inbounds ==> API_TAG in m'.inbounds && m'.inbounds[API_TAG] == m.inbounds[API_TAG]
  }

  lemma IndexInOrder(m: Manager, i: Inbound)
    requires InOrder(m) && CanIndex(m, i) && i.configTag == i.tag
    ensures InOrder(Index(m, i))
  {
    var m' := Index(m, i);
    forall p | p in m'.ports ensures exists t :: t in m'.inbounds && m'.inbounds[t].port == p {
      if p == i.port {
        assert m'.inbounds[i.tag].port == p;
      } else {
        var t :| t in m.inbounds && m.inbounds[t].port == p;
        assert m'.inbounds[t].port == p;
      }
    }
  }

  lemma UnindexInOrder(m: Manager, tag: string)
    requires InOrder(m) && tag in m.inbounds
    ensures InOrder(Unindex(m, tag))
  {
    var m' := Unindex(m, tag);
    forall p | p in m'.ports ensures exists t :: t in m'.inbounds && m'.inbounds[t].port == p {
      var t :| t in m.inbounds && m.inbounds[t].port == p;
      assert m'.inbounds[t].port == p;
    }
  }

  /** What is in order depends on the maps only. */
  lemma SameMapsInOrder(m: Manager, m': Manager)
    requires InOrder(m) && SameMaps(m, m')
    ensures InOrder(m')
  {
  }

  /** A refused addition leaves the two maps as they were. */
  lemma RefusedAddKeepsMaps(m: Manager, i: Inbound, o: Install)
    requires !AddInbound(m, i, o).1
    ensures var m' := AddInbound(m, i, o).0;
            SameMaps(m, m') && m.live <= m'.live && m'.needFlush == m.needFlush
  {
  }

  lemma AddKeeps(m: Manager, i: Inbound, o: Install)
    requires InOrder(m) && i.configTag == i.tag
    ensures var m' := AddInbound(m, i, o).0;
            InOrder(m') && ApiKept(m, m') && Dead(m') == Dead(m)
  {
    var m' := AddInbound(m, i, o).0;
    if AddInbound(m, i, o).1 {
      IndexInOrder(m, i);
      SameMapsInOrder(Index(m, i), m');
    } else {
      RefusedAddKeepsMaps(m, i, o);
      SameMapsInOrder(m, m');
    }
  }

  lemma DeleteKeeps(m: Manager, tag: string, o: Removal)
    requires InOrder(m)
    ensures var m' := DeleteInbound(m, tag, o).0;
            && InOrder(m') && ApiKept(m, m')
            && (tag == API_TAG || o.Denied? ==> Dead(m') == Dead(m))
            && (tag != API_TAG && o.Removed? ==> Dead(m') == Dead(m) - {tag})
            && (tag != API_TAG && o.HalfRemoved? ==> Dead(m') == Dead(m) + (if tag in m.inbounds then {tag} else {}))
  {
    var m' := DeleteInbound(m, tag, o).0;
    if tag != API_TAG && o.Removed? && tag in m.inbounds {
      UnindexInOrder(m, tag);
      SameMapsInOrder(Unindex(m, tag), m');
    } else {
      SameMapsInOrder(m, m');
    }
  }

  /** The removal that comes first in an operation, if it has one. */
  datatype Asked = Nothing | Remove(tag: string, o: Removal)

  lemma TransferKeeps(m: Manager, tag: string, newPort: int, o: Answers)
    requires InOrder(m)
    ensures var m' := TransferInbound(m, tag, newPort, o).0;
            && InOrder(m') && ApiKept(m, m')
            && Dead(m') == DeadAfter(m, TransferAsks(m, tag, newPort, o))
  {
    hide InOrder, Dead;
    if tag != API_TAG && InRange(newPort) && tag in m.inbounds {
      TagsOf(m, tag);
      var i := m.inbounds[tag];
      var (m1, deleted) := DeleteInbound(m, tag, o.removed);
      DeleteKeeps(m, tag, o.removed);
      if deleted && i.port != newPort {
        var m2 := AddInbound(m1, i.(port := newPort), o.moved).0;
        AddKeeps(m1, i.(port := newPort), o.moved);
        var m3 := DeleteInbound(m2, tag, o.cleaned).0;
        DeleteKeeps(m2, tag, o.cleaned);
        AddKeeps(m3, i, o.restored);
        if !AddInbound(m1, i.(port := newPort), o.moved).1 {
          RefusedAddKeepsMaps(m1, i.(port := newPort), o.moved);
          GoneIsNotDead(m2, tag);
        }
      }
    }
  }

  lemma GoneIsNotDead(m: Manager, tag: string)
    requires tag !in m.inbounds
    ensures tag !in Dead(m)
  {
  }

  function TransferAsks(m: Manager, tag: string, newPort: int, o: Answers): Asked {
    if tag == API_TAG || !InRange(newPort) || tag !in m.inbounds then Nothing else Remove(tag, o.removed)
  }

  lemma TagsOf(m: Manager, tag: string)
    requires InOrder(m) && tag in m.inbounds
    ensures m.inbounds[tag].tag == tag && m.inbounds[tag].configTag == tag && tag != ""
  {
  }

  // ---------------------------------------------------------------- runs

  /** An operation with the runtime's answers.  An added inbound is read from a configuration, which sets both tags. */
  datatype Op =
    | Add(config: Inbound, o: Install)
    | Delete(tag: string, removal: Removal)
    | Transfer(tag: string, newPort: int, answers: Answers)
    | Copy(srcTag: string, tag: string, protocol: string, port: int, settings: string, o: Install)

  function Do(m: Manager, op: Op): (Manager, bool) {
    match op
    case Add(config, o) => AddInbound(m, config.(tag := config.configTag), o)
    case Delete(tag, removal) => DeleteInbound(m, tag, removal)
    case Transfer(tag, newPort, answers) => TransferInbound(m, tag, newPort, answers)
    case Copy(srcTag, tag, protocol, port, settings, o) => CopyInbound(m, srcTag, tag, protocol, port, settings, o)
  }

  function DoAll(m: Manager, ops: seq<Op>): Manager {
    if ops == [] then m else Do(DoAll(m, ops[..|ops| - 1]), ops[|ops| - 1]).0
  }

  /** The first removal that an operation asks for, where it concerns a managed inbound. */
  function Asks(m: Manager, op: Op): Asked {
    match op
    case Delete(tag, removal) => if tag == API_TAG || tag !in m.inbounds then Nothing else Remove(tag, removal)
    case Transfer(tag, newPort, answers) => TransferAsks(m, tag, newPort, answers)
    case _ => Nothing
  }

  /** Only that removal decides which managed tags are not live: half done it cuts the tag off, done it mends it. */
  function DeadAfter(m: Manager, a: Asked): set<string> {
    match a
    case Nothing => Dead(m)
    case Remove(tag, Removed) => Dead(m) - {tag}
    case Remove(tag, Denied) => Dead(m)
    case Remove(tag, HalfRemoved) => Dead(m) + {tag}
  }

  /**
   One operation, whatever the runtime answers: order and api inbound are kept, and exactly which tags are
   not live.
   */
  lemma StepKeeps(m: Manager, op: Op)
    requires InOrder(m)
    ensures var m' := Do(m, op).0;
            InOrder(m') && ApiKept(m, m') && Dead(m') == DeadAfter(m, Asks(m, op))
  {
    hide InOrder;
    match op {
      case Add(config, o) => AddKeeps(m, config.(tag := config.configTag), o);
      case Delete(tag, removal) => DeleteKeeps(m, tag, removal);
      case Transfer(tag, newPort, answers) => TransferKeeps(m, tag, newPort, answers);
      case Copy(srcTag, tag, protocol, port, settings, o) =>
        if srcTag in m.inbounds {
          AddKeeps(m, CopyNewInbound(m.inbounds[srcTag], protocol, tag, port, settings), o);
        }
    }
  }

  /** A consistent manager stays so exactly when the operation's removal did not end half done. */
  lemma ConsistentIff(m: Manager, op: Op)
    requires Consistent(m)
    ensures Consistent(Do(m, op).0) <==> !(Asks(m, op).Remove? && Asks(m, op).o.HalfRemoved?)
  {
    StepKeeps(m, op);
    hide InOrder, Do;
    var a := Asks(m, op);
    if a.Remove? && a.o.HalfRemoved? {
      assert a.tag in DeadAfter(m, a);
    }
  }

  /** A removal whose reply is lost leaves an inbound in both maps that is no longer live. */
  lemma HalfRemovedBreaks()
    ensures var i := Inbound("t", "t", 100, "vless", "", "");
            var m := Manager(map["t" := i], {100}, {"t"}, false);
            var (m', ok) := DeleteInbound(m, "t", HalfRemoved);
            Consistent(m) && !ok && "t" in m'.inbounds && 100 in m'.ports && "t" !in m'.live && !Consistent(m')
  {
    var i := Inbound("t", "t", 100, "vless", "", "");
    var m := Manager(map["t" := i], {100}, {"t"}, false);
    assert m.inbounds["t"].port in m.ports;
    assert "t" in Dead(DeleteInbound(m, "t", HalfRemoved).0);
  }

  /** Over every run and with any answers, the port index, the tags and the api inbound stay in order. */
  lemma {:induction false} EveryRunInOrder(m: Manager, ops: seq<Op>)
    requires InOrder(m)
    ensures InOrder(DoAll(m, ops)) && ApiKept(m, DoAll(m, ops))
  {
    hide InOrder, Do;
    if ops != [] {
      var k := |ops| - 1;
      EveryRunInOrder(m, ops[..k]);
      StepKeeps(DoAll(m, ops[..k]), ops[k]);
    }
  }

  /** Operation i of the run asked to remove t and was answered o. */
  ghost predicate Answered(m: Manager, ops: seq<Op>, i: nat, t: string, o: Removal)
    requires i < |ops|
  {
    Asks(DoAll(m, ops[..i]), ops[i]) == Remove(t, o)
  }

  /** A removal of t ended half done, and no later one was done. */
  ghost predicate CutOff(m: Manager, ops: seq<Op>, t: string) {
    exists i: nat :: i < |ops| && Answered(m, ops, i, t, HalfRemoved)
                     && forall j: nat :: i < j < |ops| ==> !Answered(m, ops, j, t, Removed)
  }

  lemma CutOffLast(m: Manager, ops: seq<Op>, t: string)
    requires ops != []
    ensures var k := |ops| - 1;
            CutOff(m, ops, t) <==>
              Answered(m, ops, k, t, HalfRemoved) || (CutOff(m, ops[..k], t) && !Answered(m, ops, k, t, Removed))
  {
    hide Answered;
    var k := |ops| - 1;
    forall i: nat, o | i < k ensures Answered(m, ops[..k], i, t, o) == Answered(m, ops, i, t, o) {
      AskedPrefix(m, ops, k, i, t, o);
    }
    if CutOff(m, ops, t) {
      var i: nat :| i < |ops| && Answered(m, ops, i, t, HalfRemoved)
        && forall j: nat :: i < j < |ops| ==> !Answered(m, ops, j, t, Removed);
      if i < k {
        assert Answered(m, ops[..k], i, t, HalfRemoved);
        assert CutOff(m, ops[..k], t);
      }
    }
    if CutOff(m, ops[..k], t) && !Answered(m, ops, k, t, Removed) {
      var i: nat :| i < k && Answered(m, ops[..k], i, t, HalfRemoved)
        && forall j: nat :: i < j < k ==> !Answered(m, ops[..k], j, t, Removed);
      assert Answered(m, ops, i, t, HalfRemoved);
    }
  }

  lemma AskedPrefix(m: Manager, ops: seq<Op>, k: nat, i: nat, t: string, o: Removal)
    requires i < k <= |ops|
    ensures Answered(m, ops[..k], i, t, o) == Answered(m, ops, i, t, o)
  {
    assert ops[..k][..i] == ops[..i];
  }

  /** Over every run, a managed tag is not live exactly when it was cut off. */
  lemma {:induction false} DeadIffCutOff(m: Manager, ops: seq<Op>, t: string)
    requires Consistent(m)
    ensures t in Dead(DoAll(m, ops)) <==> CutOff(m, ops, t)
  {
    hide InOrder, Do, CutOff, Dead, Asks;
    if ops == [] {
      NothingCutOff(m, t);
    } else {
      var k := |ops| - 1;
      EveryRunInOrder(m, ops[..k]);
      DeadIffCutOff(m, ops[..k], t);
      StepKeeps(DoAll(m, ops[..k]), ops[k]);
      CutOffLast(m, ops, t);
    }
  }

  lemma NothingCutOff(m: Manager, t: string)
    requires Dead(m) == {}
    ensures t !in Dead(m) && !CutOff(m, [], t)
  {
  }

  /** So the whole manager is consistent after a run exactly when no tag was cut off in it. */
  lemma EveryRunConsistent(m: Manager, ops: seq<Op>)
    requires Consistent(m)
    ensures Consistent(DoAll(m, ops)) <==> forall t :: !CutOff(m, ops, t)
    ensures InOrder(DoAll(m, ops)) && ApiKept(m, DoAll(m, ops))
  {
    hide InOrder, CutOff, Dead, DoAll;
    EveryRunInOrder(m, ops);
    forall t: string { DeadIffCutOff(m, ops, t); }
    assert forall t :: t in Dead(DoAll(m, ops)) <==> CutOff(m, ops, t);
  }

  // ---------------------------------------------------------------- the outcomes of a transfer

  ghost predicate SameMaps(m: Manager, m': Manager) {
    m'.inbounds == m.inbounds && m'.ports == m.ports
  }

  ghost predicate OnlyGone(m: Manager, m': Manager, tag: string)
    requires tag in m.inbounds
  {
    m'.inbounds == m.inbounds - {tag} && m'.ports == m.ports - {m.inbounds[tag].port}
  }

  ghost predicate OnlyMoved(m: Manager, m': Manager, tag: string, port: int)
    requires tag in m.inbounds
  {
    && m'.inbounds == m.inbounds[tag := m.inbounds[tag].(port := port)]
    && m'.ports == m.ports - {m.inbounds[tag].port} + {port}
  }

  /** Whether the runtime accepts the move, and, failing that, the way back. */
  predicate Moves(m: Manager, newPort: int, o: Answers) {
    o.removed.Removed? && newPort !in m.ports && o.moved.Installed?
  }

  /**
   A transfer succeeds exactly when the inbound has moved; otherwise the maps are as before or the
   inbound is gone, and which of the two depends only on the runtime and on the old port being one
   that may be added.
   */
  lemma TransferOutcomes(m: Manager, tag: string, newPort: int, o: Answers)
    requires InOrder(m) && tag in m.inbounds && tag != "api" && 100 <= newPort <= 65535
    ensures var (m', ok) := TransferInbound(m, tag, newPort, o);
            var was := m.inbounds[tag].port;
            && (ok <==> newPort != was && Moves(m, newPort, o))
            && (ok ==> OnlyMoved(m, m', tag, newPort))
            && (!ok ==> if o.removed.Removed? && (newPort == was || !(100 <= was <= 65535) || !o.restored.Installed?)
                        then OnlyGone(m, m', tag) else SameMaps(m, m'))
  {
    TagsOf(m, tag);
    var i := m.inbounds[tag];
    if o.removed.Removed? && i.port != newPort {
      var m1 := DeleteInbound(m, tag, Removed).0;
      PortFreed(m, tag);
      var (m2, added) := AddInbound(m1, i.(port := newPort), o.moved);
      if !added {
        RefusedAddKeepsMaps(m1, i.(port := newPort), o.moved);
        var m3 := DeleteInbound(m2, tag, o.cleaned).0;
        assert SameMaps(m1, m3);
        if InRange(i.port) && o.restored.Installed? {
          assert m3.inbounds[tag := i] == m.inbounds;
        } else {
          RefusedAddKeepsMaps(m3, i, o.restored);
        }
      }
    }
  }

  lemma PortFreed(m: Manager, tag: string)
    requires InOrder(m) && tag in m.inbounds
    ensures m.ports - {m.inbounds[tag].port} + {m.inbounds[tag].port} == m.ports
  {
  }

  /** Transferring an inbound to the port it already has removes it. */
  lemma SamePortRemoves(m: Manager, tag: string, o: Answers)
    requires InOrder(m) && tag in m.inbounds && tag != API_TAG && InRange(m.inbounds[tag].port) && o.removed.Removed?
    ensures var (m', ok) := TransferInbound(m, tag, m.inbounds[tag].port, o);
            !ok && OnlyGone(m, m', tag)
  {
    TransferOutcomes(m, tag, m.inbounds[tag].port, o);
  }

  // ---------------------------------------------------------------- the outcomes of the other operations

  /** The maps gained exactly this inbound. */
  ghost predicate OnlyGained(m: Manager, m': Manager, tag: string) {
    && tag !in m.inbounds && tag in m'.inbounds && m'.inbounds.Keys == m.inbounds.Keys + {tag}
    && (forall t :: t in m.inbounds ==> m'.inbounds[t] == m.inbounds[t])
    && m'.ports == m.ports + {m'.inbounds[tag].port}
  }

  /**
   An addition succeeds exactly under these conditions; then the maps gain the inbound as it is, and nothing
   else changes.
   */
  lemma AddOutcomes(m: Manager, i: Inbound, o: Install)
    ensures var (m', ok) := AddInbound(m, i, o);
            && (ok <==> i.tag != "" && i.tag != "api" && i.tag !in m.inbounds
                        && 100 <= i.port <= 65535 && i.port !in m.ports && o.Installed?)
            && (ok ==> OnlyGained(m, m', i.tag) && m'.inbounds[i.tag] == i
                       && m'.live == m.live + {i.configTag} && m'.needFlush)
            && (!ok ==> SameMaps(m, m') && m'.needFlush == m.needFlush)
  {
    if !AddInbound(m, i, o).1 { RefusedAddKeepsMaps(m, i, o); }
  }

  /**
   A deletion succeeds exactly under these conditions; then the maps lose the inbound and its port, and
   nothing else.
   */
  lemma DeleteOutcomes(m: Manager, tag: string, o: Removal)
    ensures var (m', ok) := DeleteInbound(m, tag, o);
            && (ok <==> tag != "api" && tag in m.inbounds && o.Removed?)
            && (ok ==> OnlyGone(m, m', tag) && m'.live == m.live - {tag} && m'.needFlush)
            && (!ok ==> SameMaps(m, m') && m'.needFlush == m.needFlush)
  {
  }

  /**
   A copy succeeds exactly under these conditions.  Then the maps gain one inbound: tag, port, protocol and
   settings are those asked for, the rest is the source's, and the source and all others are as before.
   */
  lemma CopyOutcomes(m: Manager, srcTag: string, tag: string, protocol: string, port: int, settings: string, o: Install)
    ensures var (m', ok) := CopyInbound(m, srcTag, tag, protocol, port, settings, o);
            && (ok <==> srcTag in m.inbounds && srcTag != "api"
                        && tag != "" && tag != "api" && tag != srcTag && tag !in m.inbounds
                        && 100 <= port <= 65535 && port !in m.ports && o.Installed?)
            && (ok ==>
                  && OnlyGained(m, m', tag) && m'.live == m.live + {tag} && m'.needFlush
                  && m'.inbounds[tag].tag == tag && m'.inbounds[tag].configTag == tag
                  && m'.inbounds[tag].port == port
                  && m'.inbounds[tag].protocol == protocol && m'.inbounds[tag].settings == settings
                  && m'.inbounds[tag].stream == m.inbounds[srcTag].stream)
            && (!ok ==> SameMaps(m, m') && m'.needFlush == m.needFlush)
  {
    if srcTag in m.inbounds {
      AddOutcomes(m, CopyNewInbound(m.inbounds[srcTag], protocol, tag, port, settings), o);
    }
    hide AddInbound;
  }

  /**
   A transfer touches no other tag in the runtime, and asks for the configuration to be written when it has
   deleted.
   */
  lemma TransferLeaves(m: Manager, tag: string, newPort: int, o: Answers)
    requires InOrder(m)
    ensures var m' := TransferInbound(m, tag, newPort, o).0;
            && (forall t :: t != tag ==> (t in m'.live <==> t in m.live))
            && (m'.needFlush <==>
                  m.needFlush || (tag != "api" && InRange(newPort) && tag in m.inbounds && o.removed.Removed?))
  {
    hide InOrder, AddInbound, DeleteInbound;
    if tag in m.inbounds {
      TagsOf(m, tag);
      var i := m.inbounds[tag];
      var m1 := DeleteInbound(m, tag, o.removed).0;
      var m2 := AddInbound(m1, i.(port := newPort), o.moved).0;
      var m3 := DeleteInbound(m2, tag, o.cleaned).0;
      DeleteTouches(m, tag, o.removed);
      AddTouches(m1, i.(port := newPort), o.moved);
      DeleteTouches(m2, tag, o.cleaned);
      AddTouches(m3, i, o.restored);
    }
  }

  lemma AddTouches(m: Manager, i: Inbound, o: Install)
    ensures var (m', ok) := AddInbound(m, i, o);
            && (forall t :: t != i.configTag ==> (t in m'.live <==> t in m.live))
            && m'.needFlush == (m.needFlush || ok)
  {
  }

  lemma DeleteTouches(m: Manager, tag: string, o: Removal)
    ensures var (m', ok) := DeleteInbound(m, tag, o);
            && (forall t :: t != tag ==> (t in m'.live <==> t in m.live))
            && m'.needFlush == (m.needFlush || ok)
            && (ok <==> tag != "api" && tag in m.inbounds && o.Removed?)
  {
  }

  /** The api inbound, an unknown tag and a port out of range are refused before anything is asked of the runtime. */
  lemma TransferRefused(m: Manager, tag: string, newPort: int, o: Answers)
    requires tag == "api" || tag !in m.inbounds || newPort < 100 || newPort > 65535
    ensures TransferInbound(m, tag, newPort, o) == (m, false)
  {
  }
}
