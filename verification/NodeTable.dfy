/**
 The node table of one end node: node records, the main table, the wrong-node
 list, and the functions that specify every handler that reads or writes them.

 A node record is a heap object in the running program, shared between the
 tables and the code that is talking to the peer.  Here every record has an
 identity, its index in `objs`, and the tables map names to identities, so an
 update made through one holder of a record is seen by all of them.
 */
module NodeTable {
  import opened Common

  const NODE_TIMEOUT: int := 60
  const TWO_64: int := 0x1_0000_0000_0000_0000

  /** The latest timestamp to which the timeout can be added without wrapping. */
  const LAST_TIME: int := MAX_INT64 - NODE_TIMEOUT

  /** Addition of two int64 values, with wrap-around. */
  function Add64(x: int, y: int): int {
    var s := x + y;
    if s > MAX_INT64 then s - TWO_64 else if s < -MAX_INT64 - 1 then s + TWO_64 else s
  }

  /** What identifies a peer: four values that are compared together. */
  datatype Meta = Meta(name: string, host: string, port: int, cluster: string)

  datatype Entry = Entry(
    meta: Meta,
    inToken: string,     // the peer presents this token here
    outToken: string,    // this node presents this token at the peer
    getTime: int,        // last heartbeat received from the peer
    reportTime: int,     // last heartbeat reported to the peer
    createTime: int,
    isLocal: bool)       // loaded from the local configuration file
  {
    predicate IsValid(now: int) {
      || Add64(getTime, NODE_TIMEOUT) > now
      || Add64(reportTime, NODE_TIMEOUT) > now
      || Add64(createTime, NODE_TIMEOUT) > now
    }

    predicate RegisteredRemote(now: int) {
      outToken != "" && Add64(reportTime, NODE_TIMEOUT) > now
    }

    predicate RegisteredLocal(now: int) {
      inToken != "" && Add64(getTime, NODE_TIMEOUT) > now
    }

    /** The three timestamps are in the range in which IsValid cannot wrap. */
    predicate InTime() {
      0 <= getTime <= LAST_TIME && 0 <= reportTime <= LAST_TIME && 0 <= createTime <= LAST_TIME
    }
  }

  datatype EndNode = EndNode(
    me: Meta,
    clusterToken: string,
    localToken: string,
    objs: seq<Entry>,
    main: map<string, nat>,
    wrong: map<string, nat>,
    snap: Option<map<string, nat>>)  // a Filter that has read the table but not yet swapped it
  {
    /** Every identity held by a table denotes a record. */
    predicate Ranged() {
      && (forall k :: k in main ==> main[k] < |objs|)
      && (forall k :: k in wrong ==> wrong[k] < |objs|)
      && (snap.Some? ==> forall k :: k in snap.value ==> snap.value[k] < |objs|)
    }

    function At(k: string): Entry
      requires Ranged() && k in main
    {
      objs[main[k]]
    }

    /** An in-place update of one record. */
    function Put(i: nat, e: Entry): EndNode
      requires i < |objs|
    {
      this.(objs := objs[i := e])
    }

    function Insert(e: Entry): EndNode {
      this.(objs := objs + [e], main := main[e.meta.name := |objs|])
    }

    function InsertWrong(e: Entry): EndNode {
      this.(objs := objs + [e], wrong := wrong[e.meta.name := |objs|])
    }
  }

  // ---------------------------------------------------------------- server side

  datatype RegisterRsp = RegisterRsp(code: int, data: string)

  /** Registration of the remote node `node`, which claims membership with `token`. */
  function RegisterNode(st: EndNode, node: Meta, token: string, now: int, uuid: string): (r: (EndNode, RegisterRsp))
    requires st.Ranged()
    ensures r.0.Ranged()
  {
    if node.host == "" || node.port <= 0 then (st, RegisterRsp(100, ""))
    else if node.name == st.me.name then (st, RegisterRsp(103, ""))
    else if st.me.cluster != node.cluster || st.clusterToken != token then
      (st.InsertWrong(Entry(node, "", "", 0, 0, now, false)), RegisterRsp(101, ""))
    else
      var s := st.(wrong := st.wrong - {node.name});
      if node.name in s.main then
        var i := s.main[node.name];
        var n := s.objs[i];
        if n.meta != node then (s, RegisterRsp(105, ""))
        else if n.RegisteredLocal(now) then (s.Put(i, n.(getTime := now)), RegisterRsp(102, n.inToken))
        else (s.Put(i, n.(inToken := uuid, getTime := now)), RegisterRsp(0, uuid))
      else (s.Insert(Entry(node, uuid, "", now, 0, now, false)), RegisterRsp(0, uuid))
  }

  /** The token check of the cluster: `node` is known under its own metadata, with this token, and is not stale. */
  predicate Authentic(st: EndNode, node: Meta, token: string, now: int)
    requires st.Ranged()
  {
    && node.name in st.main
    && var n := st.At(node.name);
    && n.meta == node
    && token == n.inToken
    && (n.getTime == 0 || Add64(n.getTime, NODE_TIMEOUT) >= now)
  }

  /**
   The check before every call but RegisterNode; success counts as a heartbeat.  The node's own token always
   passes.
   */
  function Authenticate(st: EndNode, node: Meta, token: string, now: int): (r: (EndNode, bool))
    requires st.Ranged()
    ensures r.0.Ranged()
  {
    if Authentic(st, node, token, now) then
      (st.Put(st.main[node.name], st.At(node.name).(getTime := now)), true)
    else (st, token == st.localToken)
  }

  datatype HeartbeatRsp = HeartbeatRsp(code: int, nodes: map<string, Meta>)

  function KnownPeers(st: EndNode, now: int): map<string, Meta>
    requires st.Ranged()
  {
    map k | k in st.main && st.At(k).meta.name != st.me.name && st.At(k).IsValid(now) :: st.At(k).meta
  }

  function HeartBeat(st: EndNode, node: Meta, now: int): HeartbeatRsp
    requires st.Ranged()
  {
    if node.name !in st.main then HeartbeatRsp(104, map[]) else HeartbeatRsp(0, KnownPeers(st, now))
  }

  function ServeHeartbeat(st: EndNode, node: Meta, token: string, now: int): (r: (EndNode, HeartbeatRsp))
    requires st.Ranged()
    ensures r.0.Ranged()
  {
    var (st1, ok) := Authenticate(st, node, token, now);
    if ok then (st1, HeartBeat(st1, node, now)) else (st1, HeartbeatRsp(400, map[]))
  }

  // ---------------------------------------------------------------- client side

  datatype Reply<+T> = Lost | Got(rsp: T)

  /** What a round does to the record it is about to contact. */
  function Touch(st: EndNode, i: nat, now: int): (r: EndNode)
    requires st.Ranged() && i < |st.objs|
    ensures r.Ranged()
  {
    if st.objs[i].isLocal then st.Put(i, st.objs[i].(reportTime := now)) else st
  }

  /** The end of a registration at the peer whose record is `i`. */
  function FinishRegister(st: EndNode, i: nat, reply: Reply<RegisterRsp>, now: int): (r: EndNode)
    requires st.Ranged() && i < |st.objs|
    ensures r.Ranged()
  {
    match reply
    case Lost => st
    case Got(rsp) =>
      var name := st.objs[i].meta.name;
      var s :=
        if !st.objs[i].isLocal && rsp.code > 0 && rsp.code != 102
        then st.(main := st.main - {name}, wrong := st.wrong[name := i])
        else st;
      if rsp.data != "" then s.Put(i, s.objs[i].(outToken := rsp.data, reportTime := now)) else s
  }

  /** Learning of one peer from a reply: the key of the reply is tested, the name of the node is stored. */
  function AddRemote(st: EndNode, key: string, m: Meta, now: int): (r: EndNode)
    requires st.Ranged()
    ensures r.Ranged()
  {
    if key !in st.main && m.name != st.me.name && m.name !in st.wrong
    then st.Insert(Entry(m, "", "", 0, 0, now, false))
    else st
  }

  function AddRemotes(st: EndNode, order: seq<string>, nodes: map<string, Meta>, now: int): (r: EndNode)
    requires st.Ranged()
    requires forall k :: k in order ==> k in nodes
    ensures r.Ranged()
    decreases |order|
  {
    if order == [] then st
    else AddRemotes(AddRemote(st, order[0], nodes[order[0]], now), order[1..], nodes, now)
  }

  function FinishHeartbeat(st: EndNode, i: nat, reply: Reply<HeartbeatRsp>, order: seq<string>, now: int): (r: EndNode)
    requires st.Ranged() && i < |st.objs|
    requires reply.Got? ==> forall k :: k in order ==> k in reply.rsp.nodes
    ensures r.Ranged()
  {
    match reply
    case Lost => st.Put(i, st.objs[i].(outToken := ""))
    case Got(rsp) =>
      if rsp.code != 0 then st.Put(i, st.objs[i].(outToken := "", reportTime := now))
      else AddRemotes(st.Put(i, st.objs[i].(reportTime := now)), order, rsp.nodes, now)
  }

  // ---------------------------------------------------------------- eviction

  predicate Kept(e: Entry, now: int) {
    e.IsValid(now) || e.isLocal
  }

  function Surviving(st: EndNode, now: int): map<string, nat>
    requires st.Ranged()
  {
    map k | k in st.main && Kept(st.At(k), now) :: st.main[k]
  }

  /** First half of a Filter: under the read lock, decide what stays. */
  function Snapshot(st: EndNode, now: int): (r: EndNode)
    requires st.Ranged()
    ensures r.Ranged()
  {
    st.(snap := Some(Surviving(st, now)))
  }

  /** Second half: under the write lock, replace the table by what was decided. */
  function Swap(st: EndNode): (r: EndNode)
    requires st.Ranged()
    ensures r.Ranged()
  {
    if st.snap.Some? then st.(main := st.snap.value, snap := None) else st
  }

  /** A Filter whose two halves are not separated by another step. */
  function Filter(st: EndNode, now: int): (r: EndNode)
    requires st.Ranged()
    ensures r.Ranged()
  {
    st.(main := Surviving(st, now))
  }

  function FilterWrong(st: EndNode, now: int): (r: EndNode)
    requires st.Ranged()
    ensures r.Ranged()
  {
    st.(wrong := map k | k in st.wrong && Add64(st.objs[st.wrong[k]].createTime, NODE_TIMEOUT) > now :: st.wrong[k])
  }

  // ---------------------------------------------------------------- start-up

  datatype StaticNode = StaticNode(name: string, host: string, port: int) {
    predicate IsValid(me: Meta) {
      host != "" && host != me.host && port > 1000 && name != me.name
    }
  }

  function LoadStatic(st: EndNode, list: seq<StaticNode>, now: int): (r: EndNode)
    requires st.Ranged()
    ensures r.Ranged()
    decreases |list|
  {
    if list == [] then st
    else
      var n := list[0];
      var st1 :=
        if n.IsValid(st.me)
        then st.Insert(Entry(Meta(n.name, n.host, n.port, st.me.cluster), "", "", 0, 0, now, true))
        else st;
      LoadStatic(st1, list[1..], now)
  }

  function Boot(me: Meta, clusterToken: string, localToken: string, list: seq<StaticNode>, now: int): (r: EndNode)
    ensures r.Ranged()
  {
    var blank := EndNode(me, clusterToken, localToken, [], map[], map[], None);
    LoadStatic(blank.Insert(Entry(me, localToken, localToken, LAST_TIME, LAST_TIME, now, false)), list, now)
  }
}
