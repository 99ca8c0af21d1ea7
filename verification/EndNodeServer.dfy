/**
 The end node as the running program has it: node records are objects that the
 tables share and the handlers update in place.  Every method is proved to do to
 the abstract state of NodeTable what the function of that name says.
 */
module EndNodeServer {
  import opened Common
  import opened NodeTable

  class Record {
    const meta: Meta
    const isLocal: bool
    const createTime: int
    var inToken: string
    var outToken: string
    var getTime: int
    var reportTime: int
    ghost const id: nat

    constructor (e: Entry, ghost id: nat)
      ensures this.Abs() == e && this.id == id
    {
      meta, isLocal, createTime := e.meta, e.isLocal, e.createTime;
      inToken, outToken, getTime, reportTime := e.inToken, e.outToken, e.getTime, e.reportTime;
      this.id := id;
    }

    function Abs(): (e: Entry)
      reads this
    {
      Entry(meta, inToken, outToken, getTime, reportTime, createTime, isLocal)
    }
  }

  class Server {
    const me: Meta
    const clusterToken: string
    const localToken: string
    var nodes: map<string, Record>
    var wrongNodes: map<string, Record>
    ghost var made: seq<Record>  // every record ever made, in the order of its id

    ghost predicate Valid()
      reads this, made
    {
      && (forall i :: 0 <= i < |made| ==> made[i].id == i)
      && (forall k :: k in nodes ==> Has(nodes[k]))
      && (forall k :: k in wrongNodes ==> Has(wrongNodes[k]))
    }

    ghost predicate Has(r: Record)
      reads this
    {
      r.id < |made| && made[r.id] == r
    }

    /** The records of `before` are still there and the others are new. */
    twostate predicate Since(before: seq<Record>)
      reads this
    {
      before <= made && forall i :: |before| <= i < |made| ==> fresh(made[i])
    }

    static ghost function Ids(m: map<string, Record>): map<string, nat> {
      map k | k in m :: m[k].id
    }

    static lemma IdsPut(m: map<string, Record>, k: string, r: Record)
      ensures Ids(m[k := r]) == Ids(m)[k := r.id]
    {
    }

    static lemma IdsRemove(m: map<string, Record>, k: string)
      ensures Ids(m - {k}) == Ids(m) - {k}
    {
    }

    static ghost function Entries(rs: seq<Record>): seq<Entry>
      reads rs
    {
      seq(|rs|, i requires 0 <= i < |rs| reads rs => rs[i].Abs())
    }

    /** The table as a value. */
    ghost function Abs(): (st: EndNode)
      requires Valid()
      reads this, made
      ensures st.Ranged()
      ensures forall k :: k in nodes ==> k in st.main && st.At(k) == nodes[k].Abs()
    {
      EndNode(me, clusterToken, localToken, Entries(made), Ids(nodes), Ids(wrongNodes), None)
    }

    constructor (me: Meta, clusterToken: string, localToken: string, list: seq<StaticNode>, now: int)
      ensures Valid() && forall i :: 0 <= i < |made| ==> fresh(made[i])
      ensures Abs() == Boot(me, clusterToken, localToken, list, now)
    {
      this.me, this.clusterToken, this.localToken := me, clusterToken, localToken;
      nodes, wrongNodes, made := map[], map[], [];
      new;
      assert Abs() == EndNode(me, clusterToken, localToken, [], map[], map[], None);
      Insert(Entry(me, localToken, localToken, LAST_TIME, LAST_TIME, now, false));
      LoadStaticNode(list, now);
    }

    /** A new record, not yet in any table. */
    method Make(e: Entry) returns (r: Record)
      requires Valid()
      modifies this`made
      ensures Valid() && fresh(r) && r.Abs() == e
      ensures made == old(made) + [r] && r.id == |old(made)|
      ensures Abs() == old(Abs()).(objs := old(Abs()).objs + [e])
    {
      r := new Record(e, |made|);
      made := made + [r];
    }

    method Insert(e: Entry)
      requires Valid()
      modifies this`made, this`nodes
      ensures Valid() && Since(old(made))
      ensures Abs() == old(Abs()).Insert(e)
      ensures wrongNodes == old(wrongNodes)
    {
      var r := Make(e);
      IdsPut(nodes, e.meta.name, r);
      nodes := nodes[e.meta.name := r];
    }

    method InsertWrong(e: Entry)
      requires Valid()
      modifies this`made, this`wrongNodes
      ensures Valid() && Since(old(made))
      ensures Abs() == old(Abs()).InsertWrong(e)
    {
      var r := Make(e);
      IdsPut(wrongNodes, e.meta.name, r);
      wrongNodes := wrongNodes[e.meta.name := r];
    }

    method LoadStaticNode(list: seq<StaticNode>, now: int)
      requires Valid()
      modifies this`made, this`nodes
      ensures Valid() && Since(old(made))
      ensures Abs() == LoadStatic(old(Abs()), list, now)
    {
      var i := 0;
      while i < |list|
        invariant 0 <= i <= |list|
        invariant Valid() && Since(old(made))
        invariant LoadStatic(Abs(), list[i..], now) == LoadStatic(old(Abs()), list, now)
      {
        ghost var st := Abs();
        var n := list[i];
        if n.IsValid(me) {
          Insert(Entry(Meta(n.name, n.host, n.port, me.cluster), "", "", 0, 0, now, true));
        }
        assert list[i..][1..] == list[i + 1..];
        i := i + 1;
      }
    }

    /** Writes the mutable fields of a record. */
    method Write(r: Record, inToken: string, outToken: string, getTime: int, reportTime: int)
      requires Valid() && Has(r)
      modifies r
      ensures Valid() && Has(r)
      ensures Abs() == old(Abs()).Put(r.id,
          Entry(r.meta, inToken, outToken, getTime, reportTime, r.createTime, r.isLocal))
    {
      r.inToken, r.outToken, r.getTime, r.reportTime := inToken, outToken, getTime, reportTime;
      assert Entries(made) == old(Entries(made))[r.id := r.Abs()];
    }

    method Forgive(name: string)
      requires Valid()
      modifies this`wrongNodes
      ensures Valid() && Abs() == old(Abs()).(wrong := old(Abs()).wrong - {name})
    {
      IdsRemove(wrongNodes, name);
      wrongNodes := wrongNodes - {name};
    }

    method RegisterNode(node: Meta, token: string, now: int, uuid: string) returns (rsp: RegisterRsp)
      requires Valid()
      modifies this, made
      ensures Valid() && Since(old(made))
      ensures (Abs(), rsp) == NodeTable.RegisterNode(old(Abs()), node, token, now, uuid)
    {
      if node.host == "" || node.port <= 0 {
        return RegisterRsp(100, "");
      }
      if node.name == me.name {
        return RegisterRsp(103, "");
      }
      if me.cluster != node.cluster || clusterToken != token {
        InsertWrong(Entry(node, "", "", 0, 0, now, false));
        return RegisterRsp(101, "");
      }
      Forgive(node.name);
      if node.name in nodes {
        var n := nodes[node.name];
        if n.meta != node {
          return RegisterRsp(105, "");
        }
        if n.inToken != "" && Add64(n.getTime, NODE_TIMEOUT) > now {
          rsp := RegisterRsp(102, n.inToken);
          Write(n, n.inToken, n.outToken, now, n.reportTime);
        } else {
          rsp := RegisterRsp(0, uuid);
          Write(n, uuid, n.outToken, now, n.reportTime);
        }
      } else {
        Insert(Entry(node, uuid, "", now, 0, now, false));
        rsp := RegisterRsp(0, uuid);
      }
    }

    method Authenticate(node: Meta, token: string, now: int) returns (ok: bool)
      requires Valid()
      modifies made
      ensures Valid()
      ensures (Abs(), ok) == NodeTable.Authenticate(old(Abs()), node, token, now)
    {
      if node.name in nodes {
        var n := nodes[node.name];
        if n.meta == node && token == n.inToken && !(n.getTime != 0 && Add64(n.getTime, NODE_TIMEOUT) < now) {
          Write(n, n.inToken, n.outToken, now, n.reportTime);
          return true;
        }
      }
      ok := token == localToken;
    }

    method HeartBeat(node: Meta, token: string, now: int) returns (rsp: HeartbeatRsp)
      requires Valid()
      modifies made
      ensures Valid()
      ensures (Abs(), rsp) == ServeHeartbeat(old(Abs()), node, token, now)
    {
      var ok := Authenticate(node, token, now);
      if !ok {
        return HeartbeatRsp(400, map[]);
      }
      if node.name !in nodes {
        return HeartbeatRsp(104, map[]);
      }
      var peers := GetNodes(now);
      rsp := HeartbeatRsp(0, peers);
    }

    method GetNodes(now: int) returns (peers: map<string, Meta>)
      requires Valid()
      ensures peers == KnownPeers(Abs(), now)
    {
      peers := map k | k in nodes && nodes[k].meta.name != me.name && nodes[k].Abs().IsValid(now) :: nodes[k].meta;
    }

    /** What a round does before it contacts the record: `register` says which of the two calls follows. */
    method Prepare(r: Record, now: int) returns (valid: bool, register: bool)
      requires Valid() && Has(r)
      modifies r
      ensures Valid() && Has(r)
      ensures Abs() == Touch(old(Abs()), r.id, now)
      ensures valid == Abs().objs[r.id].IsValid(now)
      ensures register == !Abs().objs[r.id].RegisteredRemote(now)
    {
      if r.isLocal {
        Write(r, r.inToken, r.outToken, r.getTime, now);
      }
      valid := r.Abs().IsValid(now);
      register := !r.Abs().RegisteredRemote(now);
    }

    /** Moves a record to the wrong-node list. */
    method Banish(r: Record)
      requires Valid() && Has(r)
      modifies this`nodes, this`wrongNodes
      ensures Valid() && Has(r)
      ensures Abs() == old(Abs()).(main := old(Abs()).main - {r.meta.name},
          wrong := old(Abs()).wrong[r.meta.name := r.id])
    {
      IdsRemove(nodes, r.meta.name);
      IdsPut(wrongNodes, r.meta.name, r);
      nodes := nodes - {r.meta.name};
      wrongNodes := wrongNodes[r.meta.name := r];
    }

    method FinishRegister(r: Record, reply: Reply<RegisterRsp>, now: int)
      requires Valid() && Has(r)
      modifies this`nodes, this`wrongNodes, r
      ensures Valid() && Has(r)
      ensures Abs() == NodeTable.FinishRegister(old(Abs()), r.id, reply, now)
    {
      match reply
      case Lost =>
      case Got(rsp) =>
        if !r.isLocal && rsp.code > 0 && rsp.code != 102 {
          Banish(r);
        }
        if rsp.data != "" {
          Write(r, r.inToken, rsp.data, r.getTime, now);
        }
    }

    method FinishHeartbeat(r: Record, reply: Reply<HeartbeatRsp>, now: int) returns (ghost order: seq<string>)
      requires Valid() && Has(r)
      modifies this`nodes, this`made, r
      ensures Valid() && Since(old(made)) && r.id < |old(made)|
      ensures reply.Got? && reply.rsp.code == 0 ==> Orders(order, reply.rsp.nodes.Keys)
      ensures reply.Got? ==> forall k :: k in order ==> k in reply.rsp.nodes
      ensures Abs() == NodeTable.FinishHeartbeat(old(Abs()), r.id, reply, order, now)
    {
      order := [];
      match reply
      case Lost =>
        Write(r, r.inToken, "", r.getTime, r.reportTime);
      case Got(rsp) =>
        if rsp.code != 0 {
          Write(r, r.inToken, "", r.getTime, now);
        } else {
          Write(r, r.inToken, r.outToken, r.getTime, now);
          order := AddRemoteNode(rsp.nodes, now);
        }
    }

    method LearnOne(key: string, m: Meta, now: int)
      requires Valid()
      modifies this`nodes, this`made
      ensures Valid() && Since(old(made))
      ensures Abs() == AddRemote(old(Abs()), key, m, now)
    {
      if key !in nodes && m.name != me.name && m.name !in wrongNodes {
        Insert(Entry(m, "", "", 0, 0, now, false));
      }
    }

    /** Learns the peers of a reply, in the order in which the map happens to be visited. */
    method AddRemoteNode(peers: map<string, Meta>, now: int) returns (ghost order: seq<string>)
      requires Valid()
      modifies this`nodes, this`made
      ensures Valid() && Since(old(made))
      ensures Orders(order, peers.Keys)
      ensures Abs() == AddRemotes(old(Abs()), order, peers, now)
    {
      order := [];
      var todo := peers.Keys;
      while todo != {}
        invariant todo <= peers.Keys
        invariant Valid() && Since(old(made))
        invariant forall k :: k in order <==> k in peers && k !in todo
        invariant forall i, j :: 0 <= i < j < |order| ==> order[i] != order[j]
        invariant Abs() == AddRemotes(old(Abs()), order, peers, now)
      {
        var key :| key in todo;
        AddRemotesAppend(old(Abs()), order, key, peers, now);
        LearnOne(key, peers[key], now);
        order := order + [key];
        todo := todo - {key};
      }
    }

    /** The entries that stay, read under the read lock. */
    method FilterRead(now: int) returns (kept: map<string, Record>)
      requires Valid()
      ensures forall k :: k in kept ==> Has(kept[k])
      ensures Ids(kept) == Snapshot(Abs(), now).snap.value
    {
      kept := map[];
      var todo := nodes.Keys;
      while todo != {}
        invariant todo <= nodes.Keys
        invariant forall k :: k in kept <==> k in nodes && k !in todo && Kept(nodes[k].Abs(), now)
        invariant forall k :: k in kept ==> kept[k] == nodes[k]
      {
        var k :| k in todo;
        if nodes[k].Abs().IsValid(now) || nodes[k].isLocal {
          kept := kept[k := nodes[k]];
        }
        todo := todo - {k};
      }
    }

    /** The swap under the write lock: whatever happened since the read, the table is what was read. */
    method FilterWrite(kept: map<string, Record>)
      requires Valid() && forall k :: k in kept ==> Has(kept[k])
      modifies this`nodes
      ensures Valid()
      ensures Abs() == old(Abs()).(main := Ids(kept))
    {
      nodes := kept;
    }

    method Filter(now: int)
      requires Valid()
      modifies this`nodes
      ensures Valid()
      ensures Abs() == NodeTable.Filter(old(Abs()), now)
    {
      var kept := FilterRead(now);
      FilterWrite(kept);
    }
  }

  lemma {:induction false} AddRemotesAppend(st: EndNode, order: seq<string>, key: string, nodes: map<string, Meta>,
      now: int)
    requires st.Ranged() && key in nodes && forall k :: k in order ==> k in nodes
    ensures AddRemotes(st, order + [key], nodes, now)
        == AddRemote(AddRemotes(st, order, nodes, now), key, nodes[key], now)
    decreases |order|
  {
    if order == [] {
      assert order + [key] == [key];
    } else {
      assert (order + [key])[1..] == order[1..] + [key];
      AddRemotesAppend(AddRemote(st, order[0], nodes[order[0]], now), order[1..], key, nodes, now);
    }
  }
}
