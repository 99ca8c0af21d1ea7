/**
 The handlers of an end node in terms of what a peer observes and what the tables hold
 afterwards, case by case, with the timestamps and codes written out.
 */
module NodeOutcomes {
  import opened Common
  import opened NodeTable
  import opened NodeSafety

  /** One of the three timestamps is later than 60 seconds ago. */
  ghost predicate Recent(e: Entry, now: int) {
    e.getTime > now - 60 || e.reportTime > now - 60 || e.createTime > now - 60
  }

  lemma ValidIsRecent(e: Entry, now: int)
    requires e.InTime()
    ensures e.IsValid(now) <==> Recent(e, now)
    ensures e.RegisteredLocal(now) <==> e.inToken != "" && e.getTime > now - 60
    ensures e.RegisteredRemote(now) <==> e.outToken != "" && e.reportTime > now - 60
  {
  }

  /** The two tables agree on all names but one. */
  ghost predicate OnlyName(st: EndNode, st': EndNode, name: string)
    requires st.Ranged() && st'.Ranged()
  {
    && (forall k :: k != name ==> (k in st'.main <==> k in st.main))
    && (forall k :: k != name && k in st.main ==> st'.At(k) == st.At(k))
    && (forall k :: k != name ==> (k in st'.wrong <==> k in st.wrong))
  }

  // ---------------------------------------------------------------- registration

  /** What the node that asks to register is found to be. */
  datatype Finding = Unreachable | Myself | Foreign | Namesake | Registered | Accepted

  ghost function Found(st: EndNode, node: Meta, token: string, now: int): Finding
    requires st.Ranged()
  {
    if node.host == "" || node.port <= 0 then Unreachable
    else if node.name == st.me.name then Myself
    else if node.cluster != st.me.cluster || token != st.clusterToken then Foreign
    else if node.name !in st.main then Accepted
    else if st.At(node.name).meta != node then Namesake
    else if st.At(node.name).inToken != "" && st.At(node.name).getTime > now - 60 then Registered
    else Accepted
  }

  /** Every finding has its code and its token. */
  lemma RegisterReplies(st: EndNode, node: Meta, token: string, now: int, uuid: string)
    requires Good(st)
    ensures var rsp := RegisterNode(st, node, token, now, uuid).1;
            match Found(st, node, token, now)
            case Unreachable => rsp.code == 100 && rsp.data == ""
            case Myself => rsp.code == 103 && rsp.data == ""
            case Foreign => rsp.code == 101 && rsp.data == ""
            case Namesake => rsp.code == 105 && rsp.data == ""
            case Registered => rsp.code == 102 && rsp.data == st.At(node.name).inToken
            case Accepted => rsp.code == 0 && rsp.data == uuid
  {
    if node.name in st.main { ValidIsRecent(st.At(node.name), now); }
  }

  /** And leaves the tables so; nobody else's entry is touched. */
  lemma RegisterLeaves(st: EndNode, node: Meta, token: string, now: int, uuid: string)
    requires Good(st)
    ensures var (st', rsp) := RegisterNode(st, node, token, now, uuid);
            var f, k := Found(st, node, token, now), node.name;
            && OnlyName(st, st', k)
            && (f.Unreachable? || f.Myself? ==> st' == st)
            && (f.Foreign? ==>
                  && (k in st'.main <==> k in st.main) && (k in st.main ==> st'.At(k) == st.At(k))
                  && k in st'.wrong && st'.objs[st'.wrong[k]] == Entry(node, "", "", 0, 0, now, false))
            && (f.Namesake? ==> st'.At(k) == st.At(k))
            && (f.Namesake? || f.Registered? || f.Accepted? ==> k !in st'.wrong && k in st'.main)
            && (f.Registered? || f.Accepted? ==>
                  st'.At(k) == if k in st.main then st.At(k).(inToken := rsp.data, getTime := now)
                               else Entry(node, rsp.data, "", now, 0, now, false))
  {
    if node.name in st.main { ValidIsRecent(st.At(node.name), now); }
    RegisterOthers(st, node, token, now, uuid);
  }

  lemma RegisterOthers(st: EndNode, node: Meta, token: string, now: int, uuid: string)
    requires st.Ranged() && Named(st)
    ensures OnlyName(st, RegisterNode(st, node, token, now, uuid).0, node.name)
  {
    hide Named, OnlyName;
    var k := node.name;
    SameOthers(st, k);
    InsertOthers(st, Entry(node, uuid, "", now, 0, now, false));
    InsertWrongOthers(st, Entry(node, "", "", 0, 0, now, false));
    if k in st.main {
      PutOthers(st, k, st.At(k).(getTime := now));
      PutOthers(st, k, st.At(k).(inToken := uuid, getTime := now));
    }
  }

  lemma SameOthers(st: EndNode, k: string)
    requires st.Ranged()
    ensures OnlyName(st, st, k) && OnlyName(st, st.(wrong := st.wrong - {k}), k)
  {
  }

  lemma InsertOthers(st: EndNode, e: Entry)
    requires st.Ranged()
    ensures OnlyName(st, st.(wrong := st.wrong - {e.meta.name}).Insert(e), e.meta.name)
  {
  }

  lemma InsertWrongOthers(st: EndNode, e: Entry)
    requires st.Ranged()
    ensures OnlyName(st, st.InsertWrong(e), e.meta.name)
  {
  }

  lemma PutOthers(st: EndNode, k: string, e: Entry)
    requires st.Ranged() && Named(st) && k in st.main
    ensures OnlyName(st, st.(wrong := st.wrong - {k}).Put(st.main[k], e), k)
  {
    assert forall j :: j in st.main && j != k ==> st.main[j] != st.main[k];
  }

  // ---------------------------------------------------------------- heartbeats

  /** The caller is known under its metadata with this token, and not timed out. */
  ghost predicate Current(st: EndNode, node: Meta, token: string, now: int)
    requires st.Ranged()
  {
    && node.name in st.main && st.At(node.name).meta == node && st.At(node.name).inToken == token
    && (st.At(node.name).getTime == 0 || st.At(node.name).getTime >= now - 60)
  }

  /** Which heartbeats are accepted, and that only the caller's time changes. */
  lemma HeartbeatAccepted(st: EndNode, node: Meta, token: string, now: int)
    requires Good(st)
    ensures var (st', rsp) := ServeHeartbeat(st, node, token, now);
            && (rsp.code == 400 <==> !Current(st, node, token, now) && token != st.localToken)
            && (rsp.code == 104 <==> token == st.localToken && node.name !in st.main)
            && (rsp.code == 0 || rsp.code == 104 || rsp.code == 400)
            && OnlyName(st, st', node.name) && st'.wrong == st.wrong && st'.main == st.main
            && (node.name in st.main ==>
                  st'.At(node.name) == if Current(st, node, token, now) then st.At(node.name).(getTime := now)
                      else st.At(node.name))
  {
    if node.name in st.main { assert st.At(node.name).InTime(); }
    assert forall k :: k in st.main ==> st.At(k).meta.name == k;
  }

  /** An accepted heartbeat is answered with exactly the other nodes that have a recent timestamp. */
  lemma ReplyExactly(st: EndNode, node: Meta, token: string, now: int)
    requires Good(st) && 0 <= now <= LAST_TIME && ServeHeartbeat(st, node, token, now).1.code == 0
    ensures var (st', rsp) := ServeHeartbeat(st, node, token, now);
            && (forall k :: k in rsp.nodes <==> k in st'.main && k != st.me.name && Recent(st'.At(k), now))
            && (forall k :: k in rsp.nodes ==> rsp.nodes[k] == st'.At(k).meta)
  {
    var st' := ServeHeartbeat(st, node, token, now).0;
    forall k | k in st'.main ensures st'.At(k).InTime() && st'.At(k).meta.name == k && st'.me == st.me {
      assert st.At(k).InTime() && st.At(k).meta.name == k;
    }
    forall k | k in st'.main ensures st'.At(k).IsValid(now) <==> Recent(st'.At(k), now) {
      ValidIsRecent(st'.At(k), now);
    }
  }

  // ---------------------------------------------------------------- learning

  lemma {:induction false} AddRemotesExactly(st: EndNode, order: seq<string>, nodes: map<string, Meta>, now: int)
    requires st.Ranged() && forall k :: k in order ==> k in nodes && nodes[k].name == k
    ensures var st' := AddRemotes(st, order, nodes, now);
            && st'.wrong == st.wrong && st'.me == st.me
            && forall k :: k in st'.main <==> k in st.main || (k in order && k != st.me.name && k !in st.wrong)
    decreases |order|
  {
    if order != [] {
      var st1 := AddRemote(st, order[0], nodes[order[0]], now);
      AddRemotesExactly(st1, order[1..], nodes, now);
      assert order == [order[0]] + order[1..];
    }
  }

  /**
   After an accepted heartbeat the sender's table holds, besides what it held, exactly the listed nodes that are
   not itself and not on its wrong-node list, new ones without tokens.
   */
  lemma LearnsExactly(st: EndNode, i: nat, rsp: HeartbeatRsp, order: seq<string>, now: int)
    requires st.Ranged() && i < |st.objs| && rsp.code == 0 && Orders(order, rsp.nodes.Keys)
    requires forall k :: k in rsp.nodes ==> rsp.nodes[k].name == k
    ensures var st' := FinishHeartbeat(st, i, Got(rsp), order, now);
            && (forall k :: k in st'.main <==>
                  k in st.main || (k in rsp.nodes && k != st.me.name && k !in st.wrong))
            && (forall k :: k in st'.main && k !in st.main ==>
                st'.At(k) == Entry(rsp.nodes[k], "", "", 0, 0, now, false))
            && (forall k :: k in st.main && st.main[k] != i ==> st'.At(k) == st.At(k))
            && st'.wrong == st.wrong && i < |st'.objs| && st'.objs[i] == st.objs[i].(reportTime := now)
  {
    var st1 := st.Put(i, st.objs[i].(reportTime := now));
    AddRemotesExactly(st1, order, rsp.nodes, now);
    AddRemotesKeeps(st1, order, rsp.nodes, now);
  }

  /**
   A heartbeat that fails, by a lost reply or by any code, costs the sender its token there and nothing else; so
   its next contact with that peer registers anew.  Only a reply counts as a report.
   */
  lemma FailedHeartbeat(st: EndNode, k: string, reply: Reply<HeartbeatRsp>, order: seq<string>, now: int, later: int)
    requires Good(st) && k in st.main && (reply.Got? ==> reply.rsp.code != 0)
    requires reply.Got? ==> forall j :: j in order ==> j in reply.rsp.nodes
    ensures var st' := FinishHeartbeat(st, st.main[k], reply, order, now);
            && st'.main == st.main && st'.wrong == st.wrong && OnlyName(st, st', k)
            && st'.At(k) == st.At(k).(outToken := "", reportTime := if reply.Got? then now else st.At(k).reportTime)
            && !st'.At(k).RegisteredRemote(later)
  {
    assert forall j :: j in st.main ==> st.At(j).meta.name == j;
  }

  // ---------------------------------------------------------------- the client's side of a registration

  /**
   A refused peer that is not configured leaves the table for the wrong-node list; every other one stays.  A lost
   reply changes nothing.
   */
  lemma RefusedIsListed(st: EndNode, k: string, rsp: RegisterRsp, now: int)
    requires Good(st) && k in st.main
    ensures FinishRegister(st, st.main[k], Lost, now) == st
    ensures var st' := FinishRegister(st, st.main[k], Got(rsp), now);
            var refused := rsp.code > 0 && rsp.code != 102 && !st.At(k).isLocal;
            && (k in st'.main <==> !refused)
            && (refused ==> k in st'.wrong && st'.wrong[k] == st.main[k])
            && (!refused ==> st'.wrong == st.wrong)
            && OnlyName(st, st', k)
            && st'.objs[st.main[k]] ==
               if rsp.data == "" then st.At(k) else st.At(k).(outToken := rsp.data, reportTime := now)
  {
    assert forall j :: j in st.main ==> st.At(j).meta.name == j;
  }

  /** A name on the wrong-node list is not learned again, whoever tells of it. */
  lemma ListedIsNotLearned(st: EndNode, order: seq<string>, nodes: map<string, Meta>, now: int, k: string)
    requires st.Ranged() && k in st.wrong && k !in st.main
    requires forall k :: k in order ==> k in nodes && nodes[k].name == k
    ensures k !in AddRemotes(st, order, nodes, now).main
  {
    AddRemotesExactly(st, order, nodes, now);
  }

  /** The wrong-node list forgets exactly the entries made 60 seconds ago or earlier. */
  lemma WrongForgottenExactly(st: EndNode, now: int)
    requires Good(st)
    ensures var st' := FilterWrong(st, now);
            && (forall k :: k in st'.wrong <==> k in st.wrong && st.objs[st.wrong[k]].createTime > now - 60)
            && (forall k :: k in st'.wrong ==> st'.wrong[k] == st.wrong[k])
            && st'.main == st.main && st'.objs == st.objs
  {
    assert forall k :: k in st.wrong ==> st.objs[st.wrong[k]].InTime();
  }

  /** A round keeps configured nodes valid, whatever their times, and touches no other. */
  lemma TouchedIsValid(st: EndNode, i: nat, now: int)
    requires st.Ranged() && i < |st.objs| && 0 <= now <= LAST_TIME
    ensures var st' := Touch(st, i, now);
            && (st.objs[i].isLocal ==> st'.objs[i] == st.objs[i].(reportTime := now) && st'.objs[i].IsValid(now))
            && (!st.objs[i].isLocal ==> st' == st)
            && st'.main == st.main && st'.wrong == st.wrong
            && forall j :: 0 <= j < |st.objs| && j != i ==> st'.objs[j] == st.objs[j]
  {
  }

  // ---------------------------------------------------------------- start-up

  /** A configured node that is taken: reachable on a port above 1000, and another than this one. */
  ghost predicate Usable(me: Meta, n: StaticNode) {
    n.host != "" && n.host != me.host && n.port > 1000 && n.name != me.name
  }

  ghost function Configured(me: Meta, n: StaticNode, now: int): Entry {
    Entry(Meta(n.name, n.host, n.port, me.cluster), "", "", 0, 0, now, true)
  }

  /** Some usable node of the list has this name. */
  ghost predicate Offers(me: Meta, list: seq<StaticNode>, k: string) {
    exists i :: 0 <= i < |list| && Usable(me, list[i]) && list[i].name == k
  }

  lemma OffersFirst(me: Meta, list: seq<StaticNode>, k: string)
    requires list != []
    ensures Offers(me, list, k) <==> (Usable(me, list[0]) && list[0].name == k) || Offers(me, list[1..], k)
  {
    if Offers(me, list[1..], k) {
      var i :| 0 <= i < |list[1..]| && Usable(me, list[1..][i]) && list[1..][i].name == k;
      assert list[i + 1] == list[1..][i];
    }
    if Offers(me, list, k) && !(Usable(me, list[0]) && list[0].name == k) {
      var i :| 0 <= i < |list| && Usable(me, list[i]) && list[i].name == k;
      assert list[1..][i - 1] == list[i];
    }
  }

  /** Loading adds exactly the usable nodes; of several with one name the last one counts. */
  lemma {:induction false} LoadStaticExactly(st: EndNode, list: seq<StaticNode>, now: int)
    requires st.Ranged()
    ensures var st' := LoadStatic(st, list, now);
            && st'.me == st.me && st'.wrong == st.wrong
            && (forall k :: k in st'.main <==> k in st.main || Offers(st.me, list, k))
            && (forall k :: k in st.main && !Offers(st.me, list, k) ==> st'.At(k) == st.At(k))
            && (forall i :: 0 <= i < |list| && Usable(st.me, list[i]) && !Offers(st.me, list[i + 1..], list[i].name) ==>
                  st'.At(list[i].name) == Configured(st.me, list[i], now))
    decreases |list|
  {
    if list != [] {
      var n := list[0];
      var st1 := if n.IsValid(st.me) then st.Insert(Configured(st.me, n, now)) else st;
      LoadStaticExactly(st1, list[1..], now);
      forall k: string { OffersFirst(st.me, list, k); }
      LoadStaticLast(st, st1, list, now);
    }
  }

  lemma LoadStaticLast(st: EndNode, st1: EndNode, list: seq<StaticNode>, now: int)
    requires st.Ranged() && list != []
    requires st1 == if list[0].IsValid(st.me) then st.Insert(Configured(st.me, list[0], now)) else st
    requires var rest, st' := list[1..], LoadStatic(st1, list[1..], now);
             && (forall k :: k in st'.main <==> k in st1.main || Offers(st.me, rest, k))
             && (forall k :: k in st1.main && !Offers(st.me, rest, k) ==> st'.At(k) == st1.At(k))
             && (forall i ::
                   0 <= i < |rest| && Usable(st.me, rest[i]) && !Offers(st.me, rest[i + 1..], rest[i].name) ==>
                   rest[i].name in st'.main && st'.At(rest[i].name) == Configured(st.me, rest[i], now))
    ensures var st' := LoadStatic(st, list, now);
            forall i :: 0 <= i < |list| && Usable(st.me, list[i]) && !Offers(st.me, list[i + 1..], list[i].name) ==>
              list[i].name in st'.main && st'.At(list[i].name) == Configured(st.me, list[i], now)
  {
    var rest, st' := list[1..], LoadStatic(st1, list[1..], now);
    assert st' == LoadStatic(st, list, now);
    hide Offers, LoadStatic;
    forall i | 0 <= i < |list| && Usable(st.me, list[i]) && !Offers(st.me, list[i + 1..], list[i].name)
      ensures list[i].name in st'.main && st'.At(list[i].name) == Configured(st.me, list[i], now)
    {
      if i > 0 {
        assert rest[i - 1] == list[i] && rest[i - 1 + 1..] == list[i + 1..];
      }
    }
  }
}
