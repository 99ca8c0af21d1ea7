/** The centre node: one table of nodes per cluster, updated by heartbeats and swept periodically. */
module CenterNodeServer {
  import opened NodeTable
  import opened ClusterSystem

  class Center {
    var clusters: Hub

    constructor ()
      ensures clusters == map[]
    {
      clusters := map[];
    }

    method HeartBeat(m: Meta, now: int) returns (rsp: HeartbeatRsp)
      modifies this
      ensures (clusters, rsp) == HubHeartBeat(old(clusters), m, now)
    {
      if !(m.host != "" && m.port > 1000 && m.cluster != "" && m.name != "") {
        return HeartbeatRsp(500, map[]);
      }
      var node := Entry(m, "", "", now, 0, now, false);
      if m.cluster !in clusters {
        clusters := clusters[m.cluster := map[m.name := node]];
        return HeartbeatRsp(0, map[]);
      }
      var t := clusters[m.cluster];
      if m.name in t {
        t := t[m.name := t[m.name].(getTime := now)];
      } else {
        t := t[m.name := node];
      }
      clusters := clusters[m.cluster := t];
      rsp := HeartbeatRsp(0, map k | k in t && t[k].IsValid(now) :: t[k].meta);
    }

    method Filter(now: int)
      modifies this
      ensures clusters == HubFiltered(old(clusters), now)
    {
      var todo := clusters.Keys;
      while todo != {}
        invariant todo <= old(clusters).Keys && clusters.Keys == old(clusters).Keys
        invariant forall c :: c in clusters ==>
                    clusters[c] == if c in todo then old(clusters)[c] else HubFiltered(old(clusters), now)[c]
      {
        var c :| c in todo;
        var t := clusters[c];
        clusters := clusters[c := map k | k in t && t[k].IsValid(now) :: t[k]];
        todo := todo - {c};
      }
    }
  }
}
