# v2raymg: a verified model

v2raymg runs a cluster of proxy nodes.  Each end node keeps a table of its peers, registers with them,
exchanges heartbeats and gossip, and manages the inbounds, ports, users and statistics of the proxy
beside it.  This project models that bookkeeping in Dafny and proves what it keeps over time, over
failures and across peers.

`dafny verify dfyconfig.toml` checks the whole project.

## How it is organised

Each part has a specification on values (functions and transition systems, with the theorems about whole
runs) and, where the source updates things in place, classes and loops proved to do what the functions say.

| part | files |
|---|---|
| cluster membership | `NodeTable` (records, tables, handlers), `NodeSafety` (what each handler keeps), `ClusterSystem` (any number of nodes, a centre, a clock, lost messages), `MembershipSafety`, `Provenance`, `Reputation`, `Convergence`, `FirstMeeting`, `NodeOutcomes` (each handler case by case, as a peer sees it), `Gossip` (what one contact spreads, and the centre); in place: `EndNodeServer`, `CenterNodeServer` |
| inbounds and ports | `Inbounds`, `Adaptive`, `AdaptiveManager`; in place: `ProxyManager`, `Adaptive.Pool`, `AdaptiveManager.Mover` |
| users | `UserIndex`, `UserSafety`, `UserPlaces` (one user at one tag), `UserReset`, `UserRuns`, `UserOrphans`, `UserStore`, `InboundUsers`; in place: `UserManager` |
| encryption of messages | `Codec` |
| requests to many nodes | `FanOut`, `FanOutSafety` |
| ping statistics | `PingStats`, `PingResult` |
| traffic statistics | `Traffic` |
| shared | `Common` |
| subscriptions and links | `Text`, `Base64` (with `Subscription`), `ShareUri` |

Clocks, random choices, the order in which Go visits a map, lost requests and replies, and the answers of the
proxy runtime are parameters or nondeterministic choices, so every theorem holds for all of them.

## Where the code does less than it says

- The comment on `AdaptiveOneInbound` says that ports are drawn with replacement.  The call that should give a port
  back passes a `uint32`, a type `AddPort` passes over, so each move takes a port out of the pool for good
  (`AdaptiveManager.MovesDrainPool`; the pool is as before exactly when the move fails, by
  `AdaptiveManager.AdaptiveOutcomes`).  The port it passes is the inbound's new one: were the call honoured, it would
  put back the port just taken and not the one that became free (`AdaptiveManager.HonouredPutsBack`).
- `TransferInbound` compares the ports after it has deleted the inbound, so a transfer to the present port
  removes it (`Inbounds.SamePortRemoves`; exactly which transfers lose the inbound, in `Inbounds.TransferOutcomes`).
- A removal that takes effect in the runtime and is answered with an error leaves an inbound in both maps that is no
  longer live (`Inbounds.HalfRemovedBreaks`; exactly when, in `Inbounds.ConsistentIff` and over whole runs in
  `Inbounds.DeadIffCutOff`).
- The same for a user makes him an orphan, listed and recorded where the runtime does not know him, and a later
  addition repeats him in the list and in his record (`UserRuns.LostRemovalRepeats`).  A reset whose addition is
  refused does so too, without any lost reply (`UserOrphans.ResetRepeats`).  Exactly when anything is ever repeated in
  a run is said from the answers in `UserOrphans.TagsOnceIff`; with a runtime that only does or refuses what it is
  asked, and resets that are not left half done, nothing is (`UserOrphans.PlainRun`).
- A reset that removes a user and cannot add him again leaves his tag recorded
  (`UserReset.ResetMayBreak`; exactly when, in `UserReset.ResetKeepsIff` and over whole runs in
  `UserRuns.TagsAlwaysReal`).
- `GetStDev` returns the variance (`PingStats.StDevIsNotRoot`), which is the standard deviation exactly when it is
  zero or one (`PingStats.StDevIffRoot`), and zero exactly when all positive delays are equal
  (`PingStats.ZeroVariance`).
- A `Filter` reads the table under one lock and replaces it under another.  Whatever happens in between, the table is
  afterwards what survived at the read, with the meanings of the read (`MembershipSafety.SwapRestores`): a registration
  in between is kept exactly when the node was there and survived the read (`MembershipSafety.GapKeepsIff`), so
  newcomers and nodes that come back are lost (`MembershipSafety.GapLosesNewcomers`), and a name that changes hands
  changes back (`MembershipSafety.GapRevertsNames`; exactly when, in `MembershipSafety.SwapMeansIff`).
- Deleting an inbound leaves the users recorded at it with a tag that names nothing
  (`InboundUsers.DeleteMayLeaveTag`; exactly when, in `InboundUsers.DeleteLeavesTag` and
  `InboundUsers.TransferLeavesTag`).
- The unpadding of a decrypted message looks at one byte only (`Codec.BadPaddingAccepted`); `Codec.EncryptDecrypt`
  says exactly which data it accepts that encryption would not have produced.
- `fixUri` is meant to remove doubled separators; of three or four in a row it leaves two (`ShareUri.FixHalves`), which a
  reader of the query passes over (`ShareUri.FixKeepsPieces`).
- An addition for which neither the request nor the configuration names a tag stores a user without tags and reports
  success (`UserRuns.AddNowhere`).
- A short and a long token may give the same key (`Codec.ShortAndLong`; exactly when, in `Codec.SameKey`).

## Model

| member | source | states |
|---|---|---|
| `Convergence.TwoContactsAgree` | server/rpc/end_node_server.go:174-293 | from any reachable tables of two nodes that share cluster name and token, two completed contacts from b to a less than 60 s apart, with any calm events of any nodes in between, leave b's OutToken for a equal to a's non-empty InToken for b, both refreshed now, with RegisteredRemote and RegisteredLocal true |
| `FirstMeeting.MeetAndAgree` | server/rpc/end_node_server.go:1093-1128 | two nodes of one cluster that are started from nothing, one with the other in its configuration, satisfy all premises of TwoContactsAgree, can make the two contacts and agree |
| `Convergence.AgreementPersists` | server/rpc/end_node_server.go:1043-1090 | as long as no contact from b to a fails and each comes less than 60 s after the one before, token agreement and both registrations last through every other event, Filters included |
| `Convergence.SettlingRun` | server/rpc/end_node_server.go:986-1041 | after one completed contact, for less than 60 s and whatever else happens, b either holds the token a expects or holds none and will register again |
| `Convergence.DeliveredContact` | server/rpc/end_node_server.go:1093-1128 | what one completed contact does to the pair: a registration makes them agree, a heartbeat makes them agree or makes b give its token up |
| `Convergence.SecondContact` | server/rpc/end_node_server.go:986-1090 | a completed contact of a pair that was in touch less than 60 s ago makes them agree |
| `Convergence.HoldsStep` | cluster/cluster.go:89-107 | no calm event of any node disturbs a pair that agrees, except a failed contact from b to a |
| `Reputation.KnownStep` | server/rpc/end_node_server.go:230-290 | if everybody in a cluster who knows a name means the same host, port and cluster, no event changes that while nobody else is started under the name |
| `MembershipSafety.ClustersNeverMix` | server/rpc/end_node_server.go:204-223 | in every state reachable by any number of nodes and any order of events, interrupted Filters and lost messages included, every entry of a main table carries the node's own cluster name, every entry of a centre table carries that table's, and every key is the name inside its entry |
| `MembershipSafety.OwnEntryLives` | global/cluster/cluster.go:36-50 | in every reachable state a node's own entry is present, valid and RegisteredRemote, and no timestamp test wraps around in 64 bits |
| `MembershipSafety.PinnedForever` | cluster/node_manager.go:130-151 | along every run the own entry and the entries of the configuration file are never dropped or replaced |
| `MembershipSafety.NamesKeepTheirMeaning` | server/rpc/end_node_server.go:1165-1199 | along every run, host, port and cluster stored under a name do not change while the name stays in the table, interrupted Filters included |
| `Provenance.TokensWereGranted` | server/rpc/end_node_server.go:230-290 | in every reachable state every non-empty InToken held for a peer was given by this node to exactly that metadata, and every non-empty OutToken was given to this node by the node at the peer's address; only the own entry holds the local token |
| `Provenance.CallsThatPass` | cluster/cluster.go:89-107 | in every reachable state a call passes if and only if it carries the local token, or the current token that was given to exactly this caller, or no token while the caller is known and none is expected of him, the last two not timed out |
| `FirstMeeting.HeardOfPasses` | server/rpc/center_node_server.go:54-90 | a reachable run in which this last case occurs: two started nodes report to the centre, the second has then only heard of the first, and a call of the first without a token passes there |
| `Gossip.GossipReaches` | server/rpc/end_node_server.go:1043-1090 | in every state of the invariant, after an accepted heartbeat from b to a, b holds every peer that a holds under another name than a's with a timestamp later than 60 s ago, unless it is b itself or on b's wrong-node list; with the metadata a has, where b did not know the name |
| `Provenance.TokensIdentifyGrants` | server/rpc/end_node_server.go:204-290 | in every run a token identifies its issuer and its grantee, and every grantee is a node that presented the issuer's cluster name and cluster token |
| `Provenance.StepTraced` | server/rpc/end_node_server.go:986-1041 | every event keeps each token traced to an accepted registration |
| `MembershipSafety.SurvivesFilterExactly` | server/rpc/end_node_server.go:1213-1225 | an entry survives a Filter at time t if and only if it is configured or one of its three timestamps is later than t - 60 |
| `MembershipSafety.SwapRestores` | cluster/node_manager.go:130-151 | for every run between the two halves of a Filter, the table is afterwards exactly the entries that survived at the read, with the metadata they had then |
| `MembershipSafety.GapKeepsIff` | cluster/node_manager.go:132-150 | a registration answered 0 or 102 between the two halves is kept if and only if the node was in the table at the read and survived it; an uninterrupted Filter always keeps it |
| `MembershipSafety.GapLosesNewcomers` | cluster/node_manager.go:132-150 | a node that was not in the table, or was stale at the read, and registers between the two halves is lost, while an uninterrupted Filter keeps it |
| `MembershipSafety.SwapMeansIff` | cluster/node_manager.go:148-150 | the second half changes the metadata under a name that stays if and only if the first half had read other metadata under it |
| `MembershipSafety.GapRevertsNames` | cluster/node_manager.go:132-150 | a name given up and taken by another node between the two halves of a Filter gets its old meaning back |
| `ClusterSystem.StepSafe` | server/rpc/end_node_server.go:295-314 | every event of the system keeps the invariant of all nodes and of the centre, keeps every record's metadata and keeps the pinned entries in place |
| `ClusterSystem.RunSafe` | server/rpc/end_node_server.go:1201-1211 | every run keeps the invariant |
| `ClusterSystem.HeartbeatKin` | server/rpc/end_node_server.go:295-314 | a peer that accepts a node's heartbeat is in the node's cluster, and so is every node it hands on, each under its own name |
| `ClusterSystem.HubHeartBeatSorted` | server/rpc/center_node_server.go:54-90 | a heartbeat keeps the centre's tables sorted by cluster and name, and its reply holds only nodes of the sender's cluster |
| `Gossip.HubTakes` | server/rpc/center_node_server.go:27-92 | the centre answers an incomplete node 500 and keeps nothing of it; else it refreshes the time of a known node or enters a new one, and every other entry and cluster is as before |
| `Gossip.HubReplies` | server/rpc/center_node_server.go:54-90 | the reply holds k, with its metadata, if and only if k is then in the cluster's table with a timestamp later than 60 s ago; the first node of a cluster gets an empty one |
| `Gossip.HubForgets` | cluster/cluster_manager.go:90-98 | the centre's Filter keeps every cluster and, in it, exactly the entries with a timestamp later than 60 s ago, unchanged |
| `Gossip.HubTimesRun` | server/rpc/center_node_server.go:54-90 | along every run the centre's timestamps stay where no test wraps around, which the two statements before need |
| `NodeSafety.SafeRegister` | server/rpc/end_node_server.go:174-293 | serving a registration keeps names, clusters, pinned entries, timestamps and the secrecy of the local token |
| `NodeSafety.SafeAuthenticate` | cluster/cluster.go:89-107 | so does the token check |
| `NodeSafety.SafeHeartbeat` | server/rpc/end_node_server.go:295-314 | a heartbeat accepted with a token other than the local one comes from a node of the same cluster, and the reply lists only that cluster under true names |
| `NodeSafety.SafeFinishRegister` | server/rpc/end_node_server.go:986-1041 | so does the client's half of a registration, with its move to the wrong-node list |
| `NodeSafety.SafeFinishHeartbeat` | server/rpc/end_node_server.go:1043-1090 | so does the client's half of a heartbeat, with the learning of peers |
| `NodeSafety.AddRemotesKeeps` | server/rpc/end_node_server.go:1165-1199 | learning peers changes no record and no entry that is there, and the new entries are those of the reply, without tokens |
| `NodeSafety.BootSound` | global/cluster/cluster.go:26-50 | a started node is in good order, whatever its configuration lists |
| `NodeOutcomes.RegisterReplies` | server/rpc/end_node_server.go:174-293 | the code and the token a registration is answered with, for every request: 100, 103, 101, 105, 102 with the present token, or 0 with a new one |
| `NodeOutcomes.RegisterLeaves` | server/rpc/end_node_server.go:174-293 | the entry and the place in the wrong-node list that the caller has afterwards, case by case; nobody else is touched |
| `NodeOutcomes.HeartbeatAccepted` | server/rpc/end_node_server.go:100-126 | a heartbeat is refused with 400 if and only if the caller is not known under this metadata and token with a heartbeat at most 60 s ago, or none yet, and the token is not the local one; 104 exactly for an unknown caller with the local token; only an accepted caller's time changes |
| `NodeOutcomes.ReplyExactly` | server/rpc/end_node_server.go:308-312 | an accepted heartbeat is answered with k, and k's metadata, if and only if k is in the main table after the call, is not the node itself, and has one of its three timestamps later than 60 s ago |
| `NodeOutcomes.LearnsExactly` | server/rpc/end_node_server.go:1165-1199 | after an accepted heartbeat the sender holds exactly what it held and the listed names that are not its own and not on its wrong-node list; what it held is as before, the rest is new, without tokens, made now |
| `NodeOutcomes.FailedHeartbeat` | server/rpc/end_node_server.go:1067-1089 | a heartbeat that fails, by a lost reply or any code, leaves the tables as they are and costs the sender its token there, so that it registers at the next contact; only a reply counts as a report |
| `NodeOutcomes.RefusedIsListed` | server/rpc/end_node_server.go:1006-1040 | a peer leaves the main table for the wrong-node list if and only if it answers a registration with a code above 0 other than 102 and is not configured; its record gets the token of the reply, if there is one; a lost reply changes nothing |
| `NodeOutcomes.ListedIsNotLearned` | server/rpc/end_node_server.go:1165-1199 | a name on the wrong-node list is not learned from any reply |
| `NodeOutcomes.WrongForgottenExactly` | cluster/cluster.go:155-161 | the wrong-node list keeps exactly the entries made less than 60 s ago |
| `NodeOutcomes.TouchedIsValid` | server/rpc/end_node_server.go:1093-1128 | before a contact a configured node gets the present time as its report time and is valid, whatever its times were; every other record is as before |
| `NodeOutcomes.LoadStaticExactly` | cluster/node_manager.go:59-95 | start-up adds exactly the configured nodes with a host other than its own, a port above 1000 and another name; of several with one name the last one counts |
| `EndNodeServer.Server.constructor` | global/cluster/cluster.go:36-50 | the object made at start-up is the specified one |
| `EndNodeServer.Server.LoadStaticNode` | cluster/node_manager.go:59-95 | the loop adds the valid configured nodes in order, later ones replacing earlier ones of the same name |
| `EndNodeServer.Server.RegisterNode` | server/rpc/end_node_server.go:174-293 | the in-place handler does what the function says, for every branch and reply code |
| `EndNodeServer.Server.Authenticate` | server/rpc/end_node_server.go:100-126 | the in-place token check updates the heartbeat time exactly when it succeeds on the node's own token |
| `EndNodeServer.Server.HeartBeat` | server/rpc/end_node_server.go:295-314 | the in-place handler refines the function, with its codes 0, 104 and 400; the reply is that of NodeOutcomes.ReplyExactly, and only the caller's heartbeat time changes |
| `EndNodeServer.Server.Prepare` | server/rpc/end_node_server.go:1095-1126 | what a round does to a record before it contacts the peer, and which call follows |
| `EndNodeServer.Server.FinishRegister` | server/rpc/end_node_server.go:1006-1040 | the in-place end of a registration refines the function, for lost and received replies |
| `EndNodeServer.Server.FinishHeartbeat` | server/rpc/end_node_server.go:1067-1089 | the in-place end of a heartbeat refines the function, for lost and received replies |
| `EndNodeServer.Server.AddRemoteNode` | server/rpc/end_node_server.go:1165-1199 | the loop over the reply refines the function for the order in which the map is visited |
| `EndNodeServer.Server.FilterRead` | cluster/node_manager.go:131-146 | the loop under the read lock collects exactly the surviving entries |
| `EndNodeServer.Server.FilterWrite` | cluster/node_manager.go:148-150 | the swap replaces the table by what was read |
| `EndNodeServer.Server.Filter` | cluster/node_manager.go:130-151 | both halves together are the uninterrupted Filter |
| `CenterNodeServer.Center.HeartBeat` | server/rpc/center_node_server.go:27-92 | the in-place handler of the centre refines the function |
| `CenterNodeServer.Center.Filter` | cluster/cluster_manager.go:90-98 | the loop over the clusters keeps exactly the valid nodes of each |
| `Inbounds.TransferOutcomes` | proxy/manager/proxy_manager.go:401-437 | a transfer to an in-range port succeeds if and only if the runtime lets go, the port is another and free and the runtime takes the inbound; then only that port changed; otherwise the maps are as before or only that inbound is gone, and exactly when which |
| `Inbounds.SamePortRemoves` | proxy/manager/proxy_manager.go:412-422 | a transfer to the present port removes the inbound |
| `Inbounds.TransferLeaves` | proxy/manager/proxy_manager.go:401-437 | a transfer touches no other tag in the runtime, and the configuration is to be written if and only if it was before or the transfer has deleted |
| `Inbounds.TransferRefused` | proxy/manager/proxy_manager.go:401-411 | for the api inbound, an unknown tag or a port outside 100..65535 nothing changes |
| `Inbounds.AddOutcomes` | proxy/manager/proxy_manager.go:141-168 | an addition succeeds if and only if the tag is not empty, not "api" and not managed, the port is in 100..65535 and free, and the runtime installs it; then the maps gain exactly this inbound; otherwise they are as before |
| `Inbounds.DeleteOutcomes` | proxy/manager/proxy_manager.go:171-189 | a deletion succeeds if and only if the tag is managed and not "api" and the runtime answers that it let go; then the maps lose exactly this inbound and its port; otherwise they are as before |
| `Inbounds.CopyOutcomes` | proxy/manager/proxy_manager.go:440-464 | a copy succeeds if and only if the source is managed and not "api", the new tag is not empty, not "api", not the source's and not managed, the port is in 100..65535 and free, and the runtime installs it; then the maps gain one inbound with both tags, port, protocol and settings as asked for and the rest of the source, and every other, the source included, is as before; otherwise the maps are |
| `Inbounds.EveryRunInOrder` | proxy/manager/inbound_manager.go:89-117 | over every run of add, delete, transfer and copy with any answers of the runtime, the port index is exactly the set of ports, ports are distinct, keys are both tags, and an initial api inbound stays as it is |
| `Inbounds.DeadIffCutOff` | proxy/manager/proxy_manager.go:171-189 | over every run from a consistent state, a managed tag is not live if and only if a removal of it ended half done and no later one was done |
| `Inbounds.EveryRunConsistent` | proxy/manager/proxy_manager.go:141-189 | so after a run every managed tag is live, besides all that is in order, if and only if no tag was cut off in it |
| `Inbounds.ConsistentIff` | proxy/manager/proxy_manager.go:178-181 | one operation keeps a consistent manager consistent if and only if its removal of a managed tag, if it has one, did not end half done |
| `Inbounds.StepKeeps` | proxy/manager/proxy_manager.go:401-437 | one operation with any answers keeps maps, tags and api inbound in order, and exactly which managed tags are not live afterwards; the cleaning removal inside a transfer never matters |
| `Inbounds.HalfRemovedBreaks` | proxy/manager/inbound_xray.go:57-73 | a removal whose reply is lost leaves the inbound in both maps and not live |
| `Inbounds.TransferKeeps` | proxy/manager/proxy_manager.go:401-437 | one transfer with any answers keeps maps, tags and api inbound in order, and which tags are not live depends on its first removal only |
| `Inbounds.AddKeeps` | proxy/manager/proxy_manager.go:141-168 | one addition keeps all in order and never cuts a managed tag off |
| `Inbounds.DeleteKeeps` | proxy/manager/proxy_manager.go:171-189 | one deletion keeps all in order; done it leaves the tag out of the maps, half done it leaves a managed tag there that is not live |
| `Inbounds.RefusedAddKeepsMaps` | proxy/manager/proxy_manager.go:141-168 | a refused addition leaves both maps as they were, though the tag may be live |
| `ProxyManager.Manager.Index` | proxy/manager/inbound_manager.go:89-106 | both maps gain the inbound, or neither changes |
| `ProxyManager.Manager.Unindex` | proxy/manager/inbound_manager.go:109-117 | both maps lose the inbound, or neither changes |
| `ProxyManager.Manager.AddInbound` | proxy/manager/proxy_manager.go:141-168 | the in-place addition refines the function for whatever the runtime answers |
| `ProxyManager.Manager.DeleteInbound` | proxy/manager/proxy_manager.go:171-189 | so does the deletion, for a removal that is done, denied, or done and answered with an error |
| `ProxyManager.Manager.TransferInbound` | proxy/manager/proxy_manager.go:401-437 | so does the transfer, which changes the port of the shared object and changes it back on failure |
| `ProxyManager.Manager.CopyInbound` | proxy/manager/proxy_manager.go:440-464 | so does the copy, which never touches its source; what it makes is said in Inbounds.CopyOutcomes |
| `Adaptive.Build` | proxy/manager/adaptive.go:96-128 | whatever order the map is visited in, the items are the texts of ascending, disjoint, maximal runs covering exactly the ports that lie before the last run, and with the artificial member they read back as exactly the real ports |
| `Adaptive.RunsUnique` | proxy/manager/adaptive.go:96-128 | a set of ports has one such list of runs only, so the result does not depend on the order |
| `Adaptive.BuildCovers` | proxy/manager/adaptive.go:43-44 | with the artificial member the runs cover exactly the real ports |
| `Adaptive.SentinelNeeded` | proxy/manager/adaptive.go:43-44 | they do so if and only if the artificial member is present or the pool is empty |
| `Adaptive.BuildReadsBack` | proxy/manager/adaptive.go:130-160 | reading the stored items back gives exactly the real ports |
| `Adaptive.ParsePrint` | proxy/manager/adaptive.go:130-160 | reading the text of one run, as text or as a number, adds that run |
| `Adaptive.RangeText` | proxy/manager/adaptive.go:130-160 | reading the text of any range succeeds and adds exactly its ports in 100..65535 |
| `Adaptive.PortText` | proxy/manager/adaptive.go:49-65 | a port, as text or as a floating-point number, is added if and only if it is in 100..65535, else it is an error; a 32-bit number is passed over without one |
| `Adaptive.UnreadableKeeps` | proxy/manager/adaptive.go:130-160 | a text that is refused changes nothing |
| `Adaptive.WithPort` | proxy/manager/adaptive.go:49-65 | whatever is added, the pool keeps what it has and gains only ports in 100..65535 |
| `Adaptive.ChosenIsReal` | proxy/manager/proxy_manager.go:625-648 | a random index chooses nothing if and only if it is the last one or the pool is too small for the tags; otherwise it chooses a member in 100..65535, never the artificial one |
| `Adaptive.EachPortOnce` | proxy/manager/proxy_manager.go:625-648 | in whatever order the pool is visited, each real port is chosen by exactly one random index |
| `Adaptive.Pool.constructor` | proxy/manager/adaptive.go:30-46 | the pool loaded at start-up is what its items say, with the artificial member |
| `Adaptive.Pool.AddPort` | proxy/manager/adaptive.go:49-65 | the in-place addition refines the function for texts, numbers and other values |
| `Adaptive.Pool.ParseStringPortRange` | proxy/manager/adaptive.go:130-160 | so does the reader of ranges, with its loop and its errors |
| `Adaptive.Pool.GetRandPort` | proxy/manager/proxy_manager.go:625-648 | the walk over the pool chooses as the function does, for some order of the pool |
| `AdaptiveManager.AdaptiveOutcomes` | proxy/manager/proxy_manager.go:657-675 | a move succeeds exactly when the transfer does; then the inbound has the port and the pool has not; otherwise the pool is as before and the maps are as TransferOutcomes says |
| `AdaptiveManager.NoPortNoChange` | proxy/manager/proxy_manager.go:401-407 | when no port was chosen, -1 as a 32-bit number is refused before anything changes |
| `AdaptiveManager.MovesDrainPool` | proxy/manager/proxy_manager.go:670-674 | over every run of moves with any answers, successes plus remaining ports is the initial number of ports, maps and pool stay in order, and the last success leaves at least two ports a tag less one |
| `AdaptiveManager.HonouredPutsBack` | proxy/manager/proxy_manager.go:672-673 | after a success the inbound's port is the one just taken, so a call of AddPort that was honoured would restore the pool of before |
| `AdaptiveManager.Mover.AdaptiveOneInbound` | proxy/manager/proxy_manager.go:657-675 | the in-place move refines one step of such a run, and hands the inbound's new port to AddPort |
| `UserRuns.TagsAlwaysReal` | cluster/user_manager.go:106-238 | over every run of Add, Delete, Update, Reset, ClearInvalideUser and start-up enrolment, with any answers at any tag, every recorded tag's inbound lists the user in every state if and only if every reset in the run spares its user |
| `UserRuns.TagsAlwaysOnce` | cluster/user_manager.go:180-188 | over every run with any answers, no tag is recorded twice and nobody listed twice in any state if and only if no event adds an orphan: a user listed or recorded at a tag where the runtime does not know him, at which the first addition not refused is done |
| `UserOrphans.TagsOnceIff` | cluster/user_manager.go:106-238 | in a run that begins without orphans that is so if and only if no event adds a user, by its answers, at a tag where earlier events made him an orphan, by theirs, and none since has mended it |
| `UserOrphans.OrphanIffMade` | proxy/manager/proxy_manager.go:285-370 | after a run the orphans are exactly those it made and did not mend |
| `UserOrphans.OrphanStep` | cluster/user_manager.go:106-308 | after one event the orphans are exactly those it makes and those it does not mend, both said from the answers at the tag |
| `UserOrphans.LossMakes` | proxy/manager/proxy_manager.go:324-334 | where tags are real and lists unique, a deletion or a clearing makes an orphan if and only if the first removal of a listed user that is not refused takes effect and is answered with an error |
| `UserOrphans.ResetMakes` | proxy/manager/proxy_manager.go:363-370 | there a reset of distinct tags makes one if and only if such a removal is lost, or is done and the addition of a recorded user refused |
| `UserOrphans.PlainRun` | cluster/user_manager.go:106-308 | without lost removals and half-done resets, every run from a sound state keeps every tag real and recorded once, every list unique and nobody an orphan, in every state |
| `UserOrphans.ResetRepeats` | proxy/manager/proxy_manager.go:363-370 | a reset whose addition is refused, and an addition after it, record the tag twice |
| `UserRuns.LostRemovalRepeats` | proxy/manager/proxy_manager.go:324-334 | a removal that takes effect and is answered with an error, and an addition after it, record the tag twice and list the user twice |
| `UserRuns.AddSucceedsIff` | proxy/manager/proxy_manager.go:285-295 | an addition succeeds at a tag if and only if its inbound supports users, the runtime lacks the user and the first answer there that is not a refusal is done |
| `UserRuns.StepKeeps` | cluster/user_manager.go:166-308 | one operation with any answers keeps recorded tags listed if and only if a reset spares its user, and tags and lists unique if and only if it adds no orphan |
| `UserRuns.TriedIsReported` | cluster/user_manager.go:106-154 | with a name, the tags reported as successes and as failures are together exactly the tags tried, without the empty one |
| `UserRuns.NamelessFails` | cluster/user_manager.go:113-124 | without a name every tag is reported as a failure and nothing is done |
| `UserRuns.AddExact` | cluster/user_manager.go:166-192 | Add is refused, with nothing done, for an empty name and for a new user without a password; a first Add stores name, password and expiry of the request with the tags that succeeded, a later one keeps password and expiry and appends these tags; nothing is stored when something failed and nothing succeeded; nobody else is touched; success is that no tag failed |
| `UserRuns.AddNowhere` | cluster/user_manager.go:106-138 | where neither request nor configuration names a tag, a new user is stored without tags and the request succeeds |
| `UserRuns.UpdateExact` | cluster/user_manager.go:241-258 | an update succeeds if and only if the password is not empty and the user exists; then password and expiry are the request's, name and tags are as before, and so is everybody else; inbounds and runtime never change |
| `UserRuns.ResetExact` | cluster/user_manager.go:261-265 | a reset visits the tags of the request, else the default ones, reports a failure at any of them and leaves all records alone |
| `UserRuns.DeleteRefused` | cluster/user_manager.go:195-205 | a deletion of nobody or of an unknown user fails and changes nothing |
| `UserSafety.AddTagsEffect` | cluster/user_manager.go:106-154 | an addition over any tags gains the user exactly the tags that succeeded, each once and each where the runtime lacked him; nobody else's membership changes; lists stay free of repetition if and only if none of these held him |
| `UserSafety.RemoveTagsEffect` | cluster/user_manager.go:106-154 | a removal, with any answers, loses the user at most the tags that succeeded, and exactly those where nobody is listed twice; nobody else's membership changes |
| `UserSafety.AddKeeps` | cluster/user_manager.go:166-192 | Add keeps recorded tags listed, errors and partial failures included, and tags and lists unique if and only if it succeeds at no tag where the user is listed or recorded already |
| `UserSafety.DeleteKeeps` | cluster/user_manager.go:195-238 | Delete keeps recorded tags listed and unique, lost replies included |
| `UserRuns.DeleteExact` | cluster/user_manager.go:211-230 | Delete removes at the tags of the request, else at the recorded ones, else at the fallback; the remaining tags are exactly the recorded ones it did not remove, which without repetition are those whose inbound still has the user; a user left without tags gets expiry 1, unless he had none and the whole request failed; password and everybody else are as before, and success is that no tag failed |
| `UserRuns.ClearExact` | cluster/user_manager.go:282-308 | in whatever order, clearing removes exactly the users with 0 < expiry < now; the others keep their records and memberships |
| `UserRuns.DeletedIsCleared` | cluster/user_manager.go:227-230 | a user deleted from all tags is gone after the next clearing, whatever happened before it but an update of him, and every unexpired user stays |
| `UserRuns.MarkStays` | cluster/user_manager.go:240-258 | the mark stays until an update or a clearing, even if the user is added to tags again |
| `UserReset.ResetKeepsIff` | cluster/user_manager.go:261-265 | a reset of any user and any tags, repeated ones included, keeps every recorded tag listed if and only if, replaying the answers at each of his recorded tags alone, he ends up in the list; it never makes anything repeat |
| `UserReset.SparesDistinct` | proxy/manager/proxy_manager.go:363-370 | with distinct tags that is so if and only if at no recorded tag the runtime knew him, listed once, let him go and did not take him back |
| `UserPlaces.OpFollows` | cluster/user_manager.go:106-154 | for additions, removals and resets alike, what becomes of the user at each tag, and whether the tag succeeds, depends on the answers at that tag only; nobody else is touched |
| `UserReset.ResetMayBreak` | proxy/manager/proxy_manager.go:363-370 | a state and answers for which a recorded tag is no longer listed |
| `UserSafety.RemoveOneEffect` | proxy/manager/proxy_manager.go:324-360 | one removal, from runtime and list, with any answer |
| `UserSafety.AddOneEffect` | proxy/manager/proxy_manager.go:285-321 | one addition, to runtime and list, with any answer: it repeats the user exactly where the list held him |
| `InboundUsers.DeleteLeavesTag` | proxy/manager/proxy_manager.go:171-189 | deleting an inbound leaves a recorded tag without its inbound if and only if the deletion succeeds and some user has the tag in his record |
| `InboundUsers.DeleteMayLeaveTag` | proxy/manager/proxy_manager.go:171-189 | one inbound and one user for which it does |
| `InboundUsers.TransferLeavesTag` | proxy/manager/proxy_manager.go:401-437 | transferring one does so if and only if it ends with the inbound gone, and never when it succeeds |
| `UserIndex.RemoveFromList` | proxy/manager/user_xray.go:261-286 | the loop removes the first occurrence, fails when there is none, and succeeds on an empty list |
| `UserIndex.Without` | proxy/manager/user_xray.go:267-277 | exactly one occurrence of the user goes |
| `UserManager.Manager.ProxyUserOp` | cluster/user_manager.go:106-154 | the loop over the tags refines the function, with the fallback tag, the skipped empty tag and both lists |
| `UserManager.Manager.Add` | cluster/user_manager.go:166-192 | the in-place operation refines the function |
| `UserManager.Manager.Delete` | cluster/user_manager.go:195-238 | the in-place operation refines the function |
| `UserManager.Manager.Update` | cluster/user_manager.go:241-258 | the in-place operation refines the function; what it stores is said in UserRuns.UpdateExact |
| `UserManager.Manager.Reset` | cluster/user_manager.go:261-265 | the in-place operation refines the function |
| `UserManager.Manager.ClearInvalideUser` | cluster/user_manager.go:282-308 | the two loops clear the expired users in some order |
| `UserManager.Filter` | common/util/string_list.go:8-16 | the loop keeps, in order, the tags that are not to go |
| `UserStore.PrintParse` | cluster/user_manager.go:325-334 | a user's line is read back as his password and 64-bit expiry if and only if the password holds no vertical bar |
| `UserStore.ParseOne` | cluster/user_manager.go:73-104 | a line without a bar is a password without expiry; one with a bar is password and expiry if what follows is a number of 64 bits, else a password as a whole |
| `UserStore.ParseMore` | cluster/user_manager.go:73-104 | a line with two bars or more is a password as a whole |
| `UserStore.FlushLoad` | cluster/user_manager.go:73-104 | a table of such users comes back with every name, password and expiry |
| `UserStore.LoadTags` | cluster/user_manager.go:80-103 | every stored user is loaded under his name with exactly the tags of the inbounds that list him |
| `UserStore.LoadInv` | cluster/user_manager.go:80-103 | what is loaded at start-up has every tag listed, and unique where the lists are |
| `UserStore.LoadSound` | cluster/user_manager.go:73-104 | and with a runtime started from the same lists nobody is an orphan |
| `UserStore.TagsOfExact` | proxy/manager/proxy_manager.go:467-484 | a user's loaded tags are exactly those of the inbounds that list him |
| `UserStore.GetUsersTag` | proxy/manager/proxy_manager.go:467-484 | the nested loops collect these tags, in order |
| `UserStore.FlushUser` | cluster/user_manager.go:325-334 | the loop writes one line for each user |
| `UserStore.LoadUser` | cluster/user_manager.go:73-104 | the loop reads the table back |
| `Codec.DecryptEncrypt` | common/util/ase.go:31-57 | for every message, every key of a legal length and every invertible block cipher, decrypting the encrypted message gives it back |
| `Codec.EncryptDecrypt` | common/util/ase.go:46-57 | data decrypt to something that encrypts to them if and only if their text is well padded |
| `Codec.BadPaddingAccepted` | common/util/ase.go:18-28 | sixteen encrypted zeros, which encryption never produces, are accepted as a message that encrypts to something else |
| `Codec.EncryptInjective` | common/util/ase.go:31-43 | different messages are different on the wire |
| `Codec.UnpadPad` | common/util/ase.go:11-28 | unpadding undoes padding, for every block size below 256 |
| `Codec.PadUnpad` | common/util/ase.go:18-28 | padding undoes unpadding if and only if the last byte n is in 1..block, the length fits and the last n bytes are all n |
| `Codec.CbcBack` | common/util/ase.go:52-55 | decryption in chaining mode undoes encryption |
| `Codec.ChainedBlock` | common/util/ase.go:37-41 | block j is the cipher of plaintext block j xor ciphertext block j - 1, as NIST SP 800-38A has it; what xor is, bit by bit, is said in Codec.XorByteAt, and what is sent in Codec.EncryptExactly |
| `Codec.XorByteAt` | common/util/ase.go:37-41 | bit k of the exclusive or of two bytes is 1 if and only if their bits k differ, for each of the eight bits, a bit being the quotient by a power of two modulo 2 |
| `Codec.EncryptExactly` | common/util/ase.go:31-43 | for every message and key of a legal length, what is sent has 16(|m|/16 + 1) bytes, and its block j is the cipher of sixteen bytes whose every bit is the exclusive or of that bit of the padded message with that bit of the block before, or of the key's first sixteen bytes for block 0 |
| `Codec.EmptyUnderZeros` | common/util/ase.go:31-43 | under a key of 32 zeros the empty message is sent as the cipher of sixteen bytes of value 16 |
| `Codec.CipherRefuses` | common/util/ase.go:31-57 | a key that has not 16, 24 or 32 bytes is an error both ways, and data that are not whole blocks make decryption panic |
| `Codec.SameKey` | common/rpc/encrypt_codec.go:47-54 | exactly when two tokens give the same key: short tokens when they are equal, long ones when their first 32 bytes are, a short and a long one when the long one begins with the padded short one |
| `Codec.KeyOf` | common/rpc/encrypt_codec.go:47-54 | a key always has 32 bytes, which is a legal length |
| `Codec.KeyBytes` | common/rpc/encrypt_codec.go:47-54 | they are the first 32 bytes of the token, followed by bytes that say by how many it is shorter |
| `Codec.ShortAndLong` | common/rpc/encrypt_codec.go:47-54 | the empty token and one of 32 spaces share a key |
| `Codec.EncryptWithAES` | common/util/ase.go:31-43 | filling the buffer block by block gives the specified result, errors included; which bytes these are is said in Codec.EncryptExactly |
| `Codec.DecryptWithAES` | common/util/ase.go:46-57 | the same for decryption, with the panic on incomplete blocks |
| `Codec.EncryptBlocks` | common/util/ase.go:39-41 | the loop over the blocks fills the buffer with the chained blocks |
| `Codec.DecryptBlocks` | common/util/ase.go:53-55 | the loop over the blocks fills the buffer with the plaintext |
| `FanOutSafety.AtMostLimit` | client/rpc/end_node_rpc.go:83 | under every interleaving of any number of calls at most 64 requests are in flight |
| `FanOutSafety.ResultIsSequential` | client/rpc/end_node_rpc.go:521-586 | under every interleaving a call with distinct names returns exactly what a plain loop over the nodes computes, in two disjoint maps that together hold exactly the eligible nodes |
| `FanOutSafety.MapsCoverEligible` | client/rpc/end_node_rpc.go:537-583 | even with repeated names the two maps together hold exactly the eligible nodes |
| `FanOutSafety.AllFinished` | client/rpc/end_node_rpc.go:584-585 | a call returns only after the worker of every eligible node has finished |
| `FanOutSafety.ReturnedIsFinal` | client/rpc/end_node_rpc.go:584-585 | no later step touches a call that has returned |
| `FanOutSafety.OneWriter` | client/rpc/end_node_rpc.go:574-581 | the maps of a call are written by one worker at a time |
| `FanOutSafety.SomeStep` | client/rpc/end_node_rpc.go:541-547 | no deadlock: while a call has not returned some step is possible |
| `FanOutSafety.RunsEnd` | client/rpc/end_node_rpc.go:537-585 | no livelock: a run without new calls is no longer than a bound computed from the state |
| `FanOutSafety.StuckMeansDone` | client/rpc/end_node_rpc.go:584-585 | a run that cannot go on has brought every call back |
| `FanOutSafety.StepKeeps` | client/rpc/end_node_rpc.go:537-584 | every step keeps the counts of slots, wait group and lock, and the meaning of the maps |
| `PingResult.RingIsWindow` | ping/ping.go:106-114 | what is read from the ring is, as a multiset, the last min(n, 100) updates |
| `PingResult.WindowIs` | ping/ping.go:106-114 | the window is the last min(n, 100) updates, in order |
| `PingResult.PingResult.Update` | ping/ping.go:38-43 | an update adds one value to the history the ring stands for |
| `PingResult.PingResult.GetLatestDelay` | ping/ping.go:65-72 | the latest delay is the last update, or -1 |
| `PingResult.PingResult.GetAvg` | ping/ping.go:45-47 | the average of the window |
| `PingResult.PingResult.GetMax` | ping/ping.go:49-51 | the maximum of the window |
| `PingResult.PingResult.GetMin` | ping/ping.go:53-55 | the minimum of the window |
| `PingResult.PingResult.GetStDev` | ping/ping.go:57-59 | the variance of the window |
| `PingResult.PingResult.GetLoss` | ping/ping.go:61-63 | the loss of the window |
| `PingStats.StatsUnordered` | ping/ping.go:116-184 | every statistic depends on the multiset of the data only |
| `PingStats.AvgBetween` | ping/ping.go:116-166 | with a positive delay, 0 < min <= avg <= max and the variance is not negative |
| `PingStats.NoPositive` | ping/ping.go:125-127 | average and variance are -1 if and only if no delay is positive |
| `PingStats.LossInRange` | ping/ping.go:168-184 | the loss is in 0..100 when some value is valid, and -1 otherwise |
| `PingStats.LossIs` | ping/ping.go:168-184 | with some value other than -1, the loss is 100 times the number of -2 over the number of values other than -1 |
| `PingStats.VarianceIsMeanSquare` | ping/ping.go:151-166 | the result is the mean of the squares less the square of the mean |
| `PingStats.StDevIsNotRoot` | ping/ping.go:165 | for delays of 1 and 5 the result is 4 and the standard deviation 2 |
| `PingStats.StDevIffRoot` | ping/ping.go:151-166 | the result is the non-negative root of the variance if and only if the variance is zero or one |
| `PingStats.ZeroVariance` | ping/ping.go:151-166 | the variance is zero if and only if all positive delays are equal |
| `PingStats.CalculateAvg` | ping/ping.go:116-129 | the accumulating loop computes the quotient of the sums |
| `PingStats.FindMax` | ping/ping.go:131-139 | the loop finds the largest positive delay, or -1 |
| `PingStats.FindMin` | ping/ping.go:141-149 | the loop finds the least positive delay, or the largest number |
| `PingStats.CalculateStDev` | ping/ping.go:151-166 | the loop computes the mean of the squared differences from the average |
| `PingStats.CalculateLoss` | ping/ping.go:168-184 | the loop computes the percentage of losses among the valid values |
| `Traffic.Conserved` | common/collect.go:23-43 | for every interleaving of collects and drains, every choice of identifiers and each direction, initially pending plus delivered equals reported in replies plus pending |
| `Traffic.TrafficConserved` | server/rpc/end_node_server.go:454-468 | the same from an empty table, in total and for each identifier |
| `Traffic.IdInjective` | common/collect.go:28 | reports of one server, of the kinds and proxies that are collected, share an identifier if and only if they are about the same thing, whatever characters the names hold |
| `Traffic.SourcesApart` | common/collect.go:28 | reports about one thing share an identifier if and only if they come from one server |
| `Traffic.IdsMayClash` | common/collect.go:28 | two reports with other names and other servers that share an identifier |
| `Traffic.Collector.Collect` | common/collect.go:23-43 | the in-place collection refines the function and alters no object in a reply already returned |
| `Traffic.Collector.GetBandWidthStats` | server/rpc/end_node_server.go:454-468 | the reply holds every pending entry once and the table is empty afterwards |
| `Base64.DecodeEncode` | proxy/sub/converter/common_converter.go:21 | base64 of every sequence of bytes decodes to it |
| `Base64.DecodeWrapped` | proxy/sub/expand/third_sub.go:30 | it does so however the text is broken into lines |
| `Base64.AlphabetIs` | proxy/sub/converter/common_converter.go:21 | the symbols are those of table 1 of RFC 4648 |
| `Base64.QuadIs` | proxy/sub/converter/common_converter.go:21 | three bytes and the four symbols written for them stand for the same number of 24 bits |
| `Base64.TestVectors` | proxy/sub/converter/common_converter.go:21 | three test vectors of section 10 of RFC 4648, one for each length of padding |
| `Base64.DecodesIff` | proxy/sub/expand/third_sub.go:30-33 | a text is decoded if and only if it is groups of four symbols, with at most two equals signs at the end |
| `Subscription.FetchConvert` | proxy/sub/expand/third_sub.go:30-34 | the list read from a converted list is that list if and only if it is not empty and no link holds a newline |
| `Subscription.FetchIs` | proxy/sub/expand/third_sub.go:30-34 | a text that is base64, line ends aside, is decoded and split at newlines; any other is a single link |
| `Text.SplitJoin` | proxy/sub/converter/common_converter.go:20 | splitting undoes joining if and only if the list is not empty and no member holds the separator |
| `Text.JoinSplit` | proxy/sub/expand/third_sub.go:34 | joining undoes splitting, for every text |
| `ShareUri.FixKeepsPieces` | proxy/sub/common.go:23-25 | for every string, fixUri leaves the list of non-empty pieces between "&" as it is |
| `ShareUri.FixHalves` | proxy/sub/common.go:23-25 | fixUri turns n signs "&" in a row into n/2 of them, rounded up, and goes on behind them |
| `ShareUri.FixKeepsOthers` | proxy/sub/common.go:23-25 | and leaves every other character as it is |
| `ShareUri.ReaderFinds` | proxy/sub/vless_xray.go:32-42 | a reader of the query of a link whose values hold no "&" finds under "type", "security", "sni", "alpn", "flow", "path", "host", "headerType", "seed", "quicSecurity", "key", "serviceName" and "mode" exactly that field of the link and its transport, nothing for an empty or inapplicable one, and nothing under any other key |
| `ShareUri.ReadBack` | proxy/sub/vless_xray.go:32-42 | the query of a link is read back as exactly its non-empty parameters, in order, if and only if no value holds "&" |
| `ShareUri.PiecesOfQuery` | proxy/sub/vless_xray.go:36-41 | whatever the values, the pieces of the query are those of its parameters one by one |
| `ShareUri.PiecesOfTransport` | proxy/sub/transport_xray.go:31-121 | the same for each kind of transport, whose text is written out on its own; what is found under each key is said in ShareUri.ReaderFinds |
| `ShareUri.PiecesOfSecurity` | proxy/sub/transport_xray.go:19-29 | the same for the security and the transport together |
| `ShareUri.VlessShareConfig.Build` | proxy/sub/vless_xray.go:32-42 | the link is base, query and node name, the query that of ShareUri.ReaderFinds, and building without SNI clears the name for good |

## Left out

- Handlers and Filters run as whole steps, except the two halves of the main table's Filter; the interleaving of single statements of one handler with another is not modelled, nor is the gap inside the Filter of the centre and of the wrong-node list.
- Nodes are honest: requests carry the sender's own metadata and tokens; the address a node announces and the cluster it belongs to do not change.
- A round over all peers is modelled as single contacts; that it stops at the first invalid peer only removes contacts.
- Timeliness: nothing is claimed about when a round or a Filter happens, and no eventual removal of dead nodes, since gossip adds them again.
- Convergence.TwoContactsAgree: assumes that no Filter is interrupted and that neither node is restarted between the two contacts, because both lose entries.
- Text encodings of protobuf and JSON, gRPC, HTTP, cron, logging and files; a call that fails there is a lost message or a refused request.
- The proxy runtime is known by its answers only; it refuses a user it has, one without an account, and the removal of one it has not.
- The settings of an inbound are a list of clients; identifiers of clients, which are random, are not modelled.
- Locks of UserManager: operations are sequential; the read lock that Delete keeps on its missing-user path is not modelled.
- UserManager.Manager.Add: the record stored is a copy of the request, so later changes of the request through the shared object are not captured.
- User operations and inbound operations are not interleaved in one run; `InboundUsers` states what one inbound operation does to recorded tags, and GetTags is a list given by the caller.
- Configuration keys are taken as they are; the configuration library turns them into lower case.
- Adaptive.WithPort: numbers are integers, so the rounding of a floating-point number above 2^53 before it is clamped is not modelled.
- PingStats.CalculateAvg: real numbers instead of floating point; the same holds for the other statistics.
- Traffic.Collector.Collect: sums are unbounded, without the wrap-around of 64 bits.
- The block cipher itself is any pair of functions that undo each other; AES is not modelled.
- Codec.EncryptWithAES: that padding may write behind the end of the caller's slice is not captured.
- ShareUri.VlessShareConfig.Build: user, host, port and node name are texts that are already escaped, and DNS look-up is left out.
- FanOut: which nodes are eligible and what they answer is fixed for each call but arbitrary; a request that cannot be encoded or has an unknown type returns before any of this and is left out.
- Lego certificates, the command line, the HTTP interface, hysteria and process control: what they do is done by libraries and programs outside this repository; the v2ray twins of the xray files have the same branches as the files modelled here.
