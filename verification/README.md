# Butterfly's control plane, verified

Butterfly is a virtual switch: an API edits an in-memory model of NICs and security groups, and with it a graph
of packet-processing bricks that a second thread polls. This project models that control plane in Dafny and
proves what it keeps over every run. It also covers the encrypted message format, the dump and its replay, the
INI reader and writer, the MTU search and the style checker's bracket matchers.

Run `dafny verify dfyconfig.toml` in this directory.

## What is modelled

- **The packet graph** (`Bricks`, `Topology`, `Transitions`, `PollList`, `Graph`, `Shape`, `Trace`). `World` is the graph
  as the poller sees it: bricks alive, edges, the VTEP's vni table, the list being polled. Commands are queued;
  the poller pops one, holds it, executes it. `Graph.Interleave` lets the poller run for any number of such
  steps, and it is called after every push and after every direct edit by the API thread. A fault flag is raised
  as soon as a command touches a destroyed brick or a destroyed brick is still polled, an error flag as soon as a
  graph call is refused; the invariant `Graphs.Graph.Inv` says that neither is raised, now or when the queue has
  drained, and that the drained graph is exactly the one `vnis` stands for.
- **The firewall as a cache** (`Compile`, `Filter`, `Reading`, `Meaning`, `Coherence`, `Api`). The compiler is
  modelled on texts, separators repaired after the loop included. `Filter` reads those texts back by the rules of
  pcap-filter(7) (`and` and `or` of equal precedence, associating to the left), and `Meaning` states what a rule
  allows without any text. `Api` is every action on NICs, groups, rules and members; `Api.Run` is any sequence of
  them, up to one that would rewire a branch for its trace. `rules` is what a firewall was given, `loaded` what it had when the poller last reloaded it. A text that
  libpcap refuses ends a rebuild where the code returns: after the flush, and before the reload.
- **Encryption** (`Crypto`, `Envelope`). The block cipher, the hash, the wire format and the handling of a message
  body are functions with stated laws.
- **Dump and replay** (`Convert`, `Replay`), **INI files** (`Ini`, `IniExact`), **the MTU search** (`Mtu`), and **the bracket
  matchers** of the style checker (`Brackets`, `StyleCheck`).

## What the proofs showed

- A NIC whose creation fails after its firewall exists leaks exactly that firewall and nothing else, and may leave
  an empty entry for its VNI (`Graphs.Graph.NicAdd`).
- Address equality compares 16 bytes, so `1.2.3.4` equals `102:304::`. Two groups compare equal exactly when they
  agree up to such pairs of members, position by position; a change of members that differs only in that way is
  dropped, a change of rules never is (`Model.SgEqualExactly`, applied in `Apis.Api.ActionSgAdd`).
- A rebuild compiles an outbound rule into the inbound filter, an addition lets it replace the outbound filter. The
  two agree on both sides exactly when the rule allows the NIC's own addresses, 0.0.0.0 among them, with any
  protocol, and what it allows was let in anyway (`Coherence.AppendIsRebuildExactly`); one packet that tells them
  apart is in `Coherence.OutboundRuleSeparates`.
- The API lets in networks with host bits, which libpcap refuses. One such rule in any group that a NIC lists, and
  exactly that, makes the NIC's whole inbound filter unreadable (`Meaning.InFilterReadable`): the rebuild leaves the
  firewall flushed and not reloaded (`Coherence.FullRulesExactly`), and the next inbound rule added makes the poller
  load that rule alone, with nothing let out (`Coherence.AddedAfterRefusal`).
- Switching the packet trace of a NIC on or off while it is in use keeps the graph that `vnis` stands for exactly
  when the NIC bypasses filtering and is alone in its VNI (`Traces.EnableKeepsShape`, `Traces.DisableKeepsShape`).
  After a filtering NIC alone in its VNI has been switched on, no second NIC can be added to the VNI
  (`Traces.SecondNicRefused`); after a bypassing NIC among others has, the others are cut off (`Traces.VniTaken`).
- A rule over a group with a protocol other than ICMP, ICMPv6, TCP, UDP or any filters as meant exactly when the
  group has no member that is not IPv6 (`Meaning.OtherProtocolOverGroup`, with an example in `Meaning.GreFromMember`).
- Decryption checks only the last padding byte, and accepts zero as the length of the padding
  (`Crypto.OpensExactly`).
- An empty list of messages is answered inside an envelope and refused outside (`Envelope.EmptyListDiffers`).
- Two kinds of rules that the API accepts do not survive a dump: ports on a protocol without ports, and a security
  group named with the empty text (`Convert.RuleRoundTrip`, `Convert.RuleFromShape`).
- In an INI file, a section header without its closing bracket takes the next key into the section's name
  (`Ini.TornHeader`). Such names are the one thing that a store loaded from a file can have and not survive a save
  and another load, besides an unnamed section that is not in front or has no keys (`IniExact.LoadSavedExactly`).

## Where the code and its documentation differ

The model follows the code.

- The message format is described as AES-256 encryption in CBC mode with PKCS#7 padding
  (api/protocol/encrypted.proto). The code encrypts with the mode's decryption and decrypts with its encryption
  (api/common/crypto.cc:119, api/common/crypto.cc:181), and checks the padding's last byte only.
- A comment says that only inbound rules are compiled (api/server/graph.cc:1093); every rule of a group is, into
  the inbound filter.
- The comment on the poll list speaks of the physical NIC's brick (api/server/graph.cc:1453); it is polled apart
  from the list, which starts empty.

## Assumptions about foreign code

- Brick calls succeed except where `Outcome` or the graph itself refuses them. Unlinking a brick, or the edge from
  the VTEP to it, removes its entries from the VTEP's vni table; announcing a vni for a brick that is not linked to
  the VTEP is refused. A destroyed brick's address is not used again while something could confuse the two: bricks
  are named by the allocation that made them.
- One API thread; the queue is first in, first out.
- A side of a firewall lets through what some of its filters accepts. libpcap takes exactly the texts that
  `Filter.Parse` can read; of those the compiler emits, the others are networks with host bits.
- `inet_pton` reads back what `inet_ntop` wrote, and that text has no blank, bracket, bar or slash; it also reads
  the two addresses of the DHCP clause.
- `std::hash` of the rule keys in play does not collide, where a statement says so.

## Model

| member | source | states |
|---|---|---|
| Bricks.QueuedBricksAlive | api/server/graph.cc:559-644 | if executing the whole queue faults nowhere, every brick named by a queued command is alive now or created by an earlier queued command |
| Bricks.ApplyAppend | api/server/graph.cc:1374-1443 | pushing a command changes the drained graph by exactly that command, whatever is still queued |
| Graphs.Graph.constructor | api/server/graph.h:290-330 | the empty graph satisfies the invariant, with nothing queued |
| Graphs.Graph.PollerStep | api/server/graph.cc:480-533 | one poller step keeps the invariant, does not change the drained graph, makes progress, and keeps every firewall fresh or about to be reloaded, unless a filter of it was refused |
| Graphs.Graph.Interleave | api/server/graph.cc:480-533 | so does any number of steps, and on a drained queue nothing changes |
| Graphs.Graph.ExecuteHeld | api/server/graph.cc:559-644 | executing the popped command leaves the drained graph as it was; a reload takes the rules of that moment |
| Graphs.Graph.Push | api/server/graph.cc:1374-1443 | the drained graph becomes what the command makes of it, at any pace of the poller |
| Graphs.Graph.WaitEmptyQueue | api/server/graph.cc:1478-1482 | the barrier: on return every command pushed before has been executed, not merely popped |
| Graphs.Graph.NothingDangles | api/server/graph.cc:499-521 | in every reachable state the bricks named by queued commands and those being polled are alive |
| Graphs.Graph.NewFirewall | api/server/graph.cc:670-682 | the allocation result is read after it was written, and a successful one gives a fresh brick |
| Graphs.Graph.MakeBranch | api/server/graph.cc:682-805 | a branch with exactly its bricks and inner edges, or a failure, of a constructor or of the first inner link, that frees all but the firewall |
| Graphs.Graph.Attach | api/server/graph.cc:807-844 | the three ways of hanging a branch all reach the graph of the VNI with that NIC, or leave everything as it was when there is no switch |
| Graphs.Graph.AttachAsFirst | api/server/graph.cc:808-811 | a VNI's first branch hangs from the VTEP once the queue has drained |
| Graphs.Graph.AttachWithSwitch | api/server/graph.cc:812-836 | the second branch brings a switch; the edge cut on the API thread is there to be cut |
| Graphs.Graph.AttachToSwitch | api/server/graph.cc:837-840 | further branches hang from the switch |
| Graphs.Graph.BuildNic | api/server/graph.cc:646-847 | the NIC is in its VNI exactly when every allocation succeeded; a failure leaks its firewall only; the drained graph matches either way |
| Graphs.Graph.NicAdd | api/server/graph.cc:646-856 | the same, and the firewall of a filtering NIC has the rules of a full compile |
| Graphs.Graph.NicDel | api/server/graph.cc:888-948 | the NIC leaves its VNI, an emptied VNI goes, none of the NIC's bricks is alive, and the queue is drained |
| Graphs.Graph.DetachFromPair | api/server/graph.cc:918-932 | of two branches one stays, hung from the VTEP, and the switch is freed after it was unlinked |
| Graphs.Graph.DetachAlone | api/server/graph.cc:915-936 | with one branch or more than two, unlinking the head leaves the graph of the others |
| Graphs.Graph.DisableNic | api/server/graph.cc:909-912 | the branch is no longer polled, as if it were not in the VNI |
| Graphs.Graph.UpdatePollList | api/server/graph.cc:1445-1476 | the drained graph polls exactly the specified list |
| Graphs.Graph.PollRows | api/server/graph.cc:1445-1476 | the nested loops fill the arrays with the enabled NICs in order of VNI and id, up to one slot short of the end |
| Graphs.Graph.AddRows | api/server/graph.cc:1459-1471 | the inner loop, within the 50 slots, both arrays in step |
| PollLists.EnabledRowsContents | api/server/graph.cc:1456-1472 | the rows before the cut are those of the enabled NICs, all of them and no others |
| PollLists.AllPolled | api/server/graph.cc:1462-1470 | with at most 49 enabled NICs every one is polled, its vhost and firewall in one row |
| PollLists.PollListOnce | api/server/graph.cc:1456-1472 | no NIC is listed twice |
| PollLists.DisabledRows | api/server/graph.cc:1466-1467 | a disabled NIC leaves the same rows as a removed one |
| Transitions.AttachFirstMatches | api/server/graph.cc:808-811 | link and announce turn the graph without the NIC into the graph with it |
| Transitions.AttachSecondMatches | api/server/graph.cc:812-836 | cut, link, announce, link, link: from one NIC to two under a switch |
| Transitions.AttachMoreMatches | api/server/graph.cc:837-840 | one link: from n NICs to n + 1 |
| Transitions.DetachHeadMatches | api/server/graph.cc:915-917 | unlinking a head leaves the graph of the other NICs and a loose branch |
| Transitions.DetachPairMatches | api/server/graph.cc:918-932 | unlink, link, announce: from two NICs under a switch to one under the VTEP |
| Shape.VniShape | api/server/graph.cc:807-840 | one NIC: the only trunk edge is VTEP to head and the vni maps to the head; more: VTEP to switch and switch to each head, and the vni maps to the switch |
| Shape.EdgesOfVni | api/server/graph.cc:807-840 | an edge touches a VNI's bricks exactly when it belongs to that VNI |
| Shape.DeadHasNoEdge | api/server/graph.cc:914-943 | a destroyed brick keeps no edge |
| Traces.EnableKeepsShape | api/server/graph.cc:991-1034 | switching a trace on keeps the graph that the model stands for exactly when the NIC bypasses filtering and is alone in its VNI |
| Traces.DisableKeepsShape | api/server/graph.cc:1036-1059 | so does switching it off |
| Traces.SecondNicRefused | api/server/graph.cc:827-832 | after switching on, the edge that a second NIC would have to cut is there exactly for a bypassing NIC |
| Traces.VniTaken | api/server/graph.cc:994-999 | in a VNI with a switch, the VTEP sends the VNI to the traced NIC instead |
| Graphs.Graph.KeysApart | api/server/graph.cc:670-682 | no two NICs share a firewall |
| Graphs.Graph.FwUpdate | api/server/graph.cc:1201-1291 | both sides are replaced by a full compile, no other firewall changes, and the poller will filter by it; a refused text leaves what there was up to it, after the flush and without a reload |
| Graphs.Graph.FwAddRule | api/server/graph.cc:1293-1349 | one filter is appended to the right side, nothing when the rule compiles to nothing, the NIC bypasses filtering or is unknown; the first outbound rule replaces the default, even when its text is then refused |
| Compile.FwBuildRule | api/server/graph.cc:1092-1179 | the text of a rule, empty for a missing or empty group and for invalid ports |
| Compile.AddMembers | api/server/graph.cc:1118-1126 | the members of a group with `or` between each two |
| Compile.AddProtocol | api/server/graph.cc:1134-1176 | the protocol and port part, or nothing at all when the ports are invalid |
| Compile.FwBuildSg | api/server/graph.cc:1181-1199 | with the separator repaired, the text is the join of the non-empty rule texts |
| Compile.BuildIn | api/server/graph.cc:1222-1245 | so it is over groups |
| Compile.BuildOut | api/server/graph.cc:1247-1262 | one clause for each address of the NIC and one for DHCP |
| Compile.HangingEnd | api/server/graph.cc:1193-1197 | dropping two characters when the last is a bar leaves exactly the join |
| Filter.LexConcat | api/server/graph.cc:1097-1176 | a text put together from parts is read part by part when the parts cannot run into each other |
| Reading.ChainReads | api/server/graph.cc:1134-1160 | terms with operators between them are read as one expression, from the left |
| Reading.JoinReads | api/server/graph.cc:1183-1192 | parts in parentheses with bars between them accept what any part accepts |
| Reading.JoinFails | api/server/graph.cc:1183-1192 | one part that cannot be read makes the whole text unreadable, wherever it stands |
| Meaning.RuleMeans | api/server/graph.cc:1092-1179 | the text of a rule without host bits accepts exactly the packets the rule allows; a rule without a text allows none |
| Meaning.RuleReadable | api/server/graph.cc:1097-1104 | a rule that compiles can be read exactly when its network has no host bits |
| Meaning.InFilterReadable | api/server/graph.cc:1222-1245 | the inbound filter can be read exactly when no rule of any listed group has host bits |
| Meaning.GroupMeans | api/server/graph.cc:1181-1199 | the text of a group accepts exactly what some rule of the group allows |
| Meaning.InFilterMeans | api/server/graph.cc:1222-1245 | the inbound filter accepts exactly what some rule of some existing group allows; no filter means nothing is allowed |
| Meaning.OutFilterMeans | api/server/graph.cc:1247-1262 | the outbound filter accepts exactly what comes from the NIC's addresses, and DHCP |
| Meaning.OtherProtocolOverGroup | api/server/graph.cc:1151-1158 | the text of a rule over a group with another protocol accepts just what comes from a member with that protocol, exactly when all members are IPv6 |
| Meaning.GreFromMember | api/server/graph.cc:1151-1158 | a GRE packet from an IPv4 member that such a rule is meant for and does not let in |
| Coherence.FullRulesExactly | api/server/graph.cc:1262-1291 | a rebuild gives both filters and a reload, or, exactly when a listed group has a rule with host bits, an empty firewall without a reload |
| Coherence.FullCoherent | api/server/graph.cc:1201-1291 | a full compile without a refused rule filters as the groups say |
| Coherence.SameAllowed | api/server/graph.cc:1110-1132 | what a NIC is allowed depends only on the rules of its groups and the members these refer to |
| Coherence.Untouched | api/server/api.cc:336-377 | a change to a group does not reach a NIC none of whose groups refers to it |
| Coherence.AppendCoherent | api/server/api.cc:313-334 | a coherent firewall with the new rule appended is coherent with the new model, unless the rule is outbound and compiles, also for a group created on the way |
| Coherence.AppendIsRebuild | api/server/api.cc:418-454 | appending such a rule filters like a full compile of the new model |
| Coherence.AppendIsRebuildExactly | api/server/graph.cc:1201-1349 | appending any rule and a full compile filter alike on both sides exactly when the rule is not outbound, compiles to nothing, is not listed, or adds nothing on either side |
| Coherence.OutboundEast | api/server/graph.cc:1333-1341 | an added outbound rule filters what is sent as a rebuild would, for every packet, exactly when it is over a group with the NIC's own addresses, 0.0.0.0 among them, and any protocol |
| Coherence.OutboundWest | api/server/graph.cc:1222-1245 | it filters what is received as a rebuild would exactly when all that it allows was let in before |
| Coherence.OutboundRuleSeparates | api/server/graph.cc:1333-1341 | an outbound rule and a packet that the two treat differently on both sides |
| Coherence.AddedAfterRefusal | api/server/graph.cc:1262-1348 | after a refused rebuild the next inbound rule is all that the poller loads: nothing is let out, and in only what that rule allows |
| Apis.Api.constructor | api/server/model.h:130-135 | an empty model over an empty graph is valid |
| Apis.Api.SgUpdate | api/server/api.cc:290-311 | exactly the NICs that list the group are compiled afresh |
| Apis.Api.SgUpdateRule | api/server/api.cc:313-334 | the rule is appended once for each time a NIC lists the group |
| Apis.Api.SgUpdateRuleMembers | api/server/api.cc:336-377 | in spite of the skip list and the early break: the groups started are the listed ones with a rule that refers to the modified group, each once, and exactly the NICs listing one of them are compiled afresh |
| Apis.Api.ActionNicAdd | api/server/api.cc:149-173 | model and graph agree on the NIC whether it is new, re-added in another VNI, or fails; the firewalls stay coherent |
| Apis.Api.ActionNicUpdate | api/server/api.cc:175-233 | the settings that differ are replaced, and the firewall with them; a trace setting or path that is asked for again only sends the poll list once more |
| Apis.Api.ActionNicDel | api/server/api.cc:235-250 | the NIC is gone from model and graph, the other firewalls are unchanged |
| Apis.Api.ActionSgAdd | api/server/api.cc:379-400 | the group is added or replaced unless the code calls them equal, so that afterwards it is the one asked for, up to members confused with zeros; coherence holds for every NIC |
| Apis.Api.ActionSgDel | api/server/api.cc:402-416 | the group is gone and every firewall that depended on it is rebuilt |
| Apis.Api.ActionSgRuleAdd | api/server/api.cc:418-454 | the rule is filed under its hash, in a group created if missing, and coherence is kept by appending |
| Apis.Api.ActionSgRuleDel | api/server/api.cc:456-487 | the rule is gone and the NICs of the group are rebuilt |
| Apis.Api.ActionSgMemberAdd | api/server/api.cc:489-525 | the member is appended unless an equal one is there; every firewall that the members reach is rebuilt |
| Apis.Api.ActionSgMemberDel | api/server/api.cc:527-553 | the first equal member is removed; every firewall that the members reach is rebuilt |
| Apis.Api.Run | api/server/api.cc:149-553 | after any run of actions, up to one that would rewire a branch for its trace, the model is the fold of the requests, everything valid holds, and the queue is drained |
| Apis.Api.FiltersEnforceGroups | api/server/graph.cc:1201-1349 | then every filtering NIC whose groups have inbound rules without host bits receives exactly what its groups allow and sends exactly from its addresses, and DHCP |
| Model.RuleKeyDetermines | api/server/model.cc:208-217 | the key text determines direction, protocol, ports, CIDR text and group |
| Model.EqualRulesAreSame | api/server/model.cc:55-74 | rule tables that compare equal are the same, although the comparison of rules leaves the group out |
| Model.MembersOfDifferentFamilies | api/server/model.cc:115-117 | two groups that differ in a member and compare equal |
| Model.SgEqualExactly | api/server/model.cc:70-74 | two groups from the API compare equal exactly when ids and rules are the same and the members agree, position by position, up to an IPv4 address and its IPv6 double |
| Model.ConfusedExactly | api/server/model.cc:115-117 | an IPv4 and an IPv6 address compare equal exactly when the IPv6 one continues the four bytes with zeros |
| Model.SameFamilyExact | api/server/model.cc:115-117 | within a family the comparison is exact |
| Crypto.CbcSplit | api/common/crypto.cc:122-137 | streaming calls that continue one chain are one pass |
| Crypto.CbcUndone | api/common/crypto.cc:181-187 | the forward pass undoes the backward pass |
| Crypto.Cipher.Update | api/common/crypto.cc:122-137 | an update writes exactly its stretch of the buffer and carries the chain on |
| Crypto.EncAes256CbcSha512 | api/common/crypto.cc:76-151 | the three calls tile the buffer with one pass over hash, message and padding, put in front of the caller's string |
| Crypto.DecAes256CbcSha512 | api/common/crypto.cc:153-220 | succeeds exactly on well-shaped input whose hash matches what the padding byte leaves, within bounds for every input |
| Crypto.OpenSealed | api/common/crypto.cc:76-220 | what was sealed opens to the message, for every key, initialisation vector and message |
| Crypto.OpensExactly | api/common/crypto.cc:156-215 | exactly which inputs open to a given message |
| Envelope.Server.ProcessRequest | api/server/api.cc:31-115 | the model and the response are those of the pure description, for clear, encrypted and nested requests |
| Envelope.Server.Process | api/server/encrypted.cc:30-68 | decrypt, handle, encrypt, each failure answered and its effect on the model |
| Envelope.Send | api/client/request.cc:99-133 | what the client puts on the wire, with and without a key |
| Envelope.Receive | api/client/request.cc:143-171 | what it makes of a response, each failure included |
| Envelope.EncryptionTransparent | api/client/request.cc:107-171 | for a non-empty list the exchange with a shared key leaves the same model and decodes to the same responses in order as one without |
| Envelope.EmptyListDiffers | api/server/api.cc:75-108 | for an empty list the two differ |
| Envelope.OnlyEnvelopesObeyed | api/server/api.cc:62-88 | with a key, nothing reaches the model but the messages of an envelope that the key opens, one level deep |
| Envelope.ClearObeyed | api/server/api.cc:89-108 | without a key every list is obeyed and an envelope is not |
| Envelope.NestedRefused | api/server/api.cc:63-68 | an envelope in an envelope is refused |
| Convert.IpsRoundTrip | api/server/api_0.cc:773-784 | a list of addresses survives exactly when no two count as equal |
| Convert.IdsRoundTrip | api/server/api_0.cc:784-794 | a list of group names survives exactly when none occurs twice |
| Convert.ConvertNicMessage | api/server/api_0.cc:763-844 | the NIC of a message, defaults and dropped duplicates included |
| Convert.NicRoundTrip | api/server/api_0.cc:720-844 | a NIC of the model comes back from its message, which is valid |
| Convert.NicFromOk | api/server/api_0.cc:585-602 | what validation lets in has the properties the round trip needs |
| Convert.RuleRoundTrip | api/server/api_0.cc:965-1023 | exactly which rules come back from a valid message |
| Convert.RuleFromShape | api/server/api_0.cc:634-677 | of the rules the API lets in, exactly those with ports where they do not belong and those with an empty group name do not come back |
| Convert.ConvertSgMessage | api/server/api_0.cc:930-963 | the group of a message, each rule under its own hash, the first of two with one hash |
| Convert.ConvertSg | api/server/api_0.cc:908-928 | the message of a group, or none when a rule has none |
| Convert.SgRoundTrip | api/server/api_0.cc:908-963 | a group of the model comes back from its message, which is valid |
| Replay.StepDumpable | api/server/api.cc:149-553 | every action keeps what a dump depends on |
| Replay.RunDumpable | api/server/api.cc:149-553 | so does every run from an empty server |
| Replay.ReplayRebuilds | api/client/dump.cc:83-104 | replaying the dump on an empty server, NICs first, rebuilds the model up to the paths of the NICs |
| Replay.SameContentsSameFilters | api/client/dump.cc:83-104 | two servers with the same contents filter alike |
| Replay.ReplayOn | api/client/dump.cc:83-104 | the dump of a server, run against an empty one, leaves it valid with the same model up to the paths, and its poller filtering alike |
| Replay.KeptIsOk | api/server/api_0.cc:585-677 | the requests that keep a model dumpable are requests that the server takes |
| Replay.RunAndReplay | api/client/dump.cc:83-104 | so does the dump after any run of requests from an empty server |
| Ini.Less | api/server/simpleini/SimpleIni.hpp:2705-2719 | the comparison is the order of the folded texts by signed characters |
| Ini.StrictWeakOrder | api/server/simpleini/SimpleIni.hpp:2705-2719 | it is a strict weak order whose classes are the texts that fold alike |
| Ini.FindEntry | api/server/simpleini/SimpleIni.hpp:1533-1662 | the next entry after comments and invalid lines, and where reading goes on |
| Ini.ReadHeader | api/server/simpleini/SimpleIni.hpp:1560-1597 | the trimmed name of a section and the end of its line, or where the name breaks off |
| Ini.ReadKey | api/server/simpleini/SimpleIni.hpp:1600-1648 | the trimmed key and value, or what is skipped |
| Ini.LoadData | api/server/simpleini/SimpleIni.hpp:1440-1483 | every entry found is added, in order |
| Ini.Save | api/server/simpleini/SimpleIni.hpp:2398-2521 | sections and keys in load order, with the separators of the writer |
| Ini.LoadSaved | api/server/simpleini/SimpleIni.hpp:1876-1977 | loading what was saved gives the same sections, keys and values in the same order |
| Ini.TornHeader | api/server/simpleini/SimpleIni.hpp:1570-1578 | wherever it stands, a header without its bracket takes the next key into the name |
| IniExact.LoadLoaded | api/server/simpleini/SimpleIni.hpp:1440-1483 | what any text leaves: no key or section twice, keys and values trimmed, names proper, empty, or left by a header that broke off |
| IniExact.TornAgain | api/server/simpleini/SimpleIni.hpp:1560-1579 | a saved header with such a name breaks off again and takes the bracket into the name |
| IniExact.LoadSavedExactly | api/server/simpleini/SimpleIni.hpp:1440-2521 | saving and loading gives back a store exactly when its names can be written down, for every store |
| Mtu.FindMaximum | api/server/graph.cc:430-449 | at most 16 probes, ending between an accepted and a refused size; the largest accepted size if acceptance is downward closed |
| Brackets.ForwardExactly | scripts/cpplint.py:1492-1567 | the forward scan finds exactly the one bracketed expression that begins at an opening bracket |
| Brackets.BackwardExactly | scripts/cpplint.py:1614-1688 | the backward scan finds exactly the one that ends at a closing bracket |
| StyleCheck.FindEndOfExpressionInLine | scripts/cpplint.py:1492-1567 | the loop with its stack is the step function iterated, angle brackets included |
| StyleCheck.FindStartOfExpressionInLine | scripts/cpplint.py:1614-1688 | the same, backward |
| StyleCheck.CloseExpression | scripts/cpplint.py:1570-1611 | the scan carried across lines |
| StyleCheck.ReverseCloseExpression | scripts/cpplint.py:1691-1726 | the same, backward |
| StyleCheck.CloseExactly | scripts/cpplint.py:1570-1611 | without angle brackets: exactly the end of the balanced segment, across lines, or none |
| StyleCheck.ReverseExactly | scripts/cpplint.py:1691-1726 | without angle brackets: exactly its start, or none |
| StyleCheck.CloseThenReverse | scripts/cpplint.py:1570-1726 | from the closing bracket that was found the way back leads to the line and column one came from |
| StyleCheck.ReverseThenClose | scripts/cpplint.py:1570-1726 | and the other way round |

## Left out

- Moving a trace to another file while it runs (api/server/graph.cc:1065-1090), and what a NIC update does after it has rewired a branch: a run in the model ends before such a request, and `Traces` says what switching does to the graph.
- The global packet trace that stalks the links of a branch, and `Graph::Start`, `Graph::Stop` and the commands EXIT, VHOST_START and VHOST_STOP.
- Limits of foreign code: 30 heads on a switch, 50 VNIs, a firewall that cannot be reloaded.
- The state that a firewall keeps of outgoing connections, which lets replies in.
- The early return of `NicAdd` when the cut of the VTEP's edge is refused: the invariant shows that the edge is there.
- Apis.Api.ActionNicUpdate: asks that the update does not switch or move a trace, for which `Traces` shows that the graph would not stay valid.
- Apis.Api.Run: ends before the first request that would switch or move a trace.
- Apis.Api.FiltersEnforceGroups: speaks of NICs whose groups have inbound rules without host bits; for the others Coherence.AppendIsRebuildExactly and Coherence.FullRulesExactly say exactly what goes wrong.
- Coherence.AppendIsRebuild: is about rules that are not outbound or compile to nothing; Coherence.AppendIsRebuildExactly is about all rules that libpcap takes.
- Replay.SameContentsSameFilters: is about NICs whose groups have inbound rules without host bits, for the same reason.
- Replay.ReplayRebuilds: takes every NIC creation to succeed, as does Replay.ReplayOn.
- Compile.FwBuildSg: looks at the last character only of a text that has one, as does Compile.BuildIn; the code asks for it of an empty string too (api/server/graph.cc:1194, api/server/graph.cc:1242), where its value is undefined.
- Anti-spoofing settings inside a brick, TAP and bench NICs, statistics, export and the dot output.
- Graphs.Graph.MakeBranch: takes the link between antispoof and vhost to succeed; the code ignores its result.
- Graphs.Graph.NicAdd: asks that the NIC is not in its VNI yet, which `ActionNicAdd` sees to; leaves out TAP and bench NICs and the global trace; and bricks are named by allocation, so reuse of a freed brick's address is not modelled.
- Convert.ConvertNicMessage: leaves out bench NICs and the NIC type, which can make the conversion fail.
- Envelope.Server.Process: leaves out the exceptions caught around `ProcessRequest`, which are answered with an internal error.
- Envelope.Receive: leaves out the exit status of the client, which also looks at the status inside each response.
- Ini.FindEntry: reads over comments without keeping them, and does not model a comment between a torn header and the next key; multi-line values, several values for one key, and wide characters are not modelled.
- Ini.LoadData: leaves out the signature in front of a text, error returns, and loading into a store that is not empty.
- Ini.Save: writes a store that is in load order; the code sorts its containers into that order first, and also writes comments.
- The counter's value beyond growing, logging, and message sizes beyond what an `int` holds.
- Option parsing, configuration files, shell scripts and the rest of the style checker, which would add only simple members.
