/** The API's actions: they edit the in-memory model and keep the graph and the firewalls in step with it. */
module Apis {
  import opened Base
  import opened Bricks
  import opened Topology
  import opened Model
  import opened Filter
  import opened Compile
  import opened Meaning
  import opened Coherence
  import opened Graphs
  import Reading
  import Transitions
  import Order

  /** A NIC update; an absent field is left alone. */
  datatype Update = Update(
    id: string,
    ip: Option<seq<Ip>>,
    securityGroups: Option<seq<string>>,
    ipAntiSpoof: Option<bool>,
    packetTrace: Option<bool>,
    packetTracePath: string)

  /**
   Does the update switch the trace of a NIC on or off, or move it to another file?  That rewires the
   branch, mostly to a graph that the server does not know of; every other update leaves the wiring alone.
   */
  predicate Rewires(n: Nic, u: Update) {
    || (u.packetTrace.Some? && u.packetTrace.value != n.packetTrace)
    || (n.packetTrace && u.packetTracePath != "" && u.packetTracePath != n.packetTracePath)
  }

  /** The NICs of the model are exactly the NICs of the graph, each in its own VNI and in no other. */
  ghost predicate Lists(nics: map<string, Nic>, vnis: Vnis) {
    && (forall id :: id in nics ==>
          nics[id].id == id && nics[id].vni in vnis && id in vnis[nics[id].vni].nics)
    && (forall v, id :: v in vnis && id in vnis[v].nics ==> id in nics && nics[id].vni == v)
  }

  ghost predicate GroupsFiled(hash: string -> nat, groups: Groups) {
    forall id :: id in groups ==> groups[id].id == id && FiledByHash(hash, groups[id].rules)
  }

  /** `std::find`: the index of the first member equal to `ip`, or the number of members. */
  function FindIp(members: seq<Ip>, ip: Ip): (i: nat)
    ensures i <= |members| && (i < |members| ==> IpEqual(members[i], ip))
    ensures forall j :: 0 <= j < i ==> !IpEqual(members[j], ip)
  {
    if members == [] || IpEqual(members[0], ip) then 0 else 1 + FindIp(members[1..], ip)
  }

  datatype Contents = Contents(nics: map<string, Nic>, groups: Groups)

  datatype Request =
    | AddNic(nic: Nic, path: string, out: Outcome)
    | UpdateNic(update: Update)
    | DelNic(id: string)
    | AddSg(sg: Sg)
    | DelSg(id: string)
    | AddRule(id: string, rule: Rule)
    | DelRule(id: string, rule: Rule)
    | AddMember(id: string, ip: Ip)
    | DelMember(id: string, ip: Ip)

  /** What a request makes of the model; `ok` is the answer it got. */
  ghost function Step(hash: string -> nat, m: Contents, r: Request, ok: bool): Contents {
    match r
    case AddNic(nic, path, _) => m.(nics := if ok then m.nics[nic.id := nic.(path := path)] else m.nics - {nic.id})
    case UpdateNic(u) => if u.id in m.nics then m.(nics := m.nics[u.id := Updated(m.nics[u.id], u)]) else m
    case DelNic(id) => m.(nics := m.nics - {id})
    case AddSg(sg) =>
      if sg.id in m.groups && SgEqual(sg, m.groups[sg.id]) then m else m.(groups := m.groups[sg.id := sg])
    case DelSg(id) => m.(groups := m.groups - {id})
    case AddRule(id, rule) =>
      var h := hash(RuleKey(rule));
      if h in RulesIn(m.groups, id) then m else m.(groups := WithRule(m.groups, id, h, rule))
    case DelRule(id, rule) =>
      if id !in m.groups then m
      else m.(groups := m.groups[id := m.groups[id].(rules := m.groups[id].rules - {hash(RuleKey(rule))})])
    case AddMember(id, ip) =>
      var before := MembersIn(m.groups, id);
      var members := if FindIp(before, ip) < |before| then before else before + [ip];
      m.(groups := m.groups[id := Sg(id, members, RulesIn(m.groups, id))])
    case DelMember(id, ip) =>
      var before := MembersIn(m.groups, id);
      var i := FindIp(before, ip);
      if i == |before| then m
      else m.(groups := m.groups[id := m.groups[id].(members := before[..i] + before[i + 1..])])
  }

  /** A request that reaches the live reconfiguration of a trace. */
  predicate RewiresNow(m: Contents, r: Request) {
    r.UpdateNic? && r.update.id in m.nics && Rewires(m.nics[r.update.id], r.update)
  }

  ghost function Steps(hash: string -> nat, m: Contents, rs: seq<Request>, oks: seq<bool>): Contents
    requires |rs| == |oks|
  {
    if rs == [] then m
    else Step(hash, Steps(hash, m, rs[..|rs| - 1], oks[..|rs| - 1]), rs[|rs| - 1], oks[|rs| - 1])
  }

  class Api {
    const graph: Graph
    ghost const pton: Resolver
    const hash: string -> nat
    var nics: map<string, Nic>
    var groups: Groups

    constructor (graph: Graph, ghost pton: Resolver, hash: string -> nat)
      requires graph.Inv() && graph.Fresh() && graph.vnis == map[] && graph.pton == pton && KnowsDhcp(pton)
      ensures Valid() && nics == map[] && groups == map[]
      ensures this.graph == graph && this.pton == pton && this.hash == hash
    {
      this.graph, this.pton, this.hash := graph, pton, hash;
      nics, groups := map[], map[];
    }

    /** The rules given to the firewall of a NIC. */
    ghost function RulesOf(id: string): Ruleset
      reads `nics, graph`vnis, graph`rules
    {
      graph.Rules(KeyAt(nics, graph.vnis, id))
    }

    /** Every filtering NIC whose groups are inbound has the rules that its groups stand for. */
    ghost predicate AllCoherent()
      reads this, graph
    {
      forall id :: id in nics && !nics[id].bypassFiltering && Regular(groups, nics[id].securityGroups)
        ==> Coherent(pton, groups, nics[id], RulesOf(id))
    }

    ghost predicate ModelOk()
      reads this
    {
      && graph.pton == pton && KnowsDhcp(pton)
      && GroupsOk(pton, groups)
      && GroupsFiled(hash, groups)
      && forall id :: id in nics ==> AddressesOk(pton, nics[id].ipList)
    }

    /** Everything but the coherence of the firewalls. */
    ghost predicate Sane()
      reads this, graph
    {
      graph.Inv() && graph.Fresh() && Lists(nics, graph.vnis) && ModelOk()
    }

    ghost predicate Valid()
      reads this, graph
    {
      Sane() && AllCoherent()
    }

    // Propagating a change to the firewalls

    /** One NIC compiled afresh; no other firewall changes. */
    method Refresh(id: string)
      requires Sane() && id in nics
      modifies graph`rules, graph`queue, graph`current, graph`world, graph`loaded
      ensures Sane()
      ensures forall j :: j in nics ==> RulesOf(j) == Rebuilt(pton, j == id, groups, nics[j], old(RulesOf(j)))
    {
      hide Graph.Inv, Graph.FreshAt, ModelOk, FullRules;
      ApartFrom(id);
      SaneParts();
      graph.FwUpdate(nics[id], groups);
    }

    lemma ApartFrom(id: string)
      requires Sane() && id in nics
      ensures forall j :: j in nics && j != id ==> KeyAt(nics, graph.vnis, j) != KeyAt(nics, graph.vnis, id)
    {
      hide Graph.Inv, Graph.FreshAt, ModelOk;
      forall j | j in nics && j != id
        ensures graph.vnis[nics[j].vni].nics[j].key != graph.vnis[nics[id].vni].nics[id].key
      {
        graph.KeysApart(nics[j].vni, j, nics[id].vni, id);
      }
    }

    /** The inner loop of `SgUpdate`. */
    method RefreshIfListed(id: string, sg: string)
      requires Sane() && id in nics
      modifies graph`rules, graph`queue, graph`current, graph`world, graph`loaded
      ensures Sane()
      ensures forall j :: j in nics ==>
        RulesOf(j) == Rebuilt(pton, j == id && sg in nics[j].securityGroups, groups, nics[j], old(RulesOf(j)))
    {
      hide Sane, FullRules, RulesOf;
      var ids := nics[id].securityGroups;
      for b := 0 to |ids|
        invariant Sane()
        invariant forall j :: j in nics ==>
          RulesOf(j) == Rebuilt(pton, j == id && sg in ids[..b], groups, nics[j], old(RulesOf(j)))
      {
        assert ids[..b + 1] == ids[..b] + [ids[b]];
        if ids[b] == sg { Refresh(id); }
      }
      assert ids[..|ids|] == ids;
    }

    /** `SgUpdate`: every NIC that lists the group is compiled afresh. */
    method SgUpdate(sg: string)
      requires Sane()
      modifies graph`rules, graph`queue, graph`current, graph`world, graph`loaded
      ensures Sane()
      ensures forall j :: j in nics ==>
        RulesOf(j) == Rebuilt(pton, sg in nics[j].securityGroups, groups, nics[j], old(RulesOf(j)))
    {
      hide Sane, FullRules, RulesOf, Order.Texts;
      var order := Order.Texts(nics.Keys);
      for a := 0 to |order|
        invariant Sane()
        invariant forall j :: j in nics ==>
          RulesOf(j) == Rebuilt(pton, j in order[..a] && sg in nics[j].securityGroups, groups, nics[j], old(RulesOf(j)))
      {
        assert order[a] in order;
        assert order[..a + 1] == order[..a] + [order[a]];
        RefreshIfListed(order[a], sg);
      }
      assert order[..|order|] == order;
    }

    /** `SgUpdate` for one rule: every listing of the group appends the rule once. */
    method SgUpdateRule(sg: string, rule: Rule)
      requires Sane()
      modifies graph`rules, graph`queue, graph`current, graph`world, graph`loaded
      ensures Sane()
      ensures forall j :: j in nics ==>
        RulesOf(j) == Appended(pton, groups, rule, Count(nics[j].securityGroups, sg), nics[j], old(RulesOf(j)))
    {
      hide Sane, RulesOf, Order.Texts, Appended, Count;
      var order := Order.Texts(nics.Keys);
      AppendedNone(pton, groups, rule, nics);
      for a := 0 to |order|
        invariant Sane()
        invariant forall j :: j in nics ==>
          RulesOf(j) == Appended(pton, groups, rule, if j in order[..a] then Count(nics[j].securityGroups, sg) else 0, nics[j], old(RulesOf(j)))
      {
        assert order[a] in order;
        assert order[..a + 1] == order[..a] + [order[a]];
        FirstTime(nics.Keys, a);
        AppendIfListed(order[a], sg, rule);
      }
      assert order[..|order|] == order;
    }

    /** The inner loop. */
    method AppendIfListed(id: string, sg: string, rule: Rule)
      requires Sane() && id in nics
      modifies graph`rules, graph`queue, graph`current, graph`world, graph`loaded
      ensures Sane()
      ensures forall j :: j in nics ==>
        RulesOf(j) == Appended(pton, groups, rule, if j == id then Count(nics[j].securityGroups, sg) else 0, nics[j], old(RulesOf(j)))
    {
      hide Sane, RulesOf, Appended;
      var ids := nics[id].securityGroups;
      AppendedNone(pton, groups, rule, nics);
      for b := 0 to |ids|
        invariant Sane()
        invariant forall j :: j in nics ==>
          RulesOf(j) == Appended(pton, groups, rule, if j == id then Count(ids[..b], sg) else 0, nics[j], old(RulesOf(j)))
      {
        assert ids[..b + 1][..b] == ids[..b];
        if ids[b] == sg {
          AppendedMore(pton, groups, rule, Count(ids[..b], sg), nics[id], old(RulesOf(id)));
          Append(id, rule);
        }
      }
      assert ids[..|ids|] == ids;
    }

    method Append(id: string, rule: Rule)
      requires Sane() && id in nics
      modifies graph`rules, graph`queue, graph`current, graph`world, graph`loaded
      ensures Sane()
      ensures forall j :: j in nics ==>
        RulesOf(j) == Appended(pton, groups, rule, if j == id then 1 else 0, nics[j], old(RulesOf(j)))
    {
      hide Graph.Inv, Graph.FreshAt, ModelOk, RuleText, AddedRules, AddTimes;
      ApartFrom(id);
      SaneParts();
      AddOnce(pton, old(RulesOf(id)), rule, RuleText(groups, rule));
      AppendedNone(pton, groups, rule, nics);
      graph.FwAddRule(nics[id], rule, groups);
    }

    /** Since `start`, exactly the NICs that list a group of `updated` were compiled afresh. */
    ghost predicate Progress(updated: seq<string>, start: map<string, Ruleset>)
      reads this, graph
    {
      forall j :: j in nics ==>
        j in start && RulesOf(j) == Rebuilt(pton, Common(nics[j].securityGroups, updated), groups, nics[j], start[j])
    }

    ghost function Snapshot(): map<string, Ruleset>
      reads `nics, graph`vnis, graph`rules
    {
      map j | j in nics :: RulesOf(j)
    }

    lemma NoProgress()
      ensures Progress([], Snapshot())
    {}

    lemma GroupId(g: string)
      requires Sane() && g in groups
      ensures groups[g].id == g
    {
      hide Graph.Inv, Graph.FreshAt;
    }

    method UpdateGroup(g: string, before: seq<string>, ghost start: map<string, Ruleset>)
      requires Sane() && Progress(before, start)
      modifies graph`rules, graph`queue, graph`current, graph`world, graph`loaded
      ensures Sane() && Progress(before + [g], start)
    {
      hide Sane, RulesOf, FullRules;
      SgUpdate(g);
      forall j | j in nics
        ensures Common(nics[j].securityGroups, before + [g]) <==> Common(nics[j].securityGroups, before) || g in nics[j].securityGroups
      {
        CommonMore(nics[j].securityGroups, before, g);
      }
    }

    /** The innermost loop looks for a rule that refers to the modified group, and stops at the first. */
    method VisitGroup(g: string, modified: string, before: seq<string>, ghost start: map<string, Ruleset>)
      returns (updated: seq<string>)
      requires Sane() && Progress(before, start)
      modifies graph`rules, graph`queue, graph`current, graph`world, graph`loaded
      ensures Sane() && Progress(updated, start)
      ensures updated == if g !in before && References(groups, g, modified) then before + [g] else before
    {
      hide Sane, Progress, RuleList, References;
      updated := before;
      ReferencesIs(groups, g, modified);
      if g !in groups { return; }
      GroupId(g);
      var rules := RuleList(groups[g].rules);
      for c := 0 to |rules|
        invariant Sane() && Progress(before, start) && updated == before
        invariant g !in before ==> forall d :: 0 <= d < c ==> rules[d].securityGroup != modified
      {
        if rules[c].securityGroup == modified && groups[g].id !in updated {
          assert rules[c] in rules;
          UpdateGroup(groups[g].id, updated, start);
          updated := updated + [groups[g].id];
          return;
        }
      }
      assert g !in before ==> forall r :: r in rules ==> r.securityGroup != modified;
    }

    /** The middle loop: the groups that one NIC lists. */
    method VisitNic(id: string, modified: string, before: seq<string>, ghost start: map<string, Ruleset>)
      returns (updated: seq<string>)
      requires Sane() && id in nics && NoRepeats(before) && Progress(before, start)
      modifies graph`rules, graph`queue, graph`current, graph`world, graph`loaded
      ensures Sane() && NoRepeats(updated) && Progress(updated, start)
      ensures forall g :: g in updated <==> g in before || (g in nics[id].securityGroups && References(groups, g, modified))
    {
      hide Sane, Progress, References;
      updated := before;
      var ids := nics[id].securityGroups;
      for b := 0 to |ids|
        invariant Sane() && NoRepeats(updated) && Progress(updated, start)
        invariant forall g :: g in updated <==> g in before || (g in ids[..b] && References(groups, g, modified))
      {
        assert ids[..b + 1] == ids[..b] + [ids[b]];
        updated := VisitGroup(ids[b], modified, updated, start);
      }
      assert ids[..|ids|] == ids;
    }

    /**
     `SgUpdateRuleMembers`.  The groups whose update is started are those that some NIC lists and that have a
     rule referring to `modified`, each once; every NIC listing one of them is compiled afresh, and no other.
     */
    method SgUpdateRuleMembers(modified: string) returns (updated: seq<string>)
      requires Sane()
      modifies graph`rules, graph`queue, graph`current, graph`world, graph`loaded
      ensures Sane() && NoRepeats(updated)
      ensures forall g :: g in updated <==> References(groups, g, modified) && Listed(nics, g)
      ensures forall j :: j in nics ==>
        RulesOf(j) == Rebuilt(pton, Reaches(groups, nics[j].securityGroups, modified), groups, nics[j], old(RulesOf(j)))
    {
      hide Sane, Progress, Order.Texts, References, Rebuilt, RulesOf;
      updated := [];
      ghost var start := Snapshot();
      NoProgress();
      var order := Order.Texts(nics.Keys);
      for a := 0 to |order|
        invariant Sane() && NoRepeats(updated) && Progress(updated, start)
        invariant forall g :: g in updated <==> References(groups, g, modified) && ListedBy(nics, order[..a], g)
      {
        assert order[a] in order;
        updated := VisitNic(order[a], modified, updated, start);
        forall g ensures ListedBy(nics, order[..a + 1], g) <==> ListedBy(nics, order[..a], g) || g in nics[order[a]].securityGroups {
          ListedMore(nics, order, a, g);
        }
      }
      assert order[..|order|] == order;
      ProgressMade(updated, modified, start);
    }

    lemma ProgressMade(updated: seq<string>, modified: string, start: map<string, Ruleset>)
      requires Progress(updated, start)
      requires forall g :: g in updated <==> References(groups, g, modified) && Listed(nics, g)
      ensures forall j :: j in nics ==>
        j in start && RulesOf(j) == Rebuilt(pton, Reaches(groups, nics[j].securityGroups, modified), groups, nics[j], start[j])
    {
      hide References, RulesOf, Rebuilt;
      forall j | j in nics ensures Common(nics[j].securityGroups, updated) <==> Reaches(groups, nics[j].securityGroups, modified) {
        assert forall g :: g in nics[j].securityGroups ==> Listed(nics, g);
      }
    }

    // The actions

    /** Each NIC was compiled afresh, or was coherent under the groups `a` and does not see the change. */
    lemma Settle(a: Groups, before: map<string, Ruleset>)
      requires Sane()
      requires forall j :: j in nics ==>
        && j in before
        && (RulesOf(j) == Rebuilt(pton, true, groups, nics[j], before[j]) || (RulesOf(j) == before[j] && SameFor(a, groups, nics[j].securityGroups)))
        && (!nics[j].bypassFiltering && Regular(a, nics[j].securityGroups) ==> Coherent(pton, a, nics[j], before[j]))
      ensures Valid()
    {
      hide Graph.Inv, Graph.FreshAt, RulesOf, FullRules, SameFor, Regular, Coherent, GroupsOk;
      forall j | j in nics && !nics[j].bypassFiltering && Regular(groups, nics[j].securityGroups)
        ensures Coherent(pton, groups, nics[j], RulesOf(j))
      {
        Settled(pton, a, groups, nics[j], before[j], RulesOf(j));
      }
    }

    lemma Coherently()
      requires Valid()
      ensures Sane()
      ensures forall j :: j in nics ==>
        && j in Snapshot() && Snapshot()[j] == RulesOf(j)
        && (!nics[j].bypassFiltering && Regular(groups, nics[j].securityGroups) ==> Coherent(pton, groups, nics[j], Snapshot()[j]))
    {
      hide Sane, RulesOf, Regular, Coherent;
    }

    /** What replacing one group needs of the model. */
    method PutGroup(sg: Sg)
      requires Sane() && GroupOk(pton, sg) && FiledByHash(hash, sg.rules)
      modifies `groups
      ensures Sane() && groups == old(groups)[sg.id := sg] && ElsewhereSame(old(groups), groups, sg.id)
    {
      hide Graph.Inv, Graph.FreshAt, GroupOk, FiledByHash, Lists;
      groups := groups[sg.id := sg];
    }

    method ActionSgAdd(sg: Sg)
      requires Valid() && GroupOk(pton, sg) && FiledByHash(hash, sg.rules)
      modifies `groups, graph`rules, graph`queue, graph`current, graph`world, graph`loaded
      ensures Valid()
      ensures groups == if sg.id in old(groups) && SgEqual(sg, old(groups)[sg.id]) then old(groups) else old(groups)[sg.id := sg]
      ensures sg.id in groups && groups[sg.id].id == sg.id
      ensures (sg.id in old(groups) ==> Comparable(hash, sg, old(groups)[sg.id])) ==> SgUpToZeros(sg, groups[sg.id])
    {
      hide *;
      GroupTaken(sg);
      if sg.id in groups && SgEqual(sg, groups[sg.id]) { return; }
      Coherently();
      ghost var before, a := Snapshot(), groups;
      PutGroup(sg);
      PropagateChange(sg.id, a, before);
    }

    /** A group that is dropped because it compares equal is there already, up to zeros. */
    lemma GroupTaken(sg: Sg)
      ensures SgUpToZeros(sg, sg)
      ensures sg.id in groups && SgEqual(sg, groups[sg.id]) ==>
        groups[sg.id].id == sg.id && (Comparable(hash, sg, groups[sg.id]) ==> SgUpToZeros(sg, groups[sg.id]))
    {
      if sg.id in groups && Comparable(hash, sg, groups[sg.id]) { SgEqualExactly(hash, sg, groups[sg.id]); }
    }

    /** `SgUpdate(sg); SgUpdateRuleMembers(sg);` */
    method PropagateChange(s: string, ghost a: Groups, ghost before: map<string, Ruleset>)
      requires Sane() && ElsewhereSame(a, groups, s)
      requires forall j :: j in nics ==>
        && j in before && RulesOf(j) == before[j]
        && (!nics[j].bypassFiltering && Regular(a, nics[j].securityGroups) ==> Coherent(pton, a, nics[j], before[j]))
      modifies graph`rules, graph`queue, graph`current, graph`world, graph`loaded
      ensures Valid()
    {
      hide *;
      SgUpdate(s);
      var updated := SgUpdateRuleMembers(s);
      forall j | j in nics
        ensures RulesOf(j) == Rebuilt(pton, true, groups, nics[j], before[j]) || (RulesOf(j) == before[j] && SameFor(a, groups, nics[j].securityGroups))
      {
        RebuiltTwice(pton, Reaches(groups, nics[j].securityGroups, s), s in nics[j].securityGroups, groups, nics[j], before[j]);
        if !Reaches(groups, nics[j].securityGroups, s) && s !in nics[j].securityGroups {
          NotReached(groups, nics[j].securityGroups, s);
          Untouched(a, groups, s, nics[j].securityGroups);
        }
      }
      Settle(a, before);
    }

    method ActionSgDel(id: string)
      requires Valid()
      modifies `groups, graph`rules, graph`queue, graph`current, graph`world, graph`loaded
      ensures Valid() && groups == old(groups) - {id}
    {
      hide *;
      if id !in groups {
        assert groups - {id} == groups;
        return;
      }
      Coherently();
      ghost var before, a := Snapshot(), groups;
      DropGroup(id);
      PropagateChange(id, a, before);
    }

    method DropGroup(id: string)
      requires Sane()
      modifies `groups
      ensures Sane() && groups == old(groups) - {id} && ElsewhereSame(old(groups), groups, id)
    {
      hide Graph.Inv, Graph.FreshAt, GroupOk, FiledByHash, Lists;
      groups := groups - {id};
    }

    /** A group that does not exist yet is created empty; no firewall changes, and none has to. */
    method EnsureGroup(id: string)
      requires Valid()
      modifies `groups
      ensures Valid() && id in groups && groups == if id in old(groups) then old(groups) else old(groups)[id := Sg(id, [], map[])]
    {
      hide *;
      if id !in groups {
        Coherently();
        ghost var before, a := Snapshot(), groups;
        NewGroupOk(pton, hash, id);
        PutGroup(Sg(id, [], map[]));
        forall j | j in nics ensures SameFor(a, groups, nics[j].securityGroups) { EmptyGroup(a, id, nics[j].securityGroups); }
        Settle(a, before);
      }
    }

    method ActionSgRuleAdd(id: string, rule: Rule)
      requires Valid() && RuleOk(pton, rule) && '/' !in rule.cidr.address.text
      modifies `groups, graph`rules, graph`queue, graph`current, graph`world, graph`loaded
      ensures Valid()
      ensures var h := hash(RuleKey(rule));
              groups == if h in RulesIn(old(groups), id) then old(groups) else WithRule(old(groups), id, h, rule)
      decreases if id in groups then 0 else 1
    {
      hide *;
      var h := hash(RuleKey(rule));
      ghost var a := groups;
      RulesInIs(groups, id);
      if id !in groups {
        EnsureGroup(id);
        ActionSgRuleAdd(id, rule);
        RulesInIs(a[id := Sg(id, [], map[])], id);
        WithRuleIs(a, id, h, rule);
        WithRuleIs(a[id := Sg(id, [], map[])], id, h, rule);
        return;
      }
      if h in groups[id].rules { return; }
      Coherently();
      ghost var before := Snapshot();
      WithRuleIs(groups, id, h, rule);
      GroupId(id);
      RuleGroupOk(id, rule);
      PutGroup(groups[id].(rules := groups[id].rules[h := rule]));
      SgUpdateRule(id, rule);
      AppendedSettles(a, id, h, rule, before);
    }

    lemma RuleGroupOk(id: string, rule: Rule)
      requires Sane() && id in groups && RuleOk(pton, rule) && '/' !in rule.cidr.address.text
      ensures var sg := groups[id].(rules := groups[id].rules[hash(RuleKey(rule)) := rule]);
              GroupOk(pton, sg) && FiledByHash(hash, sg.rules) && sg.id == id
    {
      hide Graph.Inv, Graph.FreshAt, Lists, RuleOk, IpOk, RuleKey;
      assert GroupOk(pton, groups[id]);
    }

    /** The NICs that list the group got the rule appended; the others do not see it. */
    lemma AppendedSettles(a: Groups, id: string, h: nat, rule: Rule, before: map<string, Ruleset>)
      requires Sane() && groups == WithRule(a, id, h, rule) && h !in RulesIn(a, id)
      requires forall j :: j in nics ==>
        && j in before
        && RulesOf(j) == Appended(pton, groups, rule, Count(nics[j].securityGroups, id), nics[j], before[j])
        && (!nics[j].bypassFiltering && Regular(a, nics[j].securityGroups) ==> Coherent(pton, a, nics[j], before[j]))
      ensures Valid()
    {
      hide Graph.Inv, Graph.FreshAt, RulesOf, RuleText, SameFor, Regular, Coherent, GroupsOk, WithRule, Count, AddTimes, Lists, GroupsFiled;
      forall j | j in nics && !nics[j].bypassFiltering && Regular(groups, nics[j].securityGroups)
        ensures Coherent(pton, groups, nics[j], RulesOf(j))
      {
        var ids := nics[j].securityGroups;
        CountIn(ids, id);
        RegularWithRule(a, id, h, rule, ids);
        if id in ids {
          AppendCoherent(pton, a, id, h, rule, nics[j], before[j]);
        } else {
          NothingAdded(pton, before[j], rule, RuleText(groups, rule));
          RuleElsewhere(a, id, h, rule, ids);
          SameCoherent(pton, a, groups, nics[j], before[j]);
        }
      }
    }

    method ActionSgRuleDel(id: string, rule: Rule)
      requires Valid()
      modifies `groups, graph`rules, graph`queue, graph`current, graph`world, graph`loaded
      ensures Valid()
      ensures groups == if id !in old(groups) then old(groups) else
        old(groups)[id := old(groups)[id].(rules := old(groups)[id].rules - {hash(RuleKey(rule))})]
    {
      hide *;
      if id !in groups { return; }
      var h := hash(RuleKey(rule));
      if h !in groups[id].rules {
        assert groups[id].rules - {h} == groups[id].rules;
        assert groups[id].(rules := groups[id].rules - {h}) == groups[id];
        return;
      }
      Coherently();
      ghost var before, a := Snapshot(), groups;
      GroupId(id);
      LessGroupOk(id, h);
      RulesInIs(a, id);
      PutGroup(groups[id].(rules := groups[id].rules - {h}));
      SgUpdate(id);
      forall j | j in nics
        ensures RulesOf(j) == Rebuilt(pton, true, groups, nics[j], before[j]) || (RulesOf(j) == before[j] && SameFor(a, groups, nics[j].securityGroups))
      {
        RebuiltTwice(pton, false, id in nics[j].securityGroups, groups, nics[j], before[j]);
        if id !in nics[j].securityGroups { RulesElsewhere(a, id, groups[id], nics[j].securityGroups); }
      }
      Settle(a, before);
    }

    lemma LessGroupOk(id: string, h: nat)
      requires Sane() && id in groups
      ensures var sg := groups[id].(rules := groups[id].rules - {h});
              GroupOk(pton, sg) && FiledByHash(hash, sg.rules)
    {
      hide Graph.Inv, Graph.FreshAt, Lists, RuleOk, IpOk, RuleKey;
      assert GroupOk(pton, groups[id]);
    }

    method ActionSgMemberAdd(id: string, ip: Ip)
      requires Valid() && IpOk(pton, ip)
      modifies `groups, graph`rules, graph`queue, graph`current, graph`world, graph`loaded
      ensures Valid() && id in groups
      ensures groups == old(groups)[id := groups[id]] && groups[id].id == id && groups[id].rules == RulesIn(old(groups), id)
      ensures var before := MembersIn(old(groups), id);
              groups[id].members == if FindIp(before, ip) < |before| then before else before + [ip]
    {
      hide *;
      RulesInIs(groups, id);
      EnsureGroup(id);
      Coherently();
      GroupId(id);
      var sg := groups[id];
      if FindIp(sg.members, ip) != |sg.members| { return; }
      MoreMembersOk(id, ip);
      ChangeMembers(sg.(members := sg.members + [ip]));
    }

    lemma MoreMembersOk(id: string, ip: Ip)
      requires Sane() && id in groups && IpOk(pton, ip)
      ensures GroupOk(pton, groups[id].(members := groups[id].members + [ip]))
      ensures FiledByHash(hash, groups[id].rules)
    {
      hide Graph.Inv, Graph.FreshAt, Lists, RuleOk, IpOk, RuleKey;
      assert GroupOk(pton, groups[id]);
    }

    /** The members of an existing group change; `SgUpdateRuleMembers` is all the propagation there is. */
    method ChangeMembers(sg: Sg)
      requires Valid() && GroupOk(pton, sg) && FiledByHash(hash, sg.rules)
      requires sg.id in groups && sg.rules == groups[sg.id].rules
      modifies `groups, graph`rules, graph`queue, graph`current, graph`world, graph`loaded
      ensures Valid() && groups == old(groups)[sg.id := sg]
    {
      hide *;
      Coherently();
      ghost var before, a := Snapshot(), groups;
      RulesInIs(groups, sg.id);
      PutGroup(sg);
      RulesInIs(groups, sg.id);
      var updated := SgUpdateRuleMembers(sg.id);
      forall j | j in nics
        ensures RulesOf(j) == Rebuilt(pton, true, groups, nics[j], before[j]) || (RulesOf(j) == before[j] && SameFor(a, groups, nics[j].securityGroups))
      {
        RebuiltTwice(pton, false, Reaches(groups, nics[j].securityGroups, sg.id), groups, nics[j], before[j]);
        if !Reaches(groups, nics[j].securityGroups, sg.id) {
          NotReached(groups, nics[j].securityGroups, sg.id);
          Untouched(a, groups, sg.id, nics[j].securityGroups);
        }
      }
      Settle(a, before);
    }

    method ActionSgMemberDel(id: string, ip: Ip)
      requires Valid()
      modifies `groups, graph`rules, graph`queue, graph`current, graph`world, graph`loaded
      ensures Valid()
      ensures id !in old(groups) || FindIp(old(groups)[id].members, ip) == |old(groups)[id].members| ==> groups == old(groups)
      ensures id in old(groups) && FindIp(old(groups)[id].members, ip) < |old(groups)[id].members| ==>
        var m := old(groups)[id].members;
        var i := FindIp(m, ip);
        groups == old(groups)[id := old(groups)[id].(members := m[..i] + m[i + 1..])]
    {
      hide *;
      if id !in groups { return; }
      var sg := groups[id];
      var i := FindIp(sg.members, ip);
      if i == |sg.members| { return; }
      Coherently();
      GroupId(id);
      FewerMembersOk(id, i);
      ChangeMembers(sg.(members := sg.members[..i] + sg.members[i + 1..]));
    }

    lemma FewerMembersOk(id: string, i: nat)
      requires Sane() && id in groups && i < |groups[id].members|
      ensures GroupOk(pton, groups[id].(members := groups[id].members[..i] + groups[id].members[i + 1..]))
      ensures FiledByHash(hash, groups[id].rules)
    {
      hide Graph.Inv, Graph.FreshAt, Lists, RuleOk, IpOk, RuleKey;
      assert GroupOk(pton, groups[id]);
    }

    /** An existing NIC with this id is removed first, whatever its VNI; the failed addition then leaves neither. */
    method ActionNicAdd(nic: Nic, path: string, out: Outcome) returns (ok: bool)
      requires Valid() && AddressesOk(pton, nic.ipList)
      modifies `nics, graph
      ensures Valid()
      ensures nics == if ok then old(nics)[nic.id := nic.(path := path)] else old(nics) - {nic.id}
      ensures ok <==> out.firewall && Builds(out, nic.bypassFiltering, nic.packetTrace)
                      && (|Graph.NicsAt(old(graph.vnis), nic.vni) - {nic.id}| == 1 ==> out.switch)
      decreases if nic.id in nics then 1 else 0
    {
      hide *;
      if nic.id in nics {
        RemoveNic(nic.id);
        ok := ActionNicAdd(nic, path, out);
        assert old(nics) - {nic.id} - {nic.id} == old(nics) - {nic.id};
        assert (old(nics) - {nic.id})[nic.id := nic.(path := path)] == old(nics)[nic.id := nic.(path := path)];
        return;
      }
      ok := InsertNic(nic, path, out);
      assert nic.id !in old(nics) ==> old(nics) - {nic.id} == old(nics);
    }

    /** `graph.NicDel` and the erasure from the model. */
    method RemoveNic(id: string)
      requires Valid() && id in nics
      modifies `nics, graph
      ensures Valid() && nics == old(nics) - {id}
      ensures forall v :: Graph.NicsAt(graph.vnis, v) == Graph.NicsAt(old(graph.vnis), v) - {id}
    {
      hide *;
      Coherently();
      SaneParts();
      ghost var before := Snapshot();
      DropFromGraph(id);
      ForgetNic(id);
      forall j | j in nics ensures SameFor(groups, groups, nics[j].securityGroups) { SameForItself(groups, nics[j].securityGroups); }
      forall j | j in nics ensures RulesOf(j) == before[j] { RulesOfIs(j); }
      Settle(groups, before);
    }

    method DropFromGraph(id: string)
      requires Sane() && id in nics
      modifies graph
      ensures graph.Inv() && graph.Fresh() && Lists(nics - {id}, graph.vnis)
      ensures forall j :: j in nics && j != id ==> graph.Rules(KeyAt(nics - {id}, graph.vnis, j)) == old(RulesOf(j))
      ensures forall v :: Graph.NicsAt(graph.vnis, v) == Graph.NicsAt(old(graph.vnis), v) - {id}
    {
      hide Graph.Inv, Graph.FreshAt, Lists, ModelOk, KeyAt, Graph.NicsAt;
      ghost var vnis0 := graph.vnis;
      ListsNic(nics, vnis0, id);
      graph.NicDel(id, nics[id].vni);
      ListsDrop(nics, vnis0, graph.vnis, id);
    }

    method ForgetNic(id: string)
      requires graph.Inv() && graph.Fresh() && ModelOk() && Lists(nics - {id}, graph.vnis)
      modifies `nics
      ensures Sane() && nics == old(nics) - {id}
    {
      hide Graph.Inv, Graph.FreshAt, Lists, GroupsOk, GroupsFiled, AddressesOk;
      nics := nics - {id};
    }

    method RememberNic(nic: Nic)
      requires graph.Inv() && graph.Fresh() && ModelOk() && Lists(nics[nic.id := nic], graph.vnis) && AddressesOk(pton, nic.ipList)
      modifies `nics
      ensures Sane() && nics == old(nics)[nic.id := nic]
    {
      hide Graph.Inv, Graph.FreshAt, Lists, GroupsOk, GroupsFiled, AddressesOk;
      nics := nics[nic.id := nic];
    }

    lemma SaneParts()
      requires Sane()
      ensures graph.Inv() && graph.Fresh() && ModelOk() && Lists(nics, graph.vnis) && GroupsOk(pton, groups)
      ensures graph.pton == pton && KnowsDhcp(pton)
    {
      hide Graph.Inv, Graph.FreshAt;
    }

    lemma RulesOfIs(j: string)
      ensures RulesOf(j) == graph.Rules(KeyAt(nics, graph.vnis, j))
    {}

    method InsertNic(nic: Nic, path: string, out: Outcome) returns (ok: bool)
      requires Valid() && AddressesOk(pton, nic.ipList) && nic.id !in nics
      modifies `nics, graph
      ensures Valid()
      ensures nics == if ok then old(nics)[nic.id := nic.(path := path)] else old(nics)
      ensures ok <==> out.firewall && Builds(out, nic.bypassFiltering, nic.packetTrace)
                      && (|Graph.NicsAt(old(graph.vnis), nic.vni) - {nic.id}| == 1 ==> out.switch)
    {
      hide *;
      Coherently();
      SaneParts();
      ghost var before := Snapshot();
      ok := AddToGraph(nic, path, out);
      if ok {
        RememberNic(nic.(path := path));
        RulesOfIs(nic.id);
        before := before[nic.id := RulesOf(nic.id)];
        forall j | j in nics ensures RulesOf(j) == before[j] { RulesOfIs(j); }
        PathIrrelevant(pton, groups, nic, path);
        RegularCoherent(pton, groups, nic.(path := path));
      } else {
        SaneAgain();
      }
      forall j | j in nics ensures SameFor(groups, groups, nics[j].securityGroups) { SameForItself(groups, nics[j].securityGroups); }
      Settle(groups, before);
    }

    lemma SaneAgain()
      requires graph.Inv() && graph.Fresh() && ModelOk() && Lists(nics, graph.vnis)
      ensures Sane()
    {}

    /** `graph.NicAdd`: whether or not it succeeds, no other firewall changes. */
    method AddToGraph(nic: Nic, path: string, out: Outcome) returns (ok: bool)
      requires Sane() && nic.id !in nics
      modifies graph
      ensures graph.Inv() && graph.Fresh()
      ensures var nics' := if ok then nics[nic.id := nic.(path := path)] else nics;
              && Lists(nics', graph.vnis)
              && (forall j :: j in nics ==> graph.Rules(KeyAt(nics', graph.vnis, j)) == old(RulesOf(j)) && RulesOf(j) == old(RulesOf(j)))
              && (ok && !nic.bypassFiltering ==> graph.Rules(KeyAt(nics', graph.vnis, nic.id)) == FullRules(pton, groups, nic))
      ensures ok <==> out.firewall && Builds(out, nic.bypassFiltering, nic.packetTrace)
                      && (|Graph.NicsAt(old(graph.vnis), nic.vni) - {nic.id}| == 1 ==> out.switch)
    {
      hide Graph.Inv, Graph.FreshAt, Lists, ModelOk, KeyAt, FullRules, Graph.NicsAt;
      SaneParts();
      ListsNot(nics, graph.vnis, nic);
      OldKeys();
      ghost var vnis0 := graph.vnis;
      ok := graph.NicAdd(nic, groups, out);
      ListsAdd(nics, vnis0, graph.vnis, nic.(path := path), ok);
    }

    method ActionNicDel(id: string)
      requires Valid()
      modifies `nics, graph
      ensures Valid() && nics == old(nics) - {id}
    {
      hide *;
      if id in nics {
        RemoveNic(id);
      } else {
        assert nics - {id} == nics;
      }
    }

    /**
     The firewall is compiled afresh when the addresses or the groups of the NIC have changed; asking for
     the trace that the NIC has already sends the poll list once more.
     */
    method ActionNicUpdate(u: Update) returns (ok: bool)
      requires Valid() && (u.ip.Some? ==> AddressesOk(pton, u.ip.value))
      requires u.id in nics ==> !Rewires(nics[u.id], u)
      modifies `nics, graph`rules, graph`queue, graph`current, graph`world, graph`loaded
      ensures Valid() && (ok <==> u.id in old(nics))
      ensures nics == if ok then old(nics)[u.id := Updated(old(nics)[u.id], u)] else old(nics)
    {
      hide *;
      if u.id !in nics { return false; }
      Coherently();
      ghost var before := Snapshot();
      NicAddressesOk(u.id);
      var n, needFirewall := ApplyUpdate(nics[u.id], u);
      ReplaceNic(n);
      if u.packetTrace.Some? { RepeatPollList(); }
      if needFirewall {
        Refresh(u.id);
        before := before[u.id := RulesOf(u.id)];
        SaneParts();
        RegularCoherent(pton, groups, n);
        RebuiltFacts(pton, groups, nics);
      } else {
        SameSettings(pton, groups, old(nics)[u.id], n, before[u.id]);
      }
      forall j | j in nics ensures SameFor(groups, groups, nics[j].securityGroups) { SameForItself(groups, nics[j].securityGroups); }
      Settle(groups, before);
      ok := true;
    }

    method ApplyUpdate(nic: Nic, u: Update) returns (n: Nic, needFirewall: bool)
      requires AddressesOk(pton, nic.ipList) && (u.ip.Some? ==> AddressesOk(pton, u.ip.value))
      ensures n == Updated(nic, u) && AddressesOk(pton, n.ipList)
      ensures n.id == nic.id && n.vni == nic.vni && n.bypassFiltering == nic.bypassFiltering
      ensures !needFirewall ==> n.ipList == nic.ipList && n.securityGroups == nic.securityGroups
    {
      hide MembersEqual, AddressesOk, Default;
      DefaultIs(u.securityGroups, nic.securityGroups);
      DefaultIs(u.ipAntiSpoof, nic.ipAntiSpoof);
      DefaultIs(u.packetTrace, nic.packetTrace);
      n, needFirewall := nic, false;
      if u.ip.Some? && !MembersEqual(n.ipList, u.ip.value) {
        n := n.(ipList := u.ip.value);
        needFirewall := true;
      }
      if u.securityGroups.Some? && n.securityGroups != u.securityGroups.value {
        n := n.(securityGroups := u.securityGroups.value);
        needFirewall := true;
      }
      if u.ipAntiSpoof.Some? && u.ipAntiSpoof.value != n.ipAntiSpoof { n := n.(ipAntiSpoof := u.ipAntiSpoof.value); }
      n := TraceSettings(n, u);
    }

    /** The last two settings of an update. */
    static method TraceSettings(nic: Nic, u: Update) returns (n: Nic)
      ensures n == nic.(packetTrace := Default(u.packetTrace, nic.packetTrace),
                        packetTracePath := if Default(u.packetTrace, nic.packetTrace) && u.packetTracePath != "" then u.packetTracePath else nic.packetTracePath)
    {
      n := nic;
      if u.packetTrace.Some? { n := n.(packetTrace := u.packetTrace.value); }
      if n.packetTrace && u.packetTracePath != "" { n := n.(packetTracePath := u.packetTracePath); }
    }

    lemma NicAddressesOk(id: string)
      requires Sane() && id in nics
      ensures AddressesOk(pton, nics[id].ipList) && nics[id].id == id
    {
      hide Graph.Inv, Graph.FreshAt;
    }

    /** `NicConfigPacketTrace` with the setting that the NIC has: only `update_poll` is left of it. */
    method RepeatPollList()
      requires Sane()
      modifies graph`queue, graph`current, graph`world, graph`loaded
      ensures Sane()
    {
      hide Transitions.AtRest, PollList, ModelOk, Lists, Graph.FreshAt, Apply;
      graph.UpdatePollList();
    }

    /** New settings for a NIC that stays in its VNI. */
    method ReplaceNic(n: Nic)
      requires Sane() && n.id in nics && n.vni == nics[n.id].vni && AddressesOk(pton, n.ipList)
      modifies `nics
      ensures Sane() && nics == old(nics)[n.id := n]
      ensures forall j :: j in nics ==> RulesOf(j) == old(RulesOf(j))
    {
      hide Graph.Inv, Graph.FreshAt, GroupsOk, GroupsFiled, AddressesOk;
      nics := nics[n.id := n];
    }

    // Runs

    ghost function Content(): Contents
      reads this
    {
      Contents.Contents(nics, groups)
    }

    ghost predicate RequestOk(r: Request) {
      match r
      case AddNic(nic, _, _) => AddressesOk(pton, nic.ipList)
      case UpdateNic(u) => u.ip.Some? ==> AddressesOk(pton, u.ip.value)
      case AddSg(sg) => GroupOk(pton, sg) && FiledByHash(hash, sg.rules)
      case AddRule(_, rule) => RuleOk(pton, rule) && '/' !in rule.cidr.address.text
      case AddMember(_, ip) => IpOk(pton, ip)
      case _ => true
    }

    method Handle(r: Request) returns (ok: bool)
      requires Valid() && RequestOk(r) && !RewiresNow(Content(), r)
      modifies this, graph
      ensures Valid() && Content() == Step(hash, old(Content()), r, ok)
    {
      hide Valid, IpOk, RuleOk, GroupOk, FiledByHash, AddressesOk;
      ok := true;
      match r
      case AddNic(nic, path, out) => ok := ActionNicAdd(nic, path, out);
      case UpdateNic(u) => ok := ActionNicUpdate(u);
      case DelNic(id) => ActionNicDel(id);
      case AddSg(sg) => ActionSgAdd(sg);
      case DelSg(id) => ActionSgDel(id);
      case AddRule(id, rule) => ActionSgRuleAdd(id, rule);
      case DelRule(id, rule) => ActionSgRuleDel(id, rule);
      case AddMember(id, ip) => ActionSgMemberAdd(id, ip);
      case DelMember(id, ip) => ActionSgMemberDel(id, ip);
    }

    /**
     Any run of requests, with the poller running at any pace in between, up to the first request that
     would rewire a branch for its trace, if there is one; then a drain of the queue.
     */
    method Run(rs: seq<Request>) returns (oks: seq<bool>)
      requires Valid() && forall r :: r in rs ==> RequestOk(r)
      modifies this, graph
      ensures Valid() && graph.Quiet() && |oks| <= |rs|
      ensures Content() == Steps(hash, old(Content()), rs[..|oks|], oks)
      ensures |oks| < |rs| ==> RewiresNow(Content(), rs[|oks|])
    {
      hide Valid, Step, RequestOk, RewiresNow;
      oks := [];
      assert rs[..0] == [];
      while |oks| < |rs| && !RewiresNow(Contents.Contents(nics, groups), rs[|oks|])
        invariant Valid() && |oks| <= |rs| && Content() == Steps(hash, old(Content()), rs[..|oks|], oks)
        decreases |rs| - |oks|
      {
        var i := |oks|;
        assert rs[i] in rs;
        var ok := Handle(rs[i]);
        assert rs[..i + 1][..i] == rs[..i] && (oks + [ok])[..i] == oks;
        oks := oks + [ok];
      }
      Drain();
    }

    method Drain()
      requires Valid()
      modifies graph`queue, graph`current, graph`world, graph`loaded
      ensures Valid() && graph.Quiet()
    {
      hide Transitions.AtRest, PollList, ModelOk, Lists, Coherent, Regular, Graph.FreshAt, Apply;
      graph.WaitEmptyQueue();
    }

    /**
     Once the queue has drained, a filtering NIC whose groups have inbound rules only receives exactly the
     packets that its groups allow, and sends exactly what comes from its own addresses, and DHCP.
     */
    lemma FiltersEnforceGroups(id: string, k: Packet)
      requires Valid() && graph.Quiet()
      requires id in nics && !nics[id].bypassFiltering && Regular(groups, nics[id].securityGroups)
      ensures var loaded := graph.Loaded(KeyAt(nics, graph.vnis, id));
              && (SideAllows(pton, loaded.west, k) <==> Allowed(groups, nics[id].securityGroups, k))
              && (SideAllows(pton, loaded.east, k) <==> MaySend(nics[id].ipList, k))
    {
      hide Graph.Inv, Allowed, Accepts, OutText, GroupsOk, Lists, MaySend, Regular, KnowsDhcp, IpOk, Reading.Sound;
      var key := KeyAt(nics, graph.vnis, id);
      assert graph.FreshAt(key);
      OutFilterMeans(pton, nics[id].ipList, k);
      assert Coherent(pton, groups, nics[id], RulesOf(id));
    }

    lemma OldKeys()
      requires Sane()
      ensures forall j :: j in nics ==> KeyAt(nics, graph.vnis, j) < graph.nextKey
    {
      hide Graph.Inv, Graph.FreshAt, ModelOk;
      forall j | j in nics ensures KeyAt(nics, graph.vnis, j) < graph.nextKey {
        graph.KeysApart(nics[j].vni, j, nics[j].vni, j);
      }
    }
  }

  /** What an update makes of a NIC's settings. */
  function Updated(n: Nic, u: Update): Nic {
    n.(
      ipList := if u.ip.Some? && !MembersEqual(n.ipList, u.ip.value) then u.ip.value else n.ipList,
      securityGroups := Default(u.securityGroups, n.securityGroups),
      ipAntiSpoof := Default(u.ipAntiSpoof, n.ipAntiSpoof),
      packetTrace := Default(u.packetTrace, n.packetTrace),
      packetTracePath := if Default(u.packetTrace, n.packetTrace) && u.packetTracePath != "" then u.packetTracePath else n.packetTracePath)
  }

  lemma SameSettings(pton: Resolver, groups: Groups, nic: Nic, n: Nic, r: Ruleset)
    requires n.ipList == nic.ipList && n.securityGroups == nic.securityGroups
    ensures Coherent(pton, groups, nic, r) <==> Coherent(pton, groups, n, r)
  {}

  lemma PathIrrelevant(pton: Resolver, groups: Groups, nic: Nic, path: string)
    ensures FullRules(pton, groups, nic.(path := path)) == FullRules(pton, groups, nic)
  {}

  lemma ListsAdd(nics: map<string, Nic>, vnis: Vnis, vnis': Vnis, nic: Nic, ok: bool)
    requires Lists(nics, vnis) && nic.id !in nics && nic.vni in vnis' && vnis' == vnis[nic.vni := vnis'[nic.vni]]
    requires var at := Graph.NicsAt(vnis, nic.vni); var at' := vnis'[nic.vni].nics;
             if ok then nic.id in at' && at' == at[nic.id := at'[nic.id]] else at' == at
    ensures var nics' := if ok then nics[nic.id := nic] else nics;
            && Lists(nics', vnis')
            && (forall j :: j in nics ==> KeyAt(nics', vnis', j) == KeyAt(nics, vnis, j) == KeyAt(nics, vnis', j))
            && (ok ==> KeyAt(nics', vnis', nic.id) == vnis'[nic.vni].nics[nic.id].key)
  {}

  lemma RebuiltTwice(pton: Resolver, yes: bool, also: bool, groups: Groups, nic: Nic, before: Ruleset)
    ensures var now := Rebuilt(pton, yes, groups, nic, Rebuilt(pton, also, groups, nic, before));
            now == if yes || also then Rebuilt(pton, true, groups, nic, before) else before
    ensures Rebuilt(pton, false, groups, nic, before) == before
  {}

  lemma RebuiltFacts(pton: Resolver, groups: Groups, nics: map<string, Nic>)
    ensures forall j, r :: j in nics ==> Rebuilt(pton, false, groups, nics[j], r) == r
    ensures forall j, r :: j in nics && !nics[j].bypassFiltering ==> Rebuilt(pton, true, groups, nics[j], r) == FullRules(pton, groups, nics[j])
  {
    hide FullRules;
  }

  lemma NotReached(groups: Groups, ids: seq<string>, s: string)
    requires !Reaches(groups, ids, s)
    ensures forall id :: id in ids ==> !References(groups, id, s)
  {}

  lemma NewGroupOk(pton: Resolver, hash: string -> nat, id: string)
    ensures GroupOk(pton, Sg(id, [], map[])) && FiledByHash(hash, Sg(id, [], map[]).rules)
  {}

  lemma EmptyGroup(a: Groups, id: string, ids: seq<string>)
    requires id !in a
    ensures SameFor(a, a[id := Sg(id, [], map[])], ids)
  {}

  lemma SameForItself(a: Groups, ids: seq<string>)
    ensures SameFor(a, a, ids)
  {}

  lemma RulesInIs(groups: Groups, id: string)
    ensures RulesIn(groups, id) == if id in groups then groups[id].rules else map[]
    ensures MembersIn(groups, id) == if id in groups then groups[id].members else []
  {}

  lemma WithRuleIs(groups: Groups, id: string, h: nat, rule: Rule)
    ensures id in groups ==> WithRule(groups, id, h, rule) == groups[id := groups[id].(rules := groups[id].rules[h := rule])]
    ensures id !in groups ==> WithRule(groups, id, h, rule) == groups[id := Sg(id, [], map[h := rule])]
    ensures id !in groups ==> groups[id := Sg(id, [], map[])][id := Sg(id, [], map[h := rule])] == groups[id := Sg(id, [], map[h := rule])]
  {}

  lemma RegularWithRule(a: Groups, id: string, h: nat, rule: Rule, ids: seq<string>)
    requires h !in RulesIn(a, id) && Regular(WithRule(a, id, h, rule), ids)
    ensures Regular(a, ids) && (id in ids ==> !rule.direction.OUTBOUND? && !Refused(rule))
  {
    hide WithRule, RulesIn, Refused, NoneRefused;
    var b := WithRule(a, id, h, rule);
    NoneRefusedIs(a, ids);
    NoneRefusedIs(b, ids);
    forall i, x | i in ids && x in RulesIn(a, i) ensures !RulesIn(a, i)[x].direction.OUTBOUND? && !Refused(RulesIn(a, i)[x]) {
      WithRuleMembers(a, id, h, rule, i);
      assert x in RulesIn(b, i) && RulesIn(b, i)[x] == RulesIn(a, i)[x];
    }
    if id in ids {
      WithRuleMembers(a, id, h, rule, id);
      assert h in RulesIn(b, id) && RulesIn(b, id)[h] == rule;
    }
  }

  lemma NothingAdded(pton: Resolver, r: Ruleset, rule: Rule, text: string)
    ensures AddTimes(pton, r, rule, text, 0) == r
  {}

  lemma RuleElsewhere(a: Groups, id: string, h: nat, rule: Rule, ids: seq<string>)
    requires id !in ids
    ensures SameFor(a, WithRule(a, id, h, rule), ids)
  {}

  lemma RulesElsewhere(a: Groups, id: string, sg: Sg, ids: seq<string>)
    requires id !in ids && sg.members == MembersIn(a, id)
    ensures SameFor(a, a[id := sg], ids)
  {}

  lemma ListsNic(nics: map<string, Nic>, vnis: Vnis, id: string)
    requires Lists(nics, vnis) && id in nics
    ensures nics[id].vni in vnis && id in vnis[nics[id].vni].nics
  {}

  lemma ListsNot(nics: map<string, Nic>, vnis: Vnis, nic: Nic)
    requires Lists(nics, vnis) && nic.id !in nics
    ensures nic.vni in vnis ==> nic.id !in vnis[nic.vni].nics
    ensures Graph.NicsAt(vnis, nic.vni) - {nic.id} == Graph.NicsAt(vnis, nic.vni)
  {}

  /** A NIC gone from its VNI, and the VNI perhaps gone with it. */
  lemma ListsDrop(nics: map<string, Nic>, vnis: Vnis, vnis': Vnis, id: string)
    requires Lists(nics, vnis) && id in nics
    requires vnis' - {nics[id].vni} == vnis - {nics[id].vni}
    requires Graph.NicsAt(vnis', nics[id].vni) == vnis[nics[id].vni].nics - {id}
    ensures Lists(nics - {id}, vnis')
    ensures forall j :: j in nics && j != id ==>
      KeyAt(nics, vnis', j) == KeyAt(nics, vnis, j) && KeyAt(nics - {id}, vnis', j) == KeyAt(nics, vnis, j)
    ensures forall v :: Graph.NicsAt(vnis', v) == Graph.NicsAt(vnis, v) - {id}
  {
    var v := nics[id].vni;
    OthersKept(vnis, vnis', v);
    assert Graph.NicsAt(vnis', v).Keys == vnis[v].nics.Keys - {id};
    forall j | j in nics && j != id
      ensures nics[j].vni in vnis' && j in vnis'[nics[j].vni].nics
      ensures vnis'[nics[j].vni].nics[j] == vnis[nics[j].vni].nics[j]
    {
      if nics[j].vni == v { assert j in Graph.NicsAt(vnis', v); }
    }
    hide KeyAt;
    forall j | j in nics && j != id
      ensures KeyAt(nics, vnis', j) == KeyAt(nics, vnis, j) && KeyAt(nics - {id}, vnis', j) == KeyAt(nics, vnis, j)
    {
      KeyAtIs(nics, vnis, j);
      KeyAtIs(nics, vnis', j);
      KeyAtIs(nics - {id}, vnis', j);
    }
  }

  lemma KeyAtIs(nics: map<string, Nic>, vnis: Vnis, id: string)
    requires id in nics && nics[id].vni in vnis && id in vnis[nics[id].vni].nics
    ensures KeyAt(nics, vnis, id) == vnis[nics[id].vni].nics[id].key
  {}

  lemma OthersKept(vnis: Vnis, vnis': Vnis, v: nat)
    requires vnis' - {v} == vnis - {v}
    ensures forall u :: u != v ==> (u in vnis' <==> u in vnis) && (u in vnis ==> vnis'[u] == vnis[u])
  {
    forall u | u != v ensures (u in vnis' <==> u in vnis) && (u in vnis ==> vnis'[u] == vnis[u]) {
      assert u in vnis' <==> u in vnis' - {v};
      assert u in vnis <==> u in vnis - {v};
      if u in vnis { assert vnis'[u] == (vnis' - {v})[u]; }
    }
  }

  /** Does some NIC of the model list group `g`? */
  ghost predicate Listed(nics: map<string, Nic>, g: string) {
    exists j :: j in nics && g in nics[j].securityGroups
  }

  ghost predicate ListedBy(nics: map<string, Nic>, ids: seq<string>, g: string) {
    exists j :: j in ids && j in nics && g in nics[j].securityGroups
  }

  lemma ListedMore(nics: map<string, Nic>, order: seq<string>, a: nat, g: string)
    requires a < |order| && order[a] in nics
    ensures ListedBy(nics, order[..a + 1], g) <==> ListedBy(nics, order[..a], g) || g in nics[order[a]].securityGroups
  {
    assert order[..a + 1] == order[..a] + [order[a]];
    assert order[a] in order[..a + 1];
  }

  lemma ReferencesIs(groups: Groups, g: string, s: string)
    ensures References(groups, g, s) <==> g in groups && exists r :: r in RuleList(groups[g].rules) && r.securityGroup == s
  {
    hide RuleList;
    if g in groups {
      if h :| h in groups[g].rules && groups[g].rules[h].securityGroup == s {
        RuleListContents(groups[g].rules, groups[g].rules[h]);
      }
      if r :| r in RuleList(groups[g].rules) && r.securityGroup == s {
        RuleListContents(groups[g].rules, r);
        var h :| h in groups[g].rules && groups[g].rules[h] == r;
        assert h in RulesIn(groups, g) && RulesIn(groups, g)[h].securityGroup == s;
      }
    }
  }

  lemma CommonMore<T>(a: seq<T>, b: seq<T>, x: T)
    ensures Common(a, b + [x]) <==> Common(a, b) || x in a
  {
    if x in a { assert x in b + [x]; }
    if y :| y in a && y in b { assert y in b + [x]; }
  }

  ghost function KeyAt(nics: map<string, Nic>, vnis: Vnis, id: string): nat {
    if id in nics && nics[id].vni in vnis && id in vnis[nics[id].vni].nics then vnis[nics[id].vni].nics[id].key else 0
  }

  /** The rules of a firewall that was compiled afresh if `yes`. */
  ghost function Rebuilt(pton: Resolver, yes: bool, groups: Groups, nic: Nic, before: Ruleset): Ruleset {
    if yes && !nic.bypassFiltering then FullRules(pton, groups, nic) else before
  }

  /** The rules of a firewall to which `rule` was given `n` times. */
  ghost function Appended(pton: Resolver, groups: Groups, rule: Rule, n: nat, nic: Nic, before: Ruleset): Ruleset {
    if nic.bypassFiltering then before else Extended(pton, groups, rule, n, before)
  }

  lemma AppendedNone(pton: Resolver, groups: Groups, rule: Rule, nics: map<string, Nic>)
    ensures forall j, r :: j in nics ==> Appended(pton, groups, rule, 0, nics[j], r) == r
  {}

  lemma AppendedMore(pton: Resolver, groups: Groups, rule: Rule, n: nat, nic: Nic, before: Ruleset)
    ensures Appended(pton, groups, rule, 1, nic, Appended(pton, groups, rule, n, nic, before)) == Appended(pton, groups, rule, n + 1, nic, before)
  {
    hide RuleText;
    if !nic.bypassFiltering && RuleText(groups, rule) != "" {
      AddOnce(pton, AddTimes(pton, before, rule, RuleText(groups, rule), n), rule, RuleText(groups, rule));
    }
  }

  lemma AddOnce(pton: Resolver, r: Ruleset, rule: Rule, text: string)
    ensures AddTimes(pton, r, rule, text, 1) == AddedRules(pton, r, rule, text)
  {
    assert AddTimes(pton, r, rule, text, 0) == r;
  }

  ghost predicate Common<T>(a: seq<T>, b: seq<T>) {
    exists x :: x in a && x in b
  }

  /** Does some listed group have a rule that refers to `s`? */
  ghost predicate Reaches(groups: Groups, ids: seq<string>, s: string) {
    exists id :: id in ids && References(groups, id, s)
  }

  lemma FirstTime(s: set<string>, a: nat)
    requires a < |Order.Texts(s)|
    ensures Order.Texts(s)[a] !in Order.Texts(s)[..a]
  {
    Order.TextsOnce(s);
  }
}
