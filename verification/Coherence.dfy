/** When the rules of a firewall stand for the security groups of its NIC, and which changes to the groups keep that so. */
module Coherence {
  import opened Model
  import opened Filter
  import opened Compile
  import opened Meaning
  import opened Reading
  import opened Graphs

  /** One side of a firewall lets through what any of its filters accepts. */
  ghost predicate SideAllows(pton: Resolver, side: seq<string>, k: Packet) {
    exists t :: t in side && Accepts(pton, t, k)
  }

  function RulesIn(groups: Groups, id: string): map<nat, Rule> {
    if id in groups then groups[id].rules else map[]
  }

  function MembersIn(groups: Groups, id: string): seq<Ip> {
    if id in groups then groups[id].members else []
  }

  /** No listed group has an outbound rule. */
  ghost predicate InboundOnly(groups: Groups, ids: seq<string>) {
    forall id, h :: id in ids && h in RulesIn(groups, id) ==> !RulesIn(groups, id)[h].direction.OUTBOUND?
  }

  /** The groups for which a firewall is an exact cache: inbound rules only, and none that libpcap refuses. */
  ghost predicate Regular(groups: Groups, ids: seq<string>) {
    InboundOnly(groups, ids) && NoneRefused(groups, ids)
  }

  ghost predicate WestMatches(pton: Resolver, groups: Groups, ids: seq<string>, west: seq<string>) {
    forall k :: SideAllows(pton, west, k) <==> Allowed(groups, ids, k)
  }

  /** The rules of a firewall stand for the groups and addresses of `nic`. */
  ghost predicate Coherent(pton: Resolver, groups: Groups, nic: Nic, r: Ruleset) {
    && WestMatches(pton, groups, nic.securityGroups, r.west) && r.east == [OutText(nic.ipList)]
    && r.defaultOutbound && !r.stale
  }

  /** Every text is taken, unless a listed group has a rule with host bits: then the flushed firewall waits for the next rebuild. */
  lemma FullRulesExactly(pton: Resolver, groups: Groups, nic: Nic)
    requires GroupsOk(pton, groups) && KnowsDhcp(pton) && AddressesOk(pton, nic.ipList)
    ensures FullRules(pton, groups, nic) ==
      if NoneRefused(groups, nic.securityGroups) then Ruleset(Texts(InText(groups, nic.securityGroups)), [OutText(nic.ipList)], true, false)
      else Ruleset([], [], true, true)
  {
    hide InText, OutText, Readable, GroupsOk, NoneRefused, KnowsDhcp, AddressesOk, Sound;
    InFilterReadable(pton, groups, nic.securityGroups);
    OutFilterMeans(pton, nic.ipList, Packet(V4, 0, 0, 0, 0, 0));
    SoundReadable(pton, OutText(nic.ipList));
  }

  lemma FullCoherent(pton: Resolver, groups: Groups, nic: Nic)
    requires GroupsOk(pton, groups) && KnowsDhcp(pton) && AddressesOk(pton, nic.ipList)
    requires NoneRefused(groups, nic.securityGroups)
    ensures Coherent(pton, groups, nic, FullRules(pton, groups, nic))
  {
    hide InText, OutText, Allowed, Accepts, GroupsOk, Sound, FullRules, NoneRefused, KnowsDhcp, AddressesOk;
    var ids := nic.securityGroups;
    FullRulesExactly(pton, groups, nic);
    var west := FullRules(pton, groups, nic).west;
    forall k ensures SideAllows(pton, west, k) <==> Allowed(groups, ids, k) {
      InFilterMeans(pton, groups, ids, k);
      if InText(groups, ids) != "" { assert west[0] in west; }
    }
  }

  /** A group lets in what one of its rules does; a missing group has no rules. */
  lemma GroupAllowsBy(groups: Groups, id: string, k: Packet)
    ensures GroupAllows(groups, id, k) <==> SomeAllows(groups, RulesIn(groups, id), k)
  {
    hide RuleAllows;
    if id in groups {
      var rules := RulesIn(groups, id);
      if h :| h in groups[id].rules && RuleAllows(groups, groups[id].rules[h], k) {
        assert h in rules && RuleAllows(groups, rules[h], k);
      }
      if h :| h in rules && RuleAllows(groups, rules[h], k) {
        assert h in groups[id].rules && RuleAllows(groups, groups[id].rules[h], k);
      }
    }
  }

  ghost predicate SomeAllows(groups: Groups, rules: map<nat, Rule>, k: Packet) {
    exists h :: h in rules && RuleAllows(groups, rules[h], k)
  }

  lemma RuleAllowsBy(a: Groups, b: Groups, rule: Rule, k: Packet)
    requires rule.securityGroup == "" || MembersIn(a, rule.securityGroup) == MembersIn(b, rule.securityGroup)
    ensures RuleAllows(a, rule, k) <==> RuleAllows(b, rule, k)
  {
    hide ProtocolAllows, InNet;
    if rule.securityGroup != "" {
      SourceBy(a, rule, k);
      SourceBy(b, rule, k);
    }
  }

  lemma SourceBy(groups: Groups, rule: Rule, k: Packet)
    requires rule.securityGroup != ""
    ensures SourceAllows(groups, rule, k) <==>
      exists m :: m in MembersIn(groups, rule.securityGroup) && AddressAt(k, Src) == AddressOf(m)
  {}

  /** What `ids` let in depends on the rules of those groups and on the members of the groups these rules name. */
  ghost predicate SameFor(a: Groups, b: Groups, ids: seq<string>) {
    forall id :: id in ids ==>
      && RulesIn(a, id) == RulesIn(b, id)
      && forall h :: h in RulesIn(a, id) ==>
           var s := RulesIn(a, id)[h].securityGroup;
           s == "" || MembersIn(a, s) == MembersIn(b, s)
  }

  lemma SameAllowed(a: Groups, b: Groups, ids: seq<string>)
    requires SameFor(a, b, ids)
    ensures forall k :: Allowed(a, ids, k) <==> Allowed(b, ids, k)
    ensures Regular(a, ids) <==> Regular(b, ids)
  {
    hide RuleAllows, GroupAllows, Refused;
    NoneRefusedIs(a, ids);
    NoneRefusedIs(b, ids);
    forall k, id | id in ids ensures GroupAllows(a, id, k) <==> GroupAllows(b, id, k) {
      GroupAllowsBy(a, id, k);
      GroupAllowsBy(b, id, k);
      forall h | h in RulesIn(a, id) ensures RuleAllows(a, RulesIn(a, id)[h], k) <==> RuleAllows(b, RulesIn(a, id)[h], k) {
        RuleAllowsBy(a, b, RulesIn(a, id)[h], k);
      }
    }
  }

  lemma NoneRefusedIs(groups: Groups, ids: seq<string>)
    ensures NoneRefused(groups, ids) <==> forall id, h :: id in ids && h in RulesIn(groups, id) ==> !Refused(RulesIn(groups, id)[h])
  {
    hide Refused;
    forall id | id in groups ensures RulesIn(groups, id) == groups[id].rules {}
    if NoneRefused(groups, ids) {
      forall id, h | id in ids && h in RulesIn(groups, id) ensures !Refused(RulesIn(groups, id)[h]) {
        assert id in groups && h in groups[id].rules;
      }
    }
  }

  lemma SameCoherent(pton: Resolver, a: Groups, b: Groups, nic: Nic, r: Ruleset)
    requires SameFor(a, b, nic.securityGroups) && Coherent(pton, a, nic, r)
    ensures Coherent(pton, b, nic, r)
  {
    hide SideAllows, Allowed, SameFor, OutText;
    SameAllowed(a, b, nic.securityGroups);
  }

  /** Some rule of group `id` has the members of group `s` as its sources. */
  ghost predicate References(groups: Groups, id: string, s: string) {
    exists h :: h in RulesIn(groups, id) && RulesIn(groups, id)[h].securityGroup == s
  }

  /** `a` and `b` differ in nothing but group `s`. */
  ghost predicate ElsewhereSame(a: Groups, b: Groups, s: string) {
    forall id :: id != s ==> RulesIn(a, id) == RulesIn(b, id) && MembersIn(a, id) == MembersIn(b, id)
  }

  /** A change to group `s` does not reach a NIC none of whose groups refers to `s`. */
  lemma Untouched(a: Groups, b: Groups, s: string, ids: seq<string>)
    requires ElsewhereSame(a, b, s) && (s in ids ==> RulesIn(a, s) == RulesIn(b, s))
    requires forall id :: id in ids ==> !References(b, id, s)
    ensures SameFor(a, b, ids)
  {
    hide RulesIn, MembersIn;
    forall id | id in ids
      ensures RulesIn(a, id) == RulesIn(b, id)
      ensures forall h :: h in RulesIn(a, id) ==> RulesIn(a, id)[h].securityGroup != s
    {
      assert !References(b, id, s);
    }
  }

  lemma RegularCoherent(pton: Resolver, groups: Groups, nic: Nic)
    requires GroupsOk(pton, groups) && KnowsDhcp(pton) && AddressesOk(pton, nic.ipList)
    ensures Regular(groups, nic.securityGroups) ==> Coherent(pton, groups, nic, FullRules(pton, groups, nic))
  {
    hide Coherent, FullRules, NoneRefused, GroupsOk, KnowsDhcp, AddressesOk;
    if Regular(groups, nic.securityGroups) { FullCoherent(pton, groups, nic); }
  }

  /** Each firewall was compiled afresh, or was coherent and is not affected by the change. */
  lemma Settled(pton: Resolver, a: Groups, b: Groups, nic: Nic, before: Ruleset, now: Ruleset)
    requires GroupsOk(pton, b) && KnowsDhcp(pton) && AddressesOk(pton, nic.ipList)
    requires now == FullRules(pton, b, nic) || (now == before && SameFor(a, b, nic.securityGroups))
    requires Regular(a, nic.securityGroups) ==> Coherent(pton, a, nic, before)
    ensures Regular(b, nic.securityGroups) ==> Coherent(pton, b, nic, now)
  {
    hide *;
    if now == FullRules(pton, b, nic) {
      RegularCoherent(pton, b, nic);
    } else if Regular(b, nic.securityGroups) {
      SameAllowed(a, b, nic.securityGroups);
      SameCoherent(pton, a, b, nic, before);
    }
  }

  // Appending one rule

  /** How often `id` occurs in `ids`. */
  function Count(ids: seq<string>, id: string): nat {
    if ids == [] then 0 else Count(ids[..|ids| - 1], id) + if ids[|ids| - 1] == id then 1 else 0
  }

  lemma {:induction false} CountIn(ids: seq<string>, id: string)
    ensures Count(ids, id) > 0 <==> id in ids
  {
    if ids != [] {
      CountIn(ids[..|ids| - 1], id);
      assert ids == ids[..|ids| - 1] + [ids[|ids| - 1]];
    }
  }

  function AddTimes(pton: Resolver, r: Ruleset, rule: Rule, text: string, n: nat): Ruleset {
    if n == 0 then r else AddedRules(pton, AddTimes(pton, r, rule, text, n - 1), rule, text)
  }

  lemma {:induction false} AddTimesEast(pton: Resolver, r: Ruleset, rule: Rule, text: string, n: nat)
    requires !rule.direction.OUTBOUND? && Readable(pton, text)
    ensures var r' := AddTimes(pton, r, rule, text, n);
            r'.east == r.east && r'.defaultOutbound == r.defaultOutbound && (r'.stale <==> r.stale && n == 0)
  {
    hide Readable;
    if n > 0 { AddTimesEast(pton, r, rule, text, n - 1); }
  }

  lemma {:induction false} AddTimesAllows(pton: Resolver, r: Ruleset, rule: Rule, text: string, n: nat, k: Packet)
    requires !rule.direction.OUTBOUND? && Readable(pton, text)
    ensures SideAllows(pton, AddTimes(pton, r, rule, text, n).west, k) <==>
      SideAllows(pton, r.west, k) || (n > 0 && Accepts(pton, text, k))
  {
    hide Accepts, Readable;
    if n > 0 {
      AddTimesAllows(pton, r, rule, text, n - 1, k);
      var west := AddTimes(pton, r, rule, text, n - 1).west;
      assert forall t :: t in west + [text] <==> t in west || t == text;
    }
  }

  /** The groups with one more rule, in a group that is created if it is missing. */
  function WithRule(groups: Groups, id: string, h: nat, rule: Rule): Groups {
    var sg := if id in groups then groups[id] else Sg(id, [], map[]);
    groups[id := sg.(rules := sg.rules[h := rule])]
  }

  lemma WithRuleMembers(groups: Groups, id: string, h: nat, rule: Rule, s: string)
    ensures MembersIn(WithRule(groups, id, h, rule), s) == MembersIn(groups, s)
    ensures RulesIn(WithRule(groups, id, h, rule), s) == if s == id then RulesIn(groups, id)[h := rule] else RulesIn(groups, s)
  {}

  lemma AllowedWithRule(groups: Groups, id: string, h: nat, rule: Rule, ids: seq<string>, k: Packet)
    requires h !in RulesIn(groups, id)
    ensures var b := WithRule(groups, id, h, rule);
            Allowed(b, ids, k) <==> Allowed(groups, ids, k) || (id in ids && RuleAllows(b, rule, k))
  {
    hide RuleAllows, GroupAllows, WithRule;
    var b := WithRule(groups, id, h, rule);
    forall i | i in ids ensures GroupAllows(b, i, k) <==> GroupAllows(groups, i, k) || (i == id && RuleAllows(b, rule, k)) {
      GroupWithRule(groups, id, h, rule, i, k);
    }
    if id in ids && RuleAllows(b, rule, k) { assert GroupAllows(b, id, k); }
  }

  lemma GroupWithRule(groups: Groups, id: string, h: nat, rule: Rule, i: string, k: Packet)
    requires h !in RulesIn(groups, id)
    ensures var b := WithRule(groups, id, h, rule);
            GroupAllows(b, i, k) <==> GroupAllows(groups, i, k) || (i == id && RuleAllows(b, rule, k))
  {
    hide RuleAllows, GroupAllows, WithRule, MembersIn, RulesIn;
    var b := WithRule(groups, id, h, rule);
    GroupAllowsBy(groups, i, k);
    GroupAllowsBy(b, i, k);
    WithRuleMembers(groups, id, h, rule, i);
    forall x | x in RulesIn(groups, i)
      ensures RuleAllows(b, RulesIn(groups, i)[x], k) <==> RuleAllows(groups, RulesIn(groups, i)[x], k)
    {
      WithRuleMembers(groups, id, h, rule, RulesIn(groups, i)[x].securityGroup);
      RuleAllowsBy(b, groups, RulesIn(groups, i)[x], k);
    }
    var before, after := RulesIn(groups, i), RulesIn(b, i);
    if x :| x in before && RuleAllows(groups, before[x], k) { assert x in after && after[x] == before[x]; }
    if x :| x in after && RuleAllows(b, after[x], k) { assert (i == id && x == h) || (x in before && before[x] == after[x]); }
    if i == id { assert after[h] == rule && h in after; }
  }

  /** The rules of a firewall to which `rule` was given `n` times. */
  function Extended(pton: Resolver, groups: Groups, rule: Rule, n: nat, r: Ruleset): Ruleset {
    if RuleText(groups, rule) == "" then r else AddTimes(pton, r, rule, RuleText(groups, rule), n)
  }

  /** Appending one rule to a coherent firewall is as good as compiling everything again, unless it goes outwards. */
  lemma AppendCoherent(pton: Resolver, groups: Groups, id: string, h: nat, rule: Rule, nic: Nic, r: Ruleset)
    requires GroupsOk(pton, WithRule(groups, id, h, rule)) && h !in RulesIn(groups, id)
    requires !Refused(rule) && (!rule.direction.OUTBOUND? || RuleText(WithRule(groups, id, h, rule), rule) == "")
    requires Coherent(pton, groups, nic, r)
    ensures var b := WithRule(groups, id, h, rule);
            Coherent(pton, b, nic, Extended(pton, b, rule, Count(nic.securityGroups, id), r))
  {
    hide *;
    var b := WithRule(groups, id, h, rule);
    var n := Count(nic.securityGroups, id);
    var r' := Extended(pton, b, rule, Count(nic.securityGroups, id), r);
    ExtendedIs(pton, b, rule, Count(nic.securityGroups, id), r);
    CountIn(nic.securityGroups, id);
    NewRuleOk(pton, groups, id, h, rule);
    RuleMeans(pton, b, rule);
    CoherentFacts(pton, groups, nic, r);
    if RuleText(b, rule) != "" { SoundReadable(pton, RuleText(b, rule)); }
    forall k ensures SideAllows(pton, r'.west, k) <==> Allowed(b, nic.securityGroups, k) {
      AllowedWithRule(groups, id, h, rule, nic.securityGroups, k);
      if RuleText(b, rule) != "" { AddTimesAllows(pton, r, rule, RuleText(b, rule), n, k); }
    }
    if RuleText(b, rule) != "" { AddTimesEast(pton, r, rule, RuleText(b, rule), n); }
    CoherentIs(pton, b, nic, r');
  }

  /**
   What a refused rebuild leads to: when the next inbound rule is added, the poller is told to load that rule
   and nothing else.  The NIC then receives what the new rule allows only, and sends nothing.
   */
  lemma AddedAfterRefusal(pton: Resolver, groups: Groups, id: string, h: nat, rule: Rule, nic: Nic, k: Packet)
    requires GroupsOk(pton, groups) && GroupsOk(pton, WithRule(groups, id, h, rule))
    requires KnowsDhcp(pton) && AddressesOk(pton, nic.ipList) && !NoneRefused(groups, nic.securityGroups)
    requires !rule.direction.OUTBOUND? && !Refused(rule) && id in nic.securityGroups
    requires RuleText(WithRule(groups, id, h, rule), rule) != ""
    ensures var b := WithRule(groups, id, h, rule);
            var r := Extended(pton, b, rule, Count(nic.securityGroups, id), FullRules(pton, groups, nic));
            && !r.stale && !SideAllows(pton, r.east, k)
            && (SideAllows(pton, r.west, k) <==> RuleAllows(b, rule, k))
  {
    hide *;
    var b := WithRule(groups, id, h, rule);
    var r, n := FullRules(pton, groups, nic), Count(nic.securityGroups, id);
    FullRulesExactly(pton, groups, nic);
    ExtendedIs(pton, b, rule, n, r);
    CountIn(nic.securityGroups, id);
    NewRuleOk(pton, groups, id, h, rule);
    RuleMeans(pton, b, rule);
    SoundReadable(pton, RuleText(b, rule));
    AddTimesEast(pton, r, rule, RuleText(b, rule), n);
    AddTimesAllows(pton, r, rule, RuleText(b, rule), n, k);
    NothingAllowed(pton, k);
  }

  lemma NothingAllowed(pton: Resolver, k: Packet)
    ensures !SideAllows(pton, [], k)
  {}

  lemma ExtendedIs(pton: Resolver, groups: Groups, rule: Rule, n: nat, r: Ruleset)
    ensures Extended(pton, groups, rule, n, r) == if RuleText(groups, rule) == "" then r else AddTimes(pton, r, rule, RuleText(groups, rule), n)
  {}

  /** The two ways to take in a new rule filter alike: appending it, and compiling all groups again. */
  lemma AppendIsRebuild(pton: Resolver, groups: Groups, id: string, h: nat, rule: Rule, nic: Nic, r: Ruleset, k: Packet)
    requires GroupsOk(pton, WithRule(groups, id, h, rule)) && h !in RulesIn(groups, id)
    requires NoneRefused(WithRule(groups, id, h, rule), nic.securityGroups) && KnowsDhcp(pton) && AddressesOk(pton, nic.ipList)
    requires !Refused(rule) && (!rule.direction.OUTBOUND? || RuleText(WithRule(groups, id, h, rule), rule) == "")
    requires Coherent(pton, groups, nic, r)
    ensures var b := WithRule(groups, id, h, rule);
            && Extended(pton, b, rule, Count(nic.securityGroups, id), r).east == FullRules(pton, b, nic).east
            && (SideAllows(pton, Extended(pton, b, rule, Count(nic.securityGroups, id), r).west, k) <==> SideAllows(pton, FullRules(pton, b, nic).west, k))
  {
    hide *;
    var b := WithRule(groups, id, h, rule);
    AppendCoherent(pton, groups, id, h, rule, nic, r);
    FullCoherent(pton, b, nic);
    CoherentFacts(pton, b, nic, Extended(pton, b, rule, Count(nic.securityGroups, id), r));
    CoherentFacts(pton, b, nic, FullRules(pton, b, nic));
  }

  lemma NewRuleOk(pton: Resolver, groups: Groups, id: string, h: nat, rule: Rule)
    requires GroupsOk(pton, WithRule(groups, id, h, rule))
    ensures RuleOk(pton, rule)
  {
    hide RuleOk, IpOk;
    var b := WithRule(groups, id, h, rule);
    assert id in b && h in b[id].rules && b[id].rules[h] == rule;
    assert GroupOk(pton, b[id]);
  }

  lemma CoherentFacts(pton: Resolver, groups: Groups, nic: Nic, r: Ruleset)
    requires Coherent(pton, groups, nic, r)
    ensures forall k :: SideAllows(pton, r.west, k) <==> Allowed(groups, nic.securityGroups, k)
    ensures r.east == [OutText(nic.ipList)] && r.defaultOutbound && !r.stale
  {}

  lemma CoherentIs(pton: Resolver, groups: Groups, nic: Nic, r: Ruleset)
    requires forall k :: SideAllows(pton, r.west, k) <==> Allowed(groups, nic.securityGroups, k)
    requires r.east == [OutText(nic.ipList)] && r.defaultOutbound && !r.stale
    ensures Coherent(pton, groups, nic, r)
  {}

  // Appending an outbound rule

  function Addresses(ips: seq<Ip>): set<Address> {
    set ip | ip in ips :: AddressOf(ip)
  }

  /**
   Does the rule say of senders what a rebuild would say without it?  It must cover any protocol, and its
   group must have the NIC's own addresses; DHCP requests come from 0.0.0.0, which must be one of them.
   */
  predicate OnlyOwnAddresses(groups: Groups, rule: Rule, ips: seq<Ip>) {
    && rule.securityGroup != "" && rule.protocol == -1
    && Addresses(MembersIn(groups, rule.securityGroup)) == Addresses(ips)
    && Address(V4, 0) in Addresses(ips)
  }

  /** The two firewalls let through the same packets. */
  ghost predicate FilterAlike(pton: Resolver, a: seq<string>, b: seq<string>) {
    forall k :: SideAllows(pton, a, k) <==> SideAllows(pton, b, k)
  }

  /** The first outbound rule replaces the outbound filter, and no outbound rule changes the inbound one. */
  lemma {:induction false} AddTimesOutbound(pton: Resolver, r: Ruleset, rule: Rule, text: string, n: nat)
    requires rule.direction.OUTBOUND? && Readable(pton, text) && r.defaultOutbound && n > 0
    ensures var r' := AddTimes(pton, r, rule, text, n);
            && r'.west == r.west && !r'.defaultOutbound
            && r'.east != [] && forall t :: t in r'.east ==> t == text
  {
    hide Readable;
    if n > 1 {
      AddTimesOutbound(pton, r, rule, text, n - 1);
    } else {
      assert AddTimes(pton, r, rule, text, 0) == r;
    }
  }

  lemma OneText(pton: Resolver, side: seq<string>, text: string, k: Packet)
    requires side != [] && forall t :: t in side ==> t == text
    ensures SideAllows(pton, side, k) <==> Accepts(pton, text, k)
  {
    hide Accepts;
    assert side[0] in side;
  }

  /** After an outbound rule has been added, its NIC sends what the rule allows, and receives what it did before. */
  lemma OutboundAppended(pton: Resolver, groups: Groups, id: string, h: nat, rule: Rule, nic: Nic, r: Ruleset, k: Packet)
    requires GroupsOk(pton, WithRule(groups, id, h, rule)) && Coherent(pton, groups, nic, r)
    requires rule.direction.OUTBOUND? && id in nic.securityGroups
    requires RuleText(WithRule(groups, id, h, rule), rule) != "" && !Refused(rule)
    ensures var b := WithRule(groups, id, h, rule);
            var r' := Extended(pton, b, rule, Count(nic.securityGroups, id), r);
            && (SideAllows(pton, r'.east, k) <==> RuleAllows(b, rule, k))
            && (SideAllows(pton, r'.west, k) <==> Allowed(groups, nic.securityGroups, k))
  {
    hide *;
    var b := WithRule(groups, id, h, rule);
    var text, n := RuleText(b, rule), Count(nic.securityGroups, id);
    ExtendedIs(pton, b, rule, Count(nic.securityGroups, id), r);
    CountIn(nic.securityGroups, id);
    CoherentFacts(pton, groups, nic, r);
    NewRuleOk(pton, groups, id, h, rule);
    RuleMeans(pton, b, rule);
    SoundReadable(pton, text);
    AddTimesOutbound(pton, r, rule, text, n);
    OneText(pton, AddTimes(pton, r, rule, text, n).east, text, k);
  }

  lemma FullSends(pton: Resolver, groups: Groups, nic: Nic, k: Packet)
    requires GroupsOk(pton, groups) && KnowsDhcp(pton) && AddressesOk(pton, nic.ipList)
    requires NoneRefused(groups, nic.securityGroups)
    ensures SideAllows(pton, FullRules(pton, groups, nic).east, k) <==> MaySend(nic.ipList, k)
  {
    hide InText, OutText, Accepts, MaySend, AddressesOk, KnowsDhcp, FullRules, GroupsOk, NoneRefused;
    FullRulesExactly(pton, groups, nic);
    OutFilterMeans(pton, nic.ipList, k);
    OneText(pton, FullRules(pton, groups, nic).east, OutText(nic.ipList), k);
  }

  lemma FullReceives(pton: Resolver, groups: Groups, nic: Nic, k: Packet)
    requires GroupsOk(pton, groups) && KnowsDhcp(pton) && AddressesOk(pton, nic.ipList)
    requires NoneRefused(groups, nic.securityGroups)
    ensures SideAllows(pton, FullRules(pton, groups, nic).west, k) <==> Allowed(groups, nic.securityGroups, k)
  {
    hide *;
    FullCoherent(pton, groups, nic);
    CoherentFacts(pton, groups, nic, FullRules(pton, groups, nic));
  }

  lemma SendsOwn(ips: seq<Ip>, k: Packet)
    ensures MaySend(ips, k) <==> AddressAt(k, Src) in Addresses(ips) || k == Packet(V4, 0, 0xFFFF_FFFF, UDP, 68, 67)
  {
    if ip :| ip in ips && AddressAt(k, Src) == AddressOf(ip) { assert AddressOf(ip) in Addresses(ips); }
  }

  lemma GroupSources(groups: Groups, rule: Rule, k: Packet)
    requires rule.securityGroup != ""
    ensures SourceAllows(groups, rule, k) <==> AddressAt(k, Src) in Addresses(MembersIn(groups, rule.securityGroup))
  {
    SourceBy(groups, rule, k);
  }

  /** A number above all addresses of `ips`. */
  function Beyond(ips: seq<Ip>): (n: nat)
    ensures n > 0 && forall ip :: ip in ips ==> ip.bits < n
  {
    if ips == [] then 1 else if ips[0].bits < Beyond(ips[1..]) then Beyond(ips[1..]) else ips[0].bits + 1
  }

  lemma BeyondIsNoOwn(ips: seq<Ip>, f: Family)
    ensures Address(f, Beyond(ips)) !in Addresses(ips)
  {}

  /** Each kind of rule but one lets out a packet that may not be sent, or holds back one that may. */
  lemma AllowsWhatMaySend(groups: Groups, rule: Rule, ips: seq<Ip>)
    requires rule.direction.OUTBOUND?
    ensures (forall k :: RuleAllows(groups, rule, k) <==> MaySend(ips, k)) <==> OnlyOwnAddresses(groups, rule, ips)
  {
    hide RuleAllows, MaySend, OnlyOwnAddresses;
    if forall k :: RuleAllows(groups, rule, k) <==> MaySend(ips, k) {
      OwnAddressesNeeded(groups, rule, ips);
    }
    if OnlyOwnAddresses(groups, rule, ips) {
      forall k ensures RuleAllows(groups, rule, k) <==> MaySend(ips, k) { OwnAddressesEnough(groups, rule, ips, k); }
    }
  }

  lemma OwnAddressesEnough(groups: Groups, rule: Rule, ips: seq<Ip>, k: Packet)
    requires OnlyOwnAddresses(groups, rule, ips)
    ensures RuleAllows(groups, rule, k) <==> MaySend(ips, k)
  {
    hide SourceAllows, MaySend, Addresses;
    GroupSources(groups, rule, k);
    SendsOwn(ips, k);
  }

  lemma OwnAddressesNeeded(groups: Groups, rule: Rule, ips: seq<Ip>)
    requires rule.direction.OUTBOUND? && forall k :: RuleAllows(groups, rule, k) <==> MaySend(ips, k)
    ensures OnlyOwnAddresses(groups, rule, ips)
  {
    hide RuleAllows, MaySend, Addresses;
    NeedsGroup(groups, rule, ips);
    NeedsAnyProtocol(groups, rule, ips);
    var members := Addresses(MembersIn(groups, rule.securityGroup));
    forall a: Address ensures a in members <==> a in Addresses(ips) {
      var k := Packet(a.family, a.bits, 0, 0, 0, 0);
      AllowsSource(groups, rule, k);
      GroupSources(groups, rule, k);
      SendsOwn(ips, k);
      assert AddressAt(k, Src) == a;
    }
  }

  lemma AllowsSource(groups: Groups, rule: Rule, k: Packet)
    requires rule.protocol == -1
    ensures RuleAllows(groups, rule, k) <==> SourceAllows(groups, rule, k)
  {}

  /** A network or a family lets out a DHCP request from an address that is not the NIC's. */
  lemma NeedsGroup(groups: Groups, rule: Rule, ips: seq<Ip>)
    requires rule.direction.OUTBOUND? && forall k :: RuleAllows(groups, rule, k) <==> MaySend(ips, k)
    ensures rule.securityGroup != ""
  {
    hide MaySend, Addresses, InNet, AddressOf;
    var request := Packet(V4, 0, 0xFFFF_FFFF, UDP, 68, 67);
    var other := Packet(V4, Beyond(ips), 0xFFFF_FFFF, UDP, 68, 67);
    SendsOwn(ips, request);
    SendsOwn(ips, other);
    BeyondIsNoOwn(ips, V4);
    assert RuleAllows(groups, rule, request) && !RuleAllows(groups, rule, other);
  }

  /** A rule over UDP lets out a datagram from 0.0.0.0, and holds back what else is sent from there. */
  lemma NeedsAnyProtocol(groups: Groups, rule: Rule, ips: seq<Ip>)
    requires rule.securityGroup != "" && forall k :: RuleAllows(groups, rule, k) <==> MaySend(ips, k)
    ensures rule.protocol == -1 && Address(V4, 0) in Addresses(ips)
  {
    hide MaySend, Addresses, SourceAllows;
    var request, datagram := Packet(V4, 0, 0xFFFF_FFFF, UDP, 68, 67), Packet(V4, 0, 0, UDP, 0, 67);
    var other := Packet(V4, 0, 0, 0, 0, 0);
    GroupSources(groups, rule, request);
    GroupSources(groups, rule, datagram);
    SendsOwn(ips, request);
    SendsOwn(ips, datagram);
    SendsOwn(ips, other);
    assert RuleAllows(groups, rule, request);
    assert RuleAllows(groups, rule, datagram);
    assert RuleAllows(groups, rule, other);
  }

  lemma RuleTaken(groups: Groups, id: string, h: nat, rule: Rule, ids: seq<string>)
    requires NoneRefused(WithRule(groups, id, h, rule), ids) && id in ids
    ensures !Refused(rule)
  {
    hide Refused, WithRule;
    var b := WithRule(groups, id, h, rule);
    WithRuleMembers(groups, id, h, rule, id);
    NoneRefusedIs(b, ids);
    assert h in RulesIn(b, id) && RulesIn(b, id)[h] == rule;
  }

  /** An added outbound rule leaves the outbound side as a rebuild gives it exactly when it allows the NIC's own addresses. */
  lemma OutboundEast(pton: Resolver, groups: Groups, id: string, h: nat, rule: Rule, nic: Nic, r: Ruleset)
    requires GroupsOk(pton, WithRule(groups, id, h, rule)) && Coherent(pton, groups, nic, r)
    requires rule.direction.OUTBOUND? && id in nic.securityGroups
    requires RuleText(WithRule(groups, id, h, rule), rule) != ""
    requires KnowsDhcp(pton) && AddressesOk(pton, nic.ipList)
    requires NoneRefused(WithRule(groups, id, h, rule), nic.securityGroups)
    ensures var b := WithRule(groups, id, h, rule);
            FilterAlike(pton, Extended(pton, b, rule, Count(nic.securityGroups, id), r).east, FullRules(pton, b, nic).east)
            <==> OnlyOwnAddresses(b, rule, nic.ipList)
  {
    hide *;
    var b := WithRule(groups, id, h, rule);
    RuleTaken(groups, id, h, rule, nic.securityGroups);
    var east, full := Extended(pton, b, rule, Count(nic.securityGroups, id), r).east, FullRules(pton, b, nic).east;
    forall k
      ensures SideAllows(pton, east, k) <==> RuleAllows(b, rule, k)
      ensures SideAllows(pton, full, k) <==> MaySend(nic.ipList, k)
    {
      OutboundAppended(pton, groups, id, h, rule, nic, r, k);
      FullSends(pton, b, nic, k);
    }
    AllowsWhatMaySend(b, rule, nic.ipList);
    AlikeIs(pton, east, full);
  }

  lemma AlikeIs(pton: Resolver, a: seq<string>, b: seq<string>)
    ensures FilterAlike(pton, a, b) <==> forall k :: SideAllows(pton, a, k) <==> SideAllows(pton, b, k)
  {}

  /**
   A rebuild compiles an outbound rule into the inbound filter, an addition does not: the inbound sides agree
   exactly when what the rule allows was let in anyway.
   */
  lemma OutboundWest(pton: Resolver, groups: Groups, id: string, h: nat, rule: Rule, nic: Nic, r: Ruleset)
    requires GroupsOk(pton, WithRule(groups, id, h, rule)) && Coherent(pton, groups, nic, r)
    requires h !in RulesIn(groups, id) && rule.direction.OUTBOUND? && id in nic.securityGroups
    requires RuleText(WithRule(groups, id, h, rule), rule) != ""
    requires KnowsDhcp(pton) && AddressesOk(pton, nic.ipList)
    requires NoneRefused(WithRule(groups, id, h, rule), nic.securityGroups)
    ensures var b := WithRule(groups, id, h, rule);
            FilterAlike(pton, Extended(pton, b, rule, Count(nic.securityGroups, id), r).west, FullRules(pton, b, nic).west)
            <==> forall k :: RuleAllows(b, rule, k) ==> Allowed(groups, nic.securityGroups, k)
  {
    hide *;
    var b := WithRule(groups, id, h, rule);
    RuleTaken(groups, id, h, rule, nic.securityGroups);
    var west, full := Extended(pton, b, rule, Count(nic.securityGroups, id), r).west, FullRules(pton, b, nic).west;
    forall k
      ensures SideAllows(pton, west, k) <==> Allowed(groups, nic.securityGroups, k)
      ensures SideAllows(pton, full, k) <==> Allowed(groups, nic.securityGroups, k) || RuleAllows(b, rule, k)
    {
      OutboundAppended(pton, groups, id, h, rule, nic, r, k);
      FullReceives(pton, b, nic, k);
      AllowedWithRule(groups, id, h, rule, nic.securityGroups, k);
    }
    AlikeIs(pton, west, full);
  }

  /**
   When appending a rule and compiling all groups again come to the same, on both sides: for every inbound rule,
   for a rule that compiles to nothing, for a NIC that does not list the group, and for an outbound rule that
   adds nothing on either side.
   */
  lemma AppendIsRebuildExactly(pton: Resolver, groups: Groups, id: string, h: nat, rule: Rule, nic: Nic, r: Ruleset)
    requires GroupsOk(pton, WithRule(groups, id, h, rule)) && Coherent(pton, groups, nic, r) && h !in RulesIn(groups, id)
    requires KnowsDhcp(pton) && AddressesOk(pton, nic.ipList)
    requires NoneRefused(WithRule(groups, id, h, rule), nic.securityGroups)
    ensures var b := WithRule(groups, id, h, rule);
            var r' := Extended(pton, b, rule, Count(nic.securityGroups, id), r);
            (FilterAlike(pton, r'.west, FullRules(pton, b, nic).west) && FilterAlike(pton, r'.east, FullRules(pton, b, nic).east))
            <==> || !rule.direction.OUTBOUND? || RuleText(b, rule) == "" || id !in nic.securityGroups
                 || (OnlyOwnAddresses(b, rule, nic.ipList)
                     && forall k :: RuleAllows(b, rule, k) ==> Allowed(groups, nic.securityGroups, k))
  {
    hide *;
    var b := WithRule(groups, id, h, rule);
    var r' := Extended(pton, b, rule, Count(nic.securityGroups, id), r);
    AlikeIs(pton, r'.west, FullRules(pton, b, nic).west);
    AlikeIs(pton, r'.east, FullRules(pton, b, nic).east);
    if id !in nic.securityGroups {
      ExtendedIs(pton, b, rule, Count(nic.securityGroups, id), r);
      NotListed(pton, r, rule, RuleText(b, rule), nic.securityGroups, id);
      CoherentFacts(pton, groups, nic, r);
      FullCoherent(pton, b, nic);
      CoherentFacts(pton, b, nic, FullRules(pton, b, nic));
      forall k { AllowedWithRule(groups, id, h, rule, nic.securityGroups, k); }
    } else if !rule.direction.OUTBOUND? || RuleText(b, rule) == "" {
      RuleTaken(groups, id, h, rule, nic.securityGroups);
      forall k
        ensures SideAllows(pton, r'.west, k) <==> SideAllows(pton, FullRules(pton, b, nic).west, k)
      {
        AppendIsRebuild(pton, groups, id, h, rule, nic, r, k);
      }
      AppendIsRebuild(pton, groups, id, h, rule, nic, r, Packet(V4, 0, 0, 0, 0, 0));
    } else {
      OutboundEast(pton, groups, id, h, rule, nic, r);
      OutboundWest(pton, groups, id, h, rule, nic, r);
    }
  }

  lemma NotListed(pton: Resolver, r: Ruleset, rule: Rule, text: string, ids: seq<string>, id: string)
    requires id !in ids
    ensures AddTimes(pton, r, rule, text, Count(ids, id)) == r
  {
    CountIn(ids, id);
  }

  /** For example: a NIC without addresses, and a rule that lets out all of IPv4. */
  lemma OutboundRuleSeparates(pton: Resolver)
    requires KnowsDhcp(pton)
    ensures var nic := Nic("n", "", 0, [], ["g"], false, "", false, "", false, "");
            var rule := Rule(OUTBOUND, -1, 0, 0, Cidr(Ip(V4, 0, "0.0.0.0"), 0), "");
            var b := WithRule(map[], "g", 0, rule);
            var r' := Extended(pton, b, rule, Count(nic.securityGroups, "g"), FullRules(pton, map[], nic));
            var k := Packet(V4, 1, 2, 6, 3, 4);
            && SideAllows(pton, r'.east, k) && !SideAllows(pton, FullRules(pton, b, nic).east, k)
            && !SideAllows(pton, r'.west, k) && SideAllows(pton, FullRules(pton, b, nic).west, k)
  {
    hide *;
    var nic := Nic("n", "", 0, [], ["g"], false, "", false, "", false, "");
    var rule := Rule(OUTBOUND, -1, 0, 0, Cidr(Ip(V4, 0, "0.0.0.0"), 0), "");
    var b := WithRule(map[], "g", 0, rule);
    var k := Packet(V4, 1, 2, 6, 3, 4);
    LetsOutIpv4(pton, rule, k);
    assert nic.ipList == [] && nic.securityGroups == ["g"];
    FullCoherent(pton, map[], nic);
    OutboundAppended(pton, map[], "g", 0, rule, nic, FullRules(pton, map[], nic), k);
    FullSends(pton, b, nic, k);
    FullReceives(pton, b, nic, k);
    AllowedWithRule(map[], "g", 0, rule, nic.securityGroups, k);
  }

  lemma LetsOutIpv4(pton: Resolver, rule: Rule, k: Packet)
    requires rule == Rule(OUTBOUND, -1, 0, 0, Cidr(Ip(V4, 0, "0.0.0.0"), 0), "") && k == Packet(V4, 1, 2, 6, 3, 4)
    ensures var b := WithRule(map[], "g", 0, rule);
            && GroupsOk(pton, map[]) && GroupsOk(pton, b) && 0 !in RulesIn(map[], "g") && AddressesOk(pton, [])
            && NoneRefused(map[], ["g"]) && NoneRefused(b, ["g"]) && !Refused(rule)
            && RuleText(b, rule) != "" && RuleAllows(b, rule, k)
            && !MaySend([], k) && !Allowed(map[], ["g"], k)
  {
    hide IpOk, RuleText, SourceText;
    var b := WithRule(map[], "g", 0, rule);
    assert RuleOk(pton, rule);
    SourceNotEmpty(b, rule);
    RuleShape(b, rule);
  }
}
