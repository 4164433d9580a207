/** The conversions between the model and the messages of the API, and what survives a round trip. */
module Convert {
  import opened Base
  import opened Model
  import opened Filter
  import opened Compile
  import opened Apis
  import Order

  // Messages

  datatype NicMessage = NicMessage(
    id: string,
    mac: string,
    vni: nat,
    ip: seq<string>,
    securityGroup: seq<string>,
    ipAntiSpoof: Option<bool>,
    packetTrace: Option<bool>,
    packetTracePath: string,
    sniffTarget: Option<string>,
    bypassFiltering: Option<bool>,
    path: Option<string>)

  datatype CidrMessage = CidrMessage(address: string, maskSize: nat)

  datatype RuleMessage = RuleMessage(
    outbound: bool,
    protocol: int,
    portStart: Option<int>,
    portEnd: Option<int>,
    cidr: Option<CidrMessage>,
    securityGroup: Option<string>)

  datatype SgMessage = SgMessage(id: string, member: seq<string>, rule: seq<RuleMessage>)

  /** What the conversions take from outside: address parsing and printing, MAC parsing, and the configuration. */
  datatype Env = Env(
    pton: Resolver,
    ntop: Address -> string,
    macOk: string -> bool,
    hash: string -> nat,
    packetTrace: bool,
    tracePath: string -> string)

  /** Parsing gives IPv4 or IPv6 addresses, and parsing the printed form of one gives it back. */
  ghost predicate AddressesRoundTrip(env: Env) {
    forall s :: env.pton(s).Some? ==>
      env.pton(s).value.family != NoFamily && env.pton(env.ntop(env.pton(s).value)) == env.pton(s)
  }

  // Addresses

  /** `Ip::Set`: the text that is kept is the printed form. */
  function IpSet(env: Env, s: string): Option<Ip> {
    match env.pton(s)
    case Some(a) => Some(Ip(a.family, a.bits, env.ntop(a)))
    case None => None
  }

  ghost predicate Canonical(env: Env, ip: Ip) {
    IpSet(env, ip.text) == Some(ip)
  }

  lemma SetCanonical(env: Env, s: string)
    requires AddressesRoundTrip(env) && IpSet(env, s).Some?
    ensures Canonical(env, IpSet(env, s).value)
  {}

  function IpTexts(ips: seq<Ip>): (r: seq<string>)
    ensures |r| == |ips|
  {
    seq(|ips|, i requires 0 <= i < |ips| => ips[i].text)
  }

  /** Addresses are added one by one unless an equal one is there already. */
  function IpsFrom(env: Env, texts: seq<string>): Option<seq<Ip>> {
    if texts == [] then Some([])
    else
      match (IpsFrom(env, texts[..|texts| - 1]), IpSet(env, texts[|texts| - 1]))
      case (Some(before), Some(ip)) => Some(if FindIp(before, ip) < |before| then before else before + [ip])
      case _ => None
  }

  ghost predicate AllDiffer(ips: seq<Ip>) {
    forall i, j :: 0 <= i < j < |ips| ==> !IpEqual(ips[i], ips[j])
  }

  lemma FindsNone(ips: seq<Ip>, ip: Ip)
    ensures FindIp(ips, ip) == |ips| <==> forall i :: 0 <= i < |ips| ==> !IpEqual(ips[i], ip)
  {}

  lemma {:induction false} IpsFromSize(env: Env, texts: seq<string>)
    ensures IpsFrom(env, texts).Some? ==> |IpsFrom(env, texts).value| <= |texts|
  {
    if texts != [] { IpsFromSize(env, texts[..|texts| - 1]); }
  }

  lemma IpsFromSnoc(env: Env, ips: seq<Ip>, ip: Ip)
    ensures IpTexts(ips + [ip]) == IpTexts(ips) + [ip.text]
    ensures IpsFrom(env, IpTexts(ips + [ip])) ==
      match (IpsFrom(env, IpTexts(ips)), IpSet(env, ip.text))
      case (Some(before), Some(x)) => Some(if FindIp(before, x) < |before| then before else before + [x])
      case _ => None
  {
    hide FindIp, IpSet;
    var texts := IpTexts(ips + [ip]);
    assert texts == IpTexts(ips) + [ip.text];
    assert texts[..|texts| - 1] == IpTexts(ips);
  }

  lemma AllDifferSnoc(ips: seq<Ip>, ip: Ip)
    ensures AllDiffer(ips + [ip]) <==> AllDiffer(ips) && FindIp(ips, ip) == |ips|
  {
    hide IpEqual;
    FindsNone(ips, ip);
    var all := ips + [ip];
    assert all[|ips|] == ip && forall i :: 0 <= i < |ips| ==> all[i] == ips[i];
    if AllDiffer(all) {
      forall i | 0 <= i < |ips| ensures !IpEqual(ips[i], ip) { assert !IpEqual(all[i], all[|ips|]); }
      forall i, j | 0 <= i < j < |ips| ensures !IpEqual(ips[i], ips[j]) { assert !IpEqual(all[i], all[j]); }
    }
  }

  /** A list of addresses survives the round trip exactly when no two of them count as equal. */
  lemma {:induction false} IpsRoundTrip(env: Env, ips: seq<Ip>)
    requires forall ip :: ip in ips ==> Canonical(env, ip)
    ensures IpsFrom(env, IpTexts(ips)) == Some(ips) <==> AllDiffer(ips)
    ensures IpsFrom(env, IpTexts(ips)).Some?
    decreases |ips|
  {
    hide IpsFrom, FindIp, IpSet, AllDiffer, IpTexts;
    if ips == [] {
      NoIps(env);
    } else {
      var before, last := ips[..|ips| - 1], ips[|ips| - 1];
      assert last in ips;
      IpsRoundTrip(env, before);
      IpsFromSize(env, IpTexts(before));
      IpsFromSnoc(env, before, last);
      AllDifferSnoc(before, last);
      assert ips == before + [last];
    }
  }

  lemma NoIps(env: Env)
    ensures IpTexts([]) == [] && IpsFrom(env, []) == Some([]) && AllDiffer([])
  {}

  lemma {:induction false} IpsFromOk(env: Env, texts: seq<string>)
    requires AddressesRoundTrip(env) && IpsFrom(env, texts).Some?
    ensures AllDiffer(IpsFrom(env, texts).value)
    ensures forall ip :: ip in IpsFrom(env, texts).value ==> Canonical(env, ip)
  {
    if texts != [] {
      IpsFromOk(env, texts[..|texts| - 1]);
      SetCanonical(env, texts[|texts| - 1]);
      FindsNone(IpsFrom(env, texts[..|texts| - 1]).value, IpSet(env, texts[|texts| - 1]).value);
    }
  }

  function IdsFrom(ids: seq<string>): seq<string> {
    if ids == [] then []
    else
      var before := IdsFrom(ids[..|ids| - 1]);
      if ids[|ids| - 1] in before then before else before + [ids[|ids| - 1]]
  }

  lemma {:induction false} IdsRoundTrip(ids: seq<string>)
    ensures IdsFrom(ids) == ids <==> NoRepeats(ids)
    ensures |IdsFrom(ids)| <= |ids| && NoRepeats(IdsFrom(ids))
  {
    if ids != [] {
      var before, last := ids[..|ids| - 1], ids[|ids| - 1];
      IdsRoundTrip(before);
      assert ids == before + [last];
      if NoRepeats(ids) { assert NoRepeats(before); }
    }
  }

  /** The loop of `Convert` over addresses; `None` for one that cannot be parsed. */
  method ConvertIps(env: Env, texts: seq<string>) returns (r: Option<seq<Ip>>)
    ensures r == IpsFrom(env, texts)
  {
    var ips := [];
    assert texts[..0] == [];
    for a := 0 to |texts|
      invariant IpsFrom(env, texts[..a]) == Some(ips)
    {
      assert texts[..a + 1][..a] == texts[..a];
      var ip := IpSet(env, texts[a]);
      if ip.None? {
        NoneStays(env, texts, a + 1);
        return None;
      }
      if FindIp(ips, ip.value) != |ips| { continue; }
      ips := ips + [ip.value];
    }
    assert texts[..|texts|] == texts;
    r := Some(ips);
  }

  lemma {:induction false} NoneStays(env: Env, texts: seq<string>, n: nat)
    requires n <= |texts| && IpsFrom(env, texts[..n]).None?
    ensures IpsFrom(env, texts).None?
    decreases |texts|
  {
    if n < |texts| {
      assert texts[..|texts| - 1][..n] == texts[..n];
      NoneStays(env, texts[..|texts| - 1], n);
    } else {
      assert texts[..n] == texts;
    }
  }

  method ConvertIds(ids: seq<string>) returns (r: seq<string>)
    ensures r == IdsFrom(ids)
  {
    r := [];
    assert ids[..0] == [];
    for a := 0 to |ids|
      invariant r == IdsFrom(ids[..a])
    {
      assert ids[..a + 1][..a] == ids[..a];
      if ids[a] in r { continue; }
      r := r + [ids[a]];
    }
    assert ids[..|ids|] == ids;
  }

  // NICs

  function NicTo(nic: Nic): NicMessage {
    NicMessage(nic.id, nic.mac, nic.vni, IpTexts(nic.ipList), nic.securityGroups, Some(nic.ipAntiSpoof), Some(nic.packetTrace),
               nic.packetTracePath, if nic.sniffTarget == "" then None else Some(nic.sniffTarget), Some(nic.bypassFiltering),
               if nic.path == "" then None else Some(nic.path))
  }

  function NicFrom(env: Env, m: NicMessage): Option<Nic> {
    match IpsFrom(env, m.ip)
    case None => None
    case Some(ips) => Some(Nic(
      m.id, if env.macOk(m.mac) then m.mac else "", m.vni, ips, IdsFrom(m.securityGroup), Default(m.packetTrace, env.packetTrace),
      if m.packetTracePath != "" then m.packetTracePath else env.tracePath(m.id),
      Default(m.ipAntiSpoof, false), Default(m.sniffTarget, ""), Default(m.bypassFiltering, false), Default(m.path, "")))
  }

  const VNI_MAX: nat := 16777215

  predicate ValidNic(env: Env, m: NicMessage) {
    env.macOk(m.mac) && m.vni <= VNI_MAX && forall i | 0 <= i < |m.ip| :: env.pton(m.ip[i]).Some?
  }

  /** What every NIC of the model satisfies. */
  ghost predicate NicOk(env: Env, nic: Nic) {
    && env.macOk(nic.mac) && nic.vni <= VNI_MAX && nic.packetTracePath != ""
    && (forall ip :: ip in nic.ipList ==> Canonical(env, ip)) && AllDiffer(nic.ipList)
    && NoRepeats(nic.securityGroups)
  }

  /** Such a NIC comes back from its message as it was, and the message passes validation. */
  lemma NicRoundTrip(env: Env, nic: Nic)
    requires NicOk(env, nic)
    ensures ValidNic(env, NicTo(nic)) && NicFrom(env, NicTo(nic)) == Some(nic)
  {
    hide IpsFrom, IdsFrom, IpSet;
    IpsRoundTrip(env, nic.ipList);
    IdsRoundTrip(nic.securityGroups);
    MembersParse(env, nic.ipList);
  }

  lemma NicFromOk(env: Env, m: NicMessage)
    requires AddressesRoundTrip(env) && ValidNic(env, m) && (forall id :: env.tracePath(id) != "")
    requires NicFrom(env, m).Some?
    ensures NicOk(env, NicFrom(env, m).value)
  {
    IpsFromOk(env, m.ip);
    IdsRoundTrip(m.securityGroup);
  }

  method ConvertNicMessage(env: Env, m: NicMessage) returns (r: Option<Nic>)
    ensures r == NicFrom(env, m)
  {
    hide IpsFrom, IdsFrom, Default;
    DefaultIs(m.packetTrace, env.packetTrace);
    DefaultIs(m.ipAntiSpoof, false);
    DefaultIs(m.sniffTarget, "");
    DefaultIs(m.bypassFiltering, false);
    DefaultIs(m.path, "");
    var ips := ConvertIps(env, m.ip);
    if ips.None? { return None; }
    var ids := ConvertIds(m.securityGroup);
    var mac := if env.macOk(m.mac) then m.mac else "";
    var antiSpoof := if m.ipAntiSpoof.Some? then m.ipAntiSpoof.value else false;
    var packetTrace := if m.packetTrace.Some? then m.packetTrace.value else env.packetTrace;
    var tracePath := if m.packetTracePath != "" then m.packetTracePath else env.tracePath(m.id);
    var sniffTarget := if m.sniffTarget.Some? then m.sniffTarget.value else "";
    var bypass := if m.bypassFiltering.Some? then m.bypassFiltering.value else false;
    var path := if m.path.Some? then m.path.value else "";
    r := Some(Nic(m.id, mac, m.vni, ips.value, ids, packetTrace, tracePath, antiSpoof, sniffTarget, bypass, path));
  }

  // Rules

  const UNSET_CIDR: Cidr := Cidr(Ip(NoFamily, 0, ""), 0)

  function RuleTo(rule: Rule): Option<RuleMessage> {
    if rule.direction.DIRECTION_NB? || (HasPorts(rule) && (rule.portStart == -1 || rule.portEnd == -1)) then None
    else
      Some(RuleMessage(
        rule.direction.OUTBOUND?, rule.protocol,
        if HasPorts(rule) then Some(rule.portStart) else None, if HasPorts(rule) then Some(rule.portEnd) else None,
        if rule.securityGroup != "" then None else Some(CidrMessage(rule.cidr.address.text, rule.cidr.maskSize)),
        if rule.securityGroup != "" then Some(rule.securityGroup) else None))
  }

  function CidrFrom(env: Env, m: CidrMessage): Option<Cidr> {
    match IpSet(env, m.address) case Some(ip) => Some(Cidr(ip, m.maskSize)) case None => None
  }

  function RuleFrom(env: Env, m: RuleMessage): Option<Rule> {
    var rule := Rule(if m.outbound then OUTBOUND else INBOUND, m.protocol, Default(m.portStart, 0), Default(m.portEnd, 0), UNSET_CIDR, "");
    if m.securityGroup.Some? then Some(rule.(securityGroup := m.securityGroup.value))
    else if m.cidr.Some? then
      match CidrFrom(env, m.cidr.value) case Some(c) => Some(rule.(cidr := c)) case None => None
    else None
  }

  predicate ValidCidr(env: Env, m: CidrMessage) {
    match env.pton(m.address)
    case Some(a) => m.maskSize <= Width(a.family)
    case None => false
  }

  predicate ValidRule(env: Env, m: RuleMessage) {
    && -1 <= m.protocol <= 255
    && (m.protocol == TCP || m.protocol == UDP ==>
          && m.portStart.Some? && m.portEnd.Some?
          && 0 <= m.portStart.value <= m.portEnd.value <= 65535)
    && !(m.securityGroup.Some? && m.cidr.Some?)
    && (m.cidr.Some? ==> ValidCidr(env, m.cidr.value))
  }

  /** Does a rule come back as it was, from a message that is accepted? */
  ghost predicate Replayable(env: Env, rule: Rule) {
    && !rule.direction.DIRECTION_NB? && -1 <= rule.protocol <= 255
    && (if HasPorts(rule) then 0 <= rule.portStart <= rule.portEnd <= 65535 else rule.portStart == rule.portEnd == 0)
    && (if rule.securityGroup != "" then rule.cidr == UNSET_CIDR
        else Canonical(env, rule.cidr.address) && rule.cidr.maskSize <= Width(rule.cidr.address.family))
  }

  /**
   Exactly the replayable rules survive.  The others that the API lets in are those with ports on a
   protocol without ports, which lose them, and those over a group named with the empty text, whose message
   is refused.
   */
  lemma RuleRoundTrip(env: Env, rule: Rule)
    ensures Replayable(env, rule) <==>
      RuleTo(rule).Some? && ValidRule(env, RuleTo(rule).value) && RuleFrom(env, RuleTo(rule).value) == Some(rule)
  {}

  /** What validation lets in. */
  lemma RuleFromShape(env: Env, m: RuleMessage)
    requires AddressesRoundTrip(env) && ValidRule(env, m) && RuleFrom(env, m).Some?
    ensures var rule := RuleFrom(env, m).value;
            Replayable(env, rule) <==>
              (HasPorts(rule) || (rule.portStart == 0 && rule.portEnd == 0)) && m.securityGroup != Some("")
  {
    if m.cidr.Some? && m.securityGroup.None? { SetCanonical(env, m.cidr.value.address); }
  }

  // Groups

  function RulesTo(rules: seq<Rule>): Option<seq<RuleMessage>> {
    if rules == [] then Some([])
    else
      match (RulesTo(rules[..|rules| - 1]), RuleTo(rules[|rules| - 1]))
      case (Some(before), Some(m)) => Some(before + [m])
      case _ => None
  }

  /** Rules are filed under their own hash; one whose hash is taken is left out. */
  function RulesFrom(env: Env, ms: seq<RuleMessage>): Option<map<nat, Rule>> {
    if ms == [] then Some(map[])
    else
      match (RulesFrom(env, ms[..|ms| - 1]), RuleFrom(env, ms[|ms| - 1]))
      case (Some(before), Some(rule)) =>
        var h := env.hash(RuleKey(rule));
        Some(if h in before then before else before[h := rule])
      case _ => None
  }

  function SgTo(sg: Sg): Option<SgMessage> {
    match RulesTo(RuleList(sg.rules))
    case Some(ms) => Some(SgMessage(sg.id, IpTexts(sg.members), ms))
    case None => None
  }

  function SgFrom(env: Env, m: SgMessage): Option<Sg> {
    match (IpsFrom(env, m.member), RulesFrom(env, m.rule))
    case (Some(members), Some(rules)) => Some(Sg(m.id, members, rules))
    case _ => None
  }

  predicate ValidSg(env: Env, m: SgMessage) {
    (forall i | 0 <= i < |m.member| :: env.pton(m.member[i]).Some?) && forall i | 0 <= i < |m.rule| :: ValidRule(env, m.rule[i])
  }

  ghost predicate SgOk(env: Env, sg: Sg) {
    && (forall ip :: ip in sg.members ==> Canonical(env, ip)) && AllDiffer(sg.members)
    && (forall h :: h in sg.rules ==> h == env.hash(RuleKey(sg.rules[h])) && Replayable(env, sg.rules[h]))
  }

  /** The rules at the hashes in `keys`. */
  function Filed(rules: map<nat, Rule>, keys: seq<nat>): map<nat, Rule> {
    map h | h in keys && h in rules :: rules[h]
  }

  lemma RulesSnoc(env: Env, rules: seq<Rule>, rule: Rule, ms: seq<RuleMessage>, filed: map<nat, Rule>)
    requires RulesTo(rules) == Some(ms) && RulesFrom(env, ms) == Some(filed)
    requires RuleTo(rule).Some? && RuleFrom(env, RuleTo(rule).value) == Some(rule)
    ensures RulesTo(rules + [rule]) == Some(ms + [RuleTo(rule).value])
    ensures RulesFrom(env, ms + [RuleTo(rule).value]) ==
      Some(if env.hash(RuleKey(rule)) in filed then filed else filed[env.hash(RuleKey(rule)) := rule])
  {
    hide RuleTo, RuleFrom, RuleKey;
    var all := rules + [rule];
    assert all[..|all| - 1] == rules;
    var m := ms + [RuleTo(rule).value];
    assert m[..|m| - 1] == ms;
  }

  lemma FiledSnoc(rules: map<nat, Rule>, keys: seq<nat>, h: nat)
    requires h in rules
    ensures Filed(rules, keys + [h]) == Filed(rules, keys)[h := rules[h]]
    ensures h in Filed(rules, keys) <==> h in keys
  {}

  lemma RulesAtSnoc(rules: map<nat, Rule>, keys: seq<nat>, h: nat)
    requires (forall x :: x in keys ==> x in rules) && h in rules
    ensures forall x :: x in keys + [h] ==> x in rules
    ensures RulesAt(rules, keys + [h]) == RulesAt(rules, keys) + [rules[h]]
  {
    assert forall x :: x in keys + [h] ==> x in keys || x == h;
  }

  lemma {:induction false} RulesRoundTrip(env: Env, rules: map<nat, Rule>, keys: seq<nat>)
    requires forall h :: h in keys ==> h in rules
    requires forall i, j :: 0 <= i < j < |keys| ==> keys[i] < keys[j]
    requires forall h :: h in rules ==> h == env.hash(RuleKey(rules[h])) && Replayable(env, rules[h])
    ensures var ms := RulesTo(RulesAt(rules, keys));
            && ms.Some? && (forall m :: m in ms.value ==> ValidRule(env, m))
            && RulesFrom(env, ms.value) == Some(Filed(rules, keys))
    decreases |keys|
  {
    hide RuleKey, Replayable, ValidRule, RulesTo, RulesFrom, Filed, RuleTo, RuleFrom, RulesAt;
    if keys == [] {
      NoRules(env, rules);
    } else {
      var before, h := keys[..|keys| - 1], keys[|keys| - 1];
      assert keys == before + [h];
      assert h in keys && forall x :: x in before ==> x in keys;
      RulesRoundTrip(env, rules, before);
      RuleRoundTrip(env, rules[h]);
      NotYet(keys);
      FiledSnoc(rules, before, h);
      RulesAtSnoc(rules, before, h);
      var ms := RulesTo(RulesAt(rules, before)).value;
      RulesSnoc(env, RulesAt(rules, before), rules[h], ms, Filed(rules, before));
      assert forall m :: m in ms + [RuleTo(rules[h]).value] ==> m in ms || m == RuleTo(rules[h]).value;
    }
  }

  lemma NoRules(env: Env, rules: map<nat, Rule>)
    ensures RulesAt(rules, []) == [] && RulesTo([]) == Some([]) && RulesFrom(env, []) == Some(map[]) && Filed(rules, []) == map[]
  {}

  lemma NotYet(keys: seq<nat>)
    requires keys != [] && forall i, j :: 0 <= i < j < |keys| ==> keys[i] < keys[j]
    ensures keys[|keys| - 1] !in keys[..|keys| - 1]
  {}

  /** Such a group comes back from its message as it was, and the message passes validation. */
  lemma SgRoundTrip(env: Env, sg: Sg)
    requires SgOk(env, sg)
    ensures SgTo(sg).Some? && ValidSg(env, SgTo(sg).value) && SgFrom(env, SgTo(sg).value) == Some(sg)
  {
    hide Replayable, ValidRule, RuleKey, RulesTo, RulesFrom, IpsFrom, Order.Numbers, RulesAt, AllDiffer, IpSet;
    var keys := Order.Numbers(sg.rules.Keys);
    RulesRoundTrip(env, sg.rules, keys);
    assert Filed(sg.rules, keys) == sg.rules;
    IpsRoundTrip(env, sg.members);
    MembersParse(env, sg.members);
  }

  lemma MembersParse(env: Env, ips: seq<Ip>)
    requires forall ip :: ip in ips ==> Canonical(env, ip)
    ensures forall i :: 0 <= i < |ips| ==> env.pton(IpTexts(ips)[i]).Some?
  {
    forall i | 0 <= i < |ips| ensures env.pton(IpTexts(ips)[i]).Some? {
      assert ips[i] in ips && Canonical(env, ips[i]);
    }
  }

  method ConvertSgMessage(env: Env, m: SgMessage) returns (r: Option<Sg>)
    ensures r == SgFrom(env, m)
  {
    hide RuleKey, RuleFrom;
    var members := ConvertIps(env, m.member);
    if members.None? { return None; }
    var rules: map<nat, Rule> := map[];
    assert m.rule[..0] == [];
    for a := 0 to |m.rule|
      invariant RulesFrom(env, m.rule[..a]) == Some(rules)
    {
      assert m.rule[..a + 1][..a] == m.rule[..a];
      var rule := RuleFrom(env, m.rule[a]);
      if rule.None? {
        NoRulesStays(env, m.rule, a + 1);
        return None;
      }
      var h := env.hash(RuleKey(rule.value));
      if h in rules { continue; }
      rules := rules[h := rule.value];
    }
    assert m.rule[..|m.rule|] == m.rule;
    r := Some(Sg(m.id, members.value, rules));
  }

  lemma {:induction false} NoRulesStays(env: Env, ms: seq<RuleMessage>, n: nat)
    requires n <= |ms| && RulesFrom(env, ms[..n]).None?
    ensures RulesFrom(env, ms).None?
    decreases |ms|
  {
    if n < |ms| {
      assert ms[..|ms| - 1][..n] == ms[..n];
      NoRulesStays(env, ms[..|ms| - 1], n);
    } else {
      assert ms[..n] == ms;
    }
  }

  method ConvertSg(sg: Sg) returns (r: Option<SgMessage>)
    ensures r == SgTo(sg)
  {
    hide RuleTo, RuleList;
    var rules := RuleList(sg.rules);
    var ms := [];
    assert rules[..0] == [];
    for a := 0 to |rules|
      invariant RulesTo(rules[..a]) == Some(ms)
    {
      assert rules[..a + 1][..a] == rules[..a];
      var m := RuleTo(rules[a]);
      if m.None? {
        NoMessagesStays(rules, a + 1);
        return None;
      }
      ms := ms + [m.value];
    }
    assert rules[..|rules|] == rules;
    r := Some(SgMessage(sg.id, IpTexts(sg.members), ms));
  }

  lemma {:induction false} NoMessagesStays(rules: seq<Rule>, n: nat)
    requires n <= |rules| && RulesTo(rules[..n]).None?
    ensures RulesTo(rules).None?
    decreases |rules|
  {
    if n < |rules| {
      assert rules[..|rules| - 1][..n] == rules[..n];
      NoMessagesStays(rules[..|rules| - 1], n);
    } else {
      assert rules[..n] == rules;
    }
  }
}
