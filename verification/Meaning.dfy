/** What the compiled filters mean: the compiler preserves the meaning of security groups. */
module Meaning {
  import opened Base
  import opened Model
  import opened Filter
  import opened Compile
  import opened Reading
  import Decimal

  // The meaning of the model, without any text

  function AddressOf(ip: Ip): Address {
    Address(ip.family, ip.bits)
  }

  /** The family a rule falls back on; an unset CIDR counts as IPv6. */
  function FamilyOf(rule: Rule): Family {
    if rule.cidr.address.family.V4? then V4 else V6
  }

  predicate SourceAllows(groups: Groups, rule: Rule, k: Packet) {
    if rule.securityGroup != "" then
      rule.securityGroup in groups && exists m | m in groups[rule.securityGroup].members :: AddressAt(k, Src) == AddressOf(m)
    else if rule.cidr.maskSize == 0 then k.family == FamilyOf(rule)
    else
      rule.cidr.maskSize <= Width(rule.cidr.address.family) &&
      InNet(AddressAt(k, if rule.direction.OUTBOUND? then Dst else Src), AddressOf(rule.cidr.address), rule.cidr.maskSize)
  }

  predicate ProtocolAllows(rule: Rule, k: Packet) {
    if rule.protocol == -1 then true
    else if rule.protocol == ICMP then k.family == V4 && k.proto == ICMP
    else if rule.protocol == ICMPV6 then k.family == V6 && k.proto == ICMPV6
    else if HasPorts(rule) then k.proto == rule.protocol && PortsValid(rule) && rule.portStart <= k.dport <= rule.portEnd
    else k.family == FamilyOf(rule) && k.proto == rule.protocol
  }

  predicate RuleAllows(groups: Groups, rule: Rule, k: Packet) {
    SourceAllows(groups, rule, k) && ProtocolAllows(rule, k)
  }

  predicate GroupAllows(groups: Groups, id: string, k: Packet) {
    id in groups && exists h | h in groups[id].rules :: RuleAllows(groups, groups[id].rules[h], k)
  }

  /** Some rule of some existing group lets the packet in. */
  predicate Allowed(groups: Groups, ids: seq<string>, k: Packet) {
    exists id | id in ids :: GroupAllows(groups, id, k)
  }

  /** A NIC may send from its own addresses, and ask for an address by DHCP. */
  predicate MaySend(ips: seq<Ip>, k: Packet) {
    || (exists ip | ip in ips :: AddressAt(k, Src) == AddressOf(ip))
    || (k.family == V4 && k.src == 0 && k.dst == 0xFFFF_FFFF && k.proto == UDP && k.sport == 68 && k.dport == 67)
  }

  // What the API's validation and `inet_ntop` give

  /** `text` is what `inet_ntop` writes for the address: `inet_pton` reads it back. */
  ghost predicate IpOk(pton: Resolver, ip: Ip) {
    pton(ip.text) == Some(AddressOf(ip)) && PlainWord(ip.text) && '/' !in ip.text
  }

  ghost predicate AddressesOk(pton: Resolver, ips: seq<Ip>) {
    forall ip :: ip in ips ==> IpOk(pton, ip)
  }

  predicate ProtocolOk(rule: Rule) {
    rule.protocol >= -1 && (HasPorts(rule) ==> rule.portStart >= 0 && rule.portEnd >= 0)
  }

  /** Is the source a network, given by a CIDR that names some bits? */
  predicate HasNet(rule: Rule) {
    rule.securityGroup == "" && rule.cidr.maskSize != 0
  }

  /** What the API lets in. */
  ghost predicate RuleOk(pton: Resolver, rule: Rule) {
    && ProtocolOk(rule)
    && (HasNet(rule) ==> IpOk(pton, rule.cidr.address) && rule.cidr.maskSize <= Width(rule.cidr.address.family))
  }

  predicate NetOk(rule: Rule) {
    HasNet(rule) ==>
      rule.cidr.maskSize <= Width(rule.cidr.address.family) && NoHostBits(AddressOf(rule.cidr.address), rule.cidr.maskSize)
  }

  /** The API also lets in networks with host bits; libpcap refuses what they compile to. */
  predicate Refused(rule: Rule) {
    !NetOk(rule) && (HasPorts(rule) ==> PortsValid(rule))
  }

  /** No rule of any of these groups is refused. */
  predicate NoneRefused(groups: Groups, ids: seq<string>) {
    forall id | id in ids && id in groups :: forall h | h in groups[id].rules :: !Refused(groups[id].rules[h])
  }

  ghost predicate GroupOk(pton: Resolver, sg: Sg) {
    && AddressesOk(pton, sg.members)
    && (forall h :: h in sg.rules ==> RuleOk(pton, sg.rules[h]))
  }

  ghost predicate GroupsOk(pton: Resolver, groups: Groups) {
    forall id :: id in groups ==> GroupOk(pton, groups[id])
  }

  // Words

  lemma DigitsAreWord(n: nat)
    ensures PlainWord(Decimal.ToString(n)) && Number(Decimal.ToString(n)) == Some(n)
    ensures '-' !in Decimal.ToString(n) && '/' !in Decimal.ToString(n)
  {
    hide Decimal.Digits, Decimal.Value;
    var s := Decimal.ToString(n);
    Decimal.ValueOfDigits(n);
    assert Decimal.IsDigit(s[0]);
    assert forall i :: 0 <= i < |s| ==> Decimal.IsDigit(s[i]);
  }

  lemma FindAt(a: string, c: char, b: string)
    requires c !in a
    ensures Find(a + [c] + b, c) == |a|
  {
    var s := a + [c] + b;
    var n := Find(s, c);
    assert s[|a|] == c;
    assert forall i :: 0 <= i < |a| ==> s[i] == a[i];
  }

  lemma Parts(a: string, c: char, b: string)
    ensures (a + [c] + b)[..|a|] == a && (a + [c] + b)[|a| + 1..] == b
  {}

  lemma NetWord(pton: Resolver, side: Side, c: Cidr)
    requires IpOk(pton, c.address) && c.maskSize <= Width(c.address.family)
    ensures PlainWord(CidrText(c))
    ensures ReadNet(pton, side, CidrText(c)) ==
      if NoHostBits(AddressOf(c.address), c.maskSize) then Some(Net(side, AddressOf(c.address), c.maskSize)) else None
  {
    hide Decimal.ToString, Number, Find, NoHostBits;
    DigitsAreWord(c.maskSize);
    FindAt(c.address.text, '/', Decimal.ToString(c.maskSize));
    Parts(c.address.text, '/', Decimal.ToString(c.maskSize));
    assert c.address.text + "/" == c.address.text + ['/'];
    assert CidrText(c)[|c.address.text|] == '/';
  }

  lemma RangeWord(number: nat, side: Side, lo: nat, hi: nat)
    ensures PlainWord(Decimal.ToString(lo) + "-" + Decimal.ToString(hi))
    ensures ReadRange(number, side, Decimal.ToString(lo) + "-" + Decimal.ToString(hi)) == Some(Ports(number, side, lo, hi))
  {
    hide Decimal.ToString, Number, Find;
    DigitsAreWord(lo);
    DigitsAreWord(hi);
    var a, b := Decimal.ToString(lo), Decimal.ToString(hi);
    FindAt(a, '-', b);
    Parts(a, '-', b);
    assert a + "-" == a + ['-'];
    assert (a + "-" + b)[|a|] == '-';
  }

  // The source

  ghost function HostPrimitive(ip: Ip): Primitive {
    Host(Src, AddressOf(ip))
  }

  lemma HostReads(pton: Resolver, ip: Ip)
    requires IpOk(pton, ip)
    ensures Lex(Say(["src", "host", ip.text])) == Quote(["src", "host", ip.text])
    ensures TermReads(pton, Quote(["src", "host", ip.text]), Prim(HostPrimitive(ip)))
  {
    hide Lex, Say, TermReads, Quote;
    var ws := ["src", "host", ip.text];
    LexPhrase(ws);
    PrimitiveReads(pton, ws, HostPrimitive(ip));
  }

  ghost function HostOperand(ip: Ip): Operand {
    Operand(OrT, Quote(["src", "host", ip.text]), Prim(HostPrimitive(ip)))
  }

  ghost function HostOperands(members: seq<Ip>): (os: seq<Operand>)
    ensures |os| == |members| && forall i :: 0 <= i < |os| ==> os[i] == HostOperand(members[i])
  {
    seq(|members|, i requires 0 <= i < |members| => HostOperand(members[i]))
  }

  lemma {:induction false} LexMembers(pton: Resolver, members: seq<Ip>)
    requires members != [] && forall ip :: ip in members ==> IpOk(pton, ip)
    ensures Lex(MembersText(members)) == HostOperand(members[0]).ts + Chain(HostOperands(members[1..]))
    decreases |members|
  {
    hide Lex, Say, TermReads, Quote, IpOk;
    assert members[0] in members;
    HostReads(pton, members[0]);
    var host := Say(["src", "host", members[0].text]);
    LexBlank(host);
    if |members| == 1 {
      assert " " + host + "" == " " + host;
    } else {
      LexMembers(pton, members[1..]);
      var os := HostOperands(members[1..]);
      assert os[0] == HostOperand(members[1..][0]) && os[1..] == HostOperands(members[1..][1..]);
      LexOr(" " + host, MembersText(members[1..]));
    }
  }

  lemma LexOr(a: string, b: string)
    requires b != "" && b[0] == ' '
    ensures Lex(a + (" or" + b)) == Lex(a) + [OrT] + Lex(b)
  {
    hide Lex;
    LexConcat(" or", b);
    LexBlank("or");
    LexOne("or");
    assert " " + "or" == " or";
    LexConcat(a, " or" + b);
  }

  lemma MembersRead(pton: Resolver, members: seq<Ip>) returns (e: Expr)
    requires members != [] && forall ip :: ip in members ==> IpOk(pton, ip)
    ensures TermReads(pton, Lex(" (" + MembersText(members) + ")"), e)
    ensures forall k :: Eval(e, k) <==> exists m | m in members :: AddressAt(k, Src) == AddressOf(m)
  {
    hide *;
    var first, os := HostOperand(members[0]), HostOperands(members[1..]);
    e := Fold(first.e, os);
    LexMembers(pton, members);
    assert members[0] in members;
    HostOperandReads(pton, members[0]);
    forall o | o in os ensures OperandReads(pton, o) && o.op.OrT? {
      var i :| 0 <= i < |os| && os[i] == o;
      HostOperandReads(pton, members[1..][i]);
    }
    ChainReads(pton, first.ts, first.e, os);
    ParensRead(pton, Lex(MembersText(members)), e);
    LexParens(MembersText(members));
    LexBlank("(" + MembersText(members) + ")");
    assert " " + ("(" + MembersText(members) + ")") == " (" + MembersText(members) + ")";
    forall k ensures Eval(e, k) <==> exists m | m in members :: AddressAt(k, Src) == AddressOf(m) {
      EvalOrs(first.e, os, k);
      MembersEval(members, k);
    }
  }

  lemma HostOperandReads(pton: Resolver, ip: Ip)
    requires IpOk(pton, ip)
    ensures OperandReads(pton, HostOperand(ip)) && HostOperand(ip).op.OrT?
    ensures TermReads(pton, HostOperand(ip).ts, HostOperand(ip).e)
  {
    HostReads(pton, ip);
  }

  lemma MembersEval(members: seq<Ip>, k: Packet)
    requires members != []
    ensures (exists m | m in members :: AddressAt(k, Src) == AddressOf(m)) <==>
      Eval(HostOperand(members[0]).e, k) || exists o :: o in HostOperands(members[1..]) && Eval(o.e, k)
  {
    hide HostOperand, Eval, HostOperands, AddressOf, AddressAt;
    var os := HostOperands(members[1..]);
    forall i | 0 <= i < |members| ensures Eval(HostOperand(members[i]).e, k) <==> AddressAt(k, Src) == AddressOf(members[i]) {
      HostEval(members[i], k);
    }
    if m :| m in members && AddressAt(k, Src) == AddressOf(m) {
      var i :| 0 <= i < |members| && members[i] == m;
      if i > 0 { assert os[i - 1] in os && os[i - 1] == HostOperand(members[i]); }
    }
    if o :| o in os && Eval(o.e, k) {
      var i :| 0 <= i < |os| && os[i] == o;
      assert members[i + 1] in members && os[i] == HostOperand(members[i + 1]);
    }
    assert members[0] in members;
  }

  lemma HostEval(ip: Ip, k: Packet)
    ensures Eval(HostOperand(ip).e, k) <==> AddressAt(k, Src) == AddressOf(ip)
  {}

  lemma AddressRead(pton: Resolver, rule: Rule) returns (e: Expr)
    requires RuleOk(pton, rule) && NetOk(rule) && rule.securityGroup == ""
    ensures TermReads(pton, Lex(Say(SourceWords(rule))), e)
    ensures forall k :: Eval(e, k) <==> SourceAllows(map[], rule, k)
  {
    hide Lex, Say, TermReads, Quote, InNet, ReadNet, Width;
    var ws := SourceWords(rule);
    var side := if rule.direction.OUTBOUND? then Dst else Src;
    if rule.cidr.maskSize != 0 {
      NetWord(pton, side, rule.cidr);
      assert forall w :: w in ws ==> PlainWord(w);
      e := Prim(Net(side, AddressOf(rule.cidr.address), rule.cidr.maskSize));
    } else {
      e := Prim(IsFamily(FamilyOf(rule)));
    }
    assert ReadPrimitive(pton, ws) == Some(e.p);
    LexPhrase(ws);
    PrimitiveReads(pton, ws, e.p);
  }

  lemma SourceRead(pton: Resolver, groups: Groups, rule: Rule) returns (e: Expr)
    requires GroupsOk(pton, groups) && RuleOk(pton, rule) && NetOk(rule) && SourceText(groups, rule) != ""
    ensures TermReads(pton, Lex(SourceText(groups, rule)), e)
    ensures forall k :: Eval(e, k) <==> SourceAllows(groups, rule, k)
  {
    hide Lex, Say, TermReads, MembersText, IpOk, InNet;
    if rule.securityGroup == "" {
      e := AddressRead(pton, rule);
    } else {
      assert GroupOk(pton, groups[rule.securityGroup]);
      e := MembersRead(pton, groups[rule.securityGroup].members);
    }
  }

  // The protocol

  /** The primitive that a protocol compiles to. */
  ghost function ProtocolWords(rule: Rule): seq<string> {
    if rule.protocol == ICMP then ["icmp"]
    else if rule.protocol == ICMPV6 then ["icmp6"]
    else if HasPorts(rule) then [if rule.protocol == TCP then "tcp" else "udp"] + PortWords(rule)
    else [if rule.cidr.address.family.V4? then "ip" else "ip6", "proto", Decimal.ToString(rule.protocol)]
  }

  lemma ProtocolPrimitive(pton: Resolver, rule: Rule) returns (p: Primitive)
    requires ProtocolOk(rule) && rule.protocol != -1 && (HasPorts(rule) ==> PortsValid(rule))
    ensures ReadPrimitive(pton, ProtocolWords(rule)) == Some(p)
    ensures forall w :: w in ProtocolWords(rule) ==> PlainWord(w)
    ensures forall k :: Holds(p, k) <==> ProtocolAllows(rule, k)
  {
    hide Decimal.ToString, Number, ReadRange, PlainWord, WordOk;
    ConstantWords();
    var ws := ProtocolWords(rule);
    if rule.protocol == ICMP {
      p := FamilyProtocol(V4, ICMP);
    } else if rule.protocol == ICMPV6 {
      p := FamilyProtocol(V6, ICMPV6);
    } else if HasPorts(rule) {
      DigitsAreWord(rule.portEnd);
      RangeWord(rule.protocol, Dst, rule.portStart, rule.portEnd);
      assert ws == [ws[0], "dst", ws[2], ws[3]];
      p := Ports(rule.protocol, Dst, rule.portStart, rule.portEnd);
    } else {
      DigitsAreWord(rule.protocol);
      p := FamilyProtocol(FamilyOf(rule), rule.protocol);
    }
  }

  lemma ConstantWords()
    ensures forall w :: w in ["icmp", "icmp6", "tcp", "udp", "ip", "ip6", "proto", "dst", "port", "portrange"] ==> PlainWord(w)
  {}

  /** The protocol part is the word `and`, and a term. */
  lemma ProtocolRead(pton: Resolver, rule: Rule) returns (e: Expr, ts: seq<Token>)
    requires ProtocolOk(rule) && rule.protocol != -1 && (HasPorts(rule) ==> PortsValid(rule))
    ensures Lex(ProtocolText(rule)) == [AndT] + ts && TermReads(pton, ts, e)
    ensures ProtocolText(rule) != "" && ProtocolText(rule)[0] == ' '
    ensures forall k :: Eval(e, k) <==> ProtocolAllows(rule, k)
  {
    hide *;
    var ws := ProtocolWords(rule);
    var p := ProtocolPrimitive(pton, rule);
    e := Prim(p);
    ProtocolShape(rule);
    LexPhrase(ws);
    PrimitiveReads(pton, ws, p);
    EvalPrimitive(p);
    if rule.protocol == ICMP || rule.protocol == ICMPV6 || HasPorts(rule) {
      ts := Quote(ws);
      LexAndPhrase(ws);
    } else {
      ts := [LParen] + Quote(ws) + [RParen];
      LexAndGroup(Say(ws));
      SingleTerm(pton, Quote(ws), e);
      ParensRead(pton, Quote(ws), e);
    }
  }

  lemma EvalPrimitive(p: Primitive)
    ensures forall k :: Eval(Prim(p), k) <==> Holds(p, k)
  {}

  lemma SingleTerm(pton: Resolver, ts: seq<Token>, e: Expr)
    requires TermReads(pton, ts, e)
    ensures ExprReads(pton, ts, e)
  {
    hide TermReads, ExprReads;
    ChainReads(pton, ts, e, []);
    assert ts + Chain([]) == ts;
  }

  lemma ProtocolShape(rule: Rule)
    requires rule.protocol != -1
    ensures var ws := ProtocolWords(rule);
            ws != [] && ProtocolText(rule) ==
              if rule.protocol == ICMP || rule.protocol == ICMPV6 || HasPorts(rule) then " " + Say(["and"] + ws)
              else " and (" + Say(ws) + ")"
    ensures ProtocolText(rule) != "" && ProtocolText(rule)[0] == ' '
  {
    hide Say, Decimal.ToString, PortWords;
    assert ["and", "icmp"] == ["and"] + ["icmp"];
    assert ["and", "icmp6"] == ["and"] + ["icmp6"];
    var t := if rule.protocol == TCP then "tcp" else "udp";
    assert ["and", t] + PortWords(rule) == ["and"] + ([t] + PortWords(rule));
  }

  lemma LexAndPhrase(ws: seq<string>)
    requires ws != [] && forall w :: w in ws ==> PlainWord(w)
    ensures Lex(" " + Say(["and"] + ws)) == [AndT] + Quote(ws)
  {
    hide Lex, Say, Quote;
    SayCons("and", ws);
    LexAfterWord("and", Say(ws));
    LexOne("and");
    LexPhrase(ws);
    LexBlank(Say(["and"] + ws));
  }

  lemma LexAndGroup(s: string)
    ensures Lex(" and (" + s + ")") == [AndT] + ([LParen] + Lex(s) + [RParen])
  {
    hide Lex;
    LexParens(s);
    LexAfterWord("and", "(" + s + ")");
    LexOne("and");
    LexBlank("and" + " " + ("(" + s + ")"));
    assert " " + ("and" + " " + ("(" + s + ")")) == " and (" + s + ")";
  }

  // Rules, groups, filters

  /** A rule compiles to a text that accepts what the rule allows, or to nothing when it allows nothing. */
  lemma RuleMeans(pton: Resolver, groups: Groups, rule: Rule)
    requires GroupsOk(pton, groups) && RuleOk(pton, rule) && !Refused(rule)
    ensures RuleText(groups, rule) == "" ==> forall k :: !RuleAllows(groups, rule, k)
    ensures RuleText(groups, rule) != "" ==>
      Sound(pton, RuleText(groups, rule)) && forall k :: Accepts(pton, RuleText(groups, rule), k) <==> RuleAllows(groups, rule, k)
  {
    hide *;
    RuleShape(groups, rule);
    if RuleText(groups, rule) == "" {
      VanishedRule(groups, rule);
    } else {
      NotRefused(rule);
      RuleReads(pton, groups, rule);
    }
  }

  lemma NotRefused(rule: Rule)
    ensures !Refused(rule) <==> NetOk(rule) || (HasPorts(rule) && !PortsValid(rule))
  {}

  lemma RuleShape(groups: Groups, rule: Rule)
    ensures RuleText(groups, rule) == "" <==> SourceText(groups, rule) == "" || (HasPorts(rule) && !PortsValid(rule))
    ensures RuleText(groups, rule) != "" ==> RuleText(groups, rule) == SourceText(groups, rule) + ProtocolText(rule)
  {
    hide SourceText, ProtocolText;
  }

  lemma VanishedRule(groups: Groups, rule: Rule)
    requires SourceText(groups, rule) == "" || (HasPorts(rule) && !PortsValid(rule))
    ensures forall k :: !RuleAllows(groups, rule, k)
  {
    hide InNet, Say, MembersText;
    if rule.securityGroup == "" { SourceNotEmpty(groups, rule); }
  }

  lemma RuleReads(pton: Resolver, groups: Groups, rule: Rule)
    requires GroupsOk(pton, groups) && RuleOk(pton, rule) && NetOk(rule)
    requires SourceText(groups, rule) != "" && (HasPorts(rule) ==> PortsValid(rule))
    requires RuleText(groups, rule) == SourceText(groups, rule) + ProtocolText(rule)
    ensures Sound(pton, RuleText(groups, rule))
    ensures forall k :: Accepts(pton, RuleText(groups, rule), k) <==> RuleAllows(groups, rule, k)
  {
    hide *;
    var s := SourceText(groups, rule);
    var e := SourceRead(pton, groups, rule);
    AllowsBoth(groups, rule);
    if rule.protocol == -1 {
      AnyProtocol(rule);
      assert s + "" == s;
      SingleTerm(pton, Lex(s), e);
      ReadsSound(pton, s, e);
    } else {
      ProtocolFits(pton, rule);
      var e2, ts := ProtocolRead(pton, rule);
      var os := [Operand(AndT, ts, e2)];
      ApartBlank(s, ProtocolText(rule));
      LexConcat(s, ProtocolText(rule));
      OneOperand(pton, AndT, ts, e2);
      ChainReads(pton, Lex(s), e, os);
      ReadsSound(pton, s + ProtocolText(rule), Fold(e, os));
      forall k ensures Eval(Fold(e, os), k) <==> Eval(e, k) && Eval(e2, k) { EvalAnds(e, os, k); }
    }
  }

  lemma ProtocolFits(pton: Resolver, rule: Rule)
    requires RuleOk(pton, rule)
    ensures ProtocolOk(rule)
  {}

  lemma AllowsBoth(groups: Groups, rule: Rule)
    ensures forall k :: RuleAllows(groups, rule, k) <==> SourceAllows(groups, rule, k) && ProtocolAllows(rule, k)
  {}

  lemma AnyProtocol(rule: Rule)
    requires rule.protocol == -1
    ensures ProtocolText(rule) == "" && forall k :: ProtocolAllows(rule, k)
  {}

  lemma ApartBlank(a: string, b: string)
    requires b != "" && b[0] == ' '
    ensures Apart(a, b)
  {}

  lemma OneOperand(pton: Resolver, op: Token, ts: seq<Token>, e: Expr)
    requires (op.AndT? || op.OrT?) && TermReads(pton, ts, e)
    ensures OperandReads(pton, Operand(op, ts, e)) && Chain([Operand(op, ts, e)]) == [op] + ts
  {
    assert Chain([]) == [];
  }

  /** The non-empty texts among `texts`, joined, accept what any of them accepts; if all are empty, so is the result. */
  lemma JoinedTexts(pton: Resolver, texts: seq<string>, k: Packet)
    requires forall t :: t in texts && t != "" ==> Sound(pton, t)
    ensures var r := Join(NonEmpty(texts), "||");
            && (r == "" <==> forall t :: t in texts ==> t == "")
            && (r != "" ==> Sound(pton, r) && (Accepts(pton, r, k) <==> exists t :: t in texts && t != "" && Accepts(pton, t, k)))
  {
    hide Sound, Accepts, Join;
    var parts := NonEmpty(texts);
    JoinEnd(parts, "||");
    if parts != [] {
      assert parts[0] in parts;
      JoinReads(pton, parts, "||");
    } else {
      assert forall t :: t in texts && t != "" ==> t in parts;
    }
  }

  lemma GroupMeans(pton: Resolver, groups: Groups, id: string, k: Packet)
    requires GroupsOk(pton, groups) && NoneRefused(groups, [id])
    ensures GroupText(groups, id) == "" ==> !GroupAllows(groups, id, k)
    ensures GroupText(groups, id) != "" ==>
      Sound(pton, GroupText(groups, id)) && (Accepts(pton, GroupText(groups, id), k) <==> GroupAllows(groups, id, k))
  {
    hide Join, Sound, Accepts, RuleText, RuleAllows, RuleOk, RuleList, Refused;
    if id in groups {
      assert id in [id];
      var rules := RuleList(groups[id].rules);
      var texts := RuleTexts(groups, rules);
      assert GroupOk(pton, groups[id]);
      forall i | 0 <= i < |rules|
        ensures texts[i] == "" ==> !RuleAllows(groups, rules[i], k)
        ensures texts[i] != "" ==> Sound(pton, texts[i]) && (Accepts(pton, texts[i], k) <==> RuleAllows(groups, rules[i], k))
        ensures exists h :: h in groups[id].rules && groups[id].rules[h] == rules[i]
      {
        assert rules[i] in rules;
        RuleListContents(groups[id].rules, rules[i]);
        RuleMeans(pton, groups, rules[i]);
      }
      JoinedTexts(pton, texts, k);
      if h :| h in groups[id].rules && RuleAllows(groups, groups[id].rules[h], k) {
        RuleListContents(groups[id].rules, groups[id].rules[h]);
        var i :| 0 <= i < |rules| && rules[i] == groups[id].rules[h];
        assert texts[i] in texts;
      }
      if t :| t in texts && t != "" && Accepts(pton, t, k) {
        var i :| 0 <= i < |texts| && texts[i] == t;
      }
    }
  }

  /**
   The inbound filter of a NIC accepts exactly the packets that some rule of some of its existing groups
   allows; when no rule of any group compiles there is no filter, and then nothing is allowed.
   */
  lemma InFilterMeans(pton: Resolver, groups: Groups, ids: seq<string>, k: Packet)
    requires GroupsOk(pton, groups) && NoneRefused(groups, ids)
    ensures InText(groups, ids) == "" ==> !Allowed(groups, ids, k)
    ensures InText(groups, ids) != "" ==>
      Sound(pton, InText(groups, ids)) && (Accepts(pton, InText(groups, ids), k) <==> Allowed(groups, ids, k))
  {
    hide Join, Sound, Accepts, GroupText, GroupAllows, GroupsOk, Refused;
    var texts := GroupTexts(groups, ids);
    forall i | 0 <= i < |ids|
      ensures texts[i] == "" ==> !GroupAllows(groups, ids[i], k)
      ensures texts[i] != "" ==> Sound(pton, texts[i]) && (Accepts(pton, texts[i], k) <==> GroupAllows(groups, ids[i], k))
    {
      assert ids[i] in ids;
      GroupMeans(pton, groups, ids[i], k);
    }
    JoinedTexts(pton, texts, k);
    if id :| id in ids && GroupAllows(groups, id, k) {
      var i :| 0 <= i < |ids| && ids[i] == id;
      assert texts[i] in texts;
    }
    if t :| t in texts && t != "" && Accepts(pton, t, k) {
      var i :| 0 <= i < |texts| && texts[i] == t;
      assert ids[i] in ids;
    }
  }

  // The outbound filter

  /** `inet_pton` on the two addresses that the DHCP clause names. */
  ghost predicate KnowsDhcp(pton: Resolver) {
    pton("0.0.0.0") == Some(Address(V4, 0)) && pton("255.255.255.255") == Some(Address(V4, 0xFFFF_FFFF))
  }

  ghost function DhcpPrimitives(): (r: seq<Primitive>)
    ensures |r| == 4
  {
    [Host(Src, Address(V4, 0)), Host(Dst, Address(V4, 0xFFFF_FFFF)), Ports(UDP, Src, 68, 68), Ports(UDP, Dst, 67, 67)]
  }

  lemma NumberTexts()
    ensures Number("68") == Some(68) && Number("67") == Some(67)
  {
    DigitsAreWord(68);
    DigitsAreWord(67);
    assert Decimal.Digits(68) == "68" by { assert Decimal.Digits(6) == "6"; }
    assert Decimal.Digits(67) == "67" by { assert Decimal.Digits(6) == "6"; }
  }

  lemma DhcpWordsOk(i: nat)
    requires i < 4
    ensures forall w :: w in DhcpWords()[i] ==> PlainWord(w)
  {}

  lemma DhcpPrimitive(pton: Resolver, i: nat)
    requires i < 4 && KnowsDhcp(pton)
    ensures ReadPrimitive(pton, DhcpWords()[i]) == Some(DhcpPrimitives()[i])
  {
    hide Number;
    NumberTexts();
  }

  ghost function DhcpOperand(i: nat): Operand
    requires i < 4
  {
    Operand(AndT, Quote(DhcpWords()[i]), Prim(DhcpPrimitives()[i]))
  }

  lemma DhcpOperandReads(pton: Resolver, i: nat)
    requires i < 4 && KnowsDhcp(pton)
    ensures OperandReads(pton, DhcpOperand(i))
    ensures Lex(Say(DhcpWords()[i])) == DhcpOperand(i).ts
  {
    hide Lex, Say, Quote, DhcpWords, DhcpPrimitives, TermReads;
    DhcpWordsOk(i);
    DhcpPrimitive(pton, i);
    LexPhrase(DhcpWords()[i]);
    PrimitiveReads(pton, DhcpWords()[i], DhcpPrimitives()[i]);
  }

  lemma LexAnd(a: string, b: string)
    ensures Lex(a + " and " + b) == Lex(a) + [AndT] + Lex(b)
  {
    hide Lex;
    LexAfterWord("and", b);
    LexOne("and");
    LexBlank("and" + " " + b);
    LexConcat(a, " " + ("and" + " " + b));
    assert a + (" " + ("and" + " " + b)) == a + " and " + b;
  }

  lemma DhcpReads(pton: Resolver)
    requires KnowsDhcp(pton)
    ensures ExprReads(pton, Lex(DhcpText()), Fold(DhcpOperand(0).e, [DhcpOperand(1), DhcpOperand(2), DhcpOperand(3)]))
  {
    hide Lex, Say, Quote, DhcpWords, DhcpPrimitives, TermReads, ExprReads, Fold, ReadPrimitive, Chain;
    var s0, s1, s2, s3 := Say(DhcpWords()[0]), Say(DhcpWords()[1]), Say(DhcpWords()[2]), Say(DhcpWords()[3]);
    forall i: nat | i < 4 ensures OperandReads(pton, DhcpOperand(i)) && Lex(Say(DhcpWords()[i])) == DhcpOperand(i).ts {
      DhcpOperandReads(pton, i);
    }
    LexAnd(s0, s1);
    LexAnd(s0 + " and " + s1, s2);
    LexAnd(s0 + " and " + s1 + " and " + s2, s3);
    var a, b, c := DhcpOperand(1), DhcpOperand(2), DhcpOperand(3);
    DhcpChain(a, b, c);
    FourParts(DhcpOperand(0).ts, a.ts, b.ts, c.ts, [AndT]);
    ChainReads(pton, DhcpOperand(0).ts, DhcpOperand(0).e, [a, b, c]);
  }

  lemma FourParts<T>(w: seq<T>, a: seq<T>, b: seq<T>, c: seq<T>, and: seq<T>)
    ensures w + and + a + and + b + and + c == w + (and + a + (and + b + (and + c)))
  {}

  lemma DhcpMeans(pton: Resolver, k: Packet)
    requires KnowsDhcp(pton)
    ensures Sound(pton, DhcpText())
    ensures Accepts(pton, DhcpText(), k) <==>
      k.family == V4 && k.src == 0 && k.dst == 0xFFFF_FFFF && k.proto == UDP && k.sport == 68 && k.dport == 67
  {
    hide Lex, Say, Quote, DhcpWords, DhcpText, ExprReads, Sound, Accepts, Fold;
    var os := [DhcpOperand(1), DhcpOperand(2), DhcpOperand(3)];
    DhcpReads(pton);
    ReadsSound(pton, DhcpText(), Fold(DhcpOperand(0).e, os));
    EvalAnds(DhcpOperand(0).e, os, k);
    assert os[0] in os && os[1] in os && os[2] in os;
  }

  lemma DhcpChain(a: Operand, b: Operand, c: Operand)
    ensures Chain([a, b, c]) == [a.op] + a.ts + ([b.op] + b.ts + ([c.op] + c.ts))
  {
    assert [a, b, c][1..] == [b, c] && [b, c][1..] == [c] && [c][1..] == [] && Chain([]) == [];
    assert Chain([c]) == [c.op] + c.ts;
  }

  lemma HostMeans(pton: Resolver, ip: Ip)
    requires IpOk(pton, ip)
    ensures Sound(pton, Say(["src", "host", ip.text]))
    ensures forall k :: Accepts(pton, Say(["src", "host", ip.text]), k) <==> AddressAt(k, Src) == AddressOf(ip)
  {
    hide Lex, Say, Quote, Sound, Accepts, ReadPrimitive, TermReads, ExprReads;
    HostReads(pton, ip);
    SingleTerm(pton, Quote(["src", "host", ip.text]), Prim(HostPrimitive(ip)));
    ReadsSound(pton, Say(["src", "host", ip.text]), Prim(HostPrimitive(ip)));
  }

  /** The outbound filter accepts exactly what comes from the NIC's own addresses, and DHCP. */
  lemma OutFilterMeans(pton: Resolver, ips: seq<Ip>, k: Packet)
    requires KnowsDhcp(pton) && AddressesOk(pton, ips)
    ensures Sound(pton, OutText(ips)) && (Accepts(pton, OutText(ips), k) <==> MaySend(ips, k))
  {
    hide Join, Say, Sound, Accepts, DhcpText, IpOk;
    var hosts := HostTexts(ips);
    var texts := hosts + [DhcpText()];
    DhcpMeans(pton, k);
    forall i | 0 <= i < |ips|
      ensures Sound(pton, texts[i]) && (Accepts(pton, texts[i], k) <==> AddressAt(k, Src) == AddressOf(ips[i]))
    {
      assert ips[i] in ips;
      HostMeans(pton, ips[i]);
    }
    assert texts[|ips|] == DhcpText();
    JoinReads(pton, texts, " || ");
    if t :| t in texts && Accepts(pton, t, k) {
      var i :| 0 <= i < |texts| && texts[i] == t;
    }
    if ip :| ip in ips && AddressAt(k, Src) == AddressOf(ip) {
      var i :| 0 <= i < |ips| && ips[i] == ip;
      assert texts[i] in texts;
    }
  }

  // What libpcap refuses

  /** A rule that compiles can be read exactly when its network has no host bits. */
  lemma RuleReadable(pton: Resolver, groups: Groups, rule: Rule)
    requires GroupsOk(pton, groups) && RuleOk(pton, rule)
    ensures Refused(rule) ==> RuleText(groups, rule) != "" && Fails(pton, RuleText(groups, rule))
    ensures !Refused(rule) && RuleText(groups, rule) != "" ==> Sound(pton, RuleText(groups, rule))
  {
    hide *;
    if Refused(rule) {
      NotRefused(rule);
      HostBitsFail(pton, groups, rule);
    } else {
      RuleMeans(pton, groups, rule);
    }
  }

  lemma HostBitsFail(pton: Resolver, groups: Groups, rule: Rule)
    requires RuleOk(pton, rule) && !NetOk(rule) && (HasPorts(rule) ==> PortsValid(rule))
    ensures RuleText(groups, rule) != "" && Fails(pton, RuleText(groups, rule))
  {
    hide *;
    var ws := SourceWords(rule);
    HostBitsText(pton, groups, rule);
    LexPhrase(ws);
    var tail := ProtocolTail(pton, rule);
    ApartBlankOrEmpty(Say(ws), ProtocolText(rule));
    LexConcat(Say(ws), ProtocolText(rule));
    PrimitiveFails(pton, ws, tail, Say(ws) + ProtocolText(rule));
  }

  lemma HostBitsText(pton: Resolver, groups: Groups, rule: Rule)
    requires RuleOk(pton, rule) && !NetOk(rule) && (HasPorts(rule) ==> PortsValid(rule))
    ensures var ws := SourceWords(rule);
            && (forall w :: w in ws ==> PlainWord(w)) && ReadPrimitive(pton, ws).None?
            && RuleText(groups, rule) == Say(ws) + ProtocolText(rule) && RuleText(groups, rule) != ""
    ensures ProtocolOk(rule)
  {
    hide Say, ProtocolText, ReadNet, NoHostBits, CidrText, IpOk;
    NetWord(pton, if rule.direction.OUTBOUND? then Dst else Src, rule.cidr);
    SourceNotEmpty(groups, rule);
  }

  /** What follows the source: nothing, or an operator. */
  lemma ProtocolTail(pton: Resolver, rule: Rule) returns (tail: seq<Token>)
    requires ProtocolOk(rule) && (HasPorts(rule) ==> PortsValid(rule))
    ensures Lex(ProtocolText(rule)) == tail && (tail == [] || tail[0].AndT?)
    ensures ProtocolText(rule) != "" ==> ProtocolText(rule)[0] == ' '
  {
    hide ProtocolText, TermReads, ProtocolOk, HasPorts, PortsValid;
    tail := Lex(ProtocolText(rule));
    if rule.protocol == -1 {
      AnyProtocol(rule);
      LexNothing();
    } else {
      var e, ts := ProtocolRead(pton, rule);
      assert tail[0] == AndT;
    }
  }

  lemma ApartBlankOrEmpty(a: string, b: string)
    requires b != "" ==> b[0] == ' '
    ensures Apart(a, b)
  {}

  lemma PrimitiveFails(pton: Resolver, ws: seq<string>, tail: seq<Token>, s: string)
    requires ws != [] && ReadPrimitive(pton, ws).None? && (tail == [] || tail[0].AndT?) && Lex(s) == Quote(ws) + tail
    ensures Fails(pton, s)
  {
    hide ReadPrimitive, Lex;
    forall rest | Stops(rest) ensures ParseExpr(pton, Lex(s) + rest) == None {
      var ts := Quote(ws) + (tail + rest);
      assert NoWord(tail + rest) && Lex(s) + rest == ts;
      WordsOfQuote(ws, tail + rest);
      assert ts[0] == Word(ws[0]);
      assert ParseTerm(pton, ts) == None;
    }
  }

  /** Texts of which each is empty, can be read, or cannot, joined: they can be read unless one cannot. */
  lemma JoinedReadable(pton: Resolver, texts: seq<string>)
    requires forall t :: t in texts && t != "" ==> Sound(pton, t) || Fails(pton, t)
    ensures var r := Join(NonEmpty(texts), "||");
            if exists t :: t in texts && t != "" && Fails(pton, t) then r != "" && Fails(pton, r) else r == "" || Sound(pton, r)
  {
    hide Sound, Fails, Join;
    var parts := NonEmpty(texts);
    JoinEnd(parts, "||");
    if t :| t in texts && t != "" && Fails(pton, t) {
      assert t in parts;
      JoinFails(pton, parts, "||");
    } else if parts != [] {
      assert forall t :: t in parts ==> Sound(pton, t);
      JoinReads(pton, parts, "||");
    }
  }

  lemma GroupReadable(pton: Resolver, groups: Groups, id: string)
    requires GroupsOk(pton, groups)
    ensures var r := GroupText(groups, id);
            if NoneRefused(groups, [id]) then r == "" || Sound(pton, r) else r != "" && Fails(pton, r)
  {
    hide Join, Sound, Fails, RuleText, RuleOk, RuleList, Refused;
    assert id in [id];
    if id in groups {
      var rules := RuleList(groups[id].rules);
      var texts := RuleTexts(groups, rules);
      assert GroupOk(pton, groups[id]);
      forall i | 0 <= i < |rules|
        ensures if Refused(rules[i]) then texts[i] != "" && Fails(pton, texts[i]) else texts[i] == "" || Sound(pton, texts[i])
      {
        assert rules[i] in rules;
        RuleListContents(groups[id].rules, rules[i]);
        RuleReadable(pton, groups, rules[i]);
      }
      JoinedReadable(pton, texts);
      if !NoneRefused(groups, [id]) {
        var h :| h in groups[id].rules && Refused(groups[id].rules[h]);
        RuleListContents(groups[id].rules, groups[id].rules[h]);
        var i :| 0 <= i < |rules| && rules[i] == groups[id].rules[h];
        assert texts[i] in texts;
      } else if t :| t in texts && t != "" && Fails(pton, t) {
        var i :| 0 <= i < |texts| && texts[i] == t;
        RuleListContents(groups[id].rules, rules[i]);
        SoundOrFails(pton, t);
      }
    }
  }

  lemma SoundOrFails(pton: Resolver, s: string)
    requires Fails(pton, s)
    ensures !Sound(pton, s)
  {
    hide Sound, Fails;
    FailsUnreadable(pton, s);
    if Sound(pton, s) { SoundReadable(pton, s); }
  }

  /** One rule with host bits, in any group that a NIC lists, and the whole inbound filter of the NIC is refused. */
  lemma InFilterReadable(pton: Resolver, groups: Groups, ids: seq<string>)
    requires GroupsOk(pton, groups)
    ensures InText(groups, ids) == "" || Readable(pton, InText(groups, ids)) <==> NoneRefused(groups, ids)
  {
    hide Join, Sound, Fails, GroupText, GroupsOk, Refused, Readable;
    var texts := GroupTexts(groups, ids);
    forall i | 0 <= i < |ids|
      ensures if NoneRefused(groups, [ids[i]]) then texts[i] == "" || Sound(pton, texts[i]) else texts[i] != "" && Fails(pton, texts[i])
    {
      GroupReadable(pton, groups, ids[i]);
    }
    JoinedReadable(pton, texts);
    if NoneRefused(groups, ids) {
      assert forall i :: 0 <= i < |ids| ==> ids[i] in ids && NoneRefused(groups, [ids[i]]);
      if t :| t in texts && t != "" && Fails(pton, t) { SoundOrFails(pton, t); }
      if InText(groups, ids) != "" { SoundReadable(pton, InText(groups, ids)); }
    } else {
      var id :| id in ids && id in groups && exists h :: h in groups[id].rules && Refused(groups[id].rules[h]);
      var i :| 0 <= i < |ids| && ids[i] == id;
      assert id in [id] && !NoneRefused(groups, [id]);
      assert texts[i] in texts;
      FailsUnreadable(pton, InText(groups, ids));
    }
  }

  // Where the text says less than the rule

  lemma EmptyAcceptsNothing(pton: Resolver, k: Packet)
    ensures !Accepts(pton, "", k)
  {
    LexNothing();
  }

  /** What a rule over a group is for, whatever the family: a source among the members, and the protocol. */
  predicate MeantByGroup(groups: Groups, rule: Rule, k: Packet) {
    && rule.securityGroup in groups
    && (exists m | m in groups[rule.securityGroup].members :: AddressAt(k, Src) == AddressOf(m))
    && k.proto == rule.protocol
  }

  /**
   A rule over a group with any protocol but the usual ones filters as meant exactly when all members of the
   group are IPv6: the family of such a rule is that of its CIDR, which is unset, and then counts as IPv6.
   */
  lemma OtherProtocolOverGroup(pton: Resolver, groups: Groups, rule: Rule)
    requires GroupsOk(pton, groups) && ProtocolOk(rule)
    requires rule.securityGroup != "" && rule.cidr.address.family == NoFamily
    requires rule.protocol !in {-1, ICMP, ICMPV6, TCP, UDP}
    ensures (forall k :: Accepts(pton, RuleText(groups, rule), k) <==> MeantByGroup(groups, rule, k))
       <==> (rule.securityGroup in groups ==> forall m :: m in groups[rule.securityGroup].members ==> m.family.V6?)
  {
    hide Accepts, RuleText, GroupsOk;
    GroupRuleAccepts(pton, groups, rule);
    if rule.securityGroup in groups {
      var members := groups[rule.securityGroup].members;
      if forall k :: Accepts(pton, RuleText(groups, rule), k) <==> MeantByGroup(groups, rule, k) {
        forall m | m in members ensures m.family.V6? {
          var k := Packet(m.family, m.bits, 0, rule.protocol, 0, 0);
          assert MeantByGroup(groups, rule, k);
        }
      }
    }
  }

  lemma GroupRuleAccepts(pton: Resolver, groups: Groups, rule: Rule)
    requires GroupsOk(pton, groups) && ProtocolOk(rule)
    requires rule.securityGroup != "" && rule.cidr.address.family == NoFamily
    requires rule.protocol !in {-1, ICMP, ICMPV6, TCP, UDP}
    ensures forall k :: Accepts(pton, RuleText(groups, rule), k) <==> k.family == V6 && MeantByGroup(groups, rule, k)
  {
    hide Accepts, RuleText, GroupsOk;
    RuleMeans(pton, groups, rule);
    forall k ensures Accepts(pton, RuleText(groups, rule), k) <==> k.family == V6 && MeantByGroup(groups, rule, k) {
      EmptyAcceptsNothing(pton, k);
      assert RuleAllows(groups, rule, k) <==> k.family == V6 && MeantByGroup(groups, rule, k);
    }
  }

  /** For example, GRE from an IPv4 member. */
  lemma GreFromMember(pton: Resolver)
    requires IpOk(pton, Ip(V4, 0x0A00_0001, "10.0.0.1"))
    ensures var groups := map["g" := Sg("g", [Ip(V4, 0x0A00_0001, "10.0.0.1")], map[])];
            var rule := Rule(INBOUND, 47, 0, 0, Cidr(Ip(NoFamily, 0, ""), 0), "g");
            var k := Packet(V4, 0x0A00_0001, 0x0A00_0002, 47, 0, 0);
            MeantByGroup(groups, rule, k) && !Accepts(pton, RuleText(groups, rule), k)
  {
    hide Accepts, RuleText, IpOk;
    var groups := map["g" := Sg("g", [Ip(V4, 0x0A00_0001, "10.0.0.1")], map[])];
    var rule := Rule(INBOUND, 47, 0, 0, Cidr(Ip(NoFamily, 0, ""), 0), "g");
    var k := Packet(V4, 0x0A00_0001, 0x0A00_0002, 47, 0, 0);
    GroupRuleAccepts(pton, groups, rule);
    assert AddressAt(k, Src) == AddressOf(groups["g"].members[0]);
    assert MeantByGroup(groups, rule, k);
  }
}
