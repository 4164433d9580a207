/** The rule compiler: from security groups to filter texts, as the code assembles them. */
module Compile {
  import opened Model
  import Decimal

  // What the texts are

  /** Words with one blank between each two. */
  function Say(ws: seq<string>): string
    requires ws != []
  {
    if |ws| == 1 then ws[0] else ws[0] + " " + Say(ws[1..])
  }

  /** A source given by address: `src net A/m`, or only the address family. */
  function SourceWords(rule: Rule): (ws: seq<string>)
    ensures ws != []
  {
    if rule.cidr.maskSize != 0 then
      [if rule.direction.OUTBOUND? then "dst" else "src", "net", CidrText(rule.cidr)]
    else if rule.cidr.address.family.V4? then ["ip"]
    else ["ip6"]
  }

  function MembersText(members: seq<Ip>): string {
    if members == [] then ""
    else
      " " + Say(["src", "host", members[0].text]) + if |members| == 1 then "" else " or" + MembersText(members[1..])
  }

  /** Empty when the rule names a group that is missing or has no member. */
  function SourceText(groups: Groups, rule: Rule): string {
    if rule.securityGroup == "" then Say(SourceWords(rule))
    else if rule.securityGroup !in groups || groups[rule.securityGroup].members == [] then ""
    else " (" + MembersText(groups[rule.securityGroup].members) + ")"
  }

  predicate HasPorts(rule: Rule) {
    rule.protocol == TCP || rule.protocol == UDP
  }

  predicate PortsValid(rule: Rule) {
    rule.portStart < 65536 && rule.portEnd < 65536 && rule.portStart <= rule.portEnd
  }

  function PortWords(rule: Rule): seq<string> {
    if rule.portStart == rule.portEnd then ["dst", "port", Decimal.ToString(rule.portEnd)]
    else ["dst", "portrange", Decimal.ToString(rule.portStart) + "-" + Decimal.ToString(rule.portEnd)]
  }

  function ProtocolText(rule: Rule): string {
    if rule.protocol == ICMP then " " + Say(["and", "icmp"])
    else if rule.protocol == ICMPV6 then " " + Say(["and", "icmp6"])
    else if rule.protocol == TCP then " " + Say(["and", "tcp"] + PortWords(rule))
    else if rule.protocol == UDP then " " + Say(["and", "udp"] + PortWords(rule))
    else if rule.protocol == -1 then ""
    else
      " and (" + Say([if rule.cidr.address.family.V4? then "ip" else "ip6", "proto", Decimal.ToString(rule.protocol)]) + ")"
  }

  /** `FwBuildRule`: empty when the rule compiles to nothing. */
  function RuleText(groups: Groups, rule: Rule): string {
    if SourceText(groups, rule) == "" || (HasPorts(rule) && !PortsValid(rule)) then ""
    else SourceText(groups, rule) + ProtocolText(rule)
  }

  function NonEmpty(texts: seq<string>): (r: seq<string>)
    ensures forall t :: t in r <==> t in texts && t != ""
  {
    if texts == [] then []
    else (if texts[0] == "" then [] else [texts[0]]) + NonEmpty(texts[1..])
  }

  /** The parts in parentheses, with `sep` between each two. */
  function Join(parts: seq<string>, sep: string): string {
    if parts == [] then ""
    else "(" + parts[0] + ")" + if |parts| == 1 then "" else sep + Join(parts[1..], sep)
  }

  function RuleTexts(groups: Groups, rules: seq<Rule>): (r: seq<string>)
    ensures |r| == |rules|
  {
    seq(|rules|, i requires 0 <= i < |rules| => RuleText(groups, rules[i]))
  }

  /** `FwBuildSg`. */
  function SgText(groups: Groups, sg: Sg): string {
    Join(NonEmpty(RuleTexts(groups, RuleList(sg.rules))), "||")
  }

  /** A group that does not exist contributes as little as one that compiles to nothing. */
  function GroupText(groups: Groups, id: string): string {
    if id in groups then SgText(groups, groups[id]) else ""
  }

  function GroupTexts(groups: Groups, ids: seq<string>): (r: seq<string>)
    ensures |r| == |ids|
  {
    seq(|ids|, i requires 0 <= i < |ids| => GroupText(groups, ids[i]))
  }

  /** The inbound filter of a NIC. */
  function InText(groups: Groups, ids: seq<string>): string {
    Join(NonEmpty(GroupTexts(groups, ids)), "||")
  }

  function HostTexts(ips: seq<Ip>): (r: seq<string>)
    ensures |r| == |ips|
  {
    seq(|ips|, i requires 0 <= i < |ips| => Say(["src", "host", ips[i].text]))
  }

  /** The four primitives that let DHCP requests out. */
  function DhcpWords(): (r: seq<seq<string>>)
    ensures |r| == 4 && forall i :: 0 <= i < 4 ==> r[i] != []
  {
    [["src", "host", "0.0.0.0"], ["dst", "host", "255.255.255.255"], ["udp", "src", "port", "68"], ["udp", "dst", "port", "67"]]
  }

  function DhcpText(): string {
    Say(DhcpWords()[0]) + " and " + Say(DhcpWords()[1]) + " and " + Say(DhcpWords()[2]) + " and " + Say(DhcpWords()[3])
  }

  /** The outbound filter of a NIC. */
  function OutText(ips: seq<Ip>): string {
    Join(HostTexts(ips) + [DhcpText()], " || ")
  }

  // Building them

  lemma SayWords(a: string, b: string, c: string, d: string, e: string)
    ensures Say([a]) == a
    ensures Say([a, b]) == a + " " + b
    ensures Say([a, b, c]) == a + " " + b + " " + c
    ensures Say([a, b, c, d, e]) == a + " " + b + " " + c + " " + d + " " + e
  {
    assert [d, e] == [d] + [e] && [c, d, e] == [c] + [d, e] && [b, c, d, e] == [b] + [c, d, e];
    assert [a, b, c, d, e] == [a] + [b, c, d, e] && [b, c] == [b] + [c] && [a, b, c] == [a] + [b, c] && [a, b] == [a] + [b];
    SayCons(d, [e]);
    SayCons(c, [d, e]);
    SayCons(b, [c, d, e]);
    SayCons(a, [b, c, d, e]);
    SayCons(b, [c]);
    SayCons(a, [b, c]);
    SayCons(a, [b]);
    hide Say;
    assert a + " " + (b + " " + c) == a + " " + b + " " + c;
    assert a + " " + (b + " " + (c + " " + (d + " " + e))) == a + " " + b + " " + c + " " + d + " " + e;
  }

  lemma SayCons(w: string, ws: seq<string>)
    requires ws != []
    ensures [w] + ws != [] && Say([w] + ws) == w + " " + Say(ws)
    ensures |ws| == 1 ==> Say(ws) == ws[0]
  {
    assert ([w] + ws)[1..] == ws;
  }

  /** `FwBuildRule`, statement by statement. */
  method FwBuildRule(groups: Groups, rule: Rule) returns (r: string)
    ensures r == RuleText(groups, rule)
  {
    r := "";
    if |rule.securityGroup| == 0 {
      if rule.cidr.maskSize != 0 {
        if rule.direction == OUTBOUND { r := r + "dst"; } else { r := r + "src"; }
        r := r + " net " + rule.cidr.address.text + "/" + Decimal.ToString(rule.cidr.maskSize);
        NetSource(rule);
      } else if rule.cidr.address.family == V4 {
        r := r + "ip";
      } else {
        r := r + "ip6";
      }
      assert r == SourceText(groups, rule);
    } else {
      if rule.securityGroup !in groups { return ""; }
      var members := groups[rule.securityGroup].members;
      if |members| == 0 { return ""; }
      r := AddMembers(members);
      assert r == SourceText(groups, rule);
    }
    assert r != "" by { SourceNotEmpty(groups, rule); }
    hide SourceText;
    r := AddProtocol(r, rule);
  }

  lemma NetSource(rule: Rule)
    requires rule.cidr.maskSize != 0
    ensures Say(SourceWords(rule)) == "" + (if rule.direction == OUTBOUND then "dst" else "src")
                                     + " net " + rule.cidr.address.text + "/" + Decimal.ToString(rule.cidr.maskSize)
  {
    hide Say, Decimal.ToString;
    var side := if rule.direction.OUTBOUND? then "dst" else "src";
    SayWords(side, "net", CidrText(rule.cidr), "", "");
    assert side + " " + "net" + " " == "" + side + " net ";
  }

  lemma SourceNotEmpty(groups: Groups, rule: Rule)
    requires rule.securityGroup == "" || (rule.securityGroup in groups && groups[rule.securityGroup].members != [])
    ensures SourceText(groups, rule) != ""
  {
    SayWords(if rule.direction.OUTBOUND? then "dst" else "src", "net", CidrText(rule.cidr), "", "");
  }

  /** The loop over the members of a group. */
  method AddMembers(members: seq<Ip>) returns (r: string)
    requires members != []
    ensures r == " (" + MembersText(members) + ")"
  {
    hide MembersText;
    r := " (";
    var i := 0;
    assert members[0..] == members;
    while i < |members|
      invariant 0 <= i <= |members|
      invariant i < |members| ==> r + MembersText(members[i..]) == " (" + MembersText(members)
      invariant i == |members| ==> r == " (" + MembersText(members)
    {
      MembersStep(members, i);
      ghost var before := r;
      r := r + (" src host " + members[i].text);
      i := i + 1;
      if i != |members| {
        r := r + " or";
        assert r + MembersText(members[i..]) == before + MembersText(members[i - 1..]);
      } else {
        assert r == before + MembersText(members[i - 1..]);
      }
    }
    r := r + ")";
  }

  lemma MembersStep(members: seq<Ip>, i: nat)
    requires i < |members|
    ensures MembersText(members[i..])
         == " src host " + members[i].text + if i + 1 == |members| then "" else " or" + MembersText(members[i + 1..])
  {
    SayWords("src", "host", members[i].text, "", "");
    hide Say;
    assert members[i..][1..] == members[i + 1..] && members[i..][0] == members[i];
    assert " " + ("src" + " " + "host" + " " + members[i].text) == " src host " + members[i].text;
  }

  /** The protocol switch and the ports after it. */
  method AddProtocol(source: string, rule: Rule) returns (r: string)
    ensures r == if HasPorts(rule) && !PortsValid(rule) then "" else source + ProtocolText(rule)
  {
    r := source;
    if rule.protocol == ICMP { r := r + " and icmp"; }
    else if rule.protocol == ICMPV6 { r := r + " and icmp6"; }
    else if rule.protocol == TCP { r := r + " and tcp"; }
    else if rule.protocol == UDP { r := r + " and udp"; }
    else if rule.protocol == -1 {}
    else {
      var p := Decimal.ToString(rule.protocol);
      if rule.cidr.address.family == V4 { r := r + (" and (ip proto " + p + ")"); }
      else { r := r + (" and (ip6 proto " + p + ")"); }
    }
    if rule.protocol == TCP || rule.protocol == UDP {
      if rule.portStart < 65536 && rule.portEnd < 65536 {
        if rule.portStart == rule.portEnd {
          r := r + (" dst port " + Decimal.ToString(rule.portEnd));
        } else if rule.portStart < rule.portEnd {
          r := r + (" dst portrange " + Decimal.ToString(rule.portStart) + "-" + Decimal.ToString(rule.portEnd));
        } else {
          return "";
        }
      } else {
        return "";
      }
      PortsProtocol(source, rule);
    } else {
      PlainProtocol(source, rule);
    }
  }

  lemma PlainProtocol(source: string, rule: Rule)
    requires !HasPorts(rule)
    ensures source + ProtocolText(rule) ==
      if rule.protocol == ICMP then source + " and icmp"
      else if rule.protocol == ICMPV6 then source + " and icmp6"
      else if rule.protocol == -1 then source
      else source + ((if rule.cidr.address.family == V4 then " and (ip proto " else " and (ip6 proto ") + Decimal.ToString(rule.protocol) + ")")
  {
    hide Say, Decimal.ToString;
    SayWords("and", "icmp", "", "", "");
    SayWords("and", "icmp6", "", "", "");
    SayWords("ip", "proto", Decimal.ToString(rule.protocol), "", "");
    SayWords("ip6", "proto", Decimal.ToString(rule.protocol), "", "");
    var p := Decimal.ToString(rule.protocol);
    assert " and (" + ("ip" + " " + "proto" + " " + p) + ")" == " and (ip proto " + p + ")";
    assert " and (" + ("ip6" + " " + "proto" + " " + p) + ")" == " and (ip6 proto " + p + ")";
    assert source + "" == source;
  }

  lemma PortsProtocol(source: string, rule: Rule)
    requires HasPorts(rule) && PortsValid(rule)
    ensures source + ProtocolText(rule) ==
      source + (if rule.protocol == TCP then " and tcp" else " and udp")
      + if rule.portStart == rule.portEnd then " dst port " + Decimal.ToString(rule.portEnd)
        else " dst portrange " + Decimal.ToString(rule.portStart) + "-" + Decimal.ToString(rule.portEnd)
  {
    hide Say, Decimal.ToString;
    var t := if rule.protocol == TCP then "tcp" else "udp";
    var lo, hi := Decimal.ToString(rule.portStart), Decimal.ToString(rule.portEnd);
    assert ["and", t] + PortWords(rule) == ["and", t, PortWords(rule)[0], PortWords(rule)[1], PortWords(rule)[2]];
    SayWords("and", t, "dst", "port", hi);
    SayWords("and", t, "dst", "portrange", lo + "-" + hi);
    OneText("port", t, hi, source);
    OneText("portrange", t, lo + "-" + hi, source);
    assert " dst portrange " + (lo + "-" + hi) == " dst portrange " + lo + "-" + hi;
    assert " and " + "tcp" == " and tcp" && " and " + "udp" == " and udp";
    assert " dst " + "port" + " " == " dst port " && " dst " + "portrange" + " " == " dst portrange ";
  }

  lemma OneText(kind: string, t: string, n: string, source: string)
    ensures source + (" " + ("and" + " " + t + " " + "dst" + " " + kind + " " + n))
         == source + (" and " + t) + (" dst " + kind + " " + n)
  {}

  // The separator repaired after the loop

  lemma {:induction false} JoinSnoc(parts: seq<string>, sep: string, last: string)
    ensures Join(parts + [last], sep) == (if parts == [] then "" else Join(parts, sep) + sep) + "(" + last + ")"
  {
    if parts != [] {
      assert (parts + [last])[1..] == parts[1..] + [last];
      JoinSnoc(parts[1..], sep, last);
      assert "(" + parts[0] + ")" + (sep + Join(parts[1..] + [last], sep))
          == "(" + parts[0] + ")" + sep + Join(parts[1..] + [last], sep);
    }
  }

  lemma {:induction false} JoinEnd(parts: seq<string>, sep: string)
    ensures parts == [] <==> Join(parts, sep) == ""
    ensures parts != [] ==> Join(parts, sep)[|Join(parts, sep)| - 1] == ')'
  {
    if |parts| > 1 { JoinEnd(parts[1..], sep); }
  }

  lemma {:induction false} NonEmptySnoc(texts: seq<string>, t: string)
    ensures NonEmpty(texts + [t]) == NonEmpty(texts) + if t == "" then [] else [t]
  {
    if texts != [] {
      assert (texts + [t])[1..] == texts[1..] + [t];
      NonEmptySnoc(texts[1..], t);
    }
  }

  /**
   The state of the loop after `i` of `n` texts: a separator hangs at the end when something has been
   written and, at that moment, something was still to come.
   */
  ghost predicate Hanging(r: string, texts: seq<string>, i: nat)
    requires i <= |texts|
  {
    var done := Join(NonEmpty(texts[..i]), "||");
    if i < |texts| then r == if done == "" then "" else done + "||"
    else r == done || (done != "" && r == done + "||")
  }

  lemma HangingStep(r: string, texts: seq<string>, i: nat)
    requires i < |texts| && Hanging(r, texts, i)
    ensures texts[i] == "" ==> Hanging(r, texts, i + 1)
    ensures texts[i] != "" ==>
      Hanging(if i + 1 == |texts| then r + ("(" + texts[i] + ")") else r + ("(" + texts[i] + ")") + "||", texts, i + 1)
  {
    hide Join, NonEmpty;
    assert texts[..i + 1] == texts[..i] + [texts[i]];
    NonEmptySnoc(texts[..i], texts[i]);
    assert NonEmpty(texts[..i]) + [] == NonEmpty(texts[..i]);
    JoinSnoc(NonEmpty(texts[..i]), "||", texts[i]);
    JoinEnd(NonEmpty(texts[..i]), "||");
    JoinEnd(NonEmpty(texts[..i + 1]), "||");
    assert r + ("(" + texts[i] + ")") == r + "(" + texts[i] + ")";
    assert "" + "(" + texts[i] + ")" == "(" + texts[i] + ")";
  }

  lemma HangingStart(texts: seq<string>)
    ensures Hanging("", texts, 0)
  {
    assert texts[..0] == [];
  }

  /** Dropping two characters when the last one is a bar leaves exactly the joined texts. */
  lemma HangingEnd(r: string, texts: seq<string>)
    requires Hanging(r, texts, |texts|)
    ensures |r| > 0 && r[|r| - 1] == '|' ==> |r| >= 2 && r[..|r| - 2] == Join(NonEmpty(texts), "||")
    ensures !(|r| > 0 && r[|r| - 1] == '|') ==> r == Join(NonEmpty(texts), "||")
  {
    hide Join, NonEmpty;
    assert texts[..|texts|] == texts;
    JoinEnd(NonEmpty(texts), "||");
    var done := Join(NonEmpty(texts), "||");
    assert (done + "||")[..|done + "||"| - 2] == done;
  }

  /** `FwBuildSg`. */
  method FwBuildSg(groups: Groups, sg: Sg) returns (r: string)
    ensures r == SgText(groups, sg)
  {
    r := "";
    var rules := RuleList(sg.rules);
    ghost var texts := RuleTexts(groups, rules);
    HangingStart(texts);
    hide Hanging, RuleText, RuleList;
    var i := 0;
    while i < |rules|
      invariant 0 <= i <= |rules| && Hanging(r, texts, i)
    {
      var text := FwBuildRule(groups, rules[i]);
      HangingStep(r, texts, i);
      if |text| == 0 {
        i := i + 1;
        continue;
      }
      r := r + ("(" + text + ")");
      i := i + 1;
      if i != |rules| { r := r + "||"; }
    }
    HangingEnd(r, texts);
    if |r| > 0 && r[|r| - 1] == '|' { r := r[..|r| - 2]; }
  }

  /** The first half of `FwUpdate`: one text for all groups of a NIC. */
  method BuildIn(groups: Groups, ids: seq<string>) returns (r: string)
    ensures r == InText(groups, ids)
  {
    r := "";
    ghost var texts := GroupTexts(groups, ids);
    HangingStart(texts);
    hide Hanging, SgText;
    var i := 0;
    while i < |ids|
      invariant 0 <= i <= |ids| && Hanging(r, texts, i)
    {
      HangingStep(r, texts, i);
      if ids[i] !in groups {
        i := i + 1;
        continue;
      }
      var text := FwBuildSg(groups, groups[ids[i]]);
      if |text| == 0 {
        i := i + 1;
        continue;
      }
      r := r + ("(" + text + ")");
      i := i + 1;
      if i != |ids| { r := r + "||"; }
    }
    HangingEnd(r, texts);
    if |r| > 0 && r[|r| - 1] == '|' { r := r[..|r| - 2]; }
  }

  /** The second half: the NIC's own addresses, and DHCP. */
  method BuildOut(ips: seq<Ip>) returns (r: string)
    ensures r == OutText(ips)
  {
    hide Join, Say, DhcpText;
    r := "";
    ghost var texts := HostTexts(ips);
    assert texts[..0] == [];
    JoinEnd([], " || ");
    var i := 0;
    while i < |ips|
      invariant 0 <= i <= |ips|
      invariant r == Join(texts[..i], " || ") + if 0 < i < |ips| then " || " else ""
    {
      SayWords("src", "host", ips[i].text, "", "");
      assert texts[i] == "src host " + ips[i].text by { SrcHost(ips[i].text); }
      assert texts[..i + 1] == texts[..i] + [texts[i]];
      JoinSnoc(texts[..i], " || ", texts[i]);
      OneHost(r, ips[i].text, Join(texts[..i], " || "), i, |ips|);
      r := r + ("(src host " + ips[i].text + ")");
      i := i + 1;
      if i != |ips| { r := r + " || "; }
    }
    assert texts[..|ips|] == texts;
    JoinEnd(texts, " || ");
    if |r| > 0 { r := r + " || "; }
    JoinSnoc(texts, " || ", DhcpText());
    assert r + "(" + DhcpText() + ")" == r + ("(" + DhcpText() + ")");
    r := r + ("(" + DhcpText() + ")");
  }

  lemma SrcHost(text: string)
    ensures "src" + " " + "host" + " " + text == "src host " + text
  {}

  lemma OneHost(r: string, text: string, done: string, i: nat, n: nat)
    requires i < n && r == done + (if 0 < i < n then " || " else "") && (i == 0 ==> done == "")
    ensures r + ("(src host " + text + ")") == (if i == 0 then "" else done + " || ") + "(" + ("src host " + text) + ")"
  {
    assert "(src host " + text + ")" == "(" + ("src host " + text) + ")";
  }
}
