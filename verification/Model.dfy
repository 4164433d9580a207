/** The server's in-memory model, and the equalities that the code computes on it. */
module Model {
  import Decimal
  import Order

  datatype Family = V4 | V6 | NoFamily

  /** An address and the text that `inet_ntop` gave for it. */
  datatype Ip = Ip(family: Family, bits: nat, text: string)

  datatype Cidr = Cidr(address: Ip, maskSize: nat)

  datatype Direction = INBOUND | OUTBOUND | DIRECTION_NB

  datatype Rule = Rule(
    direction: Direction,
    protocol: int,
    portStart: int,
    portEnd: int,
    cidr: Cidr,
    securityGroup: string)

  /** `rules` is keyed by the rule's hash. */
  datatype Sg = Sg(id: string, members: seq<Ip>, rules: map<nat, Rule>)

  datatype Nic = Nic(
    id: string,
    mac: string,
    vni: nat,
    ipList: seq<Ip>,
    securityGroups: seq<string>,
    packetTrace: bool,
    packetTracePath: string,
    ipAntiSpoof: bool,
    sniffTarget: string,
    bypassFiltering: bool,
    path: string)

  type Groups = map<string, Sg>

  const ICMP := 1
  const TCP := 6
  const UDP := 17
  const ICMPV6 := 58

  const TWO_TO_96: nat := 0x1_0000_0000_0000_0000_0000_0000
  const TWO_TO_32: nat := 0x1_0000_0000

  /** The 16 bytes that `Ip::operator==` compares: an IPv4 address fills the first four and leaves zeros. */
  function Memory(a: Ip): nat {
    match a.family
    case V4 => a.bits * TWO_TO_96
    case V6 => a.bits
    case NoFamily => 0
  }

  predicate IpEqual(a: Ip, b: Ip) {
    Memory(a) == Memory(b)
  }

  predicate CidrEqual(a: Cidr, b: Cidr) {
    IpEqual(a.address, b.address) && a.maskSize == b.maskSize
  }

  /** The code leaves the security group out of this comparison. */
  predicate RuleEqual(a: Rule, b: Rule) {
    && a.direction == b.direction
    && a.protocol == b.protocol
    && a.portStart == b.portStart
    && a.portEnd == b.portEnd
    && CidrEqual(a.cidr, b.cidr)
  }

  predicate MembersEqual(a: seq<Ip>, b: seq<Ip>) {
    |a| == |b| && forall i | 0 <= i < |a| :: IpEqual(a[i], b[i])
  }

  predicate RulesEqual(a: map<nat, Rule>, b: map<nat, Rule>) {
    a.Keys == b.Keys && forall h | h in a :: RuleEqual(a[h], b[h])
  }

  predicate SgEqual(a: Sg, b: Sg) {
    a.id == b.id && MembersEqual(a.members, b.members) && RulesEqual(a.rules, b.rules)
  }

  function DirectionNumber(d: Direction): nat {
    match d case INBOUND => 0 case OUTBOUND => 1 case DIRECTION_NB => 2
  }

  function CidrText(c: Cidr): string {
    c.address.text + "/" + Decimal.ToString(c.maskSize)
  }

  /** The text whose hash keys a rule. */
  function RuleKey(r: Rule): string {
    Decimal.ToString(DirectionNumber(r.direction)) + "-" +
    (Decimal.ToString(r.protocol) + "-" +
    (Decimal.ToString(r.portStart) + "-" +
    (Decimal.ToString(r.portEnd) + "-" +
    (r.cidr.address.text + "/" + (Decimal.ToString(r.cidr.maskSize) + "-" + r.securityGroup)))))
  }

  /** The rule key names every part of the rule that the filter depends on. */
  lemma RuleKeyDetermines(a: Rule, b: Rule)
    requires RuleKey(a) == RuleKey(b)
    requires '/' !in a.cidr.address.text && '/' !in b.cidr.address.text
    ensures a.direction == b.direction && a.protocol == b.protocol
    ensures a.portStart == b.portStart && a.portEnd == b.portEnd
    ensures a.cidr.address.text == b.cidr.address.text && a.cidr.maskSize == b.cidr.maskSize
    ensures a.securityGroup == b.securityGroup
  {
    hide Decimal.ToString;
    var fa := Decimal.ToString(a.cidr.maskSize) + "-" + a.securityGroup;
    var fb := Decimal.ToString(b.cidr.maskSize) + "-" + b.securityGroup;
    var ea := a.cidr.address.text + "/" + fa;
    var eb := b.cidr.address.text + "/" + fb;
    var da := Decimal.ToString(a.portEnd) + "-" + ea;
    var db := Decimal.ToString(b.portEnd) + "-" + eb;
    var ca := Decimal.ToString(a.portStart) + "-" + da;
    var cb := Decimal.ToString(b.portStart) + "-" + db;
    var ba := Decimal.ToString(a.protocol) + "-" + ca;
    var bb := Decimal.ToString(b.protocol) + "-" + cb;
    Decimal.PrefixFree(DirectionNumber(a.direction), DirectionNumber(b.direction), ba, bb);
    Decimal.PrefixFree(a.protocol, b.protocol, ca, cb);
    Decimal.PrefixFree(a.portStart, b.portStart, da, db);
    Decimal.PrefixFree(a.portEnd, b.portEnd, ea, eb);
    Decimal.SplitAt(a.cidr.address.text, b.cidr.address.text, '/', fa, fb);
    Decimal.PrefixFree(a.cidr.maskSize, b.cidr.maskSize, a.securityGroup, b.securityGroup);
  }

  /** Every rule is filed under the hash of its own key; `hash` stands for `std::hash<std::string>`. */
  ghost predicate FiledByHash(hash: string -> nat, rules: map<nat, Rule>) {
    forall h :: h in rules ==> h == hash(RuleKey(rules[h])) && '/' !in rules[h].cidr.address.text
  }

  /** No two of the keys in play collide. */
  ghost predicate CollisionFree(hash: string -> nat, a: map<nat, Rule>, b: map<nat, Rule>) {
    forall x, y :: x in a && y in b && hash(RuleKey(a[x])) == hash(RuleKey(b[y])) ==> RuleKey(a[x]) == RuleKey(b[y])
  }

  /** An address is determined by its text. */
  ghost predicate TextNamesAddress(a: map<nat, Rule>, b: map<nat, Rule>) {
    forall x, y :: x in a && y in b && a[x].cidr.address.text == b[y].cidr.address.text
      ==> a[x].cidr.address == b[y].cidr.address
  }

  /**
   `Sg::operator==` compares rules without their security groups, yet two rule tables that it calls equal
   are the same: the missing field is in the key.
   */
  lemma EqualRulesAreSame(hash: string -> nat, a: map<nat, Rule>, b: map<nat, Rule>)
    requires FiledByHash(hash, a) && FiledByHash(hash, b) && CollisionFree(hash, a, b) && TextNamesAddress(a, b)
    ensures RulesEqual(a, b) <==> a == b
  {
    if RulesEqual(a, b) {
      forall h | h in a ensures a[h] == b[h] {
        RuleKeyDetermines(a[h], b[h]);
      }
    }
  }

  /**
   The comparison of members is coarser than it looks: an IPv4 address equals the IPv6 address that starts
   with the same four bytes and goes on with zeros.
   */
  lemma MembersOfDifferentFamilies()
    ensures
      var four := Ip(V4, 0x01020304, "1.2.3.4");
      var six := Ip(V6, 0x01020304 * TWO_TO_96, "102:304::");
      four != six && SgEqual(Sg("g", [four], map[]), Sg("g", [six], map[]))
  {
    var four := Ip(V4, 0x01020304, "1.2.3.4");
    var six := Ip(V6, 0x01020304 * TWO_TO_96, "102:304::");
    assert IpEqual(four, six);
  }

  ghost predicate Proper(a: Ip) {
    match a.family
    case V4 => a.bits < TWO_TO_32
    case V6 => a.bits < TWO_TO_32 * TWO_TO_96
    case NoFamily => a.bits == 0
  }

  /** Among addresses of one family the comparison is exact. */
  lemma SameFamilyExact(a: Ip, b: Ip)
    requires a.family == b.family && Proper(a) && Proper(b)
    ensures IpEqual(a, b) <==> a.bits == b.bits
  {}

  /** Does the IPv6 address go on with zeros after the four bytes of the IPv4 address? */
  predicate Zeros(four: Ip, six: Ip) {
    four.family == V4 && six.family == V6 && six.bits == four.bits * TWO_TO_96
  }

  /** Two addresses of different families are confused exactly when the IPv6 one continues with zeros. */
  lemma ConfusedExactly(four: Ip, six: Ip)
    requires four.family == V4 && six.family == V6 && Proper(four) && Proper(six)
    ensures IpEqual(four, six) <==> Zeros(four, six)
  {}

  /** The same address, whatever its text, or one of each family that differ by zeros only. */
  predicate SameUpToZeros(a: Ip, b: Ip) {
    (a.family == b.family && a.bits == b.bits) || Zeros(a, b) || Zeros(b, a)
  }

  predicate MembersUpToZeros(a: seq<Ip>, b: seq<Ip>) {
    |a| == |b| && forall i | 0 <= i < |a| :: SameUpToZeros(a[i], b[i])
  }

  predicate SgUpToZeros(a: Sg, b: Sg) {
    a.id == b.id && a.rules == b.rules && MembersUpToZeros(a.members, b.members)
  }

  /** What holds of two groups that came in through the API. */
  ghost predicate Comparable(hash: string -> nat, a: Sg, b: Sg) {
    && FiledByHash(hash, a.rules) && FiledByHash(hash, b.rules)
    && CollisionFree(hash, a.rules, b.rules) && TextNamesAddress(a.rules, b.rules)
    && forall m :: m in a.members + b.members ==> Proper(m) && !m.family.NoFamily?
  }

  /** `Sg::operator==` tells two groups apart exactly when they differ in more than such zeros. */
  lemma SgEqualExactly(hash: string -> nat, a: Sg, b: Sg)
    requires Comparable(hash, a, b)
    ensures SgEqual(a, b) <==> SgUpToZeros(a, b)
  {
    hide FiledByHash, CollisionFree, TextNamesAddress, RulesEqual;
    EqualRulesAreSame(hash, a.rules, b.rules);
    forall i | 0 <= i < |a.members| && i < |b.members|
      ensures IpEqual(a.members[i], b.members[i]) <==> SameUpToZeros(a.members[i], b.members[i])
    {
      assert a.members[i] in a.members + b.members && b.members[i] in a.members + b.members;
      MemberEqualExactly(a.members[i], b.members[i]);
    }
  }

  lemma MemberEqualExactly(a: Ip, b: Ip)
    requires Proper(a) && Proper(b) && !a.family.NoFamily? && !b.family.NoFamily?
    ensures IpEqual(a, b) <==> SameUpToZeros(a, b)
  {
    if a.family == b.family { SameFamilyExact(a, b); }
    else if a.family.V4? { ConfusedExactly(a, b); }
    else { ConfusedExactly(b, a); }
  }

  /** The rules of a group in the order in which the code walks them. */
  function RuleList(rules: map<nat, Rule>): seq<Rule> {
    RulesAt(rules, Order.Numbers(rules.Keys))
  }

  function RulesAt(rules: map<nat, Rule>, keys: seq<nat>): (r: seq<Rule>)
    requires forall h :: h in keys ==> h in rules
    ensures |r| == |keys| && forall i :: 0 <= i < |keys| ==> r[i] == rules[keys[i]]
  {
    seq(|keys|, i requires 0 <= i < |keys| => assert keys[i] in keys; rules[keys[i]])
  }

  lemma RuleListContents(rules: map<nat, Rule>, r: Rule)
    ensures r in RuleList(rules) <==> exists h :: h in rules && rules[h] == r
  {
    var keys := Order.Numbers(rules.Keys);
    if exists h :: h in rules && rules[h] == r {
      var h :| h in rules && rules[h] == r;
      assert h in keys;
      var i :| 0 <= i < |keys| && keys[i] == h;
      assert RuleList(rules)[i] == r;
    }
    if r in RuleList(rules) {
      var i :| 0 <= i < |keys| && RuleList(rules)[i] == r;
      assert keys[i] in keys;
    }
  }
}
