/**
 The filter language that firewall rules are compiled to: the part of pcap-filter(7) that the compiler
 emits.  `and` and `or` have equal precedence and associate to the left.
 */
module Filter {
  import opened Base
  import opened Model
  import Decimal

  // Packets and addresses

  datatype Address = Address(family: Family, bits: nat)

  /** `proto` is the protocol number of the first header. */
  datatype Packet = Packet(family: Family, src: nat, dst: nat, proto: nat, sport: nat, dport: nat)

  datatype Side = Src | Dst

  function AddressAt(p: Packet, side: Side): Address {
    Address(p.family, if side.Src? then p.src else p.dst)
  }

  function Width(f: Family): nat {
    match f case V4 => 32 case V6 => 128 case NoFamily => 0
  }

  /** Do `a` and `b` share their first `len` bits? */
  predicate InNet(a: Address, net: Address, len: nat)
    requires len <= Width(net.family)
  {
    Power2Positive(Width(net.family) - len);
    a.family == net.family && a.bits / Power2(Width(net.family) - len) == net.bits / Power2(Width(net.family) - len)
  }

  /** Is everything after the first `len` bits of the address zero? */
  predicate NoHostBits(a: Address, len: nat)
    requires len <= Width(a.family)
  {
    Power2Positive(Width(a.family) - len);
    a.bits % Power2(Width(a.family) - len) == 0
  }

  // Syntax

  datatype Token = LParen | RParen | AndT | OrT | Bad | Word(text: string)

  predicate WordChar(c: char) {
    c != ' ' && c != '(' && c != ')' && c != '|'
  }

  /** How many word characters `s` begins with. */
  function WordLen(s: string): (n: nat)
    ensures n <= |s| && forall i :: 0 <= i < n ==> WordChar(s[i])
    ensures n < |s| ==> !WordChar(s[n])
  {
    if s == "" || !WordChar(s[0]) then 0 else 1 + WordLen(s[1..])
  }

  function Keyword(w: string): Token {
    if w == "and" then AndT else if w == "or" then OrT else Word(w)
  }

  /** How many characters the first lexeme of `s` takes. */
  function Skip(s: string): (n: nat)
    requires s != ""
    ensures 0 < n <= |s|
  {
    if s[0] == '|' && |s| > 1 && s[1] == '|' then 2
    else if WordChar(s[0]) then WordLen(s)
    else 1
  }

  /** The first token of `s`; blanks give none. */
  function First(s: string): seq<Token>
    requires s != ""
  {
    if s[0] == ' ' then []
    else if s[0] == '(' then [LParen]
    else if s[0] == ')' then [RParen]
    else if s[0] == '|' then [if |s| > 1 && s[1] == '|' then OrT else Bad]
    else [Keyword(s[..WordLen(s)])]
  }

  function Lex(s: string): seq<Token>
    decreases |s|
  {
    if s == "" then [] else First(s) + Lex(s[Skip(s)..])
  }

  datatype Primitive =
    | IsFamily(family: Family)
    | Transport(number: nat)
    | FamilyProtocol(family: Family, number: nat)
    | Host(side: Side, address: Address)
    | Net(side: Side, net: Address, len: nat)
    | Ports(number: nat, side: Side, lo: nat, hi: nat)

  datatype Expr = Prim(p: Primitive) | And(l: Expr, r: Expr) | Or(l: Expr, r: Expr)

  /** `inet_pton`. */
  type Resolver = string -> Option<Address>

  function Number(s: string): Option<nat> {
    if s != "" && forall i | 0 <= i < |s| :: Decimal.IsDigit(s[i]) then Some(Decimal.Value(s)) else None
  }

  /** The index of the first `c` in `s`, or the length of `s`. */
  function Find(s: string, c: char): (n: nat)
    ensures n <= |s| && (forall i :: 0 <= i < n ==> s[i] != c) && (n < |s| ==> s[n] == c)
  {
    if s == "" || s[0] == c then 0 else 1 + Find(s[1..], c)
  }

  /** A network with host bits set is refused, and the whole filter with it. */
  function ReadNet(pton: Resolver, side: Side, s: string): Option<Primitive> {
    var i := Find(s, '/');
    if i == |s| then None
    else
      match (pton(s[..i]), Number(s[i + 1..]))
      case (Some(a), Some(n)) => if n <= Width(a.family) && NoHostBits(a, n) then Some(Net(side, a, n)) else None
      case _ => None
  }

  function ReadRange(number: nat, side: Side, s: string): Option<Primitive> {
    var i := Find(s, '-');
    if i == |s| then None
    else
      match (Number(s[..i]), Number(s[i + 1..]))
      case (Some(lo), Some(hi)) => Some(Ports(number, side, lo, hi))
      case _ => None
  }

  function ReadSide(s: string): Option<Side> {
    if s == "src" then Some(Src) else if s == "dst" then Some(Dst) else None
  }

  function ReadTransport(s: string): Option<nat> {
    if s == "tcp" then Some(TCP) else if s == "udp" then Some(UDP) else None
  }

  function ReadFamily(s: string): Option<Family> {
    if s == "ip" then Some(V4) else if s == "ip6" then Some(V6) else None
  }

  /** One primitive: the words between two operators or parentheses. */
  function ReadPrimitive(pton: Resolver, ws: seq<string>): Option<Primitive> {
    if |ws| == 1 then
      if ws[0] == "ip" then Some(IsFamily(V4))
      else if ws[0] == "ip6" then Some(IsFamily(V6))
      else if ws[0] == "icmp" then Some(FamilyProtocol(V4, ICMP))
      else if ws[0] == "icmp6" then Some(FamilyProtocol(V6, ICMPV6))
      else if ws[0] == "tcp" then Some(Transport(TCP))
      else if ws[0] == "udp" then Some(Transport(UDP))
      else None
    else if |ws| == 3 && ReadSide(ws[0]).Some? && ws[1] == "host" then
      match pton(ws[2])
      case Some(a) => Some(Host(ReadSide(ws[0]).value, a))
      case None => None
    else if |ws| == 3 && ReadSide(ws[0]).Some? && ws[1] == "net" then
      ReadNet(pton, ReadSide(ws[0]).value, ws[2])
    else if |ws| == 3 && ReadFamily(ws[0]).Some? && ws[1] == "proto" then
      match Number(ws[2])
      case Some(n) => Some(FamilyProtocol(ReadFamily(ws[0]).value, n))
      case None => None
    else if |ws| == 4 && ReadTransport(ws[0]).Some? && ReadSide(ws[1]).Some? && ws[2] == "port" then
      match Number(ws[3])
      case Some(n) => Some(Ports(ReadTransport(ws[0]).value, ReadSide(ws[1]).value, n, n))
      case None => None
    else if |ws| == 4 && ReadTransport(ws[0]).Some? && ReadSide(ws[1]).Some? && ws[2] == "portrange" then
      ReadRange(ReadTransport(ws[0]).value, ReadSide(ws[1]).value, ws[3])
    else None
  }

  /** The words that `ts` begins with. */
  function Words(ts: seq<Token>): (ws: seq<string>)
    ensures |ws| <= |ts|
  {
    if ts == [] || !ts[0].Word? then [] else [ts[0].text] + Words(ts[1..])
  }

  type Parsed = Option<(Expr, seq<Token>)>

  function ParseTerm(pton: Resolver, ts: seq<Token>): (r: Parsed)
    ensures r.Some? ==> |r.value.1| < |ts|
    decreases |ts|, 0
  {
    if ts == [] then None
    else if ts[0].LParen? then
      match ParseExpr(pton, ts[1..])
      case Some((e, rest)) => if rest != [] && rest[0].RParen? then Some((e, rest[1..])) else None
      case None => None
    else if ts[0].Word? then
      var ws := Words(ts);
      match ReadPrimitive(pton, ws)
      case Some(p) => Some((Prim(p), ts[|ws|..]))
      case None => None
    else None
  }

  function ParseExpr(pton: Resolver, ts: seq<Token>): (r: Parsed)
    ensures r.Some? ==> |r.value.1| < |ts|
    decreases |ts|, 1
  {
    match ParseTerm(pton, ts)
    case Some((e, rest)) => ParseTail(pton, e, rest)
    case None => None
  }

  function ParseTail(pton: Resolver, acc: Expr, ts: seq<Token>): (r: Parsed)
    ensures r.Some? ==> |r.value.1| <= |ts|
    decreases |ts|
  {
    if ts != [] && (ts[0].AndT? || ts[0].OrT?) then
      match ParseTerm(pton, ts[1..])
      case Some((e, rest)) => ParseTail(pton, if ts[0].AndT? then And(acc, e) else Or(acc, e), rest)
      case None => None
    else Some((acc, ts))
  }

  function Parse(pton: Resolver, s: string): Option<Expr> {
    match ParseExpr(pton, Lex(s))
    case Some((e, rest)) => if rest == [] then Some(e) else None
    case None => None
  }

  /** Is it a filter at all?  libpcap refuses to compile what is not. */
  predicate Readable(pton: Resolver, s: string) {
    Parse(pton, s).Some?
  }

  // Meaning

  predicate Holds(p: Primitive, k: Packet) {
    match p
    case IsFamily(f) => k.family == f
    case Transport(n) => k.proto == n
    case FamilyProtocol(f, n) => k.family == f && k.proto == n
    case Host(side, a) => AddressAt(k, side) == a
    case Net(side, net, len) => len <= Width(net.family) && InNet(AddressAt(k, side), net, len)
    case Ports(n, side, lo, hi) => k.proto == n && lo <= (if side.Src? then k.sport else k.dport) <= hi
  }

  predicate Eval(e: Expr, k: Packet) {
    match e
    case Prim(p) => Holds(p, k)
    case And(l, r) => Eval(l, k) && Eval(r, k)
    case Or(l, r) => Eval(l, k) || Eval(r, k)
  }

  /** Does the filter text accept the packet?  A text that does not parse accepts nothing. */
  predicate Accepts(pton: Resolver, s: string, k: Packet) {
    match Parse(pton, s)
    case Some(e) => Eval(e, k)
    case None => false
  }

  // Lexing a concatenation

  /** `a + b` can be read one part after the other. */
  predicate Apart(a: string, b: string) {
    a == "" || b == "" ||
    (!(WordChar(a[|a| - 1]) && WordChar(b[0])) && !(a[|a| - 1] == '|' && b[0] == '|'))
  }

  lemma {:induction false} WordLenConcat(a: string, b: string)
    requires WordLen(a) < |a| || b == "" || !WordChar(b[0])
    ensures WordLen(a + b) == WordLen(a)
  {
    if a == "" {
      assert a + b == b;
    } else if WordChar(a[0]) {
      assert (a + b)[1..] == a[1..] + b;
      WordLenConcat(a[1..], b);
    }
  }

  lemma FirstConcat(a: string, b: string)
    requires Apart(a, b) && a != "" && b != ""
    ensures Skip(a + b) == Skip(a) && First(a + b) == First(a)
    ensures Apart(a[Skip(a)..], b) && (a + b)[Skip(a)..] == a[Skip(a)..] + b
  {
    assert (a + b)[0] == a[0];
    if WordChar(a[0]) { FirstWord(a, b); } else { FirstMark(a, b); }
    hide First, WordLen, WordChar, Skip;
  }

  lemma FirstWord(a: string, b: string)
    requires Apart(a, b) && a != "" && b != "" && WordChar(a[0])
    ensures Skip(a + b) == Skip(a) && First(a + b) == First(a)
  {
    hide WordLen, Keyword;
    assert (a + b)[0] == a[0];
    WordConcat(a, b);
  }

  /** A blank, a bracket or a bar. */
  lemma FirstMark(a: string, b: string)
    requires Apart(a, b) && a != "" && b != "" && !WordChar(a[0])
    ensures Skip(a + b) == Skip(a) && First(a + b) == First(a)
  {
    hide WordLen, Keyword;
    assert (a + b)[0] == a[0] && (|a| > 1 ==> (a + b)[1] == a[1]) && (|a| == 1 ==> (a + b)[1] == b[0]);
  }

  lemma WordConcat(a: string, b: string)
    requires Apart(a, b) && a != "" && b != ""
    ensures WordLen(a + b) == WordLen(a) && (a + b)[..WordLen(a)] == a[..WordLen(a)]
  {
    var n := WordLen(a);
    assert n == |a| ==> WordChar(a[|a| - 1]);
    WordLenConcat(a, b);
  }

  lemma LexStep(s: string)
    requires s != ""
    ensures Lex(s) == First(s) + Lex(s[Skip(s)..])
  {
    hide First, Skip;
  }

  lemma LexNothing()
    ensures Lex("") == []
  {}

  lemma {:induction false} LexConcat(a: string, b: string)
    requires Apart(a, b)
    ensures Lex(a + b) == Lex(a) + Lex(b)
    decreases |a|
  {
    hide *;
    LexNothing();
    if a == "" {
      assert a + b == b;
    } else if b == "" {
      assert a + b == a;
    } else {
      FirstConcat(a, b);
      LexStep(a);
      LexStep(a + b);
      LexConcat(a[Skip(a)..], b);
      assert First(a) + (Lex(a[Skip(a)..]) + Lex(b)) == First(a) + Lex(a[Skip(a)..]) + Lex(b);
    }
  }

  /** A word on its own. */
  predicate PlainWord(w: string) {
    w != "" && (forall i :: 0 <= i < |w| ==> WordChar(w[i])) && w != "and" && w != "or"
  }

  // Parsing what the compiler emits

  /** Where an expression can end. */
  predicate Stops(ts: seq<Token>) {
    ts == [] || ts[0].RParen?
  }

  /** Where a primitive can end. */
  predicate NoWord(ts: seq<Token>) {
    ts == [] || !ts[0].Word?
  }

  function Quote(ws: seq<string>): seq<Token> {
    seq(|ws|, i requires 0 <= i < |ws| => Word(ws[i]))
  }

  lemma {:induction false} WordsOfQuote(ws: seq<string>, rest: seq<Token>)
    requires NoWord(rest)
    ensures Words(Quote(ws) + rest) == ws
  {
    if ws == [] {
      assert Quote(ws) + rest == rest;
    } else {
      var ts := Quote(ws) + rest;
      assert ts[0] == Word(ws[0]);
      assert ts[1..] == Quote(ws[1..]) + rest;
      WordsOfQuote(ws[1..], rest);
    }
  }

  lemma ParsePrimitive(pton: Resolver, ws: seq<string>, p: Primitive, rest: seq<Token>)
    requires NoWord(rest) && ws != [] && ReadPrimitive(pton, ws) == Some(p)
    ensures ParseTerm(pton, Quote(ws) + rest) == Some((Prim(p), rest))
  {
    hide ReadPrimitive;
    WordsOfQuote(ws, rest);
    assert (Quote(ws) + rest)[|ws|..] == rest;
    assert (Quote(ws) + rest)[0] == Word(ws[0]);
  }

  lemma ParseParens(pton: Resolver, ts: seq<Token>, e: Expr, rest: seq<Token>)
    requires ParseExpr(pton, ts + ([RParen] + rest)) == Some((e, [RParen] + rest))
    ensures ParseTerm(pton, [LParen] + ts + [RParen] + rest) == Some((e, rest))
  {
    var all := [LParen] + ts + [RParen] + rest;
    assert all[0] == LParen && all[1..] == ts + ([RParen] + rest);
    assert ([RParen] + rest)[1..] == rest;
  }

  /** One operator and one operand further. */
  lemma TailStep(pton: Resolver, acc: Expr, op: Token, ts: seq<Token>, e: Expr, rest: seq<Token>)
    requires op.AndT? || op.OrT?
    requires ParseTerm(pton, ts + rest) == Some((e, rest))
    ensures ParseTail(pton, acc, [op] + ts + rest)
         == ParseTail(pton, if op.AndT? then And(acc, e) else Or(acc, e), rest)
  {
    var all := [op] + ts + rest;
    assert all[0] == op && all[1..] == ts + rest;
  }

  lemma TailEnd(pton: Resolver, acc: Expr, rest: seq<Token>)
    requires Stops(rest)
    ensures ParseTail(pton, acc, rest) == Some((acc, rest))
  {}
}
