/** Reading a filter text piece by piece: which tokens a piece gives, and which expression those stand for. */
module Reading {
  import opened Base
  import opened Filter
  import opened Compile

  // Tokens

  predicate WordOk(w: string) {
    w != "" && forall i :: 0 <= i < |w| ==> WordChar(w[i])
  }

  function Keywords(ws: seq<string>): seq<Token> {
    seq(|ws|, i requires 0 <= i < |ws| => Keyword(ws[i]))
  }

  lemma LexOne(w: string)
    requires WordOk(w)
    ensures Lex(w) == [Keyword(w)]
  {
    assert WordLen(w) == |w|;
    assert w[..|w|] == w && w[|w|..] == "";
    assert Lex("") == [];
  }

  lemma LexBlank(s: string)
    ensures Lex(" " + s) == Lex(s)
  {
    assert (" " + s)[1..] == s;
  }

  lemma {:induction false} LexSay(ws: seq<string>)
    requires ws != [] && forall w :: w in ws ==> WordOk(w)
    ensures Lex(Say(ws)) == Keywords(ws)
    decreases |ws|
  {
    hide *;
    assert ws[0] in ws;
    LexOne(ws[0]);
    SayIs(ws);
    KeywordsAre(ws);
    if |ws| > 1 {
      LexSay(ws[1..]);
      LexAfterWord(ws[0], Say(ws[1..]));
    }
  }

  lemma SayIs(ws: seq<string>)
    requires ws != []
    ensures Say(ws) == if |ws| == 1 then ws[0] else ws[0] + " " + Say(ws[1..])
  {}

  lemma KeywordsAre(ws: seq<string>)
    requires ws != []
    ensures Keywords(ws) == if |ws| == 1 then [Keyword(ws[0])] else [Keyword(ws[0])] + Keywords(ws[1..])
  {
    hide Keyword;
    assert |ws| > 1 ==> Keywords(ws)[0] == Keyword(ws[0]);
  }

  lemma LexAfterWord(w: string, s: string)
    requires WordOk(w)
    ensures Lex(w + " " + s) == Lex(w) + Lex(s)
  {
    hide Lex;
    LexConcat(w, " " + s);
    LexBlank(s);
    assert w + " " + s == w + (" " + s);
  }

  lemma LexPhrase(ws: seq<string>)
    requires ws != [] && forall w :: w in ws ==> PlainWord(w)
    ensures Lex(Say(ws)) == Quote(ws)
  {
    LexSay(ws);
    assert forall i :: 0 <= i < |ws| ==> ws[i] in ws;
    assert Keywords(ws) == Quote(ws);
  }

  /** Parentheses never run into what they enclose. */
  lemma LexParens(s: string)
    ensures Lex("(" + s + ")") == [LParen] + Lex(s) + [RParen]
  {
    LexConcat("(" + s, ")");
    assert ("(" + s)[1..] == s;
    assert ")"[1..] == "";
    assert Lex("") == [];
    assert Lex(")") == [RParen];
    assert Lex("(" + s) == [LParen] + Lex(s);
  }

  lemma LexBars()
    ensures Lex("||") == [OrT] && Lex(" || ") == [OrT]
  {
    assert "||"[2..] == "" && Lex("") == [];
    assert Lex("||") == [OrT] + [];
    assert Lex(" ") == [] by { assert " "[1..] == ""; }
    LexConcat("||", " ");
    assert " || "[1..] == "|| " && "|| " == "||" + " ";
  }

  // Expressions

  /** In front of anything that is no word, `ts` is a term and stands for `e`. */
  ghost predicate TermReads(pton: Resolver, ts: seq<Token>, e: Expr) {
    forall rest :: NoWord(rest) ==> ParseTerm(pton, ts + rest) == Some((e, rest))
  }

  /** At the end, or in front of a closing parenthesis, `ts` is an expression and stands for `e`. */
  ghost predicate ExprReads(pton: Resolver, ts: seq<Token>, e: Expr) {
    forall rest :: Stops(rest) ==> ParseExpr(pton, ts + rest) == Some((e, rest))
  }

  lemma PrimitiveReads(pton: Resolver, ws: seq<string>, p: Primitive)
    requires ws != [] && ReadPrimitive(pton, ws) == Some(p)
    ensures TermReads(pton, Quote(ws), Prim(p))
  {
    forall rest | NoWord(rest) ensures ParseTerm(pton, Quote(ws) + rest) == Some((Prim(p), rest)) {
      ParsePrimitive(pton, ws, p, rest);
    }
  }

  lemma ParensRead(pton: Resolver, ts: seq<Token>, e: Expr)
    requires ExprReads(pton, ts, e)
    ensures TermReads(pton, [LParen] + ts + [RParen], e)
  {
    hide ParseTerm, ParseExpr;
    forall rest | NoWord(rest) ensures ParseTerm(pton, [LParen] + ts + [RParen] + rest) == Some((e, rest)) {
      assert Stops([RParen] + rest);
      ParseParens(pton, ts, e, rest);
    }
  }

  /** An operator and its right operand. */
  datatype Operand = Operand(op: Token, ts: seq<Token>, e: Expr)

  ghost predicate OperandReads(pton: Resolver, o: Operand) {
    (o.op.AndT? || o.op.OrT?) && TermReads(pton, o.ts, o.e)
  }

  ghost function Chain(os: seq<Operand>): seq<Token> {
    if os == [] then [] else [os[0].op] + os[0].ts + Chain(os[1..])
  }

  /** Equal precedence, associating to the left. */
  ghost function Fold(acc: Expr, os: seq<Operand>): Expr
    decreases |os|
  {
    if os == [] then acc else Fold(if os[0].op.AndT? then And(acc, os[0].e) else Or(acc, os[0].e), os[1..])
  }

  lemma ChainNoWord(os: seq<Operand>, rest: seq<Token>)
    requires (forall o :: o in os ==> o.op.AndT? || o.op.OrT?) && Stops(rest)
    ensures NoWord(Chain(os) + rest)
  {
    if os == [] {
      assert Chain(os) + rest == rest;
    } else {
      assert os[0] in os;
      assert (Chain(os) + rest)[0] == os[0].op;
    }
  }

  lemma {:induction false} ChainTail(pton: Resolver, acc: Expr, os: seq<Operand>, rest: seq<Token>)
    requires (forall o :: o in os ==> OperandReads(pton, o)) && Stops(rest)
    ensures ParseTail(pton, acc, Chain(os) + rest) == Some((Fold(acc, os), rest))
    decreases |os|
  {
    hide ParseTail, ParseTerm, ParseExpr, NoWord;
    if os == [] {
      assert Chain(os) + rest == rest;
      TailEnd(pton, acc, rest);
    } else {
      hide OperandReads;
      var o := os[0];
      assert o in os;
      var more := Chain(os[1..]) + rest;
      assert Chain(os) + rest == [o.op] + o.ts + more;
      assert forall x :: x in os[1..] ==> x in os;
      ChainTail(pton, if o.op.AndT? then And(acc, o.e) else Or(acc, o.e), os[1..], rest);
      ChainStep(pton, o, os[1..], rest);
      TailStep(pton, acc, o.op, o.ts, o.e, more);
    }
  }

  lemma ChainStep(pton: Resolver, o: Operand, os: seq<Operand>, rest: seq<Token>)
    requires OperandReads(pton, o) && (forall x :: x in os ==> OperandReads(pton, x)) && Stops(rest)
    ensures o.op.AndT? || o.op.OrT?
    ensures ParseTerm(pton, o.ts + (Chain(os) + rest)) == Some((o.e, Chain(os) + rest))
  {
    hide ParseTerm, Chain;
    ChainNoWord(os, rest);
  }

  lemma ChainReads(pton: Resolver, ts: seq<Token>, e: Expr, os: seq<Operand>)
    requires TermReads(pton, ts, e) && forall o :: o in os ==> OperandReads(pton, o)
    ensures ExprReads(pton, ts + Chain(os), Fold(e, os))
  {
    forall rest | Stops(rest) ensures ParseExpr(pton, ts + Chain(os) + rest) == Some((Fold(e, os), rest)) {
      ChainParses(pton, ts, e, os, rest);
    }
  }

  lemma ChainParses(pton: Resolver, ts: seq<Token>, e: Expr, os: seq<Operand>, rest: seq<Token>)
    requires TermReads(pton, ts, e) && (forall o :: o in os ==> OperandReads(pton, o)) && Stops(rest)
    ensures ParseExpr(pton, ts + Chain(os) + rest) == Some((Fold(e, os), rest))
  {
    hide ParseTerm, ParseTail, Chain, Fold;
    var more := Chain(os) + rest;
    ChainNoWord(os, rest);
    assert ts + Chain(os) + rest == ts + more;
    assert ParseTerm(pton, ts + more) == Some((e, more));
    ChainTail(pton, e, os, rest);
  }

  lemma {:induction false} EvalOrs(acc: Expr, os: seq<Operand>, k: Packet)
    requires forall o :: o in os ==> o.op.OrT?
    ensures Eval(Fold(acc, os), k) <==> Eval(acc, k) || exists o :: o in os && Eval(o.e, k)
    decreases |os|
  {
    if os != [] {
      assert os[0] in os;
      EvalOrs(Or(acc, os[0].e), os[1..], k);
      assert forall o :: o in os <==> o == os[0] || o in os[1..];
    }
  }

  lemma {:induction false} EvalAnds(acc: Expr, os: seq<Operand>, k: Packet)
    requires forall o :: o in os ==> o.op.AndT?
    ensures Eval(Fold(acc, os), k) <==> Eval(acc, k) && forall o :: o in os ==> Eval(o.e, k)
    decreases |os|
  {
    if os != [] {
      assert os[0] in os;
      EvalAnds(And(acc, os[0].e), os[1..], k);
      assert forall o :: o in os <==> o == os[0] || o in os[1..];
    }
  }

  // Whole texts

  /** The text is an expression, whatever closing parenthesis follows it. */
  ghost predicate Sound(pton: Resolver, s: string) {
    Parse(pton, s).Some? && ExprReads(pton, Lex(s), Parse(pton, s).value)
  }

  lemma ReadsSound(pton: Resolver, s: string, e: Expr)
    requires ExprReads(pton, Lex(s), e)
    ensures Sound(pton, s) && forall k :: Accepts(pton, s, k) <==> Eval(e, k)
  {
    hide ParseExpr;
    assert Lex(s) + [] == Lex(s);
    assert ParseExpr(pton, Lex(s) + []) == Some((e, []));
  }

  /** Several texts in parentheses with bars between them accept what any of them accepts. */
  lemma JoinReads(pton: Resolver, parts: seq<string>, sep: string)
    requires sep == "||" || sep == " || "
    requires parts != [] && forall t :: t in parts ==> Sound(pton, t)
    ensures Sound(pton, Join(parts, sep))
    ensures forall k :: Accepts(pton, Join(parts, sep), k) <==> exists t :: t in parts && Accepts(pton, t, k)
  {
    hide *;
    var os := Alternatives(pton, parts[1..]);
    var first := Alternative(pton, parts[0]);
    assert parts[0] in parts;
    AlternativeReads(pton, parts[0]);
    forall o | o in os ensures OperandReads(pton, o) && o.op.OrT? { AlternativesRead(pton, parts[1..], o); }
    LexJoin(pton, parts, sep);
    OperandTerm(pton, first);
    ChainReads(pton, first.ts, first.e, os);
    ReadsSound(pton, Join(parts, sep), Fold(first.e, os));
    forall k ensures Accepts(pton, Join(parts, sep), k) <==> exists t :: t in parts && Accepts(pton, t, k) {
      EvalOrs(first.e, os, k);
      AlternativesEval(pton, parts, k);
    }
  }

  lemma OperandTerm(pton: Resolver, o: Operand)
    requires OperandReads(pton, o)
    ensures TermReads(pton, o.ts, o.e)
  {}

  ghost function Alternative(pton: Resolver, t: string): Operand {
    Operand(OrT, [LParen] + Lex(t) + [RParen], if Parse(pton, t).Some? then Parse(pton, t).value else Prim(Transport(0)))
  }

  ghost function Alternatives(pton: Resolver, parts: seq<string>): (os: seq<Operand>)
    ensures |os| == |parts| && forall i :: 0 <= i < |os| ==> os[i] == Alternative(pton, parts[i])
  {
    seq(|parts|, i requires 0 <= i < |parts| => Alternative(pton, parts[i]))
  }

  lemma AlternativeReads(pton: Resolver, t: string)
    requires Sound(pton, t)
    ensures OperandReads(pton, Alternative(pton, t)) && Alternative(pton, t).op.OrT?
    ensures forall k :: Accepts(pton, t, k) <==> Eval(Alternative(pton, t).e, k)
  {
    hide Lex, Parse;
    ParensRead(pton, Lex(t), Parse(pton, t).value);
  }

  lemma AlternativesRead(pton: Resolver, parts: seq<string>, o: Operand)
    requires (forall t :: t in parts ==> Sound(pton, t)) && o in Alternatives(pton, parts)
    ensures OperandReads(pton, o) && o.op.OrT?
  {
    var i :| 0 <= i < |parts| && o == Alternative(pton, parts[i]);
    AlternativeReads(pton, parts[i]);
  }

  lemma AlternativesEval(pton: Resolver, parts: seq<string>, k: Packet)
    requires parts != [] && forall t :: t in parts ==> Sound(pton, t)
    ensures (exists t :: t in parts && Accepts(pton, t, k))
       <==> Eval(Alternative(pton, parts[0]).e, k) || exists o :: o in Alternatives(pton, parts[1..]) && Eval(o.e, k)
  {
    hide Sound, Accepts, Alternative;
    var os := Alternatives(pton, parts[1..]);
    forall i | 0 <= i < |parts| ensures Accepts(pton, parts[i], k) <==> Eval(Alternative(pton, parts[i]).e, k) {
      AlternativeReads(pton, parts[i]);
    }
    if t :| t in parts && Accepts(pton, t, k) {
      var i :| 0 <= i < |parts| && parts[i] == t;
      if i > 0 { assert os[i - 1] in os && os[i - 1] == Alternative(pton, parts[i]); }
    }
    if o :| o in os && Eval(o.e, k) {
      var i :| 0 <= i < |os| && os[i] == o;
      assert parts[i + 1] in parts && os[i] == Alternative(pton, parts[i + 1]);
    }
    assert parts[0] in parts;
  }

  lemma {:induction false} LexJoin(pton: Resolver, parts: seq<string>, sep: string)
    requires (sep == "||" || sep == " || ") && parts != []
    ensures Lex(Join(parts, sep)) == Alternative(pton, parts[0]).ts + Chain(Alternatives(pton, parts[1..]))
    decreases |parts|
  {
    hide Lex, Parse;
    LexParens(parts[0]);
    var head := "(" + parts[0] + ")";
    if |parts| == 1 {
      assert head + "" == head;
    } else {
      var more := Join(parts[1..], sep);
      var os := Alternatives(pton, parts[1..]);
      LexJoin(pton, parts[1..], sep);
      JoinStarts(parts[1..], sep);
      LexSeparated(parts[0], sep, more);
      assert os[0] == Alternative(pton, parts[1..][0]) && os[1..] == Alternatives(pton, parts[1..][1..]);
    }
  }

  lemma LexSeparated(part: string, sep: string, more: string)
    requires (sep == "||" || sep == " || ") && more != "" && more[0] == '('
    ensures Lex("(" + part + ")" + (sep + more)) == [LParen] + Lex(part) + [RParen] + ([OrT] + Lex(more))
  {
    hide Lex;
    LexParens(part);
    LexConcat(sep, more);
    LexConcat("(" + part + ")", sep + more);
    LexBars();
  }

  lemma JoinStarts(parts: seq<string>, sep: string)
    requires parts != []
    ensures Join(parts, sep) != "" && Join(parts, sep)[0] == '('
  {}

  // Texts that cannot be read

  /** No expression begins here, whatever closing parenthesis follows. */
  ghost predicate Fails(pton: Resolver, s: string) {
    forall rest :: Stops(rest) ==> ParseExpr(pton, Lex(s) + rest) == None
  }

  lemma FailsUnreadable(pton: Resolver, s: string)
    requires Fails(pton, s)
    ensures !Readable(pton, s)
  {
    hide ParseExpr;
    assert Lex(s) + [] == Lex(s);
    assert ParseExpr(pton, Lex(s) + []) == None;
  }

  lemma SoundReadable(pton: Resolver, s: string)
    requires Sound(pton, s)
    ensures Readable(pton, s)
  {}

  lemma AlternativeFails(pton: Resolver, t: string, rest: seq<Token>)
    requires Fails(pton, t)
    ensures ParseTerm(pton, Alternative(pton, t).ts + rest) == None
  {
    hide Lex, Parse, ParseExpr;
    var all := [LParen] + Lex(t) + [RParen] + rest;
    assert Stops([RParen] + rest);
    assert all[0] == LParen && all[1..] == Lex(t) + ([RParen] + rest);
  }

  /** An operand that cannot be read ends it, however many came before. */
  lemma {:induction false} ChainFails(pton: Resolver, acc: Expr, parts: seq<string>, rest: seq<Token>)
    requires (forall t :: t in parts ==> Sound(pton, t) || Fails(pton, t)) && Stops(rest)
    requires exists t :: t in parts && Fails(pton, t)
    ensures ParseTail(pton, acc, Chain(Alternatives(pton, parts)) + rest) == None
    decreases |parts|
  {
    hide *;
    var os := Alternatives(pton, parts);
    var o, more := os[0], Chain(Alternatives(pton, parts[1..])) + rest;
    assert o == Alternative(pton, parts[0]) && os[1..] == Alternatives(pton, parts[1..]);
    ChainIs(os);
    assert parts[0] in parts;
    AlternativeOr(pton, parts[0]);
    assert Chain(os) + rest == [o.op] + o.ts + more;
    if Fails(pton, parts[0]) {
      AlternativeFails(pton, parts[0], more);
      TailFails(pton, acc, o.op, o.ts + more);
      assert [o.op] + o.ts + more == [o.op] + (o.ts + more);
    } else {
      var t :| t in parts && Fails(pton, t);
      assert t in parts[1..] && forall x :: x in parts[1..] ==> x in parts;
      ChainFails(pton, Or(acc, o.e), parts[1..], rest);
      AlternativeReads(pton, parts[0]);
      AlternativeTerm(pton, o, parts[1..], rest);
      TailStep(pton, acc, o.op, o.ts, o.e, more);
    }
  }

  lemma ChainIs(os: seq<Operand>)
    requires os != []
    ensures Chain(os) == [os[0].op] + os[0].ts + Chain(os[1..])
  {}

  lemma AlternativeOr(pton: Resolver, t: string)
    ensures Alternative(pton, t).op == OrT
  {}

  lemma TailFails(pton: Resolver, acc: Expr, op: Token, ts: seq<Token>)
    requires op == OrT && ParseTerm(pton, ts) == None
    ensures ParseTail(pton, acc, [op] + ts) == None
  {
    assert ([op] + ts)[1..] == ts;
  }

  lemma AlternativeTerm(pton: Resolver, o: Operand, parts: seq<string>, rest: seq<Token>)
    requires OperandReads(pton, o) && Stops(rest)
    ensures var more := Chain(Alternatives(pton, parts)) + rest;
            ParseTerm(pton, o.ts + more) == Some((o.e, more))
  {
    hide ParseTerm, Chain, Alternative;
    forall x | x in Alternatives(pton, parts) ensures x.op.OrT? {
      var i :| 0 <= i < |parts| && x == Alternative(pton, parts[i]);
      AlternativeOr(pton, parts[i]);
    }
    ChainNoWord(Alternatives(pton, parts), rest);
  }

  /** One part that cannot be read makes the whole unreadable. */
  lemma JoinFails(pton: Resolver, parts: seq<string>, sep: string)
    requires sep == "||" || sep == " || "
    requires forall t :: t in parts ==> Sound(pton, t) || Fails(pton, t)
    requires exists t :: t in parts && Fails(pton, t)
    ensures Fails(pton, Join(parts, sep))
  {
    hide *;
    var first := Alternative(pton, parts[0]);
    LexJoin(pton, parts, sep);
    assert parts[0] in parts;
    forall rest | Stops(rest) ensures ParseExpr(pton, Lex(Join(parts, sep)) + rest) == None {
      var more := Chain(Alternatives(pton, parts[1..])) + rest;
      assert Lex(Join(parts, sep)) + rest == first.ts + more;
      if Fails(pton, parts[0]) {
        AlternativeFails(pton, parts[0], more);
        TermNone(pton, first.ts + more);
      } else {
        var t :| t in parts && Fails(pton, t);
        assert t in parts[1..] && forall x :: x in parts[1..] ==> x in parts;
        AlternativeReads(pton, parts[0]);
        AlternativeTerm(pton, first, parts[1..], rest);
        ChainFails(pton, first.e, parts[1..], rest);
        TailNone(pton, first.ts + more, first.e, more);
      }
    }
    FailsIs(pton, Join(parts, sep));
  }

  lemma TermNone(pton: Resolver, ts: seq<Token>)
    requires ParseTerm(pton, ts) == None
    ensures ParseExpr(pton, ts) == None
  {}

  lemma TailNone(pton: Resolver, ts: seq<Token>, e: Expr, more: seq<Token>)
    requires ParseTerm(pton, ts) == Some((e, more)) && ParseTail(pton, e, more) == None
    ensures ParseExpr(pton, ts) == None
  {}

  lemma FailsIs(pton: Resolver, s: string)
    requires forall rest :: Stops(rest) ==> ParseExpr(pton, Lex(s) + rest) == None
    ensures Fails(pton, s)
  {}
}
