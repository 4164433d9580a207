/** The style checker's bracket matchers: forward from an opening bracket, backward from a closing one, across lines. */
module Brackets {

  predicate Opens(c: char) { c == '(' || c == '[' || c == '{' }

  predicate Closes(c: char) { c == ')' || c == ']' || c == '}' }

  function Partner(c: char): char {
    match c
    case '(' => ')'
    case '[' => ']'
    case '{' => '}'
    case ')' => '('
    case ']' => '['
    case '}' => '{'
    case _ => c
  }

  // Balanced text

  /** Text in which every bracket has its partner. */
  ghost predicate Balanced(s: string)
    decreases |s|
  {
    || s == ""
    || (!Opens(s[0]) && !Closes(s[0]) && Balanced(s[1..]))
    || (Opens(s[0]) && exists k | 0 < k < |s| :: s[k] == Partner(s[0]) && Balanced(s[1..k]) && Balanced(s[k + 1..]))
  }

  lemma BalancedSplit(b: string) returns (x: string, y: string)
    requires b != "" && Opens(b[0]) && Balanced(b)
    ensures b == [b[0]] + x + [Partner(b[0])] + y && Balanced(x) && Balanced(y)
  {
    hide Partner;
    var k :| 0 < k < |b| && b[k] == Partner(b[0]) && Balanced(b[1..k]) && Balanced(b[k + 1..]);
    x, y := b[1..k], b[k + 1..];
  }

  lemma BalancedTail(b: string)
    requires b != "" && !Opens(b[0]) && Balanced(b)
    ensures !Closes(b[0]) && Balanced(b[1..]) && b == [b[0]] + b[1..]
  {}

  /** `s` is one bracketed expression. */
  ghost predicate Bracketed(s: string) {
    |s| >= 2 && Opens(s[0]) && s[|s| - 1] == Partner(s[0]) && Balanced(s[1..|s| - 1])
  }

  /** `s` closes all of `stack`, innermost first, ending with the closer of the outermost. */
  ghost predicate ClosesAll(stack: string, s: string)
    decreases |stack|
  {
    if stack == "" then s == ""
    else exists k | 0 <= k < |s| :: Balanced(s[..k]) && s[k] == Partner(stack[|stack| - 1]) && ClosesAll(stack[..|stack| - 1], s[k + 1..])
  }

  // Scanning text in which brackets are all there is

  datatype Scan = Found(n: nat) | Failed | Pending(stack: string)

  function Shift(r: Scan, n: nat): Scan {
    if r.Found? then Found(r.n + n) else r
  }

  /** `Found(n)`: the `n`-th character closes the outermost bracket. */
  function Forward(stack: string, s: string): Scan
    decreases |s|
  {
    if s == "" then Pending(stack)
    else if Opens(s[0]) then Shift(Forward(stack + [s[0]], s[1..]), 1)
    else if Closes(s[0]) then
      if stack == "" || s[0] != Partner(stack[|stack| - 1]) then Failed
      else if |stack| == 1 then Found(1)
      else Shift(Forward(stack[..|stack| - 1], s[1..]), 1)
    else if s[0] == ';' && stack == "" then Failed
    else Shift(Forward(stack, s[1..]), 1)
  }

  lemma {:induction false} ForwardConcat(stack: string, a: string, b: string)
    ensures Forward(stack, a + b) ==
      match Forward(stack, a) case Pending(st) => Shift(Forward(st, b), |a|) case r => r
    ensures Forward(stack, a).Found? ==> 0 < Forward(stack, a).n <= |a|
    decreases |a|
  {
    if a == "" {
      assert a + b == b;
    } else {
      assert (a + b)[0] == a[0] && (a + b)[1..] == a[1..] + b;
      if Opens(a[0]) {
        ForwardConcat(stack + [a[0]], a[1..], b);
      } else if Closes(a[0]) {
        if stack != "" { ForwardConcat(stack[..|stack| - 1], a[1..], b); }
      } else {
        ForwardConcat(stack, a[1..], b);
      }
    }
  }

  /** Balanced text leaves a stack alone. */
  lemma {:induction false} ForwardBalanced(stack: string, b: string)
    requires stack != "" && Balanced(b)
    ensures Forward(stack, b) == Pending(stack)
    decreases |b|
  {
    hide Balanced;
    if b != "" {
      if Opens(b[0]) {
        var x, y := BalancedSplit(b);
        var inner := stack + [b[0]];
        ForwardBalanced(inner, x);
        ForwardBalanced(stack, y);
        ForwardConcat(inner, x, [Partner(b[0])] + y);
        assert b[1..] == x + ([Partner(b[0])] + y);
        assert ([Partner(b[0])] + y)[1..] == y && inner[..|inner| - 1] == stack;
      } else {
        BalancedTail(b);
        ForwardBalanced(stack, b[1..]);
      }
    }
  }

  ghost predicate OpensOnly(stack: string) {
    forall i :: 0 <= i < |stack| ==> Opens(stack[i])
  }

  /** The first closer in `t`, as `ClosesAll` sees it. */
  lemma ClosesAllHas(stack: string, t: string) returns (b: string, rest: string)
    requires stack != "" && ClosesAll(stack, t)
    ensures Balanced(b) && t == b + [Partner(stack[|stack| - 1])] + rest && ClosesAll(stack[..|stack| - 1], rest)
  {
    var k := FirstCloser(stack, t);
    hide *;
    b, rest := t[..k], t[k + 1..];
    Cut(t, k);
  }

  lemma Cut(t: string, k: nat)
    requires k < |t|
    ensures t == t[..k] + [t[k]] + t[k + 1..]
  {}

  lemma FirstCloser(stack: string, t: string) returns (k: nat)
    requires stack != "" && ClosesAll(stack, t)
    ensures k < |t| && Balanced(t[..k]) && t[k] == Partner(stack[|stack| - 1]) && ClosesAll(stack[..|stack| - 1], t[k + 1..])
  {
    hide Balanced, Partner;
    k :| 0 <= k < |t| && Balanced(t[..k]) && t[k] == Partner(stack[|stack| - 1]) && ClosesAll(stack[..|stack| - 1], t[k + 1..]);
  }

  lemma NothingLeft(t: string)
    requires ClosesAll("", t)
    ensures t == ""
  {}

  /** What closes the whole stack is found, wherever the text goes on. */
  lemma {:induction false} ForwardCloses(stack: string, t: string, rest: string)
    requires stack != "" && OpensOnly(stack) && ClosesAll(stack, t)
    ensures Forward(stack, t + rest) == Found(|t|)
    decreases |stack|
  {
    hide Balanced, ClosesAll, Forward, Partner, Opens;
    var top, below := stack[|stack| - 1], stack[..|stack| - 1];
    var b, t' := ClosesAllHas(stack, t);
    var s := [Partner(top)] + (t' + rest);
    assert s[1..] == t' + rest;
    ForwardPop(stack, b, s);
    assert b + s == t + rest;
    if below == "" {
      NothingLeft(t');
    } else {
      ForwardCloses(below, t', rest);
    }
  }

  lemma ForwardPop(stack: string, b: string, s: string)
    requires stack != "" && OpensOnly(stack) && Balanced(b) && s != "" && s[0] == Partner(stack[|stack| - 1])
    ensures Forward(stack, b + s) == if |stack| == 1 then Found(|b| + 1) else Shift(Forward(stack[..|stack| - 1], s[1..]), |b| + 1)
  {
    hide Balanced;
    ForwardBalanced(stack, b);
    ForwardConcat(stack, b, s);
  }

  lemma ClosesAllIs(stack: string, b: string, t: string)
    requires stack != "" && Balanced(b) && ClosesAll(stack[..|stack| - 1], t)
    ensures ClosesAll(stack, b + [Partner(stack[|stack| - 1])] + t)
  {
    hide Balanced;
    var s := b + [Partner(stack[|stack| - 1])] + t;
    assert s[..|b|] == b && s[|b| + 1..] == t;
  }

  lemma Wrap(c: char, b: string, b': string)
    requires Opens(c) && Balanced(b) && Balanced(b')
    ensures Balanced([c] + b + [Partner(c)] + b')
  {
    var s := [c] + b + [Partner(c)] + b';
    var k := |b| + 1;
    assert s[1..k] == b && s[k + 1..] == b' && s[k] == Partner(c);
  }

  lemma Plain(c: char, b: string)
    requires !Opens(c) && !Closes(c) && Balanced(b)
    ensures Balanced([c] + b)
  {
    assert ([c] + b)[1..] == b;
  }

  /** What is found closes the whole stack. */
  lemma {:induction false} ForwardFinds(stack: string, s: string)
    requires stack != "" && OpensOnly(stack) && Forward(stack, s).Found?
    ensures Forward(stack, s).n <= |s| && ClosesAll(stack, s[..Forward(stack, s).n])
    decreases |s|
  {
    hide Balanced, ClosesAll;
    var n := Forward(stack, s).n;
    var below := stack[..|stack| - 1];
    ForwardConcat(stack, s, "");
    if Opens(s[0]) {
      var inner := stack + [s[0]];
      ForwardFinds(inner, s[1..]);
      assert inner[..|inner| - 1] == stack;
      var b, t := ClosesAllHas(inner, s[1..][..n - 1]);
      var b', rest := ClosesAllHas(stack, t);
      Wrap(s[0], b, b');
      ClosesAllIs(stack, [s[0]] + b + [Partner(s[0])] + b', rest);
      assert s[..n] == [s[0]] + s[1..][..n - 1];
      assert s[..n] == [s[0]] + b + [Partner(s[0])] + b' + [Partner(stack[|stack| - 1])] + rest;
    } else if Closes(s[0]) {
      EmptyBalanced();
      if |stack| > 1 {
        ForwardFinds(below, s[1..]);
        assert s[..n] == [] + [s[0]] + s[1..][..n - 1];
        ClosesAllIs(stack, "", s[1..][..n - 1]);
      } else {
        assert s[..n] == [] + [s[0]] + [];
        ClosesAllIs(stack, "", "");
      }
    } else {
      ForwardFinds(stack, s[1..]);
      var b, rest := ClosesAllHas(stack, s[1..][..n - 1]);
      Plain(s[0], b);
      ClosesAllIs(stack, [s[0]] + b, rest);
      assert s[..n] == [s[0]] + s[1..][..n - 1];
      assert s[..n] == [s[0]] + b + [Partner(stack[|stack| - 1])] + rest;
    }
  }

  lemma EmptyBalanced()
    ensures Balanced("") && ClosesAll("", "")
  {}

  /** From an opening bracket exactly the one bracketed expression that begins there is found. */
  lemma ForwardExactly(s: string, n: nat)
    requires s != "" && Opens(s[0]) && n <= |s|
    ensures Forward("", s) == Found(n) <==> Bracketed(s[..n])
  {
    hide *;
    if Bracketed(s[..n]) { ForwardIf(s, n); }
    if Forward("", s) == Found(n) { ForwardOnlyIf(s, n); }
  }

  lemma FirstStep(s: string)
    requires s != "" && Opens(s[0])
    ensures Forward("", s) == Shift(Forward([s[0]], s[1..]), 1) && OpensOnly([s[0]])
  {
    assert "" + [s[0]] == [s[0]];
  }

  lemma ForwardIf(s: string, n: nat)
    requires s != "" && Opens(s[0]) && n <= |s| && Bracketed(s[..n])
    ensures Forward("", s) == Found(n)
  {
    hide Balanced, ClosesAll, Forward, Partner, Opens;
    var b := s[..n][1..n - 1];
    FirstStep(s);
    EmptyBalanced();
    assert [s[0]][..0] == "";
    ClosesAllIs([s[0]], b, "");
    var t := b + [Partner(s[0])] + "";
    assert s[1..] == t + s[n..];
    ForwardCloses([s[0]], t, s[n..]);
  }

  lemma ForwardOnlyIf(s: string, n: nat)
    requires s != "" && Opens(s[0]) && n <= |s| && Forward("", s) == Found(n)
    ensures Bracketed(s[..n])
  {
    hide Balanced, ClosesAll, Forward, Partner, Opens;
    FirstStep(s);
    ForwardFinds([s[0]], s[1..]);
    var b, rest := ClosesAllHas([s[0]], s[1..][..n - 1]);
    assert [s[0]][..0] == "";
    NothingLeft(rest);
    assert s[..n] == [s[0]] + s[1..][..n - 1];
    assert s[..n] == [s[0]] + b + [Partner(s[0])];
    assert s[..n][1..n - 1] == b;
  }

  // The same, backward

  /** The text read from its end, each bracket turned round. */
  function Mirror(s: string): (r: string)
    ensures |r| == |s| && forall i :: 0 <= i < |s| ==> r[i] == Partner(s[|s| - 1 - i])
  {
    seq(|s|, i requires 0 <= i < |s| => Partner(s[|s| - 1 - i]))
  }

  function TurnAll(stack: string): (r: string)
    ensures |r| == |stack| && forall i :: 0 <= i < |r| ==> r[i] == Partner(stack[i])
  {
    seq(|stack|, i requires 0 <= i < |stack| => Partner(stack[i]))
  }

  lemma MirrorConcat(a: string, b: string)
    ensures Mirror(a + b) == Mirror(b) + Mirror(a)
    ensures Mirror(Mirror(a)) == a
  {
    hide Partner;
    PartnerTwice();
  }

  lemma PartnerTwice()
    ensures forall c :: Partner(Partner(c)) == c && (Opens(Partner(c)) <==> Closes(c)) && (Closes(Partner(c)) <==> Opens(c))
  {}

  lemma MirrorOne(c: char)
    ensures Mirror([c]) == [Partner(c)] && Mirror("") == ""
  {}

  lemma {:induction false} BalancedConcat(a: string, b: string)
    requires Balanced(a) && Balanced(b)
    ensures Balanced(a + b)
    decreases |a|
  {
    hide Balanced, Partner, Opens, Closes;
    if a == "" {
      assert a + b == b;
    } else if Opens(a[0]) {
      var x, y := BalancedSplit(a);
      BalancedConcat(y, b);
      Wrap(a[0], x, y + b);
      assert a + b == [a[0]] + x + [Partner(a[0])] + (y + b);
    } else {
      BalancedTail(a);
      BalancedConcat(a[1..], b);
      Plain(a[0], a[1..] + b);
      assert a + b == [a[0]] + (a[1..] + b);
    }
  }

  lemma {:induction false} BalancedMirror(b: string)
    requires Balanced(b)
    ensures Balanced(Mirror(b))
    decreases |b|
  {
    hide Balanced, Mirror, Partner, Opens, Closes;
    EmptyBalanced();
    if b == "" {
      MirrorOne(' ');
    } else if Opens(b[0]) {
      var x, y := BalancedSplit(b);
      BalancedMirror(x);
      BalancedMirror(y);
      Wrap(b[0], Mirror(x), "");
      BalancedConcat(Mirror(y), [b[0]] + Mirror(x) + [Partner(b[0])] + "");
      MirrorWrapped(b[0], x, y);
    } else {
      BalancedTail(b);
      BalancedMirror(b[1..]);
      MirrorConcat([b[0]], b[1..]);
      MirrorOne(b[0]);
      PlainPartner(b[0]);
      Plain(b[0], "");
      BalancedConcat(Mirror(b[1..]), [b[0]] + "");
      assert [b[0]] + "" == [b[0]];
    }
  }

  lemma PlainPartner(c: char)
    requires !Opens(c) && !Closes(c)
    ensures Partner(c) == c
  {}

  lemma MirrorWrapped(c: char, x: string, y: string)
    ensures Mirror([c] + x + [Partner(c)] + y) == Mirror(y) + ([c] + Mirror(x) + [Partner(c)] + "")
  {
    hide Mirror, Partner;
    PartnerTwice();
    MirrorConcat([c] + x + [Partner(c)], y);
    MirrorConcat([c] + x, [Partner(c)]);
    MirrorConcat([c], x);
    MirrorOne(c);
    MirrorOne(Partner(c));
    assert [Partner(Partner(c))] + (Mirror(x) + [Partner(c)]) == [c] + Mirror(x) + [Partner(c)] + "";
  }

  lemma BracketedMirror(s: string)
    requires Bracketed(s)
    ensures Bracketed(Mirror(s))
  {
    PartnerTwice();
    BalancedMirror(s[1..|s| - 1]);
    assert Mirror(s)[1..|s| - 1] == Mirror(s[1..|s| - 1]);
  }

  /** `Found(n)`: the `n`-th character from the end opens the outermost bracket. */
  function Backward(stack: string, s: string): Scan
    decreases |s|
  {
    if s == "" then Pending(stack)
    else
      var c, before := s[|s| - 1], s[..|s| - 1];
      if Closes(c) then Shift(Backward(stack + [c], before), 1)
      else if Opens(c) then
        if stack == "" || c != Partner(stack[|stack| - 1]) then Failed
        else if |stack| == 1 then Found(1)
        else Shift(Backward(stack[..|stack| - 1], before), 1)
      else if c == ';' && stack == "" then Failed
      else Shift(Backward(stack, before), 1)
  }

  function Turned(r: Scan): Scan {
    if r.Pending? then Pending(TurnAll(r.stack)) else r
  }

  lemma {:induction false} BackwardIsForward(stack: string, s: string)
    ensures Turned(Backward(stack, s)) == Forward(TurnAll(stack), Mirror(s))
    decreases |s|
  {
    PartnerTwice();
    if s != "" {
      var c, before := s[|s| - 1], s[..|s| - 1];
      assert Mirror(s)[0] == Partner(c) && Mirror(s)[1..] == Mirror(before);
      if Closes(c) {
        BackwardIsForward(stack + [c], before);
        assert TurnAll(stack + [c]) == TurnAll(stack) + [Partner(c)];
      } else if Opens(c) {
        if stack != "" {
          BackwardIsForward(stack[..|stack| - 1], before);
          assert TurnAll(stack[..|stack| - 1]) == TurnAll(stack)[..|stack| - 1];
        }
      } else {
        BackwardIsForward(stack, before);
      }
    }
  }

  /** From a closing bracket exactly the one bracketed expression that ends there is found. */
  lemma BackwardExactly(s: string, n: nat)
    requires s != "" && Closes(s[|s| - 1]) && n <= |s|
    ensures Backward("", s) == Found(n) <==> Bracketed(s[|s| - n..])
  {
    hide Bracketed, Forward, Backward;
    PartnerTwice();
    BackwardIsForward("", s);
    assert TurnAll("") == "";
    ForwardExactly(Mirror(s), n);
    var t := s[|s| - n..];
    assert Mirror(s)[..n] == Mirror(t);
    if Bracketed(t) { BracketedMirror(t); }
    if Bracketed(Mirror(t)) {
      BracketedMirror(Mirror(t));
      MirrorConcat(t, "");
    }
  }
}
