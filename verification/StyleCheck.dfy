/** The style checker's `CloseExpression` and `ReverseCloseExpression`, line by line, template brackets included. */
module StyleCheck {
  import opened Base
  import opened Brackets

  // Patterns

  predicate IsSpace(c: char) {
    c == ' ' || '\t' <= c <= '\r'
  }

  predicate IsWordChar(c: char) {
    'a' <= c <= 'z' || 'A' <= c <= 'Z' || '0' <= c <= '9' || c == '_'
  }

  function TrimEnd(s: string): string {
    if s != "" && IsSpace(s[|s| - 1]) then TrimEnd(s[..|s| - 1]) else s
  }

  /** Does the text end with the word `operator`, and perhaps blanks? */
  predicate AfterOperator(s: string) {
    var t := TrimEnd(s);
    |t| >= 8 && t[|t| - 8..] == "operator" && (|t| == 8 || !IsWordChar(t[|t| - 9]))
  }

  // One line forward

  /** Either the scan goes on with a stack, or it returns a position, -1 for giving up. */
  datatype Step = Go(stack: string) | Return(pos: int)

  function DropAll(stack: string, c: char): string {
    if stack != "" && stack[|stack| - 1] == c then DropAll(stack[..|stack| - 1], c) else stack
  }

  function Pop(stack: string): string {
    if stack == "" then "" else stack[..|stack| - 1]
  }

  function Top(stack: string): char {
    if stack == "" then ' ' else stack[|stack| - 1]
  }

  /** What the character at `i` does to the stack, reading forward. */
  function EndStep(line: string, i: nat, stack: string): Step
    requires i < |line|
  {
    var c := line[i];
    if Opens(c) then Go(stack + [c])
    else if c == '<' then
      if i > 0 && line[i - 1] == '<' then
        if Top(stack) == '<' then (if Pop(stack) == "" then Return(-1) else Go(Pop(stack))) else Go(stack)
      else if i > 0 && AfterOperator(line[..i]) then Go(stack)
      else Go(stack + "<")
    else if Closes(c) then
      var left := DropAll(stack, '<');
      if left == "" || Top(left) != Partner(c) then Return(-1)
      else if Pop(left) == "" then Return(i + 1)
      else Go(Pop(left))
    else if c == '>' then
      if i > 0 && (line[i - 1] == '-' || AfterOperator(line[..i - 1])) then Go(stack)
      else if Top(stack) == '<' then (if Pop(stack) == "" then Return(i + 1) else Go(Pop(stack)))
      else Go(stack)
    else if c == ';' then
      if DropAll(stack, '<') == "" then Return(-1) else Go(DropAll(stack, '<'))
    else Go(stack)
  }

  function EndInLine(line: string, i: nat, stack: string): (int, Option<string>)
    decreases |line| - i
  {
    if i >= |line| then (-1, Some(stack))
    else
      match EndStep(line, i, stack)
      case Go(st) => EndInLine(line, i + 1, st)
      case Return(p) => (p, None)
  }

  /** `FindEndOfExpressionInLine`. */
  method FindEndOfExpressionInLine(line: string, startpos: nat, before: string) returns (pos: int, stack: Option<string>)
    ensures (pos, stack) == EndInLine(line, startpos, before)
  {
    hide AfterOperator, Opens, Closes, Partner;
    var st := before;
    var i := startpos;
    while i < |line|
      invariant EndInLine(line, i, st) == EndInLine(line, startpos, before)
      decreases |line| - i
    {
      var c := line[i];
      ghost var next := EndStep(line, i, st);
      if Opens(c) {
        st := st + [c];
      } else if c == '<' {
        if i > 0 && line[i - 1] == '<' {
          if st != "" && st[|st| - 1] == '<' {
            st := st[..|st| - 1];
            if st == "" { return -1, None; }
          }
        } else if i > 0 && AfterOperator(line[..i]) {
          i := i + 1;
          continue;
        } else {
          st := st + "<";
        }
      } else if Closes(c) {
        st := DropTops(st, '<');
        if st == "" { return -1, None; }
        if st[|st| - 1] == Partner(c) {
          st := st[..|st| - 1];
          if st == "" { return i + 1, None; }
        } else {
          return -1, None;
        }
      } else if c == '>' {
        if i > 0 && (line[i - 1] == '-' || AfterOperator(line[..i - 1])) {
          i := i + 1;
          continue;
        }
        if st != "" && st[|st| - 1] == '<' {
          st := st[..|st| - 1];
          if st == "" { return i + 1, None; }
        }
      } else if c == ';' {
        st := DropTops(st, '<');
        if st == "" { return -1, None; }
      }
      i := i + 1;
    }
    return -1, Some(st);
  }

  /** Pending angle brackets turn out to be operators. */
  method DropTops(before: string, c: char) returns (stack: string)
    ensures stack == DropAll(before, c)
  {
    stack := before;
    while stack != "" && stack[|stack| - 1] == c
      invariant DropAll(stack, c) == DropAll(before, c)
      decreases |stack|
    {
      stack := stack[..|stack| - 1];
    }
  }

  // Across lines, forward

  /** Is the character one that an expression can begin with, and not the start of a shift or a comparison? */
  predicate MayOpen(line: string, pos: nat)
    requires pos < |line|
  {
    (Opens(line[pos]) || line[pos] == '<') && !(line[pos] == '<' && pos + 1 < |line| && (line[pos + 1] == '<' || line[pos + 1] == '='))
  }

  /** Scanning from `(l, i)`; the line and the position past the closing character. */
  function CloseFrom(lines: seq<string>, l: nat, i: nat, stack: string): Option<(nat, nat)>
    requires l < |lines|
    decreases |lines| - l
  {
    var (p, st) := EndInLine(lines[l], i, stack);
    if p > -1 then Some((l, p as nat))
    else if st.Some? && st.value != "" && l + 1 < |lines| then CloseFrom(lines, l + 1, 0, st.value)
    else None
  }

  function Close(lines: seq<string>, l: nat, pos: nat): Option<(nat, nat)>
    requires l < |lines| && pos < |lines[l]|
  {
    if MayOpen(lines[l], pos) then CloseFrom(lines, l, pos, "") else None
  }

  method CloseExpression(lines: seq<string>, linenum: nat, pos: nat) returns (r: Option<(nat, nat)>)
    requires linenum < |lines| && pos < |lines[linenum]|
    ensures r == Close(lines, linenum, pos)
  {
    hide EndInLine, MayOpen;
    if !MayOpen(lines[linenum], pos) { return None; }
    var l := linenum;
    var p, stack := FindEndOfExpressionInLine(lines[l], pos, "");
    if p > -1 { return Some((l, p as nat)); }
    while stack.Some? && stack.value != "" && l < |lines| - 1
      invariant l < |lines|
      invariant CloseFrom(lines, linenum, pos, "") ==
        if stack.Some? && stack.value != "" && l + 1 < |lines| then CloseFrom(lines, l + 1, 0, stack.value) else None
      decreases |lines| - l
    {
      l := l + 1;
      p, stack := FindEndOfExpressionInLine(lines[l], 0, stack.value);
      if p > -1 { return Some((l, p as nat)); }
    }
    r := None;
  }

  // One line backward

  /** What the character at `i` does to the stack, reading backward, and how far to step. */
  function StartStep(line: string, i: nat, stack: string): (Step, nat)
    requires i < |line|
    ensures 1 <= StartStep(line, i, stack).1
  {
    var c := line[i];
    if Closes(c) then (Go(stack + [c]), 1)
    else if c == '>' then
      if i > 0 && (line[i - 1] == '-' || Compares(line, i) || AfterOperator(line[..i])) then (Go(stack), 2)
      else (Go(stack + ">"), 1)
    else if c == '<' then
      if i > 0 && line[i - 1] == '<' then (Go(stack), 2)
      else if Top(stack) == '>' then (if Pop(stack) == "" then Return(i) else Go(Pop(stack)), 1)
      else (Go(stack), 1)
    else if Opens(c) then
      var left := DropAll(stack, '>');
      (if left == "" || Top(left) != Partner(c) then Return(-1)
       else if Pop(left) == "" then Return(i)
       else Go(Pop(left)), 1)
    else if c == ';' then
      (if DropAll(stack, '>') == "" then Return(-1) else Go(DropAll(stack, '>')), 1)
    else (Go(stack), 1)
  }

  /** A `>=` between blanks. */
  predicate Compares(line: string, i: nat)
    requires 0 < i < |line|
  {
    IsSpace(line[i - 1]) && i + 2 < |line| && line[i + 1] == '=' && IsSpace(line[i + 2])
  }

  function StartInLine(line: string, i: int, stack: string): (int, Option<string>)
    requires i < |line|
    decreases i + 1
  {
    if i < 0 then (-1, Some(stack))
    else
      match StartStep(line, i, stack)
      case (Go(st), n) => StartInLine(line, i - n, st)
      case (Return(p), _) => (p, None)
  }

  /** `FindStartOfExpressionInLine`. */
  method FindStartOfExpressionInLine(line: string, endpos: int, before: string) returns (pos: int, stack: Option<string>)
    requires endpos < |line|
    ensures (pos, stack) == StartInLine(line, endpos, before)
  {
    hide AfterOperator, Opens, Closes, Partner, Compares;
    var st := before;
    var i := endpos;
    while i >= 0
      invariant i < |line| && StartInLine(line, i, st) == StartInLine(line, endpos, before)
      decreases i + 1
    {
      var c := line[i];
      ghost var next := StartStep(line, i, st);
      if Closes(c) {
        st := st + [c];
      } else if c == '>' {
        if i > 0 && (line[i - 1] == '-' || Compares(line, i) || AfterOperator(line[..i])) {
          i := i - 1;
        } else {
          st := st + ">";
        }
      } else if c == '<' {
        if i > 0 && line[i - 1] == '<' {
          i := i - 1;
        } else if st != "" && st[|st| - 1] == '>' {
          st := st[..|st| - 1];
          if st == "" { return i, None; }
        }
      } else if Opens(c) {
        st := DropTops(st, '>');
        if st == "" { return -1, None; }
        if st[|st| - 1] == Partner(c) {
          st := st[..|st| - 1];
          if st == "" { return i, None; }
        } else {
          return -1, None;
        }
      } else if c == ';' {
        st := DropTops(st, '>');
        if st == "" { return -1, None; }
      }
      i := i - 1;
    }
    return -1, Some(st);
  }

  // Across lines, backward

  function OpenFrom(lines: seq<string>, l: nat, i: int, stack: string): Option<(nat, nat)>
    requires l < |lines| && i < |lines[l]|
    decreases l
  {
    var (p, st) := StartInLine(lines[l], i, stack);
    if p > -1 then Some((l, p as nat))
    else if st.Some? && st.value != "" && l > 0 then OpenFrom(lines, l - 1, |lines[l - 1]| - 1, st.value)
    else None
  }

  function ReverseClose(lines: seq<string>, l: nat, pos: nat): Option<(nat, nat)>
    requires l < |lines| && pos < |lines[l]|
  {
    if Closes(lines[l][pos]) || lines[l][pos] == '>' then OpenFrom(lines, l, pos, "") else None
  }

  method ReverseCloseExpression(lines: seq<string>, linenum: nat, pos: nat) returns (r: Option<(nat, nat)>)
    requires linenum < |lines| && pos < |lines[linenum]|
    ensures r == ReverseClose(lines, linenum, pos)
  {
    hide StartInLine, Closes;
    if !Closes(lines[linenum][pos]) && lines[linenum][pos] != '>' { return None; }
    var l := linenum;
    var p, stack := FindStartOfExpressionInLine(lines[l], pos, "");
    if p > -1 { return Some((l, p as nat)); }
    while stack.Some? && stack.value != "" && l > 0
      invariant l < |lines|
      invariant OpenFrom(lines, linenum, pos, "") ==
        if stack.Some? && stack.value != "" && l > 0 then OpenFrom(lines, l - 1, |lines[l - 1]| - 1, stack.value) else None
      decreases l
    {
      l := l - 1;
      p, stack := FindStartOfExpressionInLine(lines[l], |lines[l]| - 1, stack.value);
      if p > -1 { return Some((l, p as nat)); }
    }
    r := None;
  }

  // Lines without angle brackets

  ghost predicate Angleless(s: string) {
    forall i :: 0 <= i < |s| ==> s[i] != '<' && s[i] != '>'
  }

  ghost predicate NoAngles(lines: seq<string>) {
    forall l :: 0 <= l < |lines| ==> Angleless(lines[l])
  }

  /** The text from `(l, c)` up to `(l', e)`. */
  ghost function Between(lines: seq<string>, l: nat, c: nat, l': nat, e: nat): string
    requires l <= l' < |lines| && c <= |lines[l]| && e <= |lines[l']| && (l == l' ==> c <= e)
    decreases l' - l
  {
    if l == l' then lines[l][c..e] else lines[l][c..] + Between(lines, l + 1, 0, l', e)
  }

  lemma NothingToDrop(stack: string, c: char)
    requires c !in stack
    ensures DropAll(stack, c) == stack
  {}

  ghost function LineResult(r: Scan, i: nat): (int, Option<string>) {
    match r case Found(n) => (i + n, None) case Failed => (-1, None) case Pending(st) => (-1, Some(st))
  }

  /** Without angle brackets a step is the step of plain bracket matching. */
  lemma EndStepIs(line: string, i: nat, stack: string)
    requires i < |line| && Angleless(line) && '<' !in stack
    ensures EndStep(line, i, stack) ==
      if Opens(line[i]) then Go(stack + [line[i]])
      else if Closes(line[i]) then
        if stack == "" || line[i] != Partner(stack[|stack| - 1]) then Return(-1)
        else if |stack| == 1 then Return(i + 1)
        else Go(stack[..|stack| - 1])
      else if line[i] == ';' && stack == "" then Return(-1)
      else Go(stack)
    ensures Opens(line[i]) ==> '<' !in stack + [line[i]]
  {
    hide AfterOperator;
    NothingToDrop(stack, '<');
    PartnerTwice();
  }

  lemma ForwardStep(stack: string, s: string)
    requires s != ""
    ensures Opens(s[0]) ==> Forward(stack, s) == Shift(Forward(stack + [s[0]], s[1..]), 1)
    ensures !Opens(s[0]) && Closes(s[0]) ==> (Forward(stack, s) ==
      if stack == "" || s[0] != Partner(stack[|stack| - 1]) then Failed
      else if |stack| == 1 then Found(1)
      else Shift(Forward(stack[..|stack| - 1], s[1..]), 1))
    ensures !Opens(s[0]) && !Closes(s[0]) ==>
      Forward(stack, s) == if s[0] == ';' && stack == "" then Failed else Shift(Forward(stack, s[1..]), 1)
  {}

  lemma {:induction false} LineForward(line: string, i: nat, stack: string)
    requires i <= |line| && Angleless(line) && '<' !in stack
    ensures EndInLine(line, i, stack) == LineResult(Forward(stack, line[i..]), i)
    ensures Forward(stack, line[i..]).Pending? ==> '<' !in Forward(stack, line[i..]).stack
    decreases |line| - i
  {
    if i < |line| {
      hide EndStep, Opens, Closes, Partner, Forward, Angleless;
      assert line[i..][1..] == line[i + 1..];
      EndStepIs(line, i, stack);
      ForwardStep(stack, line[i..]);
      match EndStep(line, i, stack)
      case Go(st) => LineForward(line, i + 1, st);
      case Return(_) =>
    }
  }

  ghost function LineResultBack(r: Scan, i: int): (int, Option<string>) {
    match r case Found(n) => (i + 1 - n, None) case Failed => (-1, None) case Pending(st) => (-1, Some(st))
  }

  lemma StartStepIs(line: string, i: nat, stack: string)
    requires i < |line| && Angleless(line) && '>' !in stack
    ensures StartStep(line, i, stack) == (
      if Closes(line[i]) then Go(stack + [line[i]])
      else if Opens(line[i]) then
        if stack == "" || line[i] != Partner(stack[|stack| - 1]) then Return(-1)
        else if |stack| == 1 then Return(i)
        else Go(stack[..|stack| - 1])
      else if line[i] == ';' && stack == "" then Return(-1)
      else Go(stack), 1)
    ensures Closes(line[i]) ==> '>' !in stack + [line[i]]
  {
    hide AfterOperator, Compares;
    NothingToDrop(stack, '>');
    PartnerTwice();
  }

  lemma BackwardStep(stack: string, before: string, c: char)
    ensures Closes(c) ==> Backward(stack, before + [c]) == Shift(Backward(stack + [c], before), 1)
    ensures !Closes(c) && Opens(c) ==> (Backward(stack, before + [c]) ==
      if stack == "" || c != Partner(stack[|stack| - 1]) then Failed
      else if |stack| == 1 then Found(1)
      else Shift(Backward(stack[..|stack| - 1], before), 1))
    ensures !Closes(c) && !Opens(c) ==>
      Backward(stack, before + [c]) == if c == ';' && stack == "" then Failed else Shift(Backward(stack, before), 1)
  {
    var s := before + [c];
    assert s[|s| - 1] == c && s[..|s| - 1] == before;
  }

  lemma {:induction false} LineBackward(line: string, i: int, stack: string)
    requires -1 <= i < |line| && Angleless(line) && '>' !in stack
    ensures StartInLine(line, i, stack) == LineResultBack(Backward(stack, line[..i + 1]), i)
    ensures Backward(stack, line[..i + 1]).Pending? ==> '>' !in Backward(stack, line[..i + 1]).stack
    decreases i + 1
  {
    if i >= 0 {
      hide StartStep, Opens, Closes, Partner, Backward, Angleless;
      assert line[..i + 1] == line[..i] + [line[i]];
      StartStepIs(line, i, stack);
      BackwardStep(stack, line[..i], line[i]);
      match StartStep(line, i, stack).0
      case Go(st) => LineBackward(line, i - 1, st);
      case Return(_) =>
    }
  }

  // Across lines without angle brackets

  lemma FoundPrefix(stack: string, s: string, n: nat)
    requires n <= |s| && Forward(stack, s) == Found(n)
    ensures Forward(stack, s[..n]) == Found(n)
  {
    hide Forward;
    ForwardConcat(stack, s[..n], s[n..]);
    assert s[..n] + s[n..] == s;
    var r := Forward(stack, s[..n]);
    if r.Pending? { FoundBound(r.stack, s[n..]); }
  }

  lemma FoundBound(stack: string, s: string)
    ensures Forward(stack, s).Found? ==> 0 < Forward(stack, s).n <= |s|
    ensures Backward(stack, s).Found? ==> 0 < Backward(stack, s).n <= |s|
  {
    hide Forward, Backward;
    ForwardConcat(stack, s, "");
    BackwardConcat(stack, "", s);
  }

  /** A position that is returned is where the scan of the text in between ends. */
  lemma {:induction false} CloseFromFinds(lines: seq<string>, l: nat, i: nat, stack: string, l': nat, e: nat)
    requires l < |lines| && i <= |lines[l]| && NoAngles(lines) && '<' !in stack
    requires CloseFrom(lines, l, i, stack) == Some((l', e))
    ensures l <= l' < |lines| && 0 < e <= |lines[l']| && (l == l' ==> i < e)
    ensures Forward(stack, Between(lines, l, i, l', e)) == Found(|Between(lines, l, i, l', e)|)
    decreases |lines| - l
  {
    hide Forward, EndInLine, Angleless;
    var s := lines[l][i..];
    LineForward(lines[l], i, stack);
    ForwardConcat(stack, s, "");
    match Forward(stack, s)
    case Found(n) =>
      FoundPrefix(stack, s, n);
      assert s[..n] == lines[l][i..i + n];
    case Pending(st) =>
      CloseFromFinds(lines, l + 1, 0, st, l', e);
      ForwardConcat(stack, s, Between(lines, l + 1, 0, l', e));
  }

  lemma {:induction false} PendingStays(stack: string, s: string)
    requires stack != "" && Forward(stack, s).Pending?
    ensures Forward(stack, s).stack != ""
    decreases |s|
  {
    if s != "" {
      if Opens(s[0]) { PendingStays(stack + [s[0]], s[1..]); }
      else if Closes(s[0]) { PendingStays(stack[..|stack| - 1], s[1..]); }
      else { PendingStays(stack, s[1..]); }
    }
  }

  lemma Begun(stack: string, s: string)
    requires stack != "" || (s != "" && Opens(s[0]))
    requires Forward(stack, s).Pending?
    ensures Forward(stack, s).stack != ""
  {
    hide Forward;
    if stack == "" {
      FirstStep(s);
      PendingStays([s[0]], s[1..]);
    } else {
      PendingStays(stack, s);
    }
  }

  lemma {:induction false} BetweenNotEmpty(lines: seq<string>, l: nat, c: nat, l': nat, e: nat)
    requires l <= l' < |lines| && c <= |lines[l]| && 0 < e <= |lines[l']| && (l == l' ==> c < e)
    ensures Between(lines, l, c, l', e) != ""
    decreases l' - l
  {
    if l < l' { BetweenNotEmpty(lines, l + 1, 0, l', e); }
  }

  /** And the position where that scan ends is the one returned. */
  lemma {:induction false} CloseFromComplete(lines: seq<string>, l: nat, i: nat, stack: string, l': nat, e: nat)
    requires l <= l' < |lines| && i <= |lines[l]| && 0 < e <= |lines[l']| && (l == l' ==> i < e)
    requires NoAngles(lines) && '<' !in stack && (stack != "" || (i < |lines[l]| && Opens(lines[l][i])))
    requires Forward(stack, Between(lines, l, i, l', e)) == Found(|Between(lines, l, i, l', e)|)
    ensures CloseFrom(lines, l, i, stack) == Some((l', e))
    decreases |lines| - l
  {
    hide Forward, EndInLine, Angleless, Opens;
    var s := lines[l][i..];
    LineForward(lines[l], i, stack);
    if l == l' {
      ForwardConcat(stack, lines[l][i..e], lines[l][e..]);
      assert lines[l][i..e] + lines[l][e..] == s;
    } else {
      var rest := Between(lines, l + 1, 0, l', e);
      BetweenNotEmpty(lines, l + 1, 0, l', e);
      ForwardConcat(stack, s, rest);
      var r := Forward(stack, s);
      assert r.Pending?;
      Begun(stack, s);
      ForwardConcat(r.stack, rest, "");
      CloseFromComplete(lines, l + 1, 0, r.stack, l', e);
    }
  }

  /**
   On lines free of angle brackets `CloseExpression` returns the position past the one bracketed expression
   that begins at the opening bracket, on whatever line that ends, and none if there is no such expression.
   */
  lemma CloseExactly(lines: seq<string>, l: nat, c: nat, l': nat, e: nat)
    requires NoAngles(lines) && l < |lines| && c < |lines[l]| && Opens(lines[l][c])
    ensures Close(lines, l, c) == Some((l', e)) <==>
      && l <= l' < |lines| && 0 < e <= |lines[l']| && (l == l' ==> c < e)
      && Bracketed(Between(lines, l, c, l', e))
  {
    hide CloseFrom, Forward, Angleless, Bracketed;
    if Close(lines, l, c) == Some((l', e)) {
      CloseFromFinds(lines, l, c, "", l', e);
      BetweenStarts(lines, l, c, l', e);
      ForwardExactly(Between(lines, l, c, l', e), |Between(lines, l, c, l', e)|);
      Whole(Between(lines, l, c, l', e));
    }
    if l <= l' < |lines| && 0 < e <= |lines[l']| && (l == l' ==> c < e) && Bracketed(Between(lines, l, c, l', e)) {
      BetweenStarts(lines, l, c, l', e);
      ForwardExactly(Between(lines, l, c, l', e), |Between(lines, l, c, l', e)|);
      Whole(Between(lines, l, c, l', e));
      CloseFromComplete(lines, l, c, "", l', e);
    }
  }

  lemma Whole(s: string)
    ensures s[..|s|] == s && s[|s| - |s|..] == s
  {}

  lemma BetweenStarts(lines: seq<string>, l: nat, c: nat, l': nat, e: nat)
    requires l <= l' < |lines| && c < |lines[l]| && e <= |lines[l']| && (l == l' ==> c < e)
    ensures Between(lines, l, c, l', e) != "" && Between(lines, l, c, l', e)[0] == lines[l][c]
  {}

  lemma {:induction false} BetweenEnds(lines: seq<string>, l: nat, c: nat, l': nat, e: nat)
    requires l <= l' < |lines| && c <= |lines[l]| && 0 < e <= |lines[l']| && (l == l' ==> c < e)
    ensures Between(lines, l, c, l', e) != ""
    ensures Between(lines, l, c, l', e)[|Between(lines, l, c, l', e)| - 1] == lines[l'][e - 1]
    decreases l' - l
  {
    if l < l' { BetweenEnds(lines, l + 1, 0, l', e); }
  }

  lemma BetweenIs(lines: seq<string>, l: nat, c: nat, l': nat, e: nat)
    requires l <= l' < |lines| && c <= |lines[l]| && e <= |lines[l']| && (l == l' ==> c <= e)
    ensures Between(lines, l, c, l', e) == if l == l' then lines[l][c..e] else lines[l][c..] + Between(lines, l + 1, 0, l', e)
  {}

  lemma {:induction false} BetweenSnoc(lines: seq<string>, l: nat, c: nat, l': nat, e: nat)
    requires l < l' < |lines| && c <= |lines[l]| && e <= |lines[l']|
    ensures Between(lines, l, c, l', e) == Between(lines, l, c, l' - 1, |lines[l' - 1]|) + lines[l'][..e]
    decreases l' - l
  {
    hide Between;
    BetweenIs(lines, l, c, l', e);
    BetweenIs(lines, l, c, l' - 1, |lines[l' - 1]|);
    if l + 1 < l' {
      BetweenSnoc(lines, l + 1, 0, l', e);
      Associate(lines[l][c..], Between(lines, l + 1, 0, l' - 1, |lines[l' - 1]|), lines[l'][..e]);
    } else {
      BetweenIs(lines, l', 0, l', e);
      assert lines[l'][0..e] == lines[l'][..e] && lines[l][c..|lines[l]|] == lines[l][c..];
    }
  }

  lemma Associate(a: string, b: string, c: string)
    ensures a + (b + c) == a + b + c
  {}

  lemma {:induction false} BackwardConcat(stack: string, a: string, b: string)
    ensures Backward(stack, a + b) ==
      match Backward(stack, b) case Pending(st) => Shift(Backward(st, a), |b|) case r => r
    ensures Backward(stack, b).Found? ==> 0 < Backward(stack, b).n <= |b|
    decreases |b|
  {
    if b == "" {
      assert a + b == a;
    } else {
      hide Opens, Closes, Partner, Backward;
      var c, b' := b[|b| - 1], b[..|b| - 1];
      assert b == b' + [c] && a + b == (a + b') + [c];
      BackwardStep(stack, b', c);
      BackwardStep(stack, a + b', c);
      if Closes(c) {
        BackwardConcat(stack + [c], a, b');
      } else if Opens(c) {
        if stack != "" { BackwardConcat(stack[..|stack| - 1], a, b'); }
      } else {
        BackwardConcat(stack, a, b');
      }
    }
  }

  lemma FoundSuffix(stack: string, s: string, n: nat)
    requires n <= |s| && Backward(stack, s) == Found(n)
    ensures Backward(stack, s[|s| - n..]) == Found(n)
  {
    hide Backward;
    var a, b := s[..|s| - n], s[|s| - n..];
    BackwardConcat(stack, a, b);
    assert a + b == s;
    var r := Backward(stack, b);
    if r.Pending? { FoundBound(r.stack, a); }
  }

  lemma {:induction false} OpenFromFinds(lines: seq<string>, l: nat, i: int, stack: string, l': nat, p: nat)
    requires l < |lines| && -1 <= i < |lines[l]| && NoAngles(lines) && '>' !in stack
    requires OpenFrom(lines, l, i, stack) == Some((l', p))
    ensures l' <= l && p < |lines[l']| && (l' == l ==> p <= i)
    ensures Backward(stack, Between(lines, l', p, l, i + 1)) == Found(|Between(lines, l', p, l, i + 1)|)
    decreases l
  {
    hide Backward, StartInLine, Angleless;
    var s := lines[l][..i + 1];
    LineBackward(lines[l], i, stack);
    BackwardConcat(stack, "", s);
    assert "" + s == s;
    match Backward(stack, s)
    case Found(n) =>
      FoundSuffix(stack, s, n);
      assert s[|s| - n..] == lines[l][i + 1 - n..i + 1];
    case Pending(st) =>
      OpenFromFinds(lines, l - 1, |lines[l - 1]| - 1, st, l', p);
      BackwardConcat(stack, Between(lines, l', p, l - 1, |lines[l - 1]|), s);
      BetweenSnoc(lines, l', p, l, i + 1);
  }

  lemma {:induction false} PendingStaysBack(stack: string, s: string)
    requires stack != "" && Backward(stack, s).Pending?
    ensures Backward(stack, s).stack != ""
    decreases |s|
  {
    if s != "" {
      var c, before := s[|s| - 1], s[..|s| - 1];
      if Closes(c) { PendingStaysBack(stack + [c], before); }
      else if Opens(c) { PendingStaysBack(stack[..|stack| - 1], before); }
      else { PendingStaysBack(stack, before); }
    }
  }

  lemma BegunBack(stack: string, s: string)
    requires stack != "" || (s != "" && Closes(s[|s| - 1]))
    requires Backward(stack, s).Pending?
    ensures Backward(stack, s).stack != ""
  {
    hide Backward;
    if stack == "" {
      var c, before := s[|s| - 1], s[..|s| - 1];
      assert s == before + [c] && "" + [c] == [c];
      BackwardStep("", before, c);
      PendingStaysBack([c], before);
    } else {
      PendingStaysBack(stack, s);
    }
  }

  lemma {:induction false} OpenFromComplete(lines: seq<string>, l: nat, i: int, stack: string, l': nat, p: nat)
    requires l' <= l < |lines| && -1 <= i < |lines[l]| && p < |lines[l']| && (l' == l ==> p <= i)
    requires NoAngles(lines) && '>' !in stack && (stack != "" || (i >= 0 && Closes(lines[l][i])))
    requires Backward(stack, Between(lines, l', p, l, i + 1)) == Found(|Between(lines, l', p, l, i + 1)|)
    ensures OpenFrom(lines, l, i, stack) == Some((l', p))
    decreases l
  {
    hide Backward, StartInLine, Angleless, Closes;
    var s := lines[l][..i + 1];
    LineBackward(lines[l], i, stack);
    if l == l' {
      BackwardConcat(stack, lines[l][..p], lines[l][p..i + 1]);
      assert lines[l][..p] + lines[l][p..i + 1] == s;
    } else {
      BetweenSnoc(lines, l', p, l, i + 1);
      var rest := Between(lines, l', p, l - 1, |lines[l - 1]|);
      BetweenToEnd(lines, l', p, l - 1);
      BackwardConcat(stack, rest, s);
      var r := Backward(stack, s);
      BackwardConcat(stack, "", s);
      assert "" + s == s;
      assert r.Pending?;
      BegunBack(stack, s);
      BackwardConcat(r.stack, "", rest);
      assert "" + rest == rest;
      OpenFromComplete(lines, l - 1, |lines[l - 1]| - 1, r.stack, l', p);
    }
  }

  lemma BetweenToEnd(lines: seq<string>, l: nat, c: nat, l': nat)
    requires l <= l' < |lines| && c < |lines[l]|
    ensures Between(lines, l, c, l', |lines[l']|) != ""
  {}

  lemma ReverseOnlyIf(lines: seq<string>, l: nat, c: nat, l': nat, p: nat)
    requires NoAngles(lines) && l < |lines| && c < |lines[l]| && Closes(lines[l][c])
    requires ReverseClose(lines, l, c) == Some((l', p))
    ensures l' <= l && p < |lines[l']| && (l' == l ==> p <= c)
    ensures Bracketed(Between(lines, l', p, l, c + 1))
  {
    hide OpenFrom, Backward, Angleless, Bracketed, Between;
    OpenFromFinds(lines, l, c, "", l', p);
    BetweenEnds(lines, l', p, l, c + 1);
    BackwardExactly(Between(lines, l', p, l, c + 1), |Between(lines, l', p, l, c + 1)|);
    Whole(Between(lines, l', p, l, c + 1));
  }

  lemma ReverseIf(lines: seq<string>, l: nat, c: nat, l': nat, p: nat)
    requires NoAngles(lines) && l < |lines| && c < |lines[l]| && Closes(lines[l][c])
    requires l' <= l && p < |lines[l']| && (l' == l ==> p <= c)
    requires Bracketed(Between(lines, l', p, l, c + 1))
    ensures ReverseClose(lines, l, c) == Some((l', p))
  {
    hide OpenFrom, Backward, Angleless, Bracketed, Between;
    BetweenEnds(lines, l', p, l, c + 1);
    BackwardExactly(Between(lines, l', p, l, c + 1), |Between(lines, l', p, l, c + 1)|);
    Whole(Between(lines, l', p, l, c + 1));
    OpenFromComplete(lines, l, c, "", l', p);
  }

  /** Backward from a closing bracket: the position of the one bracketed expression that ends there, or none. */
  lemma ReverseExactly(lines: seq<string>, l: nat, c: nat, l': nat, p: nat)
    requires NoAngles(lines) && l < |lines| && c < |lines[l]| && Closes(lines[l][c])
    ensures ReverseClose(lines, l, c) == Some((l', p)) <==>
      && l' <= l && p < |lines[l']| && (l' == l ==> p <= c)
      && Bracketed(Between(lines, l', p, l, c + 1))
  {
    hide *;
    if ReverseClose(lines, l, c) == Some((l', p)) { ReverseOnlyIf(lines, l, c, l', p); }
    if l' <= l && p < |lines[l']| && (l' == l ==> p <= c) && Bracketed(Between(lines, l', p, l, c + 1)) {
      ReverseIf(lines, l, c, l', p);
    }
  }

  /** The two matchers undo each other. */
  lemma CloseThenReverse(lines: seq<string>, l: nat, c: nat, l': nat, e: nat)
    requires NoAngles(lines) && l < |lines| && c < |lines[l]| && Opens(lines[l][c])
    requires Close(lines, l, c) == Some((l', e))
    ensures l' < |lines| && 0 < e <= |lines[l']| && ReverseClose(lines, l', e - 1) == Some((l, c))
  {
    hide CloseFrom, OpenFrom, Angleless;
    CloseExactly(lines, l, c, l', e);
    BetweenEnds(lines, l, c, l', e);
    BetweenStarts(lines, l, c, l', e);
    PartnerTwice();
    ReverseExactly(lines, l', e - 1, l, c);
  }

  lemma ReverseThenClose(lines: seq<string>, l: nat, c: nat, l': nat, p: nat)
    requires NoAngles(lines) && l < |lines| && c < |lines[l]| && Closes(lines[l][c])
    requires ReverseClose(lines, l, c) == Some((l', p))
    ensures l' < |lines| && p < |lines[l']| && Close(lines, l', p) == Some((l, c + 1))
  {
    hide CloseFrom, OpenFrom, Angleless;
    ReverseExactly(lines, l, c, l', p);
    BetweenStarts(lines, l', p, l, c + 1);
    CloseExactly(lines, l', p, l, c + 1);
  }
}
