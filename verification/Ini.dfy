/**
 The INI reader and writer, with one value for each key and one line for each value.  Comment lines are
 read over; names are compared without regard to the case of ASCII letters.
 */
module Ini {
  import opened Base
  import Order

  // Characters

  predicate IsSpace(c: char) { c == ' ' || c == '\t' || c == '\r' || c == '\n' }

  predicate IsNewLine(c: char) { c == '\n' || c == '\r' }

  predicate IsComment(c: char) { c == ';' || c == '#' }

  // The comparator

  function LowCase(c: char): char {
    if c < 'A' || c > 'Z' then c else (c as int - 'A' as int + 'a' as int) as char
  }

  function Fold(s: string): (r: string)
    ensures |r| == |s|
  {
    if s == "" then "" else [LowCase(s[0])] + Fold(s[1..])
  }

  /** A byte above 127 is negative as a `char`, and so below ASCII. */
  function Rank(c: char): int {
    if 128 <= c as int < 256 then c as int - 256 else c as int
  }

  /** The characters in the order of their ranks. */
  function ByRank(c: char): char {
    if c as int < 256 then ((c as int + 128) % 256) as char else c
  }

  lemma RanksAgree(a: char, b: char)
    ensures Rank(a) < Rank(b) <==> ByRank(a) < ByRank(b)
    ensures (Rank(a) == Rank(b) <==> a == b) && (ByRank(a) == ByRank(b) <==> a == b)
  {}

  /** What the comparator compares. */
  function SortKey(s: string): (r: string)
    ensures |r| == |s|
  {
    if s == "" then "" else [ByRank(LowCase(s[0]))] + SortKey(s[1..])
  }

  lemma TextLessCons(x: char, a: string, y: char, b: string)
    ensures Order.TextLess([x] + a, [y] + b) == if x != y then x < y else Order.TextLess(a, b)
  {
    assert ([x] + a)[1..] == a && ([y] + b)[1..] == b;
  }

  lemma SortKeyCons(a: string)
    requires a != ""
    ensures SortKey(a) == [ByRank(LowCase(a[0]))] + SortKey(a[1..])
  {}

  lemma LessStep(a: string, b: string)
    requires a != "" && b != ""
    ensures Order.TextLess(SortKey(a), SortKey(b)) ==
      var difference := Rank(LowCase(a[0])) - Rank(LowCase(b[0]));
      if difference != 0 then difference < 0 else Order.TextLess(SortKey(a[1..]), SortKey(b[1..]))
  {
    hide *;
    RanksAgree(LowCase(a[0]), LowCase(b[0]));
    SortKeyCons(a);
    SortKeyCons(b);
    TextLessCons(ByRank(LowCase(a[0])), SortKey(a[1..]), ByRank(LowCase(b[0])), SortKey(b[1..]));
  }

  lemma LessEnd(a: string, b: string)
    requires a == "" || b == ""
    ensures Order.TextLess(SortKey(a), SortKey(b)) <==> b != ""
  {}

  /** `SI_GenericNoCase`: the first position at which the folded characters differ decides; then the shorter is less. */
  method Less(left: string, right: string) returns (r: bool)
    ensures r == Order.TextLess(SortKey(left), SortKey(right))
  {
    hide *;
    var i := 0;
    assert left[0..] == left && right[0..] == right;
    while i < |left| && i < |right|
      invariant 0 <= i <= |left| && i <= |right|
      invariant Order.TextLess(SortKey(left), SortKey(right)) == Order.TextLess(SortKey(left[i..]), SortKey(right[i..]))
    {
      LessStep(left[i..], right[i..]);
      assert left[i..][1..] == left[i + 1..] && right[i..][1..] == right[i + 1..];
      var difference := Rank(LowCase(left[i])) - Rank(LowCase(right[i]));
      if difference != 0 { return difference < 0; }
      i := i + 1;
    }
    LessEnd(left[i..], right[i..]);
    r := i < |right|;
  }

  /** Neither is less than the other. */
  ghost predicate Alike(a: string, b: string) {
    !Order.TextLess(SortKey(a), SortKey(b)) && !Order.TextLess(SortKey(b), SortKey(a))
  }

  lemma {:induction false} SameSortKey(a: string, b: string)
    ensures SortKey(a) == SortKey(b) <==> Fold(a) == Fold(b)
    decreases |a|
  {
    hide *;
    if a != "" && b != "" {
      SameSortKey(a[1..], b[1..]);
      RanksAgree(LowCase(a[0]), LowCase(b[0]));
      SortKeyCons(a);
      SortKeyCons(b);
      FoldCons(a);
      FoldCons(b);
      SameCons(ByRank(LowCase(a[0])), SortKey(a[1..]), ByRank(LowCase(b[0])), SortKey(b[1..]));
      SameCons(LowCase(a[0]), Fold(a[1..]), LowCase(b[0]), Fold(b[1..]));
    }
  }

  lemma FoldCons(a: string)
    requires a != ""
    ensures Fold(a) == [LowCase(a[0])] + Fold(a[1..])
  {}

  lemma SameCons(x: char, a: string, y: char, b: string)
    ensures [x] + a == [y] + b <==> x == y && a == b
  {
    assert ([x] + a)[1..] == a && ([y] + b)[1..] == b && ([x] + a)[0] == x && ([y] + b)[0] == y;
  }

  /** The comparator is a strict weak order, as the containers require, and its classes are the texts that fold alike. */
  lemma StrictWeakOrder(a: string, b: string, c: string)
    ensures !Order.TextLess(SortKey(a), SortKey(a))
    ensures Order.TextLess(SortKey(a), SortKey(b)) && Order.TextLess(SortKey(b), SortKey(c)) ==> Order.TextLess(SortKey(a), SortKey(c))
    ensures Alike(a, b) && Alike(b, c) ==> Alike(a, c)
    ensures Alike(a, b) <==> Fold(a) == Fold(b)
  {
    Order.TextLessTotal(SortKey(a), SortKey(a));
    Order.TextLessTotal(SortKey(a), SortKey(b));
    Order.TextLessTotal(SortKey(b), SortKey(c));
    Order.TextLessTotal(SortKey(a), SortKey(c));
    SameSortKey(a, b);
    if Order.TextLess(SortKey(a), SortKey(b)) && Order.TextLess(SortKey(b), SortKey(c)) {
      Order.TextLessTransitive(SortKey(a), SortKey(b), SortKey(c));
    }
  }

  // The store, in load order

  datatype KeyValue = KeyValue(key: string, value: string)

  datatype Section = Section(name: string, keys: seq<KeyValue>)

  type Store = seq<Section>

  function FindSection(store: Store, name: string): (i: nat)
    ensures i <= |store| && (i < |store| ==> Fold(store[i].name) == Fold(name))
    ensures forall j :: 0 <= j < i ==> Fold(store[j].name) != Fold(name)
  {
    if store == [] || Fold(store[0].name) == Fold(name) then 0 else 1 + FindSection(store[1..], name)
  }

  function FindKey(keys: seq<KeyValue>, key: string): (i: nat)
    ensures i <= |keys| && (i < |keys| ==> Fold(keys[i].key) == Fold(key))
    ensures forall j :: 0 <= j < i ==> Fold(keys[j].key) != Fold(key)
  {
    if keys == [] || Fold(keys[0].key) == Fold(key) then 0 else 1 + FindKey(keys[1..], key)
  }

  function PutKey(keys: seq<KeyValue>, kv: KeyValue): seq<KeyValue> {
    var i := FindKey(keys, kv.key);
    if i == |keys| then keys + [kv] else keys[i := keys[i].(value := kv.value)]
  }

  /** `AddEntry`: the section if it is new, and then the key, or a new value for it. */
  function Put(store: Store, name: string, entry: Option<KeyValue>): Store {
    var i := FindSection(store, name);
    var made := if i == |store| then store + [Section(name, [])] else store;
    match entry
    case None => made
    case Some(kv) => made[i := made[i].(keys := PutKey(made[i].keys, kv))]
  }

  // Reading

  function SkipSpaces(s: string): (r: string)
    ensures |r| <= |s| && (r != "" ==> !IsSpace(r[0]))
  {
    if s != "" && IsSpace(s[0]) then SkipSpaces(s[1..]) else s
  }

  /** How far it is to the first `c` or the end of the line. */
  function Stop(s: string, c: char): (n: nat)
    ensures n <= |s| && (n < |s| ==> s[n] == c || IsNewLine(s[n]))
    ensures forall i :: 0 <= i < n ==> s[i] != c && !IsNewLine(s[i])
  {
    if s == "" || s[0] == c || IsNewLine(s[0]) then 0 else 1 + Stop(s[1..], c)
  }

  function LineEnd(s: string): (n: nat)
    ensures n <= |s| && (n < |s| ==> IsNewLine(s[n]))
    ensures forall i :: 0 <= i < n ==> !IsNewLine(s[i])
  {
    if s == "" || IsNewLine(s[0]) then 0 else 1 + LineEnd(s[1..])
  }

  function TrimEnd(s: string): (r: string)
    ensures |r| <= |s| && r == s[..|r|] && (r != "" ==> !IsSpace(r[|r| - 1]))
  {
    if s != "" && IsSpace(s[|s| - 1]) then TrimEnd(s[..|s| - 1]) else s
  }

  /** White space, but not past the end of the line. */
  function SkipBlanks(s: string): (r: string)
    ensures |r| <= |s|
  {
    if s != "" && IsSpace(s[0]) && !IsNewLine(s[0]) then SkipBlanks(s[1..]) else s
  }

  function SkipNewLine(s: string): (r: string)
    ensures |r| <= |s|
  {
    if s == "" then "" else if s[0] == '\r' && |s| > 1 && s[1] == '\n' then s[2..] else s[1..]
  }

  /**
   The section that keys belong to.  A header without its closing bracket leaves the reader with a name
   that begins there and ends wherever the next key does.
   */
  datatype Where = At(name: string) | Torn(from: string)

  datatype Found = End | Entry(rest: string, section: Where, name: string, entry: Option<KeyValue>)

  /** The part of `from` up to where `rest` begins. */
  function UpTo(from: string, rest: string): string {
    if |rest| <= |from| then from[..|from| - |rest|] else ""
  }

  /** `FindEntry`, on what is left of the text. */
  function Next(s: string, w: Where): Found
    decreases |s|
  {
    var t := SkipSpaces(s);
    if t == "" then End
    else if IsComment(t[0]) then Next(t[LineEnd(t)..], w)
    else if t[0] == '[' then
      var u := SkipSpaces(t[1..]);
      var n := Stop(u, ']');
      if n == |u| || u[n] != ']' then Next(u[n..], Torn(u))
      else
        var line := u[n + 1..];
        Entry(line[LineEnd(line)..], At(TrimEnd(u[..n])), TrimEnd(u[..n]), None)
    else
      var n := Stop(t, '=');
      if n == |t| || t[n] != '=' then Next(t[n..], w)
      else if n == 0 then Next(t[LineEnd(t)..], w)
      else
        var key := TrimEnd(t[..n]);
        var v := SkipBlanks(t[n + 1..]);
        var m := LineEnd(v);
        var value := TrimEnd(v[..m]);
        var name := match w case At(x) => x case Torn(from) => UpTo(from, t) + key;
        Entry(SkipNewLine(v[m..]), At(name), name, Some(KeyValue(key, value)))
  }

  lemma {:induction false} NextShorter(s: string, w: Where)
    ensures Next(s, w).Entry? ==> |Next(s, w).rest| < |s|
    decreases |s|
  {
    var t := SkipSpaces(s);
    if t != "" {
      if IsComment(t[0]) {
        NextShorter(t[LineEnd(t)..], w);
      } else if t[0] == '[' {
        var u := SkipSpaces(t[1..]);
        var n := Stop(u, ']');
        if n == |u| || u[n] != ']' { NextShorter(u[n..], Torn(u)); }
      } else {
        var n := Stop(t, '=');
        if n == |t| || t[n] != '=' { NextShorter(t[n..], w); }
        else if n == 0 { NextShorter(t[LineEnd(t)..], w); }
      }
    }
  }

  /** `LoadData`: every entry that is found is added. */
  function LoadFrom(s: string, w: Where, store: Store): Store
    decreases |s|
  {
    match Next(s, w)
    case End => store
    case Entry(rest, w', name, entry) =>
      NextShorter(s, w);
      LoadFrom(rest, w', Put(store, name, entry))
  }

  function Load(s: string): Store {
    LoadFrom(s, At(""), [])
  }

  /** What one round of the reader's loop comes to. */
  datatype Round = Again(i: nat, w: Where) | Stopped | Got(i: nat, name: string, entry: Option<KeyValue>)

  ghost function Outcome(text: string, r: Round): Found
    requires !r.Stopped? ==> r.i <= |text|
  {
    match r
    case Again(i, w) => Next(text[i..], w)
    case Stopped => End
    case Got(i, name, entry) => Entry(text[i..], At(name), name, entry)
  }

  method OneRound(text: string, start: nat, w: Where) returns (r: Round)
    requires start < |text|
    ensures !r.Stopped? ==> start < r.i <= |text|
    ensures Next(text[start..], w) == Outcome(text, r)
  {
    hide Next, SkipSpaces, LineEnd, TrimEnd, Stop, SkipBlanks, SkipNewLine, IsComment;
    var i := PassSpaces(text, start);
    if i == |text| {
      NextEnd(text[start..], w);
      return Stopped;
    }
    assert text[i..][0] == text[i];
    if IsComment(text[i]) {
      NextComment(text[start..], w);
      Dropped(text, i, LineEnd(text[i..]));
      Progress(text[i..], ' ');
      i := PassLine(text, i);
      return Again(i, w);
    }
    if text[i] == '[' {
      r := HeaderRound(text, start, i, w);
    } else {
      r := KeyRound(text, start, i, w);
    }
  }

  method HeaderRound(text: string, start: nat, t: nat, w: Where) returns (r: Round)
    requires start <= t < |text| && text[t] == '[' && SkipSpaces(text[start..]) == text[t..]
    ensures !r.Stopped? && start < r.i <= |text|
    ensures Next(text[start..], w) == Outcome(text, r)
  {
    hide Next, SkipSpaces, LineEnd, TrimEnd, Stop;
    NextBracket(text[start..], w);
    Dropped(text, t, 1);
    assert SkipSpaces(text[start..])[1..] == text[t + 1..];
    hide IsSpace, IsNewLine;
    var ok, u, end, name := ReadHeader(text, t + 1);
    ghost var rest := text[u..];
    assert rest == SkipSpaces(SkipSpaces(text[start..])[1..]);
    if ok {
      r := Got(end, name, None);
    } else {
      r := Again(end, Torn(text[u..]));
    }
  }

  method KeyRound(text: string, start: nat, t: nat, w: Where) returns (r: Round)
    requires start <= t < |text| && text[t] != '[' && SkipSpaces(text[start..]) == text[t..] && !IsComment(text[t])
    ensures !r.Stopped? && start < r.i <= |text|
    ensures Next(text[start..], w) == Outcome(text, r)
  {
    hide Next, SkipSpaces, LineEnd, TrimEnd, Stop, SkipBlanks, SkipNewLine, UpTo;
    NextOther(text[start..], w);
    var ok, end, kv := ReadKey(text, t);
    if ok {
      var name := match w case At(x) => x case Torn(x) => UpTo(x, text[t..]) + kv.key;
      r := Got(end, name, Some(kv));
    } else {
      Progress(text[t..], '=');
      r := Again(end, w);
    }
  }

  /** The reader proper: `i` advances over the text until an entry is found. */
  method FindEntry(text: string, from: nat, w: Where) returns (found: bool, i: nat, w': Where, name: string, entry: Option<KeyValue>)
    requires from <= |text|
    ensures from <= i <= |text|
    ensures Next(text[from..], w) == if found then Entry(text[i..], w', name, entry) else End
    ensures found ==> i > from
  {
    hide Next;
    i, w', name, entry := from, w, "", None;
    while i < |text|
      invariant from <= i <= |text| && Next(text[from..], w) == Next(text[i..], w')
      decreases |text| - i
    {
      var r := OneRound(text, i, w');
      match r
      case Stopped => return false, i, w', name, entry;
      case Again(j, v) => i, w' := j, v;
      case Got(j, x, e) => return true, j, At(x), x, e;
    }
    assert text[i..] == "";
    NoSpaces();
    NextEnd("", w');
    found := false;
  }

  lemma NoSpaces()
    ensures SkipSpaces("") == ""
  {}

  lemma NextEnd(s: string, w: Where)
    requires SkipSpaces(s) == ""
    ensures Next(s, w) == End
  {}

  lemma NextComment(s: string, w: Where)
    requires SkipSpaces(s) != "" && IsComment(SkipSpaces(s)[0])
    ensures Next(s, w) == Next(SkipSpaces(s)[LineEnd(SkipSpaces(s))..], w)
  {
    hide SkipSpaces, LineEnd, IsComment, Stop;
  }

  lemma NextBracket(s: string, w: Where)
    requires SkipSpaces(s) != "" && SkipSpaces(s)[0] == '['
    ensures Next(s, w) ==
      var u := SkipSpaces(SkipSpaces(s)[1..]);
      var n := Stop(u, ']');
      if n == |u| || u[n] != ']' then Next(u[n..], Torn(u))
      else Entry(u[n + 1..][LineEnd(u[n + 1..])..], At(TrimEnd(u[..n])), TrimEnd(u[..n]), None)
  {
    hide SkipSpaces, LineEnd, TrimEnd, Stop;
  }

  lemma NextOther(s: string, w: Where)
    requires SkipSpaces(s) != "" && !IsComment(SkipSpaces(s)[0]) && SkipSpaces(s)[0] != '['
    ensures Next(s, w) ==
      var t := SkipSpaces(s);
      var n := Stop(t, '=');
      if n == |t| || t[n] != '=' then Next(t[n..], w)
      else if n == 0 then Next(t[LineEnd(t)..], w)
      else
        var v := SkipBlanks(t[n + 1..]);
        var key := TrimEnd(t[..n]);
        var name := match w case At(x) => x case Torn(from) => UpTo(from, t) + key;
        Entry(SkipNewLine(v[LineEnd(v)..]), At(name), name, Some(KeyValue(key, TrimEnd(v[..LineEnd(v)]))))
  {
    hide SkipSpaces, LineEnd, TrimEnd, Stop, SkipBlanks, SkipNewLine, IsComment;
  }

  /** A line that is passed over has at least one character. */
  lemma Progress(t: string, c: char)
    requires t != "" && !IsSpace(t[0])
    ensures LineEnd(t) > 0 && (Stop(t, c) == 0 ==> t[0] == c)
  {}

  /** After an opening bracket: the section's name and the end of its line, or where the name breaks off. */
  method ReadHeader(text: string, from: nat) returns (ok: bool, u: nat, i: nat, name: string)
    requires from <= |text|
    ensures from <= u <= i <= |text| && text[u..] == SkipSpaces(text[from..])
    ensures var n := Stop(text[u..], ']');
            && (ok <==> n < |text[u..]| && text[u..][n] == ']')
            && (!ok ==> text[i..] == text[u..][n..])
            && (ok ==> name == TrimEnd(text[u..][..n]) && text[i..] == text[u..][n + 1..][LineEnd(text[u..][n + 1..])..])
  {
    hide SkipSpaces, Stop, LineEnd, TrimEnd;
    u := PassSpaces(text, from);
    i := PassTo(text, u, ']');
    ghost var n := Stop(text[u..], ']');
    Dropped(text, u, n);
    name := "";
    if i == |text| || text[i] != ']' { return false, u, i, name; }
    name := TrimEnd(text[u..i]);
    assert text[u..][..n] == text[u..i];
    i := i + 1;
    Dropped(text, u, n + 1);
    Dropped(text, i, LineEnd(text[i..]));
    i := PassLine(text, i);
    ok := true;
  }

  /** A key and its value, and the start of the next line; or what is left of a line without them. */
  method ReadKey(text: string, t: nat) returns (ok: bool, i: nat, kv: KeyValue)
    requires t < |text|
    ensures t <= i <= |text|
    ensures var s := text[t..];
            var n := Stop(s, '=');
            && (ok <==> n < |s| && s[n] == '=' && n > 0)
            && (!ok ==> text[i..] == if n == |s| || s[n] != '=' then s[n..] else s[LineEnd(s)..])
            && (!ok ==> i == if n == |s| || s[n] != '=' then t + n else t + LineEnd(s))
            && (ok ==>
                  var v := SkipBlanks(s[n + 1..]);
                  && kv == KeyValue(TrimEnd(s[..n]), TrimEnd(v[..LineEnd(v)]))
                  && text[i..] == SkipNewLine(v[LineEnd(v)..]) && i > t)
  {
    hide Stop, LineEnd, TrimEnd, SkipBlanks, SkipNewLine;
    kv := KeyValue("", "");
    i := PassTo(text, t, '=');
    ghost var s := text[t..];
    ghost var n := Stop(s, '=');
    Dropped(text, t, n);
    if i == |text| || text[i] != '=' { return false, i, kv; }
    if i == t {
      Dropped(text, t, LineEnd(s));
      i := PassLine(text, i);
      return false, i, kv;
    }
    var key := TrimEnd(text[t..i]);
    assert s[..n] == text[t..i];
    Dropped(text, t, n + 1);
    var value: string;
    i, value := ReadValue(text, i + 1);
    ok, kv := true, KeyValue(key, value);
  }

  /** After the equals sign: the value, and the start of the next line. */
  method ReadValue(text: string, from: nat) returns (i: nat, value: string)
    requires from <= |text|
    ensures from <= i <= |text|
    ensures var v := SkipBlanks(text[from..]);
            value == TrimEnd(v[..LineEnd(v)]) && text[i..] == SkipNewLine(v[LineEnd(v)..])
  {
    hide LineEnd, TrimEnd, SkipBlanks, SkipNewLine;
    var v := PassBlanks(text, from);
    i := PassLine(text, v);
    Dropped(text, v, LineEnd(text[v..]));
    value := TrimEnd(text[v..i]);
    assert text[v..][..i - v] == text[v..i];
    ghost var end := i;
    if i < |text| { i := i + if text[i] == '\r' && i + 1 < |text| && text[i + 1] == '\n' then 2 else 1; }
    NewLineSkipped(text, end, i);
  }

  lemma Dropped(text: string, i: nat, n: nat)
    requires i + n <= |text|
    ensures text[i..][n..] == text[i + n..]
  {}

  lemma NewLineSkipped(text: string, end: nat, i: nat)
    requires end <= |text|
    requires i == if end == |text| then end else end + if text[end] == '\r' && end + 1 < |text| && text[end + 1] == '\n' then 2 else 1
    ensures SkipNewLine(text[end..]) == text[i..]
  {}

  method PassSpaces(text: string, from: nat) returns (i: nat)
    requires from <= |text|
    ensures from <= i <= |text| && SkipSpaces(text[from..]) == text[i..]
  {
    i := from;
    while i < |text| && IsSpace(text[i])
      invariant from <= i <= |text| && SkipSpaces(text[from..]) == SkipSpaces(text[i..])
    {
      assert text[i..][1..] == text[i + 1..];
      i := i + 1;
    }
  }

  method PassBlanks(text: string, from: nat) returns (i: nat)
    requires from <= |text|
    ensures from <= i <= |text| && SkipBlanks(text[from..]) == text[i..]
  {
    i := from;
    while i < |text| && !IsNewLine(text[i]) && IsSpace(text[i])
      invariant from <= i <= |text| && SkipBlanks(text[from..]) == SkipBlanks(text[i..])
    {
      assert text[i..][1..] == text[i + 1..];
      i := i + 1;
    }
  }

  method PassTo(text: string, from: nat, c: char) returns (i: nat)
    requires from <= |text|
    ensures i == from + Stop(text[from..], c)
  {
    i := from;
    while i < |text| && text[i] != c && !IsNewLine(text[i])
      invariant from <= i <= |text| && from + Stop(text[from..], c) == i + Stop(text[i..], c)
    {
      assert text[i..][1..] == text[i + 1..];
      i := i + 1;
    }
  }

  method PassLine(text: string, from: nat) returns (i: nat)
    requires from <= |text|
    ensures i == from + LineEnd(text[from..])
  {
    i := from;
    while i < |text| && !IsNewLine(text[i])
      invariant from <= i <= |text| && from + LineEnd(text[from..]) == i + LineEnd(text[i..])
    {
      assert text[i..][1..] == text[i + 1..];
      i := i + 1;
    }
  }

  method LoadData(text: string) returns (store: Store)
    ensures store == Load(text)
  {
    hide Next, Put;
    store := [];
    var i, w := 0, At("");
    assert text[0..] == text;
    var found, i', w', name, entry := FindEntry(text, i, w);
    while found
      invariant i <= i' <= |text| && (found ==> i < i')
      invariant Next(text[i..], w) == if found then Entry(text[i'..], w', name, entry) else End
      invariant LoadFrom(text[i..], w, store) == Load(text)
      decreases |text| - i
    {
      store := Put(store, name, entry);
      i, w := i', w';
      found, i', w', name, entry := FindEntry(text, i, w);
    }
  }

  // Writing

  function KeysText(keys: seq<KeyValue>): string {
    if keys == [] then "" else keys[0].key + " = " + keys[0].value + "\n" + KeysText(keys[1..])
  }

  function SectionText(section: Section): string {
    (if section.name == "" then "" else "[" + section.name + "]\n") + KeysText(section.keys)
  }

  function SaveText(store: Store): string {
    if store == [] then ""
    else SectionText(store[0]) + if |store| == 1 then "" else "\n\n" + SaveText(store[1..])
  }

  /** `Save`: sections in load order, two line ends between one and the next. */
  method Save(store: Store) returns (out: string)
    ensures out == SaveText(store)
  {
    hide SectionText, SaveText;
    out := "";
    var needNewLine := false;
    assert store[..0] == [];
    NothingSaved();
    for a := 0 to |store|
      invariant needNewLine == (a > 0) && out == SaveText(store[..a])
    {
      SaveSnoc(store[..a], store[a]);
      assert store[..a + 1] == store[..a] + [store[a]];
      if needNewLine {
        out := out + "\n\n";
        needNewLine := false;
      }
      out := WriteSection(out, store[a]);
      needNewLine := true;
    }
    assert store[..|store|] == store;
  }

  lemma NothingSaved()
    ensures SaveText([]) == ""
  {}

  /** The header, unless the section has no name, and the keys. */
  method WriteSection(before: string, section: Section) returns (out: string)
    ensures out == before + SectionText(section)
  {
    hide KeysText;
    out := before;
    if section.name != "" {
      out := out + ("[" + section.name + "]" + "\n");
      assert "[" + section.name + "]" + "\n" == "[" + section.name + "]\n";
    }
    assert out == before + if section.name == "" then "" else "[" + section.name + "]\n";
    out := WriteKeys(out, section.keys);
  }

  method WriteKeys(before: string, keys: seq<KeyValue>) returns (out: string)
    ensures out == before + KeysText(keys)
  {
    out := before;
    assert keys[0..] == keys;
    for b := 0 to |keys|
      invariant out + KeysText(keys[b..]) == before + KeysText(keys)
    {
      assert keys[b..][1..] == keys[b + 1..] && keys[b..][0] == keys[b];
      ghost var was := out;
      out := out + keys[b].key;
      out := out + " = ";
      out := out + keys[b].value;
      out := out + "\n";
      assert out + KeysText(keys[b + 1..]) == was + (keys[b].key + " = " + keys[b].value + "\n" + KeysText(keys[b + 1..]));
    }
    assert keys[|keys|..] == [];
  }

  lemma SaveCons(section: Section, store: Store)
    ensures SaveText([section] + store) == SectionText(section) + if store == [] then "" else "\n\n" + SaveText(store)
  {
    hide SectionText;
    assert ([section] + store)[1..] == store;
  }

  lemma Regrouped(a: string, sep: string, b: string, c: string)
    ensures a + (sep + (b + sep + c)) == a + (sep + b) + sep + c
  {}

  lemma {:induction false} SaveSnoc(store: Store, section: Section)
    ensures SaveText(store + [section]) == (if store == [] then "" else SaveText(store) + "\n\n") + SectionText(section)
  {
    hide SectionText;
    if store != [] {
      SaveSnoc(store[1..], section);
      var head, last := SectionText(store[0]), SectionText(section);
      SaveCons(store[0], store[1..] + [section]);
      SaveCons(store[0], store[1..]);
      assert store + [section] == [store[0]] + (store[1..] + [section]) && store == [store[0]] + store[1..];
      hide SaveText;
      if |store| > 1 { Regrouped(head, "\n\n", SaveText(store[1..]), last); }
    }
  }

  // Reading back what was written

  predicate Trimmed(s: string) {
    s == "" || (!IsSpace(s[0]) && !IsSpace(s[|s| - 1]))
  }

  predicate OneLine(s: string) {
    forall i | 0 <= i < |s| :: !IsNewLine(s[i])
  }

  predicate NameOk(s: string) {
    s != "" && Trimmed(s) && OneLine(s) && ']' !in s
  }

  predicate KeyOk(s: string) {
    s != "" && Trimmed(s) && OneLine(s) && '=' !in s && s[0] != '[' && !IsComment(s[0])
  }

  predicate ValueOk(s: string) {
    Trimmed(s) && OneLine(s)
  }

  ghost predicate KeysOk(keys: seq<KeyValue>) {
    && (forall i :: 0 <= i < |keys| ==> KeyOk(keys[i].key) && ValueOk(keys[i].value))
    && forall i, j :: 0 <= i < j < |keys| ==> Fold(keys[i].key) != Fold(keys[j].key)
  }

  /** Names that can be written down, none of them twice; the unnamed section only in front, and with a key. */
  ghost predicate Writable(store: Store) {
    && (forall i :: 0 <= i < |store| ==> KeysOk(store[i].keys))
    && (forall i :: 0 <= i < |store| ==> NameOk(store[i].name) || (i == 0 && store[i].name == "" && store[i].keys != []))
    && forall i, j :: 0 <= i < j < |store| ==> Fold(store[i].name) != Fold(store[j].name)
  }

  lemma {:induction false} StopAt(a: string, c: char, b: string)
    requires OneLine(a) && c !in a && (b == "" || b[0] == c || IsNewLine(b[0]))
    ensures Stop(a + b, c) == |a|
  {
    if a == "" {
      assert a + b == b;
    } else {
      assert (a + b)[1..] == a[1..] + b;
      StopAt(a[1..], c, b);
    }
  }

  lemma {:induction false} LineEndAt(a: string, b: string)
    requires OneLine(a) && (b == "" || IsNewLine(b[0]))
    ensures LineEnd(a + b) == |a|
  {
    if a == "" {
      assert a + b == b;
    } else {
      assert (a + b)[1..] == a[1..] + b;
      LineEndAt(a[1..], b);
    }
  }

  lemma TrimBlank(a: string)
    requires Trimmed(a)
    ensures TrimEnd(a) == a && TrimEnd(a + " ") == a
  {
    assert (a + " ")[..|a|] == a;
  }

  lemma SkipOne(c: char, s: string)
    ensures IsSpace(c) ==> SkipSpaces([c] + s) == SkipSpaces(s)
    ensures !IsSpace(c) ==> SkipSpaces([c] + s) == [c] + s
  {
    assert ([c] + s)[1..] == s;
  }

  lemma SpacesIgnored(c: char, s: string, w: Where)
    requires IsSpace(c)
    ensures Next([c] + s, w) == Next(s, w)
  {
    hide Next;
    SkipOne(c, s);
    SameNext([c] + s, s, w);
  }

  lemma SameNext(a: string, b: string, w: Where)
    requires SkipSpaces(a) == SkipSpaces(b)
    ensures Next(a, w) == Next(b, w)
  {
    hide SkipSpaces, LineEnd, TrimEnd, Stop, SkipBlanks, SkipNewLine, IsComment;
  }

  lemma LoadSpace(c: char, s: string, w: Where, store: Store)
    requires IsSpace(c)
    ensures LoadFrom([c] + s, w, store) == LoadFrom(s, w, store)
  {
    hide Next, Put;
    SpacesIgnored(c, s, w);
  }

  lemma NoSkip(s: string)
    requires s != "" && !IsSpace(s[0])
    ensures SkipSpaces(s) == s
  {}

  /** A written header is read as its section. */
  lemma NextHeader(name: string, tail: string, w: Where)
    requires NameOk(name)
    ensures Next("[" + name + "]\n" + tail, w) == Entry("\n" + tail, At(name), name, None)
  {
    hide Next, Stop, LineEnd, TrimEnd, SkipSpaces, Trimmed, OneLine;
    var t := "[" + name + "]\n" + tail;
    var end := "\n" + tail;
    var u := name + ("]" + end);
    assert t == "[" + u && t[0] == '[' && t[1..] == u;
    NoSkip(t);
    NameStarts(name);
    assert u[0] == name[0];
    NoSkip(u);
    StopAt(name, ']', "]" + end);
    assert u[|name|] == ']' && u[..|name|] == name && u[|name| + 1..] == end;
    TrimBlank(name);
    LineEndNow(end);
    NextBracket(t, w);
  }

  lemma NameStarts(s: string)
    requires s != "" && Trimmed(s)
    ensures !IsSpace(s[0])
  {}

  lemma LineEndNow(s: string)
    requires s != "" && IsNewLine(s[0])
    ensures LineEnd(s) == 0 && s[0..] == s
  {}

  /** A written key is read back with its value. */
  lemma NextKey(kv: KeyValue, tail: string, section: string)
    requires KeyOk(kv.key) && ValueOk(kv.value)
    ensures Next(kv.key + " = " + kv.value + "\n" + tail, At(section)) == Entry(tail, At(section), section, Some(kv))
  {
    hide Next, Stop, LineEnd, TrimEnd, SkipSpaces, SkipBlanks, SkipNewLine, Trimmed, OneLine;
    var end := "\n" + tail;
    var t := kv.key + " = " + kv.value + "\n" + tail;
    KeySplits(kv, tail);
    NameStarts(kv.key);
    NoSkip(t);
    BlankAdded(kv.key);
    StopAt(kv.key + " ", '=', "= " + kv.value + end);
    TrimBlank(kv.key);
    TrimBlank(kv.value);
    ValueStarts(kv.value, tail);
    LineEndAt(kv.value, end);
    var v := kv.value + end;
    assert v[..|kv.value|] == kv.value && v[|kv.value|..] == end;
    NewLineGone(tail);
    NextOther(t, At(section));
  }

  lemma KeySplits(kv: KeyValue, tail: string)
    requires kv.key != ""
    ensures var t := kv.key + " = " + kv.value + "\n" + tail;
            var n := |kv.key| + 1;
            && t == (kv.key + " ") + ("= " + kv.value + ("\n" + tail)) && t[0] == kv.key[0]
            && t[..n] == kv.key + " " && t[n] == '=' && t[n + 1..] == " " + (kv.value + ("\n" + tail))
  {}

  lemma BlankAdded(s: string)
    requires OneLine(s) && '=' !in s
    ensures OneLine(s + " ") && '=' !in s + " "
  {}

  lemma NewLineGone(tail: string)
    ensures SkipNewLine("\n" + tail) == tail
  {
    assert ("\n" + tail)[1..] == tail;
  }

  lemma ValueStarts(value: string, tail: string)
    requires ValueOk(value)
    ensures SkipBlanks(" " + (value + ("\n" + tail))) == value + ("\n" + tail)
  {
    var v := value + ("\n" + tail);
    assert (" " + v)[1..] == v;
    assert SkipBlanks(v) == v;
  }

  /** The store while its last section is being read. */
  lemma {:induction false} LoadKeys(done: Store, name: string, got: seq<KeyValue>, keys: seq<KeyValue>, tail: string)
    requires KeysOk(got + keys) && FindSection(done, name) == |done|
    ensures LoadFrom(KeysText(keys) + tail, At(name), done + [Section(name, got)])
         == LoadFrom(tail, At(name), done + [Section(name, got + keys)])
    decreases |keys|
  {
    hide LoadFrom, KeysText, KeysOk, Put;
    if keys == [] {
      NoKeys();
      assert "" + tail == tail && got + keys == got;
    } else {
      KeysAt(got, keys);
      LoadOneKey(done + [Section(name, got)], name, keys, tail);
      PutLast(done, name, got, keys);
      assert got + [keys[0]] + keys[1..] == got + keys;
      LoadKeys(done, name, got + [keys[0]], keys[1..], tail);
    }
  }

  lemma NoKeys()
    ensures KeysText([]) == ""
  {}

  lemma KeysAt(got: seq<KeyValue>, keys: seq<KeyValue>)
    requires keys != [] && KeysOk(got + keys)
    ensures KeyOk(keys[0].key) && ValueOk(keys[0].value) && FindKey(got, keys[0].key) == |got|
  {
    hide KeyOk, ValueOk, Fold;
    var all := got + keys;
    assert all[|got|] == keys[0];
    assert forall i :: 0 <= i < |got| ==> all[i] == got[i];
  }

  lemma LoadOneKey(store: Store, name: string, keys: seq<KeyValue>, tail: string)
    requires keys != [] && KeyOk(keys[0].key) && ValueOk(keys[0].value)
    ensures LoadFrom(KeysText(keys) + tail, At(name), store)
         == LoadFrom(KeysText(keys[1..]) + tail, At(name), Put(store, name, Some(keys[0])))
  {
    hide Put, Next, KeyOk, ValueOk;
    var rest := KeysText(keys[1..]) + tail;
    assert KeysText(keys) + tail == keys[0].key + " = " + keys[0].value + "\n" + rest;
    NextKey(keys[0], rest, name);
  }

  lemma FindAtEnd(done: Store, name: string, keys: seq<KeyValue>)
    requires FindSection(done, name) == |done|
    ensures FindSection(done + [Section(name, keys)], name) == |done|
  {
    var all := done + [Section(name, keys)];
    assert all[|done|].name == name;
    assert forall i :: 0 <= i < |done| ==> all[i] == done[i];
  }

  lemma PutLast(done: Store, name: string, got: seq<KeyValue>, keys: seq<KeyValue>)
    requires keys != [] && FindKey(got, keys[0].key) == |got| && FindSection(done, name) == |done|
    ensures Put(done + [Section(name, got)], name, Some(keys[0])) == done + [Section(name, got + [keys[0]])]
  {
    FindAtEnd(done, name, got);
  }

  lemma PutNew(done: Store, name: string)
    requires FindSection(done, name) == |done|
    ensures Put(done, name, None) == done + [Section(name, [])]
  {}

  lemma PutFirst(kv: KeyValue)
    ensures Put([], "", Some(kv)) == [] + [Section("", [kv])]
  {
    var none: Store, keys: seq<KeyValue> := [], [];
    assert FindSection(none, "") == 0 && FindKey(keys, kv.key) == 0;
    assert PutKey(keys, kv) == [kv];
    assert none + [Section("", keys)] == [Section("", keys)];
  }

  /** One written section is read on top of the sections before it. */
  lemma LoadSection(done: Store, section: Section, tail: string, w: Where)
    requires NameOk(section.name) && KeysOk(section.keys) && FindSection(done, section.name) == |done|
    ensures LoadFrom(SectionText(section) + tail, w, done) == LoadFrom(tail, At(section.name), done + [section])
  {
    hide Put, Next, NameOk, KeysOk, KeysText, FindSection;
    var rest := KeysText(section.keys) + tail;
    var s := "[" + section.name + "]\n" + rest;
    assert section.name != "" by { NameNotEmpty(section.name); }
    assert SectionText(section) + tail == s;
    NextHeader(section.name, rest, w);
    PutNew(done, section.name);
    assert LoadFrom(s, w, done) == LoadFrom("\n" + rest, At(section.name), done + [Section(section.name, [])]);
    LoadSpace('\n', rest, At(section.name), done + [Section(section.name, [])]);
    assert ['\n'] + rest == "\n" + rest;
    assert [] + section.keys == section.keys;
    LoadKeys(done, section.name, [], section.keys, tail);
  }

  lemma NameNotEmpty(s: string)
    requires NameOk(s)
    ensures s != ""
  {}

  lemma LoadUnnamed(section: Section, tail: string)
    requires section.name == "" && section.keys != [] && KeysOk(section.keys)
    ensures LoadFrom(SectionText(section) + tail, At(""), []) == LoadFrom(tail, At(""), [section])
  {
    hide Put, Next, KeysOk, KeysText, FindSection, LoadFrom;
    var keys := section.keys;
    assert SectionText(section) + tail == KeysText(keys) + tail by { assert "" + KeysText(keys) == KeysText(keys); }
    assert [] + keys == keys;
    KeysAt([], keys);
    LoadOneKey([], "", keys, tail);
    PutFirst(keys[0]);
    assert [keys[0]] + keys[1..] == keys;
    Nowhere("");
    LoadKeys([], "", [keys[0]], keys[1..], tail);
    assert [] + [Section("", keys)] == [section];
  }

  lemma Nowhere(name: string)
    ensures FindSection([], name) == 0
  {}

  lemma SectionAt(done: Store, rest: Store)
    requires rest != [] && Writable(done + rest) && done != []
    ensures NameOk(rest[0].name) && KeysOk(rest[0].keys) && FindSection(done, rest[0].name) == |done|
  {
    hide NameOk, KeysOk, Fold;
    var all := done + rest;
    assert all[|done|] == rest[0];
    assert forall i :: 0 <= i < |done| ==> all[i] == done[i];
  }

  lemma {:induction false} LoadRest(done: Store, rest: Store, w: Where)
    requires rest != [] && done != [] && Writable(done + rest)
    ensures LoadFrom(SaveText(rest), w, done) == done + rest
    decreases |rest|
  {
    hide LoadFrom, SectionText, Writable, NameOk, KeysOk;
    var section := rest[0];
    SectionAt(done, rest);
    if |rest| == 1 {
      assert SaveText(rest) == SectionText(section) + "";
      LoadSection(done, section, "", w);
      LoadNothing(At(section.name), done + [section]);
      assert rest == [section];
    } else {
      var more := SaveText(rest[1..]);
      assert SaveText(rest) == SectionText(section) + ("\n\n" + more);
      LoadSection(done, section, "\n\n" + more, w);
      LoadBlankLines(more, At(section.name), done + [section]);
      assert done + [section] + rest[1..] == done + rest;
      LoadRest(done + [section], rest[1..], At(section.name));
    }
  }

  lemma LoadNothing(w: Where, store: Store)
    ensures LoadFrom("", w, store) == store
  {}

  lemma LoadBlankLines(s: string, w: Where, store: Store)
    ensures LoadFrom("\n\n" + s, w, store) == LoadFrom(s, w, store)
  {
    hide LoadFrom;
    LoadSpace('\n', s, w, store);
    LoadSpace('\n', ['\n'] + s, w, store);
    assert ['\n'] + (['\n'] + s) == "\n\n" + s;
  }

  /** Loading what was saved gives back the same sections, keys and values, in the same order. */
  lemma LoadSaved(store: Store)
    requires Writable(store)
    ensures Load(SaveText(store)) == store
  {
    hide LoadFrom, SectionText, NameOk, KeysOk;
    if store == [] {
      LoadNothing(At(""), []);
    } else {
      var section := store[0];
      var tail := if |store| == 1 then "" else "\n\n" + SaveText(store[1..]);
      assert SaveText(store) == SectionText(section) + tail;
      Nowhere(section.name);
      assert [] + [section] == [section];
      if section.name == "" && section.keys != [] {
        LoadUnnamed(section, tail);
      } else {
        LoadSection([], section, tail, At(""));
      }
      if |store| == 1 {
        LoadNothing(At(section.name), [section]);
        assert store == [section];
      } else {
        LoadBlankLines(SaveText(store[1..]), At(section.name), [section]);
        assert [section] + store[1..] == store;
        LoadRest([section], store[1..], At(section.name));
      }
    }
  }

  /** A header that lacks its closing bracket takes the next key into the section's name. */
  lemma TornHeader(name: string, kv: KeyValue, tail: string, w: Where)
    requires NameOk(name) && KeyOk(kv.key) && ValueOk(kv.value)
    ensures Next("[" + name + "\n" + kv.key + " = " + kv.value + "\n" + tail, w)
         == Entry(tail, At(name + "\n" + kv.key), name + "\n" + kv.key, Some(kv))
  {
    hide Next, Stop, SkipSpaces, Trimmed, OneLine, UpTo;
    var t := kv.key + " = " + kv.value + "\n" + tail;
    var s := "[" + name + "\n" + kv.key + " = " + kv.value + "\n" + tail;
    var u := name + ("\n" + t);
    assert s == "[" + u && s[1..] == u;
    NoSkip(s);
    NameStarts(name);
    assert u[0] == name[0];
    NoSkip(u);
    StopsAtLine(name, ']', t);
    NextBracket(s, w);
    assert u[|name|..] == ['\n'] + t;
    SpacesIgnored('\n', t, Torn(u));
    NextKeyAnywhere(kv, tail, Torn(u));
    UpToIs(name, t);
  }

  lemma {:induction false} StopsAtLine(a: string, c: char, b: string)
    requires OneLine(a) && c !in a && c != '\n'
    ensures Stop(a + ("\n" + b), c) == |a| && (a + ("\n" + b))[|a|] == '\n'
  {
    if a == "" {
      assert a + ("\n" + b) == "\n" + b;
    } else {
      assert (a + ("\n" + b))[1..] == a[1..] + ("\n" + b);
      StopsAtLine(a[1..], c, b);
    }
  }

  /** A written key is read back with its value, in whatever section the reader is. */
  lemma NextKeyAnywhere(kv: KeyValue, tail: string, w: Where)
    requires KeyOk(kv.key) && ValueOk(kv.value)
    ensures var t := kv.key + " = " + kv.value + "\n" + tail;
            var name := match w case At(x) => x case Torn(from) => UpTo(from, t) + kv.key;
            Next(t, w) == Entry(tail, At(name), name, Some(kv))
  {
    var t := kv.key + " = " + kv.value + "\n" + tail;
    NextKey(kv, tail, "");
    KeyFirst(kv, tail);
    hide *;
    NextOther(t, At(""));
    NextOther(t, w);
    NextKeyIs(kv, tail);
  }

  lemma KeyFirst(kv: KeyValue, tail: string)
    requires KeyOk(kv.key)
    ensures var t := kv.key + " = " + kv.value + "\n" + tail;
            SkipSpaces(t) == t && t != "" && !IsComment(t[0]) && t[0] != '['
  {
    hide SkipSpaces, OneLine;
    var t := kv.key + " = " + kv.value + "\n" + tail;
    assert t[0] == kv.key[0];
    NameStarts(kv.key);
    NoSkip(t);
  }

  lemma UpToIs(name: string, t: string)
    ensures UpTo(name + ("\n" + t), t) == name + "\n"
  {
    assert (name + ("\n" + t))[..|name| + 1] == name + "\n";
  }

  lemma NextKeyIs(kv: KeyValue, tail: string)
    requires KeyOk(kv.key) && ValueOk(kv.value)
    ensures var t := kv.key + " = " + kv.value + "\n" + tail;
            var n := Stop(t, '=');
            0 < n < |t| && t[n] == '=' && TrimEnd(t[..n]) == kv.key
  {
    hide Stop, TrimEnd, Trimmed, OneLine;
    KeySplits(kv, tail);
    BlankAdded(kv.key);
    StopAt(kv.key + " ", '=', "= " + kv.value + ("\n" + tail));
    TrimBlank(kv.key);
  }
}
