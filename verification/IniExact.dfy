/**
 Exactly which INI stores survive being saved and loaded.  Section names that a header without its closing
 bracket leaves behind make this the hard direction: saved and loaded again, they grow.
 */
module IniExact {
  import opened Base
  import opened Ini

  // Exactly which stores survive

  /** A header that begins with `a` breaks off where `a` ends a line, and reading goes on there. */
  ghost predicate Breaks(a: string) {
    forall y, w :: y == "" || IsNewLine(y[0]) ==> Next("[" + a + y, w) == Next(y, Torn(a + y))
  }

  /** The same where `a` ends in front of something on a later line. */
  ghost predicate Passes(a: string) {
    forall x, w :: x != "" && !IsSpace(x[0]) ==> Next("[" + a + x, w) == Next(x, Torn(a + x))
  }

  /** The names that headers without a closing bracket end up with. */
  ghost predicate TornName(name: string) {
    exists i :: 0 < i <= |name| && KeyOk(name[i..]) && Passes(name[..i]) && !OneLine(name[..i])
  }

  ghost predicate NameRead(name: string) {
    NameOk(name) || name == "" || TornName(name)
  }

  ghost predicate EntryOk(f: Found) {
    f.Entry? ==>
      && f.section == At(f.name) && NameRead(f.name)
      && (f.entry.Some? ==> KeyOk(f.entry.value.key) && ValueOk(f.entry.value.value))
  }

  lemma HeaderBreaks(a: string)
    requires a != "" && !IsSpace(a[0]) && OneLine(a) && ']' !in a
    ensures Breaks(a)
  {
    hide Next, Stop, LineEnd, TrimEnd, SkipSpaces, OneLine;
    forall y, w | y == "" || IsNewLine(y[0]) ensures Next("[" + a + y, w) == Next(y, Torn(a + y)) {
      var s, u := "[" + a + y, a + y;
      assert s[1..] == u && u[0] == a[0] && u[|a|..] == y;
      NoSkip(s);
      NoSkip(u);
      StopAt(a, ']', y);
      NextBracket(s, w);
    }
  }

  predicate AllSpaces(s: string) {
    forall i | 0 <= i < |s| :: IsSpace(s[i])
  }

  lemma {:induction false} SkipAll(gap: string, x: string)
    requires AllSpaces(gap)
    ensures SkipSpaces(gap + x) == SkipSpaces(x)
    decreases |gap|
  {
    if gap == "" {
      assert gap + x == x;
    } else {
      assert (gap + x)[1..] == gap[1..] + x;
      SkipAll(gap[1..], x);
    }
  }

  lemma {:induction false} SkippedSpaces(s: string)
    ensures var t := SkipSpaces(s); AllSpaces(s[..|s| - |t|]) && s == s[..|s| - |t|] + t
    decreases |s|
  {
    if s != "" && IsSpace(s[0]) {
      SkippedSpaces(s[1..]);
      var t := SkipSpaces(s);
      assert s[..|s| - |t|] == [s[0]] + s[1..][..|s| - 1 - |t|];
    }
  }

  lemma GapPasses(a: string, gap: string)
    requires Breaks(a) && gap != "" && IsNewLine(gap[0]) && AllSpaces(gap)
    ensures Passes(a + gap)
  {
    hide Next, AllSpaces, SkipSpaces;
    forall x, w | x != "" && !IsSpace(x[0]) ensures Next("[" + (a + gap) + x, w) == Next(x, Torn(a + gap + x)) {
      var y := gap + x;
      assert "[" + (a + gap) + x == "[" + a + y && a + gap + x == a + y;
      SkipAll(gap, x);
      SameNext(y, x, Torn(a + y));
    }
  }

  /** A line that holds neither a key nor a header. */
  predicate Dead(line: string) {
    && line != "" && !IsSpace(line[0]) && OneLine(line)
    && (IsComment(line[0]) || (line[0] != '[' && ('=' !in line || line[0] == '=')))
  }

  lemma DeadLine(line: string, y: string, w: Where)
    requires Dead(line) && (y == "" || IsNewLine(y[0]))
    ensures Next(line + y, w) == Next(y, w)
  {
    hide Next, Stop, LineEnd, SkipSpaces, TrimEnd, SkipBlanks, SkipNewLine, UpTo;
    var s := line + y;
    assert s[0] == line[0] && s[|line|..] == y;
    NoSkip(s);
    LineEndAt(line, y);
    if IsComment(line[0]) {
      NextComment(s, w);
    } else {
      NextOther(s, w);
      if '=' !in line { StopAt(line, '=', y); } else { StopNow(s, '='); }
    }
  }

  lemma StopNow(s: string, c: char)
    requires s != "" && s[0] == c
    ensures Stop(s, c) == 0
  {}

  lemma LineBreaks(a: string, line: string)
    requires Passes(a) && Dead(line)
    ensures Breaks(a + line)
  {
    hide Next;
    forall y, w | y == "" || IsNewLine(y[0]) ensures Next("[" + (a + line) + y, w) == Next(y, Torn(a + line + y)) {
      var x := line + y;
      assert "[" + (a + line) + y == "[" + a + x && a + line + y == a + x;
      DeadLine(line, y, Torn(a + x));
    }
  }

  lemma {:induction false} TrimKeepsFirst(s: string)
    requires s != "" && !IsSpace(s[0])
    ensures TrimEnd(s) != ""
    decreases |s|
  {
    if |s| > 1 { TrimKeepsFirst(s[..|s| - 1]); }
  }

  lemma {:induction false} BlanksSkipped(s: string)
    ensures var r := SkipBlanks(s); r == "" || IsNewLine(r[0]) || !IsSpace(r[0])
  {
    if s != "" && IsSpace(s[0]) && !IsNewLine(s[0]) { BlanksSkipped(s[1..]); }
  }

  /** The name in a header. */
  lemma HeaderName(u: string)
    requires u == "" || !IsSpace(u[0])
    ensures var name := TrimEnd(u[..Stop(u, ']')]); NameOk(name) || name == ""
  {
    hide TrimEnd, Stop;
    var n := Stop(u, ']');
    var name := TrimEnd(u[..n]);
    if n > 0 {
      TrimKeepsFirst(u[..n]);
      assert name == u[..n][..|name|];
      assert name[0] == u[0];
    }
  }

  /** A key and its value. */
  lemma KeyRead(t: string)
    requires t != "" && !IsSpace(t[0]) && t[0] != '[' && !IsComment(t[0]) && 0 < Stop(t, '=') < |t|
    ensures KeyOk(TrimEnd(t[..Stop(t, '=')]))
    ensures var v := SkipBlanks(t[Stop(t, '=') + 1..]); ValueOk(TrimEnd(v[..LineEnd(v)]))
  {
    hide TrimEnd, Stop, LineEnd, SkipBlanks, IsComment;
    var n := Stop(t, '=');
    var key := TrimEnd(t[..n]);
    TrimKeepsFirst(t[..n]);
    assert key == t[..n][..|key|] && key[0] == t[0];
    var v := SkipBlanks(t[n + 1..]);
    BlanksSkipped(t[n + 1..]);
    var value := TrimEnd(v[..LineEnd(v)]);
    assert value == v[..LineEnd(v)][..|value|];
    assert value != "" ==> value[0] == v[0];
  }

  lemma TornIs(a: string, key: string)
    requires Passes(a) && a != "" && !OneLine(a) && KeyOk(key)
    ensures TornName(a + key)
  {
    hide Passes, KeyOk, OneLine;
    var name := a + key;
    assert name[|a|..] == key && name[..|a|] == a;
    KeyNotEmpty(key);
  }

  lemma KeyNotEmpty(key: string)
    requires KeyOk(key)
    ensures key != ""
  {}

  lemma GapBroken(a: string, gap: string)
    requires gap != "" && IsNewLine(gap[0])
    ensures !OneLine(a + gap) && forall line :: !OneLine(a + gap + line)
  {
    assert (a + gap)[|a|] == gap[0];
    forall line ensures !OneLine(a + gap + line) { assert (a + gap + line)[|a|] == gap[0]; }
  }

  /** What is found after a header that broke off. */
  lemma {:induction false} TornNext(a: string, s: string)
    requires a != "" && Breaks(a) && (s == "" || IsNewLine(s[0]))
    ensures EntryOk(Next(s, Torn(a + s)))
    decreases |s|, 1
  {
    hide *;
    var u, t := a + s, SkipSpaces(s);
    if t == "" {
      NextEnd(s, Torn(u));
      EndOk();
      return;
    }
    var gap := s[..|s| - |t|];
    SkippedSpaces(s);
    NewLinesAreSpaces(s, t);
    GapPasses(a, gap);
    GapBroken(a, gap);
    assert u == a + gap + t;
    if IsComment(t[0]) || (t[0] != '[' && (Stop(t, '=') == 0 || Stop(t, '=') == |t| || t[Stop(t, '=')] != '=')) {
      var line := t[..LineEnd(t)];
      PassedLine(s, Torn(u));
      LineBreaks(a + gap, line);
      assert a + gap + line + t[LineEnd(t)..] == u;
      TornNext(a + gap + line, t[LineEnd(t)..]);
    } else if t[0] == '[' {
      BracketNext(s, Torn(u));
    } else {
      NotSpace(s);
      KeyRead(t);
      UpToPart(a + gap, t);
      TornIs(a + gap, TrimEnd(t[..Stop(t, '=')]));
      ReadNames(a + gap + TrimEnd(t[..Stop(t, '=')]));
      KeyEntry(s, Torn(u));
    }
  }

  lemma EndOk()
    ensures EntryOk(End)
  {}

  lemma NewLinesAreSpaces(s: string, t: string)
    requires s != "" && IsNewLine(s[0]) && t == SkipSpaces(s) && t != ""
    ensures |t| < |s| && s[..|s| - |t|] != "" && s[..|s| - |t|][0] == s[0]
  {}

  lemma UpToPart(a: string, t: string)
    ensures UpTo(a + t, t) == a
  {}

  /** A line without key or header is passed over. */
  lemma PassedLine(s: string, w: Where)
    requires var t := SkipSpaces(s);
             && t != ""
             && (IsComment(t[0]) || (t[0] != '[' && (Stop(t, '=') == 0 || Stop(t, '=') == |t| || t[Stop(t, '=')] != '=')))
    ensures var t := SkipSpaces(s);
            && Dead(t[..LineEnd(t)]) && 0 < LineEnd(t) && (t[LineEnd(t)..] == "" || IsNewLine(t[LineEnd(t)..][0]))
            && Next(s, w) == Next(t[LineEnd(t)..], w) && |t[LineEnd(t)..]| < |s|
  {
    hide Next, TrimEnd, SkipBlanks, SkipNewLine, UpTo, IsComment, Stop, LineEnd;
    var t := SkipSpaces(s);
    Progress(t, '=');
    var n, m := Stop(t, '='), LineEnd(t);
    if IsComment(t[0]) {
      NextComment(s, w);
    } else {
      NextOther(s, w);
      if n == |t| || t[n] != '=' { SameStop(t); }
    }
    assert t[..m][0] == t[0];
  }

  lemma SameStop(t: string)
    requires Stop(t, '=') == |t| || t[Stop(t, '=')] != '='
    ensures Stop(t, '=') == LineEnd(t) && '=' !in t[..LineEnd(t)]
  {
    hide Stop, LineEnd;
    var n, m := Stop(t, '='), LineEnd(t);
    assert forall i :: 0 <= i < n ==> t[i] != '=' && !IsNewLine(t[i]);
  }

  /** A header, whole or broken. */
  lemma BracketNext(s: string, w: Where)
    requires SkipSpaces(s) != "" && SkipSpaces(s)[0] == '['
    ensures EntryOk(Next(s, w))
    decreases |s|, 0
  {
    hide *;
    var t := SkipSpaces(s);
    var u := SkipSpaces(t[1..]);
    var n := Stop(u, ']');
    NextBracket(s, w);
    if n == |u| || u[n] != ']' {
      if n == 0 {
        StopsNowhere(u);
        NextEnd(u[n..], Torn(u));
        EndOk();
      } else {
        HeaderPart(u);
        HeaderBreaks(u[..n]);
        assert u[..n] + u[n..] == u;
        Shorter(s);
        TornNext(u[..n], u[n..]);
      }
    } else {
      NotSpace(t[1..]);
      HeaderName(u);
      HeaderEntryOk(u[n + 1..][LineEnd(u[n + 1..])..], TrimEnd(u[..n]));
    }
  }

  lemma NotSpace(s: string)
    ensures SkipSpaces(s) == "" || !IsSpace(SkipSpaces(s)[0])
  {}

  lemma Shorter(s: string)
    requires SkipSpaces(s) != ""
    ensures |SkipSpaces(SkipSpaces(s)[1..])| < |s|
  {}

  lemma StopsNowhere(u: string)
    requires Stop(u, ']') == 0 && (u == "" || (u[0] != ']' && !IsSpace(u[0])))
    ensures u == "" && SkipSpaces(u[0..]) == ""
  {}

  /** The first line of a header that breaks off. */
  lemma HeaderPart(u: string)
    requires var n := Stop(u, ']'); 0 < n && !IsSpace(u[0]) && (n == |u| || u[n] != ']')
    ensures var n := Stop(u, ']');
            && u[..n] != "" && !IsSpace(u[..n][0]) && OneLine(u[..n]) && ']' !in u[..n]
            && (u[n..] == "" || IsNewLine(u[n..][0]))
  {
    hide Stop;
  }

  lemma ReadNames(name: string)
    ensures NameOk(name) || name == "" || TornName(name) ==> NameRead(name)
  {}

  lemma HeaderEntryOk(rest: string, name: string)
    requires NameOk(name) || name == ""
    ensures EntryOk(Entry(rest, At(name), name, None))
  {}

  lemma KeyEntry(s: string, w: Where)
    requires var t := SkipSpaces(s);
             && t != "" && !IsComment(t[0]) && t[0] != '[' && 0 < Stop(t, '=') < |t| && t[Stop(t, '=')] == '='
             && NameRead(match w case At(x) => x case Torn(from) => UpTo(from, t) + TrimEnd(t[..Stop(t, '=')]))
    ensures EntryOk(Next(s, w))
  {
    hide Next, SkipSpaces, LineEnd, TrimEnd, Stop, SkipBlanks, SkipNewLine, UpTo, IsComment, NameRead, KeyOk, ValueOk;
    NotSpace(s);
    NextOther(s, w);
    KeyRead(SkipSpaces(s));
  }

  /** What is found in a section that was entered properly, or under a name that was read before. */
  lemma {:induction false} PlainNext(s: string, name: string)
    requires NameRead(name)
    ensures EntryOk(Next(s, At(name)))
    decreases |s|
  {
    hide *;
    var t := SkipSpaces(s);
    if t == "" {
      NextEnd(s, At(name));
      EndOk();
    } else if IsComment(t[0]) || (t[0] != '[' && (Stop(t, '=') == 0 || Stop(t, '=') == |t| || t[Stop(t, '=')] != '=')) {
      PassedLine(s, At(name));
      PlainNext(t[LineEnd(t)..], name);
    } else if t[0] == '[' {
      BracketNext(s, At(name));
    } else {
      KeyEntry(s, At(name));
    }
  }

  // What a load leaves

  /** Keys as they are written, no key or section twice, and names as they are read. */
  ghost predicate Loaded(store: Store) {
    && (forall i :: 0 <= i < |store| ==> KeysOk(store[i].keys) && NameRead(store[i].name))
    && forall i, j :: 0 <= i < j < |store| ==> Fold(store[i].name) != Fold(store[j].name)
  }

  lemma PutKeyOk(keys: seq<KeyValue>, kv: KeyValue)
    requires KeysOk(keys) && KeyOk(kv.key) && ValueOk(kv.value)
    ensures KeysOk(PutKey(keys, kv))
  {
    hide KeyOk, ValueOk, Fold, FindKey;
    var i := FindKey(keys, kv.key);
    var r := PutKey(keys, kv);
    if i < |keys| { assert forall j :: 0 <= j < |r| ==> r[j].key == keys[j].key; }
  }

  lemma PutLoaded(store: Store, name: string, entry: Option<KeyValue>)
    requires Loaded(store) && NameRead(name) && (entry.Some? ==> KeyOk(entry.value.key) && ValueOk(entry.value.value))
    ensures Loaded(Put(store, name, entry))
  {
    hide NameRead, KeyOk, ValueOk, Fold, FindSection, KeysOk, PutKey;
    var i := FindSection(store, name);
    NoKeysOk();
    if entry.Some? { PutKeyOk(if i < |store| then store[i].keys else [], entry.value); }
  }

  lemma NoKeysOk()
    ensures KeysOk([])
  {}

  lemma {:induction false} LoadLoaded(s: string, name: string, store: Store)
    requires Loaded(store) && NameRead(name)
    ensures Loaded(LoadFrom(s, At(name), store))
    decreases |s|
  {
    hide Next, Put, Loaded, NameRead, KeyOk, ValueOk;
    PlainNext(s, name);
    NextShorter(s, At(name));
    match Next(s, At(name))
    case End =>
    case Entry(rest, w', x, entry) =>
      PutLoaded(store, x, entry);
      LoadLoaded(rest, x, Put(store, x, entry));
  }

  // Which names a load of saved text can give

  /** A proper name, or a broken one longer than one of `torn`. */
  ghost predicate Grown(torn: set<string>, name: string) {
    NameOk(name) || exists n :: n in torn && |n| < |name|
  }

  ghost predicate NameAllowed(torn: set<string>, known: set<string>, name: string) {
    name in known || Grown(torn, name)
  }

  ghost predicate Within(torn: set<string>, known: set<string>, store: Store) {
    forall i :: 0 <= i < |store| ==> NameAllowed(torn, known, store[i].name)
  }

  /** With `len` characters left, the next key goes to an allowed section. */
  ghost predicate Fits(torn: set<string>, known: set<string>, w: Where, len: nat) {
    match w
    case At(name) => NameAllowed(torn, known, name)
    case Torn(from) => exists n :: n in torn && |n| + len <= |from|
  }

  lemma PutWithin(torn: set<string>, known: set<string>, store: Store, name: string, entry: Option<KeyValue>)
    requires Within(torn, known, store) && NameAllowed(torn, known, name)
    ensures Within(torn, known, Put(store, name, entry))
  {
    hide NameAllowed, PutKey, Fold, FindSection;
  }

  lemma FitsLess(torn: set<string>, known: set<string>, w: Where, more: nat, less: nat)
    requires Fits(torn, known, w, more) && less <= more
    ensures Fits(torn, known, w, less)
  {}

  /** The section that a key goes to. */
  lemma FitsKey(torn: set<string>, known: set<string>, w: Where, key: string, t: string)
    requires Fits(torn, known, w, |t|) && key != ""
    ensures NameAllowed(torn, known, match w case At(x) => x case Torn(from) => UpTo(from, t) + key)
  {
    hide NameOk;
    if w.Torn? {
      var n :| n in torn && |n| + |t| <= |w.from|;
      assert |UpTo(w.from, t) + key| > |n|;
    }
  }

  lemma LoadStep(s: string, w: Where, store: Store)
    requires Next(s, w).Entry?
    ensures LoadFrom(s, w, store) == LoadFrom(Next(s, w).rest, Next(s, w).section, Put(store, Next(s, w).name, Next(s, w).entry))
  {
    hide Next, Put;
  }

  lemma SameLoad(s: string, w: Where, s': string, w': Where, store: Store)
    requires Next(s, w) == Next(s', w')
    ensures LoadFrom(s, w, store) == LoadFrom(s', w', store)
  {
    hide Next, Put;
  }

  lemma KeysTextIs(keys: seq<KeyValue>, more: string)
    requires keys != []
    ensures KeysText(keys) + more == keys[0].key + " = " + keys[0].value + "\n" + (KeysText(keys[1..]) + more)
  {
    hide KeysText;
    KeysTextCons(keys);
    assert keys[0].key + " = " + keys[0].value + "\n" + KeysText(keys[1..]) + more
        == keys[0].key + " = " + keys[0].value + "\n" + (KeysText(keys[1..]) + more);
  }

  lemma KeysTextCons(keys: seq<KeyValue>)
    requires keys != []
    ensures KeysText(keys) == keys[0].key + " = " + keys[0].value + "\n" + KeysText(keys[1..])
  {}

  lemma {:induction false} KeysRun(torn: set<string>, known: set<string>, keys: seq<KeyValue>, more: string, w: Where, done: Store)
      returns (w': Where, done': Store)
    requires forall i :: 0 <= i < |keys| ==> KeyOk(keys[i].key) && ValueOk(keys[i].value)
    requires Within(torn, known, done) && Fits(torn, known, w, |KeysText(keys) + more|)
    ensures LoadFrom(KeysText(keys) + more, w, done) == LoadFrom(more, w', done')
    ensures Within(torn, known, done') && Fits(torn, known, w', |more|)
    decreases |keys|
  {
    hide *;
    if keys == [] {
      NoKeys();
      assert "" + more == more;
      w', done' := w, done;
    } else {
      var kv, rest := keys[0], KeysText(keys[1..]) + more;
      var t := KeysText(keys) + more;
      KeysTextIs(keys, more);
      NextKeyAnywhere(kv, rest, w);
      KeyNotEmpty(kv.key);
      FitsKey(torn, known, w, kv.key, t);
      var name := match w case At(x) => x case Torn(from) => UpTo(from, t) + kv.key;
      LoadStep(t, w, done);
      PutWithin(torn, known, done, name, Some(kv));
      FitsAt(torn, known, name, |rest|);
      w', done' := KeysRun(torn, known, keys[1..], more, At(name), Put(done, name, Some(kv)));
    }
  }

  lemma FitsAt(torn: set<string>, known: set<string>, name: string, len: nat)
    requires NameAllowed(torn, known, name)
    ensures Fits(torn, known, At(name), len)
  {}

  /** A saved header with a broken name breaks off again, and takes the bracket into the name. */
  lemma TornAgain(name: string, rest: string, w: Where)
    requires TornName(name)
    ensures Next("[" + name + "]\n" + rest, w) == Next(rest, Torn(name + "]\n" + rest))
  {
    hide Next, Passes, KeyOk, OneLine;
    var i :| 0 < i <= |name| && KeyOk(name[i..]) && Passes(name[..i]) && !OneLine(name[..i]);
    var a, key := name[..i], name[i..];
    var x, u := key + "]" + ("\n" + rest), name + "]\n" + rest;
    assert name == a + key;
    assert a + x == u && "[" + a + x == "[" + name + "]\n" + rest;
    KeyStarts(key);
    assert x[0] == key[0];
    PassesAt(a, x, w);
    DeadBracket(key);
    DeadLine(key + "]", "\n" + rest, Torn(u));
    SpacesIgnored('\n', rest, Torn(u));
    assert ['\n'] + rest == "\n" + rest;
  }

  lemma KeyStarts(key: string)
    requires KeyOk(key)
    ensures key != "" && !IsSpace(key[0])
  {}

  lemma PassesAt(a: string, x: string, w: Where)
    requires Passes(a) && x != "" && !IsSpace(x[0])
    ensures Next("[" + a + x, w) == Next(x, Torn(a + x))
  {
    hide Next;
  }

  lemma DeadBracket(key: string)
    requires KeyOk(key)
    ensures Dead(key + "]")
  {}

  ghost predicate SectionRead(torn: set<string>, section: Section) {
    && (forall i :: 0 <= i < |section.keys| ==> KeyOk(section.keys[i].key) && ValueOk(section.keys[i].value))
    && (NameOk(section.name) || section.name == "" || (TornName(section.name) && section.name in torn))
  }

  lemma SectionTextIs(section: Section, more: string)
    ensures section.name == "" ==> SectionText(section) + more == KeysText(section.keys) + more
    ensures section.name != "" ==> SectionText(section) + more == "[" + section.name + "]\n" + (KeysText(section.keys) + more)
  {
    hide KeysText;
    assert "" + KeysText(section.keys) == KeysText(section.keys);
  }

  lemma SectionRun(torn: set<string>, known: set<string>, section: Section, more: string, w: Where, done: Store)
      returns (w': Where, done': Store)
    requires SectionRead(torn, section) && Within(torn, known, done)
    requires section.name == "" ==> Fits(torn, known, w, |SectionText(section) + more|)
    ensures LoadFrom(SectionText(section) + more, w, done) == LoadFrom(more, w', done')
    ensures Within(torn, known, done') && Fits(torn, known, w', |more|)
  {
    hide LoadFrom, Next, SectionText, KeysText, NameOk, KeyOk, ValueOk, Within, Fits, NameAllowed, TornName, Put;
    var s, rest := SectionText(section) + more, KeysText(section.keys) + more;
    SectionTextIs(section, more);
    if section.name == "" {
      w', done' := KeysRun(torn, known, section.keys, more, w, done);
    } else if NameOk(section.name) {
      NextHeader(section.name, rest, w);
      LoadStep(s, w, done);
      var done0 := Put(done, section.name, None);
      LoadSpace('\n', rest, At(section.name), done0);
      assert ['\n'] + rest == "\n" + rest;
      ProperAllowed(torn, known, section.name);
      PutWithin(torn, known, done, section.name, None);
      FitsAt(torn, known, section.name, |rest|);
      w', done' := KeysRun(torn, known, section.keys, more, At(section.name), done0);
    } else {
      var u := section.name + "]\n" + rest;
      TornAgain(section.name, rest, w);
      SameLoad(s, w, rest, Torn(u), done);
      FitsTorn(torn, known, section.name, u, |rest|);
      w', done' := KeysRun(torn, known, section.keys, more, Torn(u), done);
    }
  }

  lemma ProperAllowed(torn: set<string>, known: set<string>, name: string)
    requires NameOk(name)
    ensures NameAllowed(torn, known, name)
  {}

  lemma FitsTorn(torn: set<string>, known: set<string>, name: string, from: string, len: nat)
    requires name in torn && |name| + len <= |from|
    ensures Fits(torn, known, Torn(from), len)
  {}

  lemma SaveTextIs(store: Store)
    requires store != []
    ensures SaveText(store) == SectionText(store[0]) + if |store| == 1 then "" else "\n\n" + SaveText(store[1..])
  {
    hide SectionText;
  }

  /** Every section of the result was there, has a proper name, or a broken one that has grown. */
  lemma {:induction false} StoreRun(torn: set<string>, known: set<string>, rest: Store, w: Where, done: Store)
    requires rest != [] && Within(torn, known, done) && forall i :: 0 <= i < |rest| ==> SectionRead(torn, rest[i])
    requires rest[0].name == "" ==> Fits(torn, known, w, |SaveText(rest)|)
    ensures Within(torn, known, LoadFrom(SaveText(rest), w, done))
    decreases |rest|
  {
    hide *;
    var more := if |rest| == 1 then "" else "\n\n" + SaveText(rest[1..]);
    SaveTextIs(rest);
    var w', done' := SectionRun(torn, known, rest[0], more, w, done);
    if |rest| == 1 {
      LoadNothing(w', done');
    } else {
      LoadBlankLines(SaveText(rest[1..]), w', done');
      FitsLess(torn, known, w', |more|, |SaveText(rest[1..])|);
      StoreRun(torn, known, rest[1..], w', done');
    }
  }

  lemma {:induction false} NoShortest(torn: set<string>, name: string)
    requires name in torn && forall n :: n in torn ==> exists m :: m in torn && |m| < |n|
    ensures false
    decreases |name|
  {
    var m :| m in torn && |m| < |name|;
    NoShortest(torn, m);
  }

  ghost function TornNames(store: Store): set<string> {
    set i | 0 <= i < |store| && !NameOk(store[i].name) && store[i].name != "" :: store[i].name
  }

  lemma LoadedReads(store: Store)
    requires Loaded(store)
    ensures forall i :: 0 <= i < |store| ==> SectionRead(TornNames(store), store[i])
  {
    hide NameOk, TornName, KeyOk, ValueOk;
    forall i | 0 <= i < |store| ensures SectionRead(TornNames(store), store[i]) {
      assert KeysOk(store[i].keys) && NameRead(store[i].name);
    }
  }

  /** When every broken name of a store has grown from a shorter one, there is none. */
  lemma NoneTorn(store: Store, known: set<string>)
    requires Within(TornNames(store), known, store) && known <= {""}
    ensures forall i :: 0 <= i < |store| ==> NameOk(store[i].name) || (store[i].name == "" && "" in known)
  {
    hide NameOk;
    var torn := TornNames(store);
    forall n | n in torn ensures exists m :: m in torn && |m| < |n| {
      var i :| 0 <= i < |store| && store[i].name == n && !NameOk(n) && n != "";
      assert NameAllowed(torn, known, store[i].name);
    }
    if n :| n in torn { NoShortest(torn, n); }
    forall i | 0 <= i < |store| ensures NameOk(store[i].name) || (store[i].name == "" && "" in known) {
      assert store[i].name !in torn;
      assert NameAllowed(torn, known, store[i].name);
    }
  }

  lemma WithinOne(torn: set<string>, section: Section)
    requires section.name == ""
    ensures Within(torn, {""}, [section]) && Fits(torn, {""}, At(""), |""|)
  {}

  /** What comes back unchanged has names that can be written down. */
  lemma SavedNames(store: Store)
    requires store != [] && Loaded(store) && Load(SaveText(store)) == store
    ensures exists known :: known <= {""} && Within(TornNames(store), known, store)
                         && ("" in known ==> store[0].name == "" && store[0].keys != [])
  {
    hide *;
    var torn, section := TornNames(store), store[0];
    LoadedReads(store);
    LoadIs(SaveText(store));
    SaveTextIs(store);
    NothingWithin(torn);
    if section.name != "" {
      StoreRun(torn, {}, store, At(""), []);
    } else {
      var tail := if |store| == 1 then "" else "\n\n" + SaveText(store[1..]);
      var known: set<string> := if section.keys == [] then {} else {""};
      var done := if section.keys == [] then [] else [section];
      UnnamedFirst(store, tail);
      WithinOne(torn, section);
      LoadNothing(At(""), done);
      if |store| > 1 {
        LoadBlankLines(SaveText(store[1..]), At(""), done);
        SecondNamed(store);
        StoreRun(torn, known, store[1..], At(""), done);
      }
      assert Within(torn, known, store);
    }
  }

  lemma LoadIs(s: string)
    ensures Load(s) == LoadFrom(s, At(""), [])
  {}

  lemma NothingWithin(torn: set<string>)
    ensures Within(torn, {}, [])
  {}

  /** An unnamed section in front: its keys are read into it, if it has any. */
  lemma UnnamedFirst(store: Store, tail: string)
    requires store != [] && Loaded(store) && store[0].name == ""
    ensures LoadFrom(SectionText(store[0]) + tail, At(""), [])
         == LoadFrom(tail, At(""), if store[0].keys == [] then [] else [store[0]])
  {
    hide LoadFrom, KeysOk, NameRead;
    if store[0].keys == [] {
      SectionTextIs(store[0], tail);
      NoKeys();
      assert "" + tail == tail;
    } else {
      LoadUnnamed(store[0], tail);
    }
  }

  lemma SecondNamed(store: Store)
    requires |store| > 1 && Loaded(store) && store[0].name == ""
    ensures store[1..][0].name != ""
  {
    hide KeysOk, NameRead;
    assert Fold(store[0].name) != Fold(store[1].name);
  }

  lemma LoadedEmpty()
    ensures Loaded([]) && NameRead("")
  {}

  lemma WritableIs(store: Store)
    requires Loaded(store)
    requires forall i :: 0 <= i < |store| ==> NameOk(store[i].name) || (store[i].name == "" && store[0].name == "" && store[0].keys != [])
    ensures Writable(store)
  {
    hide KeysOk, NameRead, NameOk;
    assert forall i :: 0 < i < |store| ==> Fold(store[0].name) != Fold(store[i].name);
  }

  /** Loading what was saved gives back a store exactly when it can be written down. */
  lemma LoadSavedExactly(store: Store)
    ensures Load(SaveText(store)) == store <==> Writable(store)
  {
    hide *;
    if Writable(store) { LoadSaved(store); }
    if Load(SaveText(store)) == store {
      LoadedEmpty();
      LoadIs(SaveText(store));
      LoadLoaded(SaveText(store), "", []);
      if store != [] {
        SavedNames(store);
        var known :| known <= {""} && Within(TornNames(store), known, store)
                  && ("" in known ==> store[0].name == "" && store[0].keys != []);
        NoneTorn(store, known);
      }
      WritableIs(store);
    }
  }
}
