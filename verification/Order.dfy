/**
 The iteration order of the program's `std::map` containers: keys come out in increasing order.
 Text keys are compared byte by byte, a proper prefix first.
 */
module Order {
  import opened Base

  /** `std::string` order. */
  predicate TextLess(a: string, b: string)
    decreases a
  {
    if b == "" then false
    else if a == "" then true
    else if a[0] != b[0] then a[0] < b[0]
    else TextLess(a[1..], b[1..])
  }

  lemma {:induction false} TextLessTotal(a: string, b: string)
    ensures TextLess(a, b) || TextLess(b, a) || a == b
    ensures !(TextLess(a, b) && TextLess(b, a))
    ensures !TextLess(a, a)
    decreases a
  {
    if a != "" {
      TextLessTotal(a[1..], a[1..]);
      if b != "" && a[0] == b[0] {
        TextLessTotal(a[1..], b[1..]);
        if a[1..] == b[1..] {
          assert a == [a[0]] + a[1..] && b == [b[0]] + b[1..];
        }
      }
    }
  }

  lemma {:induction false} TextLessTransitive(a: string, b: string, c: string)
    requires TextLess(a, b) && TextLess(b, c)
    ensures TextLess(a, c)
    decreases a
  {
    if a != "" && a[0] == b[0] == c[0] {
      TextLessTransitive(a[1..], b[1..], c[1..]);
    }
  }

  predicate LeastText(m: string, s: set<string>) {
    m in s && forall x | x in s :: x != m ==> TextLess(m, x)
  }

  lemma {:induction false} LeastTextExists(s: set<string>)
    requires s != {}
    ensures exists m :: LeastText(m, s)
  {
    var x :| x in s;
    if s == {x} {
      assert LeastText(x, s);
    } else {
      LeastTextExists(s - {x});
      var m :| LeastText(m, s - {x});
      TextLessTotal(x, m);
      if TextLess(m, x) {
        assert LeastText(m, s);
      } else {
        forall y | y in s && y != x ensures TextLess(x, y) {
          if y != m { TextLessTransitive(x, m, y); }
        }
        assert LeastText(x, s);
      }
    }
  }

  lemma LeastTextUnique(a: string, b: string, s: set<string>)
    requires LeastText(a, s) && LeastText(b, s)
    ensures a == b
  {
    TextLessTotal(a, b);
  }

  function LeastTextOf(s: set<string>): (m: string)
    requires s != {}
    ensures LeastText(m, s)
  {
    LeastTextExists(s);
    assert forall a, b :: LeastText(a, s) && LeastText(b, s) ==> a == b by {
      forall a, b | LeastText(a, s) && LeastText(b, s) ensures a == b { LeastTextUnique(a, b, s); }
    }
    var m :| m in s && LeastText(m, s);
    m
  }

  /** The keys of a map with text keys, in iteration order. */
  function Texts(s: set<string>): (r: seq<string>)
    ensures forall x :: x in r <==> x in s
    ensures forall i, j :: 0 <= i < j < |r| ==> TextLess(r[i], r[j])
    ensures |r| == |s|
  {
    if s == {} then []
    else
      var m := LeastTextOf(s);
      [m] + Texts(s - {m})
  }

  lemma TextsOnce(s: set<string>)
    ensures NoRepeats(Texts(s))
  {
    var ids := Texts(s);
    forall i, j | 0 <= i < j < |ids| ensures ids[i] != ids[j] { TextLessTotal(ids[i], ids[j]); }
  }

  predicate LeastNumber(m: nat, s: set<nat>) {
    m in s && forall x | x in s :: m <= x
  }

  lemma {:induction false} LeastNumberExists(s: set<nat>)
    requires s != {}
    ensures exists m: nat :: LeastNumber(m, s)
  {
    var x :| x in s;
    if s == {x} {
      assert LeastNumber(x, s);
    } else {
      LeastNumberExists(s - {x});
      var m: nat :| LeastNumber(m, s - {x});
      var least := if x < m then x else m;
      forall y | y in s ensures least <= y {
        if y != x { assert y in s - {x}; }
      }
      assert LeastNumber(least, s);
    }
  }

  lemma LeastBelow(m: nat, s: set<nat>, rest: seq<nat>)
    requires LeastNumber(m, s) && forall x :: x in rest <==> x in s - {m}
    ensures forall i :: 0 <= i < |rest| ==> m < rest[i]
  {
    forall i | 0 <= i < |rest| ensures m < rest[i] {
      assert rest[i] in rest;
      assert rest[i] in s && rest[i] != m;
    }
  }

  function LeastOf(s: set<nat>): (m: nat)
    requires s != {}
    ensures LeastNumber(m, s)
  {
    LeastNumberExists(s);
    var m: nat :| m in s && LeastNumber(m, s);
    m
  }

  /** The keys of a map with unsigned keys, in iteration order. */
  function Numbers(s: set<nat>): (r: seq<nat>)
    ensures forall x :: x in r <==> x in s
    ensures forall i, j :: 0 <= i < j < |r| ==> r[i] < r[j]
    ensures |r| == |s|
  {
    if s == {} then []
    else
      var m := LeastOf(s);
      var rest := Numbers(s - {m});
      LeastBelow(m, s, rest);
      [m] + rest
  }
}
