/** What the poll list of a set of VNIs holds, and what it does not depend on. */
module PollLists {
  import opened Base
  import opened Bricks
  import opened Topology
  import opened Transitions
  import Order

  ghost predicate Enabled(vnis: Vnis, x: Polled, v: nat, i: string) {
    v in vnis && i in vnis[v].nics && vnis[v].nics[i].enable && x == Row(vnis[v].nics[i])
  }

  lemma {:induction false} RowsOfContents(nics: map<string, GraphNic>, ids: seq<string>, x: Polled)
    requires forall i :: i in ids ==> i in nics
    ensures x in RowsOf(nics, ids) <==> exists i :: i in ids && nics[i].enable && x == Row(nics[i])
  {
    if ids != [] {
      assert forall i :: i in ids <==> i == ids[0] || i in ids[1..];
      RowsOfContents(nics, ids[1..], x);
    }
  }

  lemma {:induction false} RowsOfVnisContents(vnis: Vnis, order: seq<nat>, x: Polled)
    requires forall v :: v in order ==> v in vnis
    ensures x in RowsOfVnis(vnis, order) <==> exists v, i :: v in order && Enabled(vnis, x, v, i)
  {
    if order != [] {
      var v0 := order[0];
      assert v0 in order;
      assert forall v :: v in order <==> v == v0 || v in order[1..];
      var here := RowsOf(vnis[v0].nics, Order.Texts(vnis[v0].nics.Keys));
      RowsOfContents(vnis[v0].nics, Order.Texts(vnis[v0].nics.Keys), x);
      RowsOfVnisContents(vnis, order[1..], x);
      if x in here {
        var i :| i in vnis[v0].nics && vnis[v0].nics[i].enable && x == Row(vnis[v0].nics[i]);
        assert Enabled(vnis, x, v0, i);
      }
      if exists v, i :: v in order && Enabled(vnis, x, v, i) {
        var v, i :| v in order && Enabled(vnis, x, v, i);
        if v == v0 { assert i in Order.Texts(vnis[v0].nics.Keys); }
      }
    }
  }

  /** Exactly the enabled NICs have a row. */
  lemma EnabledRowsContents(vnis: Vnis, x: Polled)
    ensures x in EnabledRows(vnis) <==> exists v, i :: Enabled(vnis, x, v, i)
  {
    RowsOfVnisContents(vnis, Order.Numbers(vnis.Keys), x);
    if exists v, i :: Enabled(vnis, x, v, i) {
      var v, i :| Enabled(vnis, x, v, i);
      assert v in Order.Numbers(vnis.Keys);
    }
  }

  lemma RowBricks(vnis: Vnis, x: Polled)
    requires x in EnabledRows(vnis)
    ensures x.vhost in AllBricks(vnis) && x.firewall in AllBricks(vnis)
  {
    hide AllBricks, VniBricks;
    EnabledRowsContents(vnis, x);
    var v, i :| Enabled(vnis, x, v, i);
    SplitBricks(vnis, v);
    SplitNicBricks(vnis[v], i);
  }

  lemma PollListBricks(vnis: Vnis)
    ensures ListAlive(PollList(vnis), AllBricks(vnis))
  {
    hide AllBricks;
    forall x | x in PollList(vnis) ensures x.vhost in AllBricks(vnis) && x.firewall in AllBricks(vnis) {
      RowBricks(vnis, x);
    }
  }

  /** With at most 49 enabled NICs every one of them is polled. */
  lemma AllPolled(vnis: Vnis, v: nat, i: string)
    requires v in vnis && i in vnis[v].nics && vnis[v].nics[i].enable
    requires |EnabledRows(vnis)| <= POLL_SLOTS - 1
    ensures Row(vnis[v].nics[i]) in PollList(vnis)
  {
    assert Enabled(vnis, Row(vnis[v].nics[i]), v, i);
    EnabledRowsContents(vnis, Row(vnis[v].nics[i]));
  }

  // Each row once

  lemma {:induction false} RowsOfOnce(v: nat, g: GraphVni, next: nat, ids: seq<string>)
    requires WellFormedVni(v, g, next) && NoRepeats(ids)
    requires forall i :: i in ids ==> i in g.nics
    ensures NoRepeats(RowsOf(g.nics, ids))
  {
    if ids != [] {
      var n := g.nics[ids[0]];
      assert NoRepeats(ids[1..]);
      RowsOfOnce(v, g, next, ids[1..]);
      RowsOfContents(g.nics, ids[1..], Row(n));
      assert Row(n) !in RowsOf(g.nics, ids[1..]);
    }
  }

  lemma {:induction false} RowsOfVnisOnce(vnis: Vnis, order: seq<nat>, next: nat)
    requires WellFormed(vnis, next) && NoRepeats(order)
    requires forall v :: v in order ==> v in vnis
    ensures NoRepeats(RowsOfVnis(vnis, order))
  {
    if order != [] {
      hide Order.Texts, WellFormedVni, VniBricks, RowsOf;
      var v := order[0];
      var ids := Order.Texts(vnis[v].nics.Keys);
      assert v in order && v !in order[1..];
      Order.TextsOnce(vnis[v].nics.Keys);
      RowsOfOnce(v, vnis[v], next, ids);
      assert NoRepeats(order[1..]);
      RowsOfVnisOnce(vnis, order[1..], next);
      RowsOfOthers(vnis, v, order[1..], next);
      AppendOnce(RowsOf(vnis[v].nics, ids), RowsOfVnis(vnis, order[1..]));
    }
  }

  lemma RowsOfOthers(vnis: Vnis, v: nat, others: seq<nat>, next: nat)
    requires WellFormed(vnis, next) && v in vnis && v !in others && forall u :: u in others ==> u in vnis
    ensures forall x :: x in RowsOf(vnis[v].nics, Order.Texts(vnis[v].nics.Keys)) ==> x !in RowsOfVnis(vnis, others)
  {
    hide WellFormed, RowsOf, RowsOfVnis, Order.Texts, Row;
    var ids := Order.Texts(vnis[v].nics.Keys);
    forall x | x in RowsOf(vnis[v].nics, ids) ensures x !in RowsOfVnis(vnis, others) {
      RowsOfContents(vnis[v].nics, ids, x);
      RowsOfVnisContents(vnis, others, x);
      if x in RowsOfVnis(vnis, others) {
        var i :| i in ids && x == Row(vnis[v].nics[i]);
        var u, j :| u in others && Enabled(vnis, x, u, j);
        RowsApart(vnis, next, v, i, u, j);
      }
    }
  }

  lemma AppendOnce<T>(a: seq<T>, b: seq<T>)
    requires NoRepeats(a) && NoRepeats(b) && forall x :: x in a ==> x !in b
    ensures NoRepeats(a + b)
  {
    forall i, j | 0 <= i < j < |a + b| ensures (a + b)[i] != (a + b)[j] {
      if i < |a| <= j { assert a[i] in a && b[j - |a|] in b; }
    }
  }

  lemma RowsApart(vnis: Vnis, next: nat, v: nat, i: string, u: nat, j: string)
    requires WellFormed(vnis, next) && v in vnis && u in vnis && v != u
    requires i in vnis[v].nics && j in vnis[u].nics
    ensures Row(vnis[v].nics[i]) != Row(vnis[u].nics[j])
  {
    hide VniBricks;
    SplitNicBricks(vnis[v], i);
    SplitNicBricks(vnis[u], j);
    assert Firewall(vnis[v].nics[i].key) in VniBricks(vnis[v]);
    assert Firewall(vnis[u].nics[j].key) in VniBricks(vnis[u]);
  }

  /** No NIC has two rows. */
  lemma PollListOnce(vnis: Vnis, next: nat)
    requires WellFormed(vnis, next)
    ensures NoRepeats(PollList(vnis)) && |PollList(vnis)| <= POLL_SLOTS - 1
  {
    hide RowsOfVnis, Order.Numbers, WellFormed;
    NumbersOnce(vnis.Keys);
    RowsOfVnisOnce(vnis, Order.Numbers(vnis.Keys), next);
  }

  lemma NumbersOnce(s: set<nat>)
    ensures NoRepeats(Order.Numbers(s))
  {
    hide Order.Numbers;
  }

  // A disabled NIC may as well not be there

  lemma LeastOfTexts(s: set<string>) returns (m: string)
    requires s != {}
    ensures Order.LeastText(m, s) && Order.Texts(s) == [m] + Order.Texts(s - {m})
  {
    var ids := Order.Texts(s);
    m := ids[0];
    assert m in ids;
    forall x | x in s && x != m ensures Order.TextLess(m, x) {
      var k :| 0 <= k < |ids| && ids[k] == x;
    }
    forall n | Order.LeastText(n, s) ensures n == m { Order.LeastTextUnique(n, m, s); }
  }

  lemma RowsCons(nics: map<string, GraphNic>, m: string, rest: seq<string>)
    requires m in nics && forall i :: i in rest ==> i in nics
    ensures forall i :: i in [m] + rest ==> i in nics
    ensures RowsOf(nics, [m] + rest) == (if nics[m].enable then [Row(nics[m])] else []) + RowsOf(nics, rest)
  {
    assert ([m] + rest)[1..] == rest;
  }

  lemma {:induction false} RowsWithout(nics: map<string, GraphNic>, s: set<string>, id: string)
    requires s <= nics.Keys && id in nics && !nics[id].enable
    ensures RowsOf(nics, Order.Texts(s)) == RowsOf(nics, Order.Texts(s - {id}))
    decreases |s|
  {
    hide RowsOf, Order.LeastText;
    if id !in s {
      assert s - {id} == s;
    } else {
      var m := LeastOfTexts(s);
      assert m in s by { LeastIn(m, s); }
      RowsCons(nics, m, Order.Texts(s - {m}));
      if m != id {
        RowsWithout(nics, s - {m}, id);
        var m' := LeastOfTexts(s - {id});
        LeastLeft(m, s, id);
        Order.LeastTextUnique(m, m', s - {id});
        EitherOrder(s, id, m);
        RowsCons(nics, m, Order.Texts(s - {m} - {id}));
      }
    }
  }

  lemma EitherOrder<T>(s: set<T>, a: T, b: T)
    ensures s - {a} - {b} == s - {b} - {a}
  {}

  lemma LeastIn(m: string, s: set<string>)
    requires Order.LeastText(m, s)
    ensures m in s
  {}

  lemma LeastLeft(m: string, s: set<string>, id: string)
    requires Order.LeastText(m, s) && m != id
    ensures Order.LeastText(m, s - {id})
  {}

  lemma {:induction false} RowsAgree(a: map<string, GraphNic>, b: map<string, GraphNic>, ids: seq<string>)
    requires forall i :: i in ids ==> i in a && i in b && a[i] == b[i]
    ensures RowsOf(a, ids) == RowsOf(b, ids)
  {
    if ids != [] { RowsAgree(a, b, ids[1..]); }
  }

  function RowsAt(g: GraphVni): seq<Polled> {
    RowsOf(g.nics, Order.Texts(g.nics.Keys))
  }

  lemma DisabledRows(g: GraphVni, id: string)
    requires id in g.nics
    ensures RowsAt(Disable(g, id)) == RowsAt(Left(g, id))
  {
    hide *;
    DisabledNics(g, id);
    var nics, left := Disable(g, id).nics, Left(g, id).nics;
    RowsWithout(nics, nics.Keys, id);
    RowsAgree(nics, left, Order.Texts(left.Keys));
    RowsAtIs(Disable(g, id));
    RowsAtIs(Left(g, id));
  }

  lemma DisabledNics(g: GraphVni, id: string)
    requires id in g.nics
    ensures var nics, left := Disable(g, id).nics, Left(g, id).nics;
            && id in nics && !nics[id].enable && left.Keys == nics.Keys - {id}
            && forall i :: i in left ==> i in nics && nics[i] == left[i]
  {}

  lemma RowsAtIs(g: GraphVni)
    ensures RowsAt(g) == RowsOf(g.nics, Order.Texts(g.nics.Keys))
  {}

  lemma {:induction false} VniRowsAgree(a: Vnis, b: Vnis, order: seq<nat>)
    requires forall v :: v in order ==> v in a && v in b && RowsAt(a[v]) == RowsAt(b[v])
    ensures RowsOfVnis(a, order) == RowsOfVnis(b, order)
  {
    if order != [] { VniRowsAgree(a, b, order[1..]); }
  }

  lemma SameRows(vnis: Vnis, v: nat, g: GraphVni)
    requires v in vnis && RowsAt(g) == RowsAt(vnis[v])
    ensures PollList(vnis[v := g]) == PollList(vnis)
  {
    hide *;
    assert vnis[v := g].Keys == vnis.Keys;
    VniRowsAgree(vnis[v := g], vnis, Order.Numbers(vnis.Keys));
    SameList(vnis[v := g], vnis);
  }

  lemma LeastOfNumbers(s: set<nat>) returns (m: nat)
    requires s != {}
    ensures Order.LeastNumber(m, s) && Order.Numbers(s) == [m] + Order.Numbers(s - {m})
  {
    var keys := Order.Numbers(s);
    m := keys[0];
    assert m in keys;
    forall x | x in s ensures m <= x {
      var k :| 0 <= k < |keys| && keys[k] == x;
    }
    forall n | Order.LeastNumber(n, s) ensures n == m {}
  }

  lemma VniRowsCons(vnis: Vnis, m: nat, rest: seq<nat>)
    requires m in vnis && forall v :: v in rest ==> v in vnis
    ensures forall v :: v in [m] + rest ==> v in vnis
    ensures RowsOfVnis(vnis, [m] + rest) == RowsAt(vnis[m]) + RowsOfVnis(vnis, rest)
  {
    assert ([m] + rest)[1..] == rest;
  }

  lemma LeastNumberLeft(m: nat, m': nat, s: set<nat>, v: nat)
    requires Order.LeastNumber(m, s) && m != v && Order.LeastNumber(m', s - {v})
    ensures m == m' && m in s
  {
    assert m in s - {v};
  }

  lemma {:induction false} VniRowsWithout(vnis: Vnis, s: set<nat>, v: nat)
    requires s <= vnis.Keys && v in vnis && RowsAt(vnis[v]) == []
    ensures RowsOfVnis(vnis, Order.Numbers(s)) == RowsOfVnis(vnis, Order.Numbers(s - {v}))
    decreases |s|
  {
    hide RowsOfVnis, RowsAt, Order.LeastNumber;
    if v !in s {
      assert s - {v} == s;
    } else {
      var m := LeastOfNumbers(s);
      assert m in [m] + Order.Numbers(s - {m});
      VniRowsCons(vnis, m, Order.Numbers(s - {m}));
      if m != v {
        VniRowsWithout(vnis, s - {m}, v);
        var m' := LeastOfNumbers(s - {v});
        LeastNumberLeft(m, m', s, v);
        EitherOrder(s, v, m);
        VniRowsCons(vnis, m, Order.Numbers(s - {m} - {v}));
      }
    }
  }

  lemma DropRows(vnis: Vnis, v: nat)
    requires v in vnis && vnis[v].nics == map[]
    ensures PollList(vnis - {v}) == PollList(vnis)
  {
    hide *;
    NoRowsAt(vnis[v]);
    VniRowsWithout(vnis, vnis.Keys, v);
    assert (vnis - {v}).Keys == vnis.Keys - {v};
    VniRowsAgree(vnis, vnis - {v}, Order.Numbers(vnis.Keys - {v}));
    SameList(vnis, vnis - {v});
  }

  lemma NoRowsAt(g: GraphVni)
    requires g.nics == map[]
    ensures RowsAt(g) == []
  {
    assert g.nics.Keys == {};
  }

  lemma SameList(a: Vnis, b: Vnis)
    requires RowsOfVnis(a, Order.Numbers(a.Keys)) == RowsOfVnis(b, Order.Numbers(b.Keys))
    ensures PollList(a) == PollList(b)
  {}

  // Building the list row by row

  function Zip(vhosts: seq<Brick>, firewalls: seq<Brick>): seq<Polled>
    requires |vhosts| == |firewalls|
  {
    seq(|vhosts|, i requires 0 <= i < |vhosts| => Polled(vhosts[i], firewalls[i]))
  }

  lemma ZipSnoc(vhosts: seq<Brick>, firewalls: seq<Brick>, v: Brick, f: Brick)
    requires |vhosts| == |firewalls|
    ensures Zip(vhosts + [v], firewalls + [f]) == Zip(vhosts, firewalls) + [Polled(v, f)]
  {}

  lemma {:induction false} RowsAppend(nics: map<string, GraphNic>, a: seq<string>, b: seq<string>)
    requires (forall i :: i in a ==> i in nics) && (forall i :: i in b ==> i in nics)
    ensures RowsOf(nics, a + b) == RowsOf(nics, a) + RowsOf(nics, b)
  {
    if a == [] {
      assert a + b == b;
    } else {
      hide RowsOf;
      assert a + b == [a[0]] + (a[1..] + b) && a == [a[0]] + a[1..];
      RowsAppend(nics, a[1..], b);
      RowsCons(nics, a[0], a[1..] + b);
      RowsCons(nics, a[0], a[1..]);
    }
  }

  lemma RowsSnoc(nics: map<string, GraphNic>, ids: seq<string>, b: nat)
    requires b < |ids| && forall i :: i in ids ==> i in nics
    ensures RowsOf(nics, ids[..b + 1]) == RowsOf(nics, ids[..b]) + if nics[ids[b]].enable then [Row(nics[ids[b]])] else []
  {
    assert ids[..b + 1] == ids[..b] + [ids[b]];
    RowsAppend(nics, ids[..b], [ids[b]]);
    RowsCons(nics, ids[b], []);
    assert [ids[b]] + [] == [ids[b]];
  }

  lemma RowsPrefix(nics: map<string, GraphNic>, ids: seq<string>, b: nat)
    requires b <= |ids| && forall i :: i in ids ==> i in nics
    ensures RowsOf(nics, ids[..b]) <= RowsOf(nics, ids)
  {
    assert ids == ids[..b] + ids[b..];
    RowsAppend(nics, ids[..b], ids[b..]);
  }

  lemma HeadFirst<T>(a: seq<T>, b: seq<T>)
    requires a != []
    ensures a + b == [a[0]] + (a[1..] + b) && a == [a[0]] + a[1..]
  {}

  lemma Associative<T>(a: seq<T>, b: seq<T>, c: seq<T>)
    ensures a + (b + c) == a + b + c
  {}

  lemma {:induction false} VniRowsAppend(vnis: Vnis, a: seq<nat>, b: seq<nat>)
    requires (forall v :: v in a ==> v in vnis) && (forall v :: v in b ==> v in vnis)
    ensures RowsOfVnis(vnis, a + b) == RowsOfVnis(vnis, a) + RowsOfVnis(vnis, b)
  {
    if a == [] {
      assert a + b == b;
    } else {
      hide RowsOfVnis, RowsAt;
      HeadFirst(a, b);
      VniRowsAppend(vnis, a[1..], b);
      VniRowsCons(vnis, a[0], a[1..] + b);
      VniRowsCons(vnis, a[0], a[1..]);
      Associative(RowsAt(vnis[a[0]]), RowsOfVnis(vnis, a[1..]), RowsOfVnis(vnis, b));
    }
  }

  lemma VnisSnoc(vnis: Vnis, keys: seq<nat>, a: nat)
    requires a < |keys| && forall v :: v in keys ==> v in vnis
    ensures RowsOfVnis(vnis, keys[..a + 1]) == RowsOfVnis(vnis, keys[..a]) + RowsAt(vnis[keys[a]])
  {
    assert keys[..a + 1] == keys[..a] + [keys[a]];
    VniRowsAppend(vnis, keys[..a], [keys[a]]);
    VniRowsCons(vnis, keys[a], []);
    assert [keys[a]] + [] == [keys[a]];
  }

  /** Handing the list over changes the list and nothing else. */
  lemma PolledMatches(vnis: Vnis, w: World, spare: set<Brick>, loose: set<Edge>, next: nat)
    requires Matches(vnis, w, spare, loose, next)
    ensures Matches(vnis, Exec(w, UpdatePoll(PollList(vnis))), spare, loose, next)
    ensures Exec(w, UpdatePoll(PollList(vnis))) == w.(polled := PollList(vnis))
    ensures !Exec(w, UpdatePoll(PollList(vnis))).faults
  {
    hide AllEdges, AllBricks, WellFormed, Neighbours, PollList;
    PollListBricks(vnis);
    ListBricks(PollList(vnis), AllBricks(vnis));
  }

  lemma ListBricks(list: seq<Polled>, alive: set<Brick>)
    requires ListAlive(list, alive)
    ensures ListedBricks(list) <= alive
  {}
}
