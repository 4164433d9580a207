/**
 Each reshaping of a VNI, as the sequence of graph operations that performs it: the graph of the VNIs
 before becomes the graph of the VNIs after.
 */
module Transitions {
  import opened Base
  import opened Bricks
  import opened Topology

  // One VNI and the rest

  ghost function EdgesAt(vnis: Vnis, v: nat): set<Edge> {
    if v in vnis then VniEdges(vnis[v]) else {}
  }

  ghost function BricksAt(vnis: Vnis, v: nat): set<Brick> {
    if v in vnis then VniBricks(vnis[v]) else {}
  }

  lemma WithoutVni(vnis: Vnis, v: nat, next: nat)
    requires WellFormed(vnis, next)
    ensures WellFormed(vnis - {v}, next)
    ensures AllEdges(vnis) == AllEdges(vnis - {v}) + EdgesAt(vnis, v)
    ensures AllBricks(vnis) == AllBricks(vnis - {v}) + BricksAt(vnis, v)
    ensures BricksAt(vnis, v) !! AllBricks(vnis - {v})
  {
    if v in vnis {
      SplitEdges(vnis, v);
      SplitBricks(vnis, v);
      RestDisjoint(vnis, v, next);
    } else {
      assert vnis - {v} == vnis;
    }
  }

  lemma WithVni(vnis: Vnis, v: nat, g: GraphVni, next: nat)
    requires WellFormed(vnis - {v}, next) && WellFormedVni(v, g, next)
    requires VniBricks(g) !! AllBricks(vnis - {v})
    ensures WellFormed(vnis[v := g], next)
    ensures AllEdges(vnis[v := g]) == AllEdges(vnis - {v}) + VniEdges(g)
    ensures AllBricks(vnis[v := g]) == AllBricks(vnis - {v}) + VniBricks(g)
  {
    hide VniEdges, VniBricks, AllEdges, AllBricks;
    ReplaceEdges(vnis, v, g);
    ReplaceBricks(vnis, v, g);
    var rest := vnis - {v};
    var vnis' := vnis[v := g];
    forall a | a in vnis' ensures WellFormedVni(a, vnis'[a], next) {
      if a != v { assert a in rest && rest[a] == vnis'[a]; }
    }
    forall a, b | a in vnis' && b in vnis' && a != b
      ensures VniBricks(vnis'[a]) !! VniBricks(vnis'[b])
    {
      if a == v {
        SplitBricks(rest, b);
      } else if b == v {
        SplitBricks(rest, a);
      } else {
        assert a in rest && b in rest;
      }
    }
  }

  /** What the VTEP's table says of one VNI. */
  ghost predicate NeighbourAt(g: GraphVni, v: nat, m: map<nat, Brick>) {
    && (v in m <==> g.nics != map[])
    && (v in m && g.sw.Some? ==> m[v] == Switch(g.sw.value))
    && (forall i :: v in m && g.sw.None? && i in g.nics ==> m[v] == Head(g.nics[i]))
  }

  /** A change confined to one VNI: if the pieces fit, the whole fits. */
  lemma Confined(vnis: Vnis, v: nat, w: World, g: GraphVni, w': World,
                 spare: set<Brick>, loose: set<Edge>, spare': set<Brick>, loose': set<Edge>, next: nat)
    requires Matches(vnis, w, spare, loose, next)
    requires WellFormedVni(v, g, next)
    requires w'.edges == AllEdges(vnis - {v}) + VniEdges(g) + loose'
    requires w'.alive == w.alive
    requires BricksAt(vnis, v) + spare == VniBricks(g) + spare'
    requires VniBricks(g) !! spare' && KeysBelow(spare', next)
    requires forall e :: e in loose' ==> e.0 in spare' && e.1 in spare'
    requires w'.neighbours - {v} == w.neighbours - {v} && NeighbourAt(g, v, w'.neighbours)
    requires w'.written == w.written && w'.polled == w.polled && !w'.errors && !w'.faults
    ensures Matches(vnis[v := g], w', spare', loose', next)
  {
    hide VniEdges, VniBricks, AllEdges, AllBricks, WellFormed, WellFormedVni, Neighbours, NeighbourAt;
    WithoutVni(vnis, v, next);
    var pool := BricksAt(vnis, v) + spare;
    assert pool !! AllBricks(vnis - {v});
    WithVni(vnis, v, g, next);
    NeighboursConfined(vnis, v, w.neighbours, g, w'.neighbours);
  }

  lemma NeighboursConfined(vnis: Vnis, v: nat, m: map<nat, Brick>, g: GraphVni, m': map<nat, Brick>)
    requires Neighbours(vnis, m)
    requires m' - {v} == m - {v} && NeighbourAt(g, v, m')
    ensures Neighbours(vnis[v := g], m')
  {
    hide Head;
    ElsewhereSame(m, m', v);
  }

  lemma ElsewhereSame(m: map<nat, Brick>, m': map<nat, Brick>, v: nat)
    requires m' - {v} == m - {v}
    ensures forall u :: u != v ==> (u in m' <==> u in m) && (u in m' ==> m'[u] == m[u])
  {
    forall u | u != v ensures (u in m' <==> u in m) && (u in m' ==> m'[u] == m[u]) {
      assert u in m' <==> u in m' - {v};
      assert u in m <==> u in m - {v};
      if u in m' { assert m'[u] == (m' - {v})[u]; }
    }
  }

  // Bricks in the making

  lemma CreateSpare(vnis: Vnis, w: World, spare: set<Brick>, loose: set<Edge>, next: nat, b: Brick)
    requires Matches(vnis, w, spare, loose, next)
    requires !b.Port? && !b.Vtep? && b.key < next && b !in w.alive
    ensures Matches(vnis, Create(w, b), spare + {b}, loose, next)
  {}

  lemma LinkSpare(vnis: Vnis, w: World, spare: set<Brick>, loose: set<Edge>, next: nat, a: Brick, b: Brick)
    requires Matches(vnis, w, spare, loose, next)
    requires a in spare && b in spare && (a, b) !in loose
    ensures Matches(vnis, Connect(w, a, b), spare, loose + {(a, b)}, next)
  {
    if (a, b) in AllEdges(vnis) { EdgesTouch(vnis, (a, b)); }
  }

  lemma FreeSpare(vnis: Vnis, w: World, spare: set<Brick>, loose: set<Edge>, next: nat, b: Brick)
    requires Matches(vnis, w, spare, loose, next)
    requires b in spare && ListAlive(w.polled, w.alive - {b})
    ensures Matches(vnis, Free(w, b), spare - {b}, Without(loose, b), next)
  {
    RestUntouched(vnis, b);
    assert Without(w.edges, b) == Without(AllEdges(vnis), b) + Without(loose, b);
    NotNeighbour(vnis, w.neighbours, b);
  }

  lemma HeadInVni(g: GraphVni, i: string)
    requires i in g.nics
    ensures Head(g.nics[i]) in VniBricks(g)
  {
    hide VniBricks;
    SplitNicBricks(g, i);
  }

  lemma SwitchInVni(g: GraphVni)
    ensures SwitchBricks(g.sw) <= VniBricks(g) && SwitchEdges(g.sw) <= VniEdges(g)
  {}

  /** What the VTEP's table holds for a VNI is one of the VNI's own bricks. */
  lemma TableEntry(vnis: Vnis, m: map<nat, Brick>, v: nat)
    requires Neighbours(vnis, m) && v in m
    ensures v in vnis && m[v] in VniBricks(vnis[v])
  {
    hide VniBricks;
    var g := vnis[v];
    if g.sw.None? {
      assert g.nics.Keys != {};
      var i :| i in g.nics.Keys;
      HeadInVni(g, i);
    } else {
      SwitchInVni(g);
    }
  }

  lemma NotNeighbour(vnis: Vnis, m: map<nat, Brick>, b: Brick)
    requires Neighbours(vnis, m) && b !in AllBricks(vnis)
    ensures Forget(m, b) == m
  {
    hide Neighbours, VniBricks, AllBricks;
    forall v | v in m ensures m[v] != b {
      TableEntry(vnis, m, v);
      SplitBricks(vnis, v);
    }
  }

  lemma MoreKeys(vnis: Vnis, w: World, spare: set<Brick>, loose: set<Edge>, next: nat, next': nat)
    requires Matches(vnis, w, spare, loose, next) && next <= next'
    ensures Matches(vnis, w, spare, loose, next')
  {
    forall v | v in vnis ensures WellFormedVni(v, vnis[v], next') {
      assert WellFormedVni(v, vnis[v], next);
    }
  }

  lemma FreshKey(vnis: Vnis, w: World, spare: set<Brick>, loose: set<Edge>, next: nat)
    requires Matches(vnis, w, spare, loose, next)
    ensures KeysBelow(w.alive, next)
  {
    BricksBelow(vnis, next);
  }

  // What an operation does when nothing is wrong

  ghost predicate Healthy(w: World) {
    !w.errors && !w.faults && ListAlive(w.polled, w.alive)
  }

  lemma ConnectOk(w: World, a: Brick, b: Brick)
    requires Healthy(w) && a in w.alive && b in w.alive && (a, b) !in w.edges
    ensures Connect(w, a, b) == w.(edges := w.edges + {(a, b)})
  {}

  lemma AnnounceOk(w: World, b: Brick, v: nat)
    requires Healthy(w) && Vtep in w.alive && b in w.alive && (Vtep, b) in w.edges
    ensures Announce(w, b, v) == w.(neighbours := w.neighbours[v := b])
  {}

  lemma CutOk(w: World, b: Brick)
    requires Healthy(w) && Vtep in w.alive && b in w.alive && (Vtep, b) in w.edges
    ensures Cut(w, Vtep, b) == w.(edges := w.edges - {(Vtep, b)}, neighbours := Forget(w.neighbours, b))
  {}

  lemma IsolateOk(w: World, b: Brick)
    requires Healthy(w) && b in w.alive && !b.Vtep?
    ensures Isolate(w, b) == w.(edges := Without(w.edges, b), neighbours := Forget(w.neighbours, b))
  {}

  // Rearranging sums

  lemma Regroup<T>(rest: set<T>, none: set<T>, a: set<T>, b: set<T>)
    requires none == {}
    ensures rest + none + a + b == rest + (a + b) + {}
  {}

  lemma Swap<T>(a: set<T>, b: set<T>, none: set<T>)
    requires none == {}
    ensures none + (a + b) == b + a
  {}

  lemma SameElsewhere(m: map<nat, Brick>, v: nat, b: Brick)
    ensures m[v := b] - {v} == m - {v}
  {}

  // Attaching a branch

  ghost function AttachFirst(w: World, n: GraphNic, v: nat): World {
    Announce(Connect(w, Vtep, Head(n)), Head(n), v)
  }

  ghost function AttachSecond(w: World, first: GraphNic, k: nat, n: GraphNic, v: nat): World {
    var cut := Cut(w, Vtep, Head(first));
    var switched := Announce(Connect(cut, Vtep, Switch(k)), Switch(k), v);
    Connect(Connect(switched, Switch(k), Head(first)), Switch(k), Head(n))
  }

  ghost function AttachMore(w: World, k: nat, n: GraphNic): World {
    Connect(w, Switch(k), Head(n))
  }

  /** A branch in the making: `n` is among the spare bricks, linked up, and hangs off nothing. */
  ghost predicate Ready(vnis: Vnis, w: World, n: GraphNic, leaked: set<Brick>, next: nat) {
    && NicBricks(n) !! leaked
    && n.key < next
    && Matches(vnis, w, leaked + NicBricks(n), Branch(n), next)
  }

  lemma FreshNicKey(g: GraphVni, n: GraphNic)
    requires NicBricks(n) !! VniBricks(g)
    ensures forall i :: i in g.nics ==> g.nics[i].key != n.key
  {
    hide VniBricks;
    forall i | i in g.nics ensures g.nics[i].key != n.key {
      SplitNicBricks(g, i);
      assert Firewall(n.key) !in NicBricks(g.nics[i]);
    }
  }

  lemma NoEdgeAt(vnis: Vnis, b: Brick)
    requires b !in AllBricks(vnis)
    ensures forall e :: e in AllEdges(vnis) ==> e.0 != b && e.1 != b
  {
    hide AllEdges, AllBricks;
    forall e | e in AllEdges(vnis) ensures e.0 != b && e.1 != b { EdgesTouch(vnis, e); }
  }

  lemma HeadOfBranch(n: GraphNic)
    ensures Head(n) in NicBricks(n) && Vtep !in NicBricks(n) && Port !in NicBricks(n)
    ensures forall e :: e in Branch(n) ==> e.0 in NicBricks(n) && e.1 in NicBricks(n)
    ensures forall k: nat :: Switch(k) !in NicBricks(n)
  {}

  lemma Trunk(vnis: Vnis)
    ensures Port in AllBricks(vnis) && Vtep in AllBricks(vnis)
    ensures (Port, Vtep) in AllEdges(vnis)
  {}

  function Joined(g: GraphVni, n: GraphNic): GraphVni {
    g.(nics := g.nics[n.id := n])
  }

  lemma OneNicWellFormed(v: nat, n: GraphNic, next: nat)
    requires n.key < next
    ensures WellFormedVni(v, GraphVni(v, None, map[n.id := n]), next)
  {
    assert |map[n.id := n]| == 1;
  }

  lemma ReadyFacts(vnis: Vnis, w: World, n: GraphNic, leaked: set<Brick>, next: nat)
    requires Ready(vnis, w, n, leaked, next)
    ensures WellFormed(vnis, next)
    ensures Matches(vnis, w, leaked + NicBricks(n), Branch(n), next)
    ensures Healthy(w) && Vtep in w.alive && NicBricks(n) <= w.alive
    ensures w.edges == AllEdges(vnis) + Branch(n)
    ensures NicBricks(n) !! AllBricks(vnis) && leaked !! AllBricks(vnis) && NicBricks(n) !! leaked
    ensures KeysBelow(leaked, next) && n.key < next
  {
    Trunk(vnis);
  }

  lemma OneNicNeighbour(v: nat, n: GraphNic, m: map<nat, Brick>)
    requires v in m && m[v] == Head(n)
    ensures NeighbourAt(GraphVni(v, None, map[n.id := n]), v, m)
  {
    var nics := map[n.id := n];
    assert n.id in nics;
  }

  lemma AttachFirstOk(w: World, n: GraphNic, v: nat)
    requires Healthy(w) && Vtep in w.alive && Head(n) in w.alive && (Vtep, Head(n)) !in w.edges
    ensures AttachFirst(w, n, v)
         == w.(edges := w.edges + {(Vtep, Head(n))}, neighbours := w.neighbours[v := Head(n)])
  {
    hide Head;
    ConnectOk(w, Vtep, Head(n));
    AnnounceOk(Connect(w, Vtep, Head(n)), Head(n), v);
  }

  lemma AttachFirstMatches(vnis: Vnis, w: World, n: GraphNic, leaked: set<Brick>, next: nat, v: nat)
    requires Ready(vnis, w, n, leaked, next)
    requires v in vnis ==> vnis[v].nics == map[]
    ensures Matches(vnis[v := GraphVni(v, None, map[n.id := n])], AttachFirst(w, n, v), leaked, {}, next)
  {
    hide *;
    var g := GraphVni(v, None, map[n.id := n]);
    ReadyFacts(vnis, w, n, leaked, next);
    OneNicWellFormed(v, n, next);
    EmptyVni(vnis, v, next);
    WithoutVni(vnis, v, next);
    OneNicEdges(v, n);
    HeadOfBranch(n);
    NoEdgeAt(vnis, Head(n));
    AttachFirstOk(w, n, v);
    var w' := w.(edges := w.edges + {(Vtep, Head(n))}, neighbours := w.neighbours[v := Head(n)]);
    OneNicNeighbour(v, n, w'.neighbours);
    Regroup(AllEdges(vnis - {v}), EdgesAt(vnis, v), Branch(n), {(Vtep, Head(n))});
    Swap(leaked, NicBricks(n), BricksAt(vnis, v));
    SameElsewhere(w.neighbours, v, Head(n));
    Confined(vnis, v, w, g, w', leaked + NicBricks(n), Branch(n), leaked, {}, next);
  }

  lemma OneNicEdges(v: nat, n: GraphNic)
    ensures VniEdges(GraphVni(v, None, map[n.id := n])) == Branch(n) + {(Vtep, Head(n))}
    ensures VniBricks(GraphVni(v, None, map[n.id := n])) == NicBricks(n)
  {
    hide VniEdges, VniBricks;
    var empty := GraphVni(v, None, map[]);
    NoNics(empty);
    JoinEdges(empty, n);
    JoinBricks(empty, n);
    assert Joined(empty, n) == GraphVni(v, None, map[n.id := n]);
  }

  lemma EmptyVni(vnis: Vnis, v: nat, next: nat)
    requires WellFormed(vnis, next)
    requires v in vnis ==> vnis[v].nics == map[]
    ensures EdgesAt(vnis, v) == {} && BricksAt(vnis, v) == {}
  {
    if v in vnis {
      assert WellFormedVni(v, vnis[v], next);
      NoNics(vnis[v]);
    }
  }

  /** Only VNI `v` can have one of its own bricks in the VTEP's table. */
  lemma OnlyHere(vnis: Vnis, v: nat, next: nat, m: map<nat, Brick>, b: Brick)
    requires WellFormed(vnis, next) && Neighbours(vnis, m) && v in vnis && b in VniBricks(vnis[v])
    ensures Forget(m, b) - {v} == m - {v}
  {
    hide AllBricks, VniBricks, AllEdges, VniEdges, WellFormed, Neighbours, EdgesAt;
    WithoutVni(vnis, v, next);
    forall u | u in m && u != v ensures m[u] != b {
      TableEntry(vnis, m, u);
      SplitBricks(vnis - {v}, u);
    }
  }

  lemma AttachSecondOk(w: World, first: GraphNic, k: nat, n: GraphNic, v: nat)
    requires Healthy(w) && {Vtep, Head(first), Switch(k), Head(n)} <= w.alive
    requires (Vtep, Head(first)) in w.edges && Head(first) != Head(n)
    requires forall e :: e in w.edges ==> e.0 != Switch(k) && e.1 != Switch(k)
    ensures AttachSecond(w, first, k, n, v)
         == w.(edges := w.edges - {(Vtep, Head(first))} + {(Vtep, Switch(k))} + {(Switch(k), Head(first))} + {(Switch(k), Head(n))},
               neighbours := Forget(w.neighbours, Head(first))[v := Switch(k)])
  {
    HeadOfBranch(first);
    HeadOfBranch(n);
    hide Head, NicBricks, Touch, Cut, Connect, Announce;
    CutOk(w, Head(first));
    var w1 := Cut(w, Vtep, Head(first));
    ConnectOk(w1, Vtep, Switch(k));
    var w2 := Connect(w1, Vtep, Switch(k));
    AnnounceOk(w2, Switch(k), v);
    var w3 := Announce(w2, Switch(k), v);
    ConnectOk(w3, Switch(k), Head(first));
    var w4 := Connect(w3, Switch(k), Head(first));
    ConnectOk(w4, Switch(k), Head(n));
  }

  lemma TwoNicEdges(v: nat, g: GraphVni, i: string, k: nat, n: GraphNic)
    requires i in g.nics && |g.nics| == 1 && n.id !in g.nics && g.sw.None?
    ensures VniEdges(g) == Branch(g.nics[i]) + {(Vtep, Head(g.nics[i]))}
    ensures VniBricks(g) == NicBricks(g.nics[i])
    ensures VniEdges(GraphVni(v, Some(k), g.nics[n.id := n]))
         == Branch(n) + {(Switch(k), Head(n))} + (Branch(g.nics[i]) + {(Switch(k), Head(g.nics[i]))} + {(Vtep, Switch(k))})
    ensures VniBricks(GraphVni(v, Some(k), g.nics[n.id := n])) == NicBricks(n) + (NicBricks(g.nics[i]) + {Switch(k)})
  {
    hide VniEdges, VniBricks, Branch, Head, NicBricks;
    SingleNic(g, i);
    SplitNicEdges(g, i);
    SplitNicBricks(g, i);
    NoNics(g.(nics := g.nics - {i}));
    var g1 := GraphVni(v, Some(k), g.nics);
    SplitNicEdges(g1, i);
    SplitNicBricks(g1, i);
    NoNics(g1.(nics := g.nics - {i}));
    JoinEdges(g1, n);
    JoinBricks(g1, n);
    assert Joined(g1, n) == GraphVni(v, Some(k), g.nics[n.id := n]);
  }

  lemma JoinedWellFormed(v: nat, g: GraphVni, sw: Option<nat>, n: GraphNic, next: nat)
    requires WellFormedVni(v, g, next) && n.id !in g.nics && |g.nics| >= 1 && sw.Some? && sw.value < next
    requires n.key < next && NicBricks(n) !! VniBricks(g)
    ensures WellFormedVni(v, GraphVni(v, sw, g.nics[n.id := n]), next)
  {
    FreshNicKey(g, n);
    OneMoreKey(g.nics, n.id, n);
    hide VniBricks, NicBricks;
  }

  lemma OneMoreKey<T>(m: map<string, T>, k: string, x: T)
    requires k !in m
    ensures |m[k := x]| == |m| + 1
  {
    assert m[k := x].Keys == m.Keys + {k};
  }

  lemma SwitchNeighbour(v: nat, k: nat, nics: map<string, GraphNic>, id: string, m: map<nat, Brick>)
    requires v in m && m[v] == Switch(k) && id in nics
    ensures NeighbourAt(GraphVni(v, Some(k), nics), v, m)
  {}

  lemma RegroupSecond<T>(r: set<T>, b1: set<T>, x: T, b: set<T>, y1: T, y2: T, y3: T)
    requires x !in r && x !in b1 && x !in b
    ensures r + (b1 + {x}) + b - {x} + {y1} + {y2} + {y3} == r + (b + {y3} + (b1 + {y2} + {y1})) + {}
  {}

  lemma RegroupBricks<T>(b1: set<T>, leaked: set<T>, s: set<T>, b: set<T>)
    ensures b1 + (leaked + s + b) == b + (b1 + s) + leaked
  {}

  lemma SecondNeighbours(m: map<nat, Brick>, v: nat, h: Brick, s: Brick)
    requires Forget(m, h) - {v} == m - {v}
    ensures Forget(m, h)[v := s] - {v} == m - {v}
  {
    assert Forget(m, h)[v := s] - {v} == Forget(m, h) - {v};
  }

  lemma NotMine(r: set<Edge>, n: GraphNic, first: GraphNic, bricks: set<Brick>)
    requires forall e :: e in r ==> e.1 in bricks
    requires Head(first) !in bricks
    ensures (Vtep, Head(first)) !in r && (Vtep, Head(first)) !in Branch(first) && (Vtep, Head(first)) !in Branch(n)
  {}

  lemma AttachSecondMatches(vnis: Vnis, w: World, i: string, k: nat, n: GraphNic, leaked: set<Brick>, next: nat, v: nat)
    requires Ready(vnis, w, n, leaked + {Switch(k)}, next) && Switch(k) !in leaked
    requires v in vnis && |vnis[v].nics| == 1 && i in vnis[v].nics && n.id !in vnis[v].nics
    ensures Matches(vnis[v := GraphVni(v, Some(k), vnis[v].nics[n.id := n])],
                    AttachSecond(w, vnis[v].nics[i], k, n, v), leaked, {}, next)
  {
    var g := vnis[v];
    var first := g.nics[i];
    assert WellFormedVni(v, g, next) && KeysBelow(leaked, next) && k < next by { assert Switch(k) in leaked + {Switch(k)}; }
    assert g.sw.None?;
    assert Neighbours(vnis, w.neighbours);
    hide *;
    ReadyFacts(vnis, w, n, leaked + {Switch(k)}, next);
    WithoutVni(vnis, v, next);
    AtKnown(vnis, v);
    TwoNicEdges(v, g, i, k, n);
    HeadOfBranch(n);
    HeadOfBranch(first);
    NoEdgeAt(vnis, Switch(k));
    OnlyHere(vnis, v, next, w.neighbours, Head(first));
    AttachSecondOk(w, first, k, n, v);
    var g' := GraphVni(v, Some(k), g.nics[n.id := n]);
    var w' := AttachSecond(w, first, k, n, v);
    JoinedWellFormed(v, g, Some(k), n, next);
    SwitchNeighbour(v, k, g'.nics, n.id, w'.neighbours);
    EastEnds(vnis - {v});
    NotMine(AllEdges(vnis - {v}), n, first, AllBricks(vnis - {v}));
    RegroupSecond(AllEdges(vnis - {v}), Branch(first), (Vtep, Head(first)), Branch(n),
                  (Vtep, Switch(k)), (Switch(k), Head(first)), (Switch(k), Head(n)));
    RegroupBricks(NicBricks(first), leaked, {Switch(k)}, NicBricks(n));
    SecondNeighbours(w.neighbours, v, Head(first), Switch(k));
    Confined(vnis, v, w, g', w', leaked + {Switch(k)} + NicBricks(n), Branch(n), leaked, {}, next);
  }

  lemma AtKnown(vnis: Vnis, v: nat)
    requires v in vnis
    ensures EdgesAt(vnis, v) == VniEdges(vnis[v]) && BricksAt(vnis, v) == VniBricks(vnis[v])
    ensures VniBricks(vnis[v]) <= AllBricks(vnis)
  {
    hide VniBricks, VniEdges, AllBricks;
    SplitBricks(vnis, v);
  }

  lemma EastEnds(vnis: Vnis)
    ensures forall e :: e in AllEdges(vnis) ==> e.0 in AllBricks(vnis) && e.1 in AllBricks(vnis)
  {
    hide AllEdges, AllBricks;
    forall e | e in AllEdges(vnis) ensures e.0 in AllBricks(vnis) && e.1 in AllBricks(vnis) { EdgesTouch(vnis, e); }
  }

  lemma AttachMoreMatches(vnis: Vnis, w: World, n: GraphNic, leaked: set<Brick>, next: nat, v: nat)
    requires Ready(vnis, w, n, leaked, next)
    requires v in vnis && |vnis[v].nics| >= 2 && n.id !in vnis[v].nics
    ensures vnis[v].sw.Some?
    ensures Matches(vnis[v := Joined(vnis[v], n)], AttachMore(w, vnis[v].sw.value, n), leaked, {}, next)
  {
    hide *;
    SwitchedVni(vnis, w, n, leaked, next, v);
    var g, k := vnis[v], vnis[v].sw.value;
    var g' := Joined(g, n);
    ReadyFacts(vnis, w, n, leaked, next);
    WithoutVni(vnis, v, next);
    AtKnown(vnis, v);
    JoinEdges(g, n);
    JoinBricks(g, n);
    HeadOfBranch(n);
    NoEdgeAt(vnis, Head(n));
    AttachMoreOk(w, k, n);
    var w' := AttachMore(w, k, n);
    JoinedWellFormed(v, g, g.sw, n, next);
    SwitchNeighbour(v, k, g'.nics, n.id, w'.neighbours) by { SwitchEntry(g, v, w.neighbours); }
    RegroupMore(AllEdges(vnis - {v}), VniEdges(g), Branch(n), {(Switch(k), Head(n))});
    RegroupJoin(VniBricks(g), leaked, NicBricks(n));
    Confined(vnis, v, w, g', w', leaked + NicBricks(n), Branch(n), leaked, {}, next);
  }

  /** What is known of a VNI that has its switch already. */
  lemma SwitchedVni(vnis: Vnis, w: World, n: GraphNic, leaked: set<Brick>, next: nat, v: nat)
    requires Ready(vnis, w, n, leaked, next)
    requires v in vnis && |vnis[v].nics| >= 2 && n.id !in vnis[v].nics
    ensures var g := vnis[v];
            && g.sw.Some? && g.sw.value < next && g.vni == v && g.nics != map[] && WellFormedVni(v, g, next)
            && NeighbourAt(g, v, w.neighbours)
            && Joined(g, n) == GraphVni(v, g.sw, g.nics[n.id := n])
            && Switch(g.sw.value) in VniBricks(g)
            && NicEdges(g.sw, n) == Branch(n) + {(Switch(g.sw.value), Head(n))}
  {
    hide AllEdges, AllBricks, VniBricks, Branch, Head;
    var g := vnis[v];
    assert WellFormedVni(v, g, next);
    assert Neighbours(vnis, w.neighbours);
    SwitchInVni(g);
  }

  lemma SwitchEntry(g: GraphVni, v: nat, m: map<nat, Brick>)
    requires NeighbourAt(g, v, m) && g.nics != map[] && g.sw.Some?
    ensures v in m && m[v] == Switch(g.sw.value)
  {}

  lemma AttachMoreOk(w: World, k: nat, n: GraphNic)
    requires Healthy(w) && Switch(k) in w.alive && Head(n) in w.alive && (Switch(k), Head(n)) !in w.edges
    ensures AttachMore(w, k, n) == w.(edges := w.edges + {(Switch(k), Head(n))})
  {
    hide Head;
    ConnectOk(w, Switch(k), Head(n));
  }

  lemma RegroupMore<T>(r: set<T>, e: set<T>, b: set<T>, y: set<T>)
    ensures r + e + b + y == r + (b + y + e) + {}
  {}

  lemma RegroupJoin<T>(g: set<T>, leaked: set<T>, b: set<T>)
    ensures g + (leaked + b) == b + g + leaked
  {}

  lemma FreeSpareAtRest(vnis: Vnis, w: World, spare: set<Brick>, loose: set<Edge>, next: nat, b: Brick)
    requires Matches(vnis, w, spare, loose, next)
    requires b in spare && ListAlive(w.polled, AllBricks(vnis))
    ensures Matches(vnis, Free(w, b), spare - {b}, Without(loose, b), next)
  {
    hide AllEdges, AllBricks, WellFormed, Neighbours;
    FreeSpare(vnis, w, spare, loose, next, b);
  }

  /** The poller allocates the firewall of a branch. */
  lemma FirewallCreated(vnis: Vnis, w: World, leaked: set<Brick>, next: nat)
    requires AtRest(vnis, w, leaked, next)
    ensures Matches(vnis, Exec(w, FwNew(next, true)), leaked + {Firewall(next)}, {}, next + 1)
    ensures Matches(vnis, Exec(w, FwNew(next, false)), leaked, {}, next + 1)
    ensures next !in w.written
  {
    hide AllEdges, AllBricks, WellFormed, Neighbours;
    FreshKey(vnis, w, leaked, {}, next);
    MoreKeys(vnis, w, leaked, {}, next, next + 1);
    var w' := w.(written := w.written + {next});
    assert Firewall(next) !in w'.alive;
    assert Matches(vnis, w', leaked, {}, next + 1);
    CreateSpare(vnis, w', leaked, {}, next + 1, Firewall(next));
  }

  // Detaching a branch

  /** From a switch that keeps at least two heads, or from the VTEP, which keeps none. */
  ghost function DetachHead(w: World, n: GraphNic): World {
    Isolate(w, Head(n))
  }

  /** The switch goes; the other head takes its place at the VTEP. */
  ghost function DetachPair(w: World, k: nat, other: GraphNic, v: nat): World {
    Announce(Connect(Isolate(w, Switch(k)), Vtep, Head(other)), Head(other), v)
  }

  function Left(g: GraphVni, id: string): GraphVni {
    g.(nics := g.nics - {id})
  }

  lemma WithoutSum(a: set<Edge>, b: set<Edge>, x: Brick)
    ensures Without(a + b, x) == Without(a, x) + Without(b, x)
  {}

  lemma WithoutNone(a: set<Edge>, x: Brick)
    requires forall e :: e in a ==> e.0 != x && e.1 != x
    ensures Without(a, x) == a
  {}

  lemma VniUntouched(g: GraphVni, x: Brick)
    requires x !in VniBricks(g) && x != Vtep
    ensures Without(VniEdges(g), x) == VniEdges(g)
  {
    hide VniEdges, VniBricks;
    forall e | e in VniEdges(g) ensures e.0 != x && e.1 != x { VniEdgesTouch(g, e); }
  }

  lemma NicsDisjoint(v: nat, g: GraphVni, id: string, next: nat)
    requires WellFormedVni(v, g, next) && id in g.nics
    ensures NicBricks(g.nics[id]) !! VniBricks(Left(g, id))
  {
    var n := g.nics[id];
    forall b | b in NicBricks(n) ensures b !in VniBricks(Left(g, id)) {
      if b in VniBricks(Left(g, id)) {
        var i := NicBrickKey(Left(g, id).nics, b);
      }
    }
  }

  lemma LeftWellFormed(v: nat, g: GraphVni, id: string, next: nat)
    requires WellFormedVni(v, g, next) && id in g.nics && |g.nics| != 2
    ensures WellFormedVni(v, Left(g, id), next)
  {
    assert (g.nics - {id}).Keys == g.nics.Keys - {id};
  }

  lemma HeadsEdge(sw: Option<nat>, n: GraphNic)
    ensures Without(NicEdges(sw, n), Head(n)) == Without(Branch(n), Head(n))
  {}

  ghost predicate AtRest(vnis: Vnis, w: World, leaked: set<Brick>, next: nat) {
    Matches(vnis, w, leaked, {}, next)
  }

  lemma AtRestFacts(vnis: Vnis, w: World, leaked: set<Brick>, next: nat)
    requires AtRest(vnis, w, leaked, next)
    ensures WellFormed(vnis, next) && Matches(vnis, w, leaked, {}, next)
    ensures Healthy(w) && Vtep in w.alive && AllBricks(vnis) <= w.alive
    ensures w.edges == AllEdges(vnis)
    ensures leaked !! AllBricks(vnis) && KeysBelow(leaked, next)
    ensures Neighbours(vnis, w.neighbours)
  {
    Trunk(vnis);
    hide AllEdges, AllBricks, WellFormed, Neighbours;
    assert w.edges == AllEdges(vnis) + {};
  }

  lemma BricksKeys(n: GraphNic, leaked: set<Brick>, next: nat)
    requires n.key < next && KeysBelow(leaked, next)
    ensures KeysBelow(leaked + NicBricks(n), next)
  {}

  lemma LooseBranch(n: GraphNic, b: Brick)
    ensures forall e :: e in Without(Branch(n), b) ==> e.0 in NicBricks(n) && e.1 in NicBricks(n)
  {}

  lemma DetachHeadMatches(vnis: Vnis, w: World, id: string, leaked: set<Brick>, next: nat, v: nat)
    requires AtRest(vnis, w, leaked, next)
    requires v in vnis && id in vnis[v].nics && |vnis[v].nics| != 2
    ensures
      var n := vnis[v].nics[id];
      Matches(vnis[v := Left(vnis[v], id)], DetachHead(w, n), leaked + NicBricks(n), Without(Branch(n), Head(n)), next)
  {
    var g := vnis[v];
    var n := g.nics[id];
    var g' := Left(g, id);
    assert WellFormedVni(v, g, next);
    assert n.key < next;
    DetachedNeighbour(vnis, v, id, w.neighbours, next);
    hide *;
    AtRestFacts(vnis, w, leaked, next);
    WithoutVni(vnis, v, next);
    AtKnown(vnis, v);
    LeftIs(g, id);
    SplitNicEdges(g, id);
    SplitNicBricks(g, id);
    NicsDisjoint(v, g, id, next);
    LeftWellFormed(v, g, id, next);
    HeadOfBranch(n);
    DetachHeadOk(w, n);
    var w' := DetachHead(w, n);
    BricksKeys(n, leaked, next);
    OnlyHere(vnis, v, next, w.neighbours, Head(n));
    NoEdgeAt(vnis - {v}, Head(n));
    WithoutNone(AllEdges(vnis - {v}), Head(n));
    VniUntouched(g', Head(n));
    HeadsEdge(g.sw, n);
    WithoutSum(AllEdges(vnis - {v}), VniEdges(g), Head(n));
    WithoutSum(NicEdges(g.sw, n), VniEdges(g'), Head(n));
    LooseBranch(n, Head(n));
    RegroupLeft(AllEdges(vnis - {v}), Without(Branch(n), Head(n)), VniEdges(g'));
    RegroupLeftBricks(NicBricks(n), VniBricks(g'), leaked);
    DisjointSum(VniBricks(g'), leaked, NicBricks(n));
    Confined(vnis, v, w, g', w', leaked, {}, leaked + NicBricks(n), Without(Branch(n), Head(n)), next);
  }

  lemma LeftIs(g: GraphVni, id: string)
    ensures Left(g, id) == g.(nics := g.nics - {id})
  {}

  lemma DetachHeadOk(w: World, n: GraphNic)
    requires Healthy(w) && Head(n) in w.alive
    ensures DetachHead(w, n) == w.(edges := Without(w.edges, Head(n)), neighbours := Forget(w.neighbours, Head(n)))
  {
    IsolateOk(w, Head(n));
  }

  lemma RegroupLeft<T>(r: set<T>, a: set<T>, b: set<T>)
    ensures r + (a + b) == r + b + a
  {}

  lemma RegroupLeftBricks<T>(a: set<T>, b: set<T>, leaked: set<T>)
    ensures a + b + leaked == b + (leaked + a)
  {}

  lemma DisjointSum<T>(a: set<T>, b: set<T>, c: set<T>)
    requires a !! b && a !! c
    ensures a !! b + c
  {}

  lemma DetachedNeighbour(vnis: Vnis, v: nat, id: string, m: map<nat, Brick>, next: nat)
    requires WellFormed(vnis, next) && Neighbours(vnis, m)
    requires v in vnis && id in vnis[v].nics && |vnis[v].nics| != 2
    ensures NeighbourAt(Left(vnis[v], id), v, Forget(m, Head(vnis[v].nics[id])))
  {
    hide VniBricks, Head, Left, NeighbourAt;
    var g := vnis[v];
    assert WellFormedVni(v, g, next);
    assert v in m && (g.sw.Some? ==> m[v] == Switch(g.sw.value));
    assert g.sw.None? ==> m[v] == Head(g.nics[id]);
    DetachedEntry(g, v, id, m);
  }

  lemma DetachedEntry(g: GraphVni, v: nat, id: string, m: map<nat, Brick>)
    requires id in g.nics && |g.nics| != 2 && (|g.nics| >= 2 <==> g.sw.Some?)
    requires v in m && m[v] == if g.sw.Some? then Switch(g.sw.value) else Head(g.nics[id])
    ensures NeighbourAt(Left(g, id), v, Forget(m, Head(g.nics[id])))
  {
    assert (g.nics - {id}).Keys == g.nics.Keys - {id};
    if g.sw.None? {
      SingleNic(g, id);
    } else {
      assert |g.nics - {id}| >= 2;
      assert g.nics - {id} != map[];
    }
  }

  lemma DetachPairOk(w: World, k: nat, other: GraphNic, v: nat)
    requires Healthy(w) && {Vtep, Head(other), Switch(k)} <= w.alive
    requires (Vtep, Head(other)) !in w.edges
    ensures DetachPair(w, k, other, v)
         == w.(edges := Without(w.edges, Switch(k)) + {(Vtep, Head(other))},
               neighbours := Forget(w.neighbours, Switch(k))[v := Head(other)])
  {
    HeadOfBranch(other);
    hide Head, NicBricks, Touch, Isolate, Connect, Announce;
    IsolateOk(w, Switch(k));
    var w1 := Isolate(w, Switch(k));
    ConnectOk(w1, Vtep, Head(other));
    AnnounceOk(Connect(w1, Vtep, Head(other)), Head(other), v);
  }

  lemma OtherOfTwo(g: GraphVni, id: string, other: string)
    requires id in g.nics && other in g.nics && id != other && |g.nics| == 2
    ensures g.nics - {id} == map[other := g.nics[other]]
    ensures g.nics - {id} - {other} == map[]
  {
    var g1 := Left(g, id);
    assert g1.nics.Keys == g.nics.Keys - {id};
    assert |g1.nics| == 1;
    SingleNic(g1, other);
    forall j | j in g1.nics ensures j == other {
      assert j == other || j in g1.nics - {other};
    }
    assert g1.nics == map[other := g.nics[other]];
  }

  lemma PairEdges(v: nat, g: GraphVni, id: string, other: string)
    requires id in g.nics && other in g.nics && id != other && |g.nics| == 2 && g.sw.Some?
    ensures VniBricks(g) == NicBricks(g.nics[id]) + (NicBricks(g.nics[other]) + {Switch(g.sw.value)})
    ensures Without(VniEdges(g), Switch(g.sw.value)) == Branch(g.nics[id]) + Branch(g.nics[other])
    ensures (Vtep, Head(g.nics[other])) !in VniEdges(g)
    ensures g.nics - {id} == map[other := g.nics[other]]
  {
    hide VniEdges, VniBricks, Branch, Head, NicBricks, Without;
    var n, o, S := g.nics[id], g.nics[other], Switch(g.sw.value);
    OtherOfTwo(g, id, other);
    var g1 := Left(g, id);
    SplitNicEdges(g, id);
    SplitNicBricks(g, id);
    SplitNicEdges(g1, other);
    SplitNicBricks(g1, other);
    NoNics(g1.(nics := g1.nics - {other}));
    assert VniEdges(g) == Branch(n) + {(S, Head(n))} + (Branch(o) + {(S, Head(o))} + {(Vtep, S)});
    HeadOfBranch(n);
    HeadOfBranch(o);
    PairWithout(Branch(n), (S, Head(n)), Branch(o), (S, Head(o)), (Vtep, S), S);
  }

  lemma PairWithout(a: set<Edge>, x: Edge, b: set<Edge>, y: Edge, z: Edge, s: Brick)
    requires x.0 == s && y.0 == s && z.1 == s
    requires forall e :: e in a + b ==> e.0 != s && e.1 != s
    ensures Without(a + {x} + (b + {y} + {z}), s) == a + b
  {}

  lemma DetachPairMatches(vnis: Vnis, w: World, id: string, other: string, leaked: set<Brick>, next: nat, v: nat)
    requires AtRest(vnis, w, leaked, next)
    requires v in vnis && |vnis[v].nics| == 2 && id in vnis[v].nics && other in vnis[v].nics && id != other
    ensures vnis[v].sw.Some?
    ensures
      var n, k := vnis[v].nics[id], vnis[v].sw.value;
      Matches(vnis[v := GraphVni(v, None, vnis[v].nics - {id})], DetachPair(w, k, vnis[v].nics[other], v),
              leaked + NicBricks(n) + {Switch(k)}, Branch(n), next)
  {
    var g := vnis[v];
    assert WellFormedVni(v, g, next);
    var n, o, k := g.nics[id], g.nics[other], g.sw.value;
    var g' := GraphVni(v, None, map[other := o]);
    assert n.key != o.key && n.key < next && o.key < next && k < next && o.id == other && g.vni == v;
    hide *;
    AtRestFacts(vnis, w, leaked, next);
    WithoutVni(vnis, v, next);
    AtKnown(vnis, v);
    PairEdges(v, g, id, other);
    OneNicEdges(v, o);
    OneNicWellFormed(v, o, next);
    HeadOfBranch(n);
    HeadOfBranch(o);
    EastEnds(vnis - {v});
    assert (Vtep, Head(o)) !in w.edges;
    DetachPairOk(w, k, o, v);
    var w' := DetachPair(w, k, o, v);
    NicKeysApart(n, o);
    OnlyHere(vnis, v, next, w.neighbours, Switch(k));
    SecondNeighbours(w.neighbours, v, Switch(k), Head(o));
    OneNicNeighbour(v, o, w'.neighbours);
    NoEdgeAt(vnis - {v}, Switch(k));
    WithoutNone(AllEdges(vnis - {v}), Switch(k));
    WithoutSum(AllEdges(vnis - {v}), VniEdges(g), Switch(k));
    RegroupPair(AllEdges(vnis - {v}), Branch(n), Branch(o), {(Vtep, Head(o))});
    RegroupPairBricks(NicBricks(n), NicBricks(o), {Switch(k)}, leaked);
    PairKeys(n, k, leaked, next);
    DisjointSum(NicBricks(o), leaked + NicBricks(n), {Switch(k)});
    Confined(vnis, v, w, g', w', leaked, {}, leaked + NicBricks(n) + {Switch(k)}, Branch(n), next);
  }

  lemma NicKeysApart(n: GraphNic, o: GraphNic)
    requires n.key != o.key
    ensures NicBricks(n) !! NicBricks(o)
  {}

  lemma RegroupPair<T>(r: set<T>, b: set<T>, o: set<T>, x: set<T>)
    ensures r + (b + o) + x == r + (o + x) + b
  {}

  lemma RegroupPairBricks<T>(a: set<T>, b: set<T>, s: set<T>, leaked: set<T>)
    ensures a + (b + s) + leaked == b + (leaked + a + s)
  {}

  lemma PairKeys(n: GraphNic, k: nat, leaked: set<Brick>, next: nat)
    requires n.key < next && k < next && KeysBelow(leaked, next)
    ensures KeysBelow(leaked + NicBricks(n) + {Switch(k)}, next)
  {}

  /** A VNI entry without NICs stands for nothing. */
  lemma InsertVni(vnis: Vnis, v: nat, w: World, spare: set<Brick>, loose: set<Edge>, next: nat)
    requires Matches(vnis, w, spare, loose, next) && v !in vnis
    ensures Matches(vnis[v := GraphVni(v, None, map[])], w, spare, loose, next)
  {
    assert WellFormed(vnis, next) && Neighbours(vnis, w.neighbours);
    hide *;
    InsertGraph(vnis, v, next);
    InsertNeighbour(vnis, v, w.neighbours);
    SameGraph(vnis, vnis[v := GraphVni(v, None, map[])], w, spare, loose, next);
  }

  lemma InsertGraph(vnis: Vnis, v: nat, next: nat)
    requires WellFormed(vnis, next) && v !in vnis
    ensures WellFormed(vnis[v := GraphVni(v, None, map[])], next)
    ensures AllEdges(vnis[v := GraphVni(v, None, map[])]) == AllEdges(vnis)
    ensures AllBricks(vnis[v := GraphVni(v, None, map[])]) == AllBricks(vnis)
  {
    hide *;
    var g := GraphVni(v, None, map[]);
    EmptyVniIs(v, next);
    assert vnis - {v} == vnis;
    WithVni(vnis, v, g, next);
  }

  lemma EmptyVniIs(v: nat, next: nat)
    ensures var g := GraphVni(v, None, map[]);
            WellFormedVni(v, g, next) && VniEdges(g) == {} && VniBricks(g) == {}
  {
    hide VniEdges, VniBricks;
    NoNics(GraphVni(v, None, map[]));
  }

  lemma InsertNeighbour(vnis: Vnis, v: nat, m: map<nat, Brick>)
    requires Neighbours(vnis, m) && v !in vnis
    ensures Neighbours(vnis[v := GraphVni(v, None, map[])], m)
  {}

  // After the commands: freeing what the branch was made of

  lemma DropVni(vnis: Vnis, v: nat, w: World, leaked: set<Brick>, loose: set<Edge>, next: nat)
    requires Matches(vnis, w, leaked, loose, next)
    requires v in vnis && vnis[v].nics == map[]
    ensures Matches(vnis - {v}, w, leaked, loose, next)
  {
    hide VniEdges, VniBricks, AllEdges, AllBricks, EdgesAt, BricksAt, WellFormed, Neighbours;
    WithoutVni(vnis, v, next);
    EmptyVni(vnis, v, next);
    DropNeighbour(vnis, v, w.neighbours);
  }

  lemma DropNeighbour(vnis: Vnis, v: nat, m: map<nat, Brick>)
    requires Neighbours(vnis, m) && v in vnis && vnis[v].nics == map[]
    ensures Neighbours(vnis - {v}, m)
  {}

  /** The graph does not depend on which branches are enabled. */
  lemma Disabled(vnis: Vnis, v: nat, id: string, w: World, spare: set<Brick>, loose: set<Edge>, next: nat)
    requires Matches(vnis, w, spare, loose, next)
    requires v in vnis && id in vnis[v].nics
    ensures Matches(vnis[v := Disable(vnis[v], id)], w, spare, loose, next)
  {
    var g := vnis[v];
    var g' := Disable(g, id);
    assert WellFormed(vnis, next) && WellFormedVni(v, g, next);
    DisabledNeighbour(vnis, v, id, w.neighbours);
    hide *;
    DisabledVni(v, g, id, next);
    WithoutVni(vnis, v, next);
    AtKnown(vnis, v);
    WithVni(vnis, v, g', next);
    SameGraph(vnis, vnis[v := g'], w, spare, loose, next);
  }

  lemma SameGraph(vnis: Vnis, vnis': Vnis, w: World, spare: set<Brick>, loose: set<Edge>, next: nat)
    requires Matches(vnis, w, spare, loose, next)
    requires WellFormed(vnis', next) && Neighbours(vnis', w.neighbours)
    requires AllEdges(vnis') == AllEdges(vnis) && AllBricks(vnis') == AllBricks(vnis)
    ensures Matches(vnis', w, spare, loose, next)
  {
    hide AllEdges, AllBricks, WellFormed, Neighbours;
  }

  lemma DisabledVni(v: nat, g: GraphVni, id: string, next: nat)
    requires WellFormedVni(v, g, next) && id in g.nics
    ensures VniEdges(Disable(g, id)) == VniEdges(g) && VniBricks(Disable(g, id)) == VniBricks(g)
    ensures WellFormedVni(v, Disable(g, id), next)
  {
    DisabledWellFormed(v, g, id, next);
    hide *;
    DisabledEdges(g, id);
    DisabledBricks(g, id);
  }

  lemma DisabledWellFormed(v: nat, g: GraphVni, id: string, next: nat)
    requires WellFormedVni(v, g, next) && id in g.nics
    ensures WellFormedVni(v, Disable(g, id), next)
  {
    var g' := Disable(g, id);
    assert g'.nics.Keys == g.nics.Keys;
    forall i, j | i in g'.nics && j in g'.nics && g'.nics[i].key == g'.nics[j].key ensures i == j {
      assert g.nics[i].key == g.nics[j].key;
    }
  }

  lemma DisabledEdges(g: GraphVni, id: string)
    requires id in g.nics
    ensures VniEdges(Disable(g, id)) == VniEdges(g)
  {
    assert NicEdgesOf(g.sw, g.nics) == NicEdgesOf(g.sw, Disable(g, id).nics);
  }

  lemma DisabledBricks(g: GraphVni, id: string)
    requires id in g.nics
    ensures VniBricks(Disable(g, id)) == VniBricks(g)
  {
    assert NicBricksOf(g.nics) == NicBricksOf(Disable(g, id).nics);
  }

  lemma DisabledNeighbour(vnis: Vnis, v: nat, id: string, m: map<nat, Brick>)
    requires Neighbours(vnis, m) && v in vnis && id in vnis[v].nics
    ensures Neighbours(vnis[v := Disable(vnis[v], id)], m)
  {
    hide Head;
    var g := Disable(vnis[v], id);
    assert id in g.nics && vnis[v].nics != map[];
    assert g.sw == vnis[v].sw && g.nics.Keys == vnis[v].nics.Keys;
    forall i | i in g.nics ensures Head(g.nics[i]) == Head(vnis[v].nics[i]) { SameHead(vnis[v].nics[i]); }
  }

  lemma SameHead(n: GraphNic)
    ensures Head(n.(enable := false)) == Head(n)
  {}

  function Disable(g: GraphVni, id: string): GraphVni
    requires id in g.nics
  {
    g.(nics := g.nics[id := g.nics[id].(enable := false)])
  }
}
