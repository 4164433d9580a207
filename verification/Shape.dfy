/** The shape of the packet graph, as a reader of the API would describe it. */
module Shape {
  import opened Base
  import opened Bricks
  import opened Topology
  import opened Transitions
  import Families

  /** The edges that touch a brick of the VNI and are not inside one of its branches. */
  ghost function Trunks(w: World, g: GraphVni): set<Edge> {
    set e | e in w.edges && (e.0 in VniBricks(g) || e.1 in VniBricks(g)) && forall i :: i in g.nics ==> e !in Branch(g.nics[i])
  }

  ghost function Heads(g: GraphVni): set<Brick> {
    set i | i in g.nics :: Head(g.nics[i])
  }

  /** One NIC: the VTEP and the head.  More: the VTEP and the switch, the switch and each head. */
  ghost function Wanted(g: GraphVni): set<Edge> {
    if g.sw.Some? then {(Vtep, Switch(g.sw.value))} + (set h | h in Heads(g) :: (Switch(g.sw.value), h))
    else set h | h in Heads(g) :: (Vtep, h)
  }

  /** An edge touches a VNI's bricks exactly when it belongs to that VNI. */
  lemma EdgesOfVni(vnis: Vnis, w: World, leaked: set<Brick>, next: nat, v: nat, e: Edge)
    requires AtRest(vnis, w, leaked, next) && v in vnis
    ensures e in w.edges && (e.0 in VniBricks(vnis[v]) || e.1 in VniBricks(vnis[v])) <==> e in VniEdges(vnis[v])
  {
    hide VniEdges, VniBricks, AllEdges, AllBricks, WellFormed, Neighbours, ListAlive;
    WithoutVni(vnis, v, next);
    AtKnown(vnis, v);
    KindsOfVni(vnis, next, v);
    if e in VniEdges(vnis[v]) { VniEdgesTouch(vnis[v], e); }
    if e in AllEdges(vnis - {v}) { EdgesTouch(vnis - {v}, e); }
  }

  lemma KindsOfVni(vnis: Vnis, next: nat, v: nat)
    requires WellFormed(vnis, next) && v in vnis
    ensures Vtep !in VniBricks(vnis[v]) && Port !in VniBricks(vnis[v])
  {
    hide VniBricks;
    if Vtep in VniBricks(vnis[v]) { VniBrickKey(v, vnis[v], next, Vtep); }
    if Port in VniBricks(vnis[v]) { VniBrickKey(v, vnis[v], next, Port); }
  }

  lemma EdgeInVni(g: GraphVni, e: Edge)
    ensures e in VniEdges(g) <==>
      (exists i :: i in g.nics && e in NicEdges(g.sw, g.nics[i])) || (g.sw.Some? && e == (Vtep, Switch(g.sw.value)))
  {
    if i :| i in g.nics && e in NicEdges(g.sw, g.nics[i]) {
      assert i in NicEdgesOf(g.sw, g.nics) && e in NicEdgesOf(g.sw, g.nics)[i];
    }
    if e in Families.Union(NicEdgesOf(g.sw, g.nics)) {
      var i := Families.Member(NicEdgesOf(g.sw, g.nics), e);
      assert i in g.nics && e in NicEdges(g.sw, g.nics[i]);
    }
  }

  /** Edges between branches are never edges inside one. */
  lemma WantedNotInside(g: GraphVni, n: GraphNic, e: Edge)
    requires e in Wanted(g)
    ensures e !in Branch(n)
  {}

  lemma WantedEdge(g: GraphVni, e: Edge)
    ensures e in Wanted(g) <==>
      (g.sw.Some? && e == (Vtep, Switch(g.sw.value))) || exists i :: i in g.nics && e == (Uplink(g.sw), Head(g.nics[i]))
  {
    if i :| i in g.nics && e == (Uplink(g.sw), Head(g.nics[i])) { assert Head(g.nics[i]) in Heads(g); }
  }

  /**
   In every graph at rest a VNI's branches hang where they should and nowhere else, and the VTEP sends the
   VNI to its only head or to its switch.
   */
  lemma VniShape(vnis: Vnis, w: World, leaked: set<Brick>, next: nat, v: nat)
    requires AtRest(vnis, w, leaked, next) && v in vnis
    ensures Trunks(w, vnis[v]) == Wanted(vnis[v])
    ensures |vnis[v].nics| >= 2 <==> vnis[v].sw.Some?
    ensures v in w.neighbours <==> vnis[v].nics != map[]
    ensures |vnis[v].nics| == 1 ==> v in w.neighbours && Heads(vnis[v]) == {w.neighbours[v]}
    ensures |vnis[v].nics| >= 2 ==> v in w.neighbours && w.neighbours[v] == Switch(vnis[v].sw.value)
  {
    hide *;
    RestHas(vnis, w, leaked, next, v);
    TrunksWanted(vnis, w, leaked, next, v);
    if |vnis[v].nics| == 1 { OnlyHead(vnis[v]); }
    if |vnis[v].nics| >= 1 { TableAt(vnis, w.neighbours, v); }
  }

  lemma RestHas(vnis: Vnis, w: World, leaked: set<Brick>, next: nat, v: nat)
    requires AtRest(vnis, w, leaked, next) && v in vnis
    ensures Neighbours(vnis, w.neighbours)
    ensures |vnis[v].nics| >= 2 <==> vnis[v].sw.Some?
    ensures v in w.neighbours <==> vnis[v].nics != map[]
  {
    hide AllEdges, AllBricks, VniBricks;
    assert WellFormedVni(v, vnis[v], next);
  }

  lemma OnlyHead(g: GraphVni)
    requires |g.nics| == 1
    ensures exists i :: i in g.nics && Heads(g) == {Head(g.nics[i])}
  {
    hide Head;
    var i :| i in g.nics;
    SingleNic(g, i);
    assert forall j :: j in g.nics && j != i ==> j in g.nics - {i};
  }

  lemma TableAt(vnis: Vnis, m: map<nat, Brick>, v: nat)
    requires Neighbours(vnis, m) && v in vnis && vnis[v].nics != map[]
    ensures v in m && (vnis[v].sw.Some? ==> m[v] == Switch(vnis[v].sw.value))
    ensures vnis[v].sw.None? ==> forall i :: i in vnis[v].nics ==> m[v] == Head(vnis[v].nics[i])
  {
    hide Head;
  }

  lemma TrunksWanted(vnis: Vnis, w: World, leaked: set<Brick>, next: nat, v: nat)
    requires AtRest(vnis, w, leaked, next) && v in vnis
    ensures Trunks(w, vnis[v]) == Wanted(vnis[v])
  {
    hide AtRest, VniEdges, VniBricks, Wanted, Head, Branch, Uplink;
    var g := vnis[v];
    forall e ensures e in Trunks(w, g) <==> e in Wanted(g) {
      EdgesOfVni(vnis, w, leaked, next, v, e);
      EdgeInVni(g, e);
      WantedEdge(g, e);
      if e in Wanted(g) {
        forall i | i in g.nics ensures e !in Branch(g.nics[i]) { WantedNotInside(g, g.nics[i], e); }
      }
    }
  }

  /** A brick that is not alive has no edge left. */
  lemma DeadHasNoEdge(vnis: Vnis, w: World, leaked: set<Brick>, next: nat, b: Brick)
    requires AtRest(vnis, w, leaked, next) && b !in w.alive
    ensures forall e :: e in w.edges ==> e.0 != b && e.1 != b
  {
    hide AllEdges, AllBricks, WellFormed, Neighbours, ListAlive;
    forall e | e in w.edges ensures e.0 != b && e.1 != b {
      if e in AllEdges(vnis) { EdgesTouch(vnis, e); }
    }
  }
}
