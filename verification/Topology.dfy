/**
 What the API thread believes the graph to be (`vnis_`), which graph that belief stands for, and how the
 queued commands and the direct edits move one such graph to the next.
 */
module Topology {
  import opened Base
  import opened Bricks
  import Families
  import Order

  /** A branch: firewall, antispoof, vhost and possibly a sniffer, all from allocation `key`. */
  datatype GraphNic = GraphNic(id: string, key: nat, bypass: bool, traced: bool, enable: bool)

  datatype GraphVni = GraphVni(vni: nat, sw: Option<nat>, nics: map<string, GraphNic>)

  type Vnis = map<nat, GraphVni>

  function Head(n: GraphNic): Brick {
    if !n.bypass then Firewall(n.key) else if n.traced then Sniffer(n.key) else Vhost(n.key)
  }

  function NicBricks(n: GraphNic): set<Brick> {
    {Firewall(n.key), Antispoof(n.key), Vhost(n.key)} + if n.traced then {Sniffer(n.key)} else {}
  }

  /** The edges inside a branch. */
  function Branch(n: GraphNic): set<Edge> {
    if !n.bypass then {(Firewall(n.key), Antispoof(n.key)), (Antispoof(n.key), Vhost(n.key))}
    else if n.traced then {(Sniffer(n.key), Vhost(n.key))}
    else {}
  }

  /** What the heads of a VNI hang from. */
  function Uplink(sw: Option<nat>): Brick {
    if sw.Some? then Switch(sw.value) else Vtep
  }

  function NicEdges(sw: Option<nat>, n: GraphNic): set<Edge> {
    Branch(n) + {(Uplink(sw), Head(n))}
  }

  function SwitchEdges(sw: Option<nat>): set<Edge> {
    if sw.Some? then {(Vtep, Switch(sw.value))} else {}
  }

  function SwitchBricks(sw: Option<nat>): set<Brick> {
    if sw.Some? then {Switch(sw.value)} else {}
  }

  ghost function NicEdgesOf(sw: Option<nat>, nics: map<string, GraphNic>): map<string, set<Edge>> {
    map i | i in nics :: NicEdges(sw, nics[i])
  }

  ghost function NicBricksOf(nics: map<string, GraphNic>): map<string, set<Brick>> {
    map i | i in nics :: NicBricks(nics[i])
  }

  ghost function VniEdges(g: GraphVni): set<Edge> {
    Families.Union(NicEdgesOf(g.sw, g.nics)) + SwitchEdges(g.sw)
  }

  ghost function VniBricks(g: GraphVni): set<Brick> {
    Families.Union(NicBricksOf(g.nics)) + SwitchBricks(g.sw)
  }

  ghost function VniEdgesOf(vnis: Vnis): map<nat, set<Edge>> {
    map v | v in vnis :: VniEdges(vnis[v])
  }

  ghost function VniBricksOf(vnis: Vnis): map<nat, set<Brick>> {
    map v | v in vnis :: VniBricks(vnis[v])
  }

  ghost function AllEdges(vnis: Vnis): set<Edge> {
    {(Port, Vtep)} + Families.Union(VniEdgesOf(vnis))
  }

  ghost function AllBricks(vnis: Vnis): set<Brick> {
    {Port, Vtep} + Families.Union(VniBricksOf(vnis))
  }

  /** The VTEP's vni table: the only head of a VNI with one NIC, the switch of a VNI with more. */
  ghost predicate Neighbours(vnis: Vnis, m: map<nat, Brick>) {
    && (forall v :: v in m <==> v in vnis && vnis[v].nics != map[])
    && (forall v :: v in m && vnis[v].sw.Some? ==> m[v] == Switch(vnis[v].sw.value))
    && (forall v, i :: v in m && vnis[v].sw.None? && i in vnis[v].nics ==> m[v] == Head(vnis[v].nics[i]))
  }

  ghost predicate WellFormedVni(v: nat, g: GraphVni, next: nat) {
    && g.vni == v
    && (|g.nics| >= 2 <==> g.sw.Some?)
    && (g.sw.Some? ==> g.sw.value < next)
    && (forall i :: i in g.nics ==> g.nics[i].id == i && g.nics[i].key < next)
    && (forall i, j :: i in g.nics && j in g.nics && g.nics[i].key == g.nics[j].key ==> i == j)
  }

  ghost predicate WellFormed(vnis: Vnis, next: nat) {
    && (forall v :: v in vnis ==> WellFormedVni(v, vnis[v], next))
    && (forall v, u :: v in vnis && u in vnis && v != u ==> VniBricks(vnis[v]) !! VniBricks(vnis[u]))
  }

  ghost predicate KeysBelow(s: set<Brick>, next: nat) {
    forall b :: b in s ==> b.Port? || b.Vtep? || b.key < next
  }

  /**
   Graph `w` is the graph of `vnis`, plus `spare` bricks that hang off nothing but each other, by the
   edges `loose`.
   */
  ghost predicate Matches(vnis: Vnis, w: World, spare: set<Brick>, loose: set<Edge>, next: nat) {
    && WellFormed(vnis, next)
    && w.alive == AllBricks(vnis) + spare
    && spare !! AllBricks(vnis)
    && KeysBelow(spare, next)
    && w.edges == AllEdges(vnis) + loose
    && (forall e :: e in loose ==> e.0 in spare && e.1 in spare)
    && Neighbours(vnis, w.neighbours)
    && (forall k :: k in w.written ==> k < next)
    && !w.errors && !w.faults
    && ListAlive(w.polled, w.alive)
  }

  // Splitting a sum over VNIs, and over the NICs of a VNI

  lemma SplitEdges(vnis: Vnis, v: nat)
    requires v in vnis
    ensures AllEdges(vnis) == AllEdges(vnis - {v}) + VniEdges(vnis[v])
  {
    assert VniEdgesOf(vnis) - {v} == VniEdgesOf(vnis - {v});
    Families.Split(VniEdgesOf(vnis), v);
  }

  lemma SplitBricks(vnis: Vnis, v: nat)
    requires v in vnis
    ensures AllBricks(vnis) == AllBricks(vnis - {v}) + VniBricks(vnis[v])
  {
    assert VniBricksOf(vnis) - {v} == VniBricksOf(vnis - {v});
    Families.Split(VniBricksOf(vnis), v);
  }

  lemma ReplaceEdges(vnis: Vnis, v: nat, g: GraphVni)
    ensures AllEdges(vnis[v := g]) == AllEdges(vnis - {v}) + VniEdges(g)
  {
    SplitEdges(vnis[v := g], v);
    assert vnis[v := g] - {v} == vnis - {v};
  }

  lemma ReplaceBricks(vnis: Vnis, v: nat, g: GraphVni)
    ensures AllBricks(vnis[v := g]) == AllBricks(vnis - {v}) + VniBricks(g)
  {
    SplitBricks(vnis[v := g], v);
    assert vnis[v := g] - {v} == vnis - {v};
  }

  lemma SplitNicEdges(g: GraphVni, i: string)
    requires i in g.nics
    ensures VniEdges(g) == NicEdges(g.sw, g.nics[i]) + VniEdges(g.(nics := g.nics - {i}))
  {
    assert NicEdgesOf(g.sw, g.nics) - {i} == NicEdgesOf(g.sw, g.nics - {i});
    Families.Split(NicEdgesOf(g.sw, g.nics), i);
  }

  lemma SplitNicBricks(g: GraphVni, i: string)
    requires i in g.nics
    ensures VniBricks(g) == NicBricks(g.nics[i]) + VniBricks(g.(nics := g.nics - {i}))
  {
    assert NicBricksOf(g.nics) - {i} == NicBricksOf(g.nics - {i});
    Families.Split(NicBricksOf(g.nics), i);
  }

  lemma JoinEdges(g: GraphVni, n: GraphNic)
    requires n.id !in g.nics
    ensures VniEdges(g.(nics := g.nics[n.id := n])) == NicEdges(g.sw, n) + VniEdges(g)
  {
    var g' := g.(nics := g.nics[n.id := n]);
    assert g'.nics - {n.id} == g.nics;
    assert g'.(nics := g'.nics - {n.id}) == g;
    SplitNicEdges(g', n.id);
  }

  lemma JoinBricks(g: GraphVni, n: GraphNic)
    requires n.id !in g.nics
    ensures VniBricks(g.(nics := g.nics[n.id := n])) == NicBricks(n) + VniBricks(g)
  {
    var g' := g.(nics := g.nics[n.id := n]);
    assert g'.nics - {n.id} == g.nics;
    assert g'.(nics := g'.nics - {n.id}) == g;
    SplitNicBricks(g', n.id);
  }

  lemma NoNics(g: GraphVni)
    requires g.nics == map[]
    ensures VniEdges(g) == SwitchEdges(g.sw) && VniBricks(g) == SwitchBricks(g.sw)
  {}

  lemma SingleNic(g: GraphVni, i: string)
    requires i in g.nics && |g.nics| == 1
    ensures g.nics - {i} == map[]
  {
    forall j | j in g.nics ensures j == i {
      if j != i {
        Families.SubsetSize({i, j}, g.nics.Keys);
      }
    }
  }

  // Edges of one VNI do not touch the bricks of another

  lemma SwitchIn(g: GraphVni)
    ensures SwitchBricks(g.sw) <= VniBricks(g)
  {}

  lemma NicEdgeTouches(sw: Option<nat>, n: GraphNic, e: Edge)
    requires e in NicEdges(sw, n)
    ensures e.0 in NicBricks(n) + SwitchBricks(sw) + {Vtep} && e.1 in NicBricks(n)
  {}

  lemma VniEdgesTouch(g: GraphVni, e: Edge)
    requires e in VniEdges(g)
    ensures e.0 in VniBricks(g) + {Vtep} && e.1 in VniBricks(g)
  {
    if e !in SwitchEdges(g.sw) {
      var i := Families.Member(NicEdgesOf(g.sw, g.nics), e);
      SplitNicBricks(g, i);
      SwitchIn(g);
      NicEdgeTouches(g.sw, g.nics[i], e);
      hide VniBricks, VniEdges, NicBricks, Branch, Head;
    } else {
      SwitchIn(g);
      hide VniBricks, VniEdges;
    }
  }

  lemma EdgesTouch(vnis: Vnis, e: Edge)
    requires e in AllEdges(vnis)
    ensures e.0 in AllBricks(vnis) && e.1 in AllBricks(vnis)
  {
    if e != (Port, Vtep) {
      var v := Families.Member(VniEdgesOf(vnis), e);
      VniEdgesTouch(vnis[v], e);
      SplitBricks(vnis, v);
    }
  }

  lemma NicBrickKey(nics: map<string, GraphNic>, b: Brick) returns (i: string)
    requires b in Families.Union(NicBricksOf(nics))
    ensures i in nics && b in NicBricks(nics[i])
    ensures !b.Port? && !b.Vtep? && !b.Switch? && b.key == nics[i].key
  {
    i := Families.Member(NicBricksOf(nics), b);
  }

  lemma VniBrickKey(v: nat, g: GraphVni, next: nat, b: Brick)
    requires WellFormedVni(v, g, next) && b in VniBricks(g)
    ensures !b.Port? && !b.Vtep? && b.key < next
  {
    if b !in SwitchBricks(g.sw) { var i := NicBrickKey(g.nics, b); }
  }

  lemma KindsOfBricks(vnis: Vnis, next: nat, b: Brick)
    requires WellFormed(vnis, next) && b in AllBricks(vnis) && b != Port && b != Vtep
    ensures !b.Port? && !b.Vtep? && b.key < next
  {
    var v := Families.Member(VniBricksOf(vnis), b);
    VniBrickKey(v, vnis[v], next, b);
  }

  lemma BricksBelow(vnis: Vnis, next: nat)
    requires WellFormed(vnis, next)
    ensures KeysBelow(AllBricks(vnis), next)
  {
    forall b | b in AllBricks(vnis) ensures b.Port? || b.Vtep? || b.key < next {
      if b != Port && b != Vtep { KindsOfBricks(vnis, next, b); }
    }
  }

  lemma RestDisjoint(vnis: Vnis, v: nat, next: nat)
    requires WellFormed(vnis, next) && v in vnis
    ensures VniBricks(vnis[v]) !! AllBricks(vnis - {v})
  {
    forall b | b in VniBricks(vnis[v]) ensures b !in AllBricks(vnis - {v}) {
      VniBrickKey(v, vnis[v], next, b);
      if b in AllBricks(vnis - {v}) {
        var u := Families.Member(VniBricksOf(vnis - {v}), b);
      }
    }
  }

  /** Removing what touches a brick of one VNI leaves the rest of the graph alone. */
  lemma RestUntouched(vnis: Vnis, b: Brick)
    requires b !in AllBricks(vnis)
    ensures Without(AllEdges(vnis), b) == AllEdges(vnis)
  {
    forall e | e in AllEdges(vnis) ensures e.0 != b && e.1 != b { EdgesTouch(vnis, e); }
  }

  // The poll list

  const POLL_SLOTS: nat := 50

  function Row(n: GraphNic): Polled {
    Polled(Vhost(n.key), Firewall(n.key))
  }

  /** The rows of the enabled NICs among `ids`, in the order given. */
  function RowsOf(nics: map<string, GraphNic>, ids: seq<string>): seq<Polled>
    requires forall i :: i in ids ==> i in nics
  {
    if ids == [] then []
    else
      assert ids[0] in ids && forall i :: i in ids[1..] ==> i in ids;
      (if nics[ids[0]].enable then [Row(nics[ids[0]])] else []) + RowsOf(nics, ids[1..])
  }

  function RowsOfVnis(vnis: Vnis, order: seq<nat>): seq<Polled>
    requires forall v :: v in order ==> v in vnis
  {
    if order == [] then []
    else
      assert order[0] in order && forall v :: v in order[1..] ==> v in order;
      RowsOf(vnis[order[0]].nics, Order.Texts(vnis[order[0]].nics.Keys)) + RowsOfVnis(vnis, order[1..])
  }

  /** Every enabled NIC, by VNI and then by id. */
  function EnabledRows(vnis: Vnis): seq<Polled> {
    RowsOfVnis(vnis, Order.Numbers(vnis.Keys))
  }

  function Shorten(rows: seq<Polled>): seq<Polled> {
    if |rows| < POLL_SLOTS then rows else rows[..POLL_SLOTS - 1]
  }

  function PollList(vnis: Vnis): seq<Polled> {
    Shorten(EnabledRows(vnis))
  }
}
