/**
 Switching the packet trace of a NIC on or off while packets flow.  The code rewires the branch and moves
 the head that it has on record; the graph stays the one that `vnis` stands for in one case only.
 */
module Traces {
  import opened Base
  import opened Bricks
  import opened Topology
  import opened Transitions
  import opened Shape

  /** `LinkSniffer`, once its commands have been executed. */
  ghost function LinkSniffer(w: World, n: GraphNic, v: nat): World {
    var a, h, s := Antispoof(n.key), Vhost(n.key), Sniffer(n.key);
    if n.bypass then Announce(Connect(Connect(Isolate(w, h), s, h), Vtep, s), s, v)
    else Connect(Connect(Cut(w, a, h), a, s), s, h)
  }

  /** `EnablePacketTrace` on a NIC that never had a sniffer; the head on record is the sniffer from now on. */
  ghost function EnableTrace(w: World, n: GraphNic, v: nat): World {
    LinkSniffer(Create(w, Sniffer(n.key)), n, v)
  }

  /** `DisablePacketTrace`; the sniffer stays allocated. */
  ghost function DisableTrace(w: World, n: GraphNic, v: nat): World {
    var a, h, s := Antispoof(n.key), Vhost(n.key), Sniffer(n.key);
    if n.bypass then Announce(Connect(Isolate(w, s), Vtep, h), h, v)
    else Connect(Isolate(w, s), a, h)
  }

  /** The NIC with its new setting. */
  function Retraced(vnis: Vnis, v: nat, id: string, on: bool): Vnis
    requires v in vnis && id in vnis[v].nics
  {
    vnis[v := vnis[v].(nics := vnis[v].nics[id := vnis[v].nics[id].(traced := on)])]
  }

  // The one good case

  lemma OnlyNic(vnis: Vnis, next: nat, v: nat, id: string)
    requires WellFormed(vnis, next) && v in vnis && id in vnis[v].nics
    ensures WellFormedVni(v, vnis[v], next) && vnis[v].vni == v && vnis[v].nics[id].id == id && vnis[v].nics[id].key < next
    ensures |vnis[v].nics| == 1 <==> vnis[v].sw.None?
    ensures |vnis[v].nics| == 1 ==> vnis[v] == GraphVni(v, None, map[id := vnis[v].nics[id]])
  {
    hide VniBricks;
    assert WellFormedVni(v, vnis[v], next);
    assert vnis[v].nics.Keys != {};
    if |vnis[v].nics| == 1 {
      SingleNic(vnis[v], id);
      assert forall j :: j in vnis[v].nics && j != id ==> j in vnis[v].nics - {id};
      assert vnis[v].nics == map[id := vnis[v].nics[id]];
    }
  }

  lemma BypassBranch(n: GraphNic)
    requires n.bypass
    ensures Without(Branch(n), Head(n)) == {}
    ensures Branch(n.(traced := true)) == {(Sniffer(n.key), Vhost(n.key))} && Branch(n.(traced := false)) == {}
    ensures Head(n.(traced := true)) == Sniffer(n.key) && Head(n.(traced := false)) == Vhost(n.key)
    ensures NicBricks(n.(traced := true)) == NicBricks(n.(traced := false)) + {Sniffer(n.key)}
    ensures Vhost(n.key) in NicBricks(n) && Sniffer(n.key) !in NicBricks(n.(traced := false))
  {}

  /** With the branch unlinked, its bricks hang off nothing: attaching it anew is attaching a first NIC. */
  lemma AttachAgain(vnis: Vnis, w: World, n: GraphNic, spare: set<Brick>, leaked: set<Brick>, next: nat, v: nat)
    requires Matches(vnis, w, spare, Branch(n), next) && spare == leaked + NicBricks(n) && NicBricks(n) !! leaked
    requires v in vnis && vnis[v].nics == map[] && n.key < next
    ensures AtRest(vnis[v := GraphVni(v, None, map[n.id := n])], AttachFirst(w, n, v), leaked, next)
  {
    hide NicBricks, Branch, Matches, AttachFirst;
    AttachFirstMatches(vnis, w, n, leaked, next, v);
  }

  lemma EnableGood(vnis: Vnis, w: World, leaked: set<Brick>, next: nat, v: nat, id: string)
    requires AtRest(vnis, w, leaked, next) && v in vnis && id in vnis[v].nics && |vnis[v].nics| == 1
    requires var n := vnis[v].nics[id]; n.bypass && !n.traced && Sniffer(n.key) !in w.alive
    ensures AtRest(Retraced(vnis, v, id, true), EnableTrace(w, vnis[v].nics[id], v), leaked, next)
  {
    hide *;
    var g, n := vnis[v], vnis[v].nics[id];
    var s, h, on := Sniffer(n.key), Vhost(n.key), n.(traced := true);
    AtRestFacts(vnis, w, leaked, next);
    OnlyNic(vnis, next, v, id);
    BypassBranch(n);
    assert n == n.(traced := false);
    CreateSpare(vnis, w, leaked, {}, next, s);
    RestIs(vnis, Create(w, s), leaked + {s}, next);
    DetachHeadMatches(vnis, Create(w, s), id, leaked + {s}, next, v);
    var left, cut := vnis[v := Left(g, id)], DetachHead(Create(w, s), n);
    DetachIs(Create(w, s), n);
    var spare := leaked + NicBricks(on);
    assert leaked + {s} + NicBricks(n) == spare;
    LinkSpare(left, cut, spare, {}, next, s, h);
    assert {} + {(s, h)} == Branch(on);
    LeakedApart(vnis, w, leaked, n, next, v, id);
    LeftEmpty(g, id);
    AttachAgain(left, Connect(cut, s, h), on, spare, leaked, next, v);
    FirstIs(Connect(cut, s, h), on, v);
    EnableIs(w, n, v);
    SameVnis(vnis, v, id, true);
  }

  lemma DisableGood(vnis: Vnis, w: World, leaked: set<Brick>, next: nat, v: nat, id: string)
    requires AtRest(vnis, w, leaked, next) && v in vnis && id in vnis[v].nics && |vnis[v].nics| == 1
    requires vnis[v].nics[id].bypass && vnis[v].nics[id].traced
    ensures var n := vnis[v].nics[id];
            AtRest(Retraced(vnis, v, id, false), DisableTrace(w, n, v), leaked + {Sniffer(n.key)}, next)
  {
    hide *;
    var g, n := vnis[v], vnis[v].nics[id];
    var s, off := Sniffer(n.key), n.(traced := false);
    AtRestFacts(vnis, w, leaked, next);
    OnlyNic(vnis, next, v, id);
    BypassBranch(n);
    assert n == n.(traced := true);
    DetachHeadMatches(vnis, w, id, leaked, next, v);
    var left, cut := vnis[v := Left(g, id)], DetachHead(w, n);
    DetachIs(w, n);
    LeakedApart(vnis, w, leaked, n, next, v, id);
    assert leaked + NicBricks(n) == leaked + {s} + NicBricks(off);
    LeftEmpty(g, id);
    AttachAgain(left, cut, off, leaked + NicBricks(n), leaked + {s}, next, v);
    FirstIs(cut, off, v);
    DisableIs(w, n, v);
    SameVnis(vnis, v, id, false);
  }

  lemma RestIs(vnis: Vnis, w: World, leaked: set<Brick>, next: nat)
    requires Matches(vnis, w, leaked, {}, next)
    ensures AtRest(vnis, w, leaked, next)
  {}

  lemma DetachIs(w: World, n: GraphNic)
    ensures DetachHead(w, n) == Isolate(w, Head(n))
  {}

  lemma FirstIs(w: World, n: GraphNic, v: nat)
    ensures AttachFirst(w, n, v) == Announce(Connect(w, Vtep, Head(n)), Head(n), v)
  {}

  lemma EnableIs(w: World, n: GraphNic, v: nat)
    ensures EnableTrace(w, n, v) ==
      var w1, a, h, s := Create(w, Sniffer(n.key)), Antispoof(n.key), Vhost(n.key), Sniffer(n.key);
      if n.bypass then Announce(Connect(Connect(Isolate(w1, h), s, h), Vtep, s), s, v)
      else Connect(Connect(Cut(w1, a, h), a, s), s, h)
  {}

  lemma DisableIs(w: World, n: GraphNic, v: nat)
    ensures DisableTrace(w, n, v) ==
      var a, h, s := Antispoof(n.key), Vhost(n.key), Sniffer(n.key);
      if n.bypass then Announce(Connect(Isolate(w, s), Vtep, h), h, v) else Connect(Isolate(w, s), a, h)
  {}

  lemma LeakedApart(vnis: Vnis, w: World, leaked: set<Brick>, n: GraphNic, next: nat, v: nat, id: string)
    requires AtRest(vnis, w, leaked, next) && v in vnis && id in vnis[v].nics && n == vnis[v].nics[id]
    ensures NicBricks(n) !! leaked && NicBricks(n) <= w.alive
    ensures Sniffer(n.key) !in w.alive ==> NicBricks(n) + {Sniffer(n.key)} !! leaked
  {
    hide NicBricks, VniBricks, AllBricks, AllEdges;
    AtRestFacts(vnis, w, leaked, next);
    SplitNicBricks(vnis[v], id);
    AtKnown(vnis, v);
    assert w.alive == AllBricks(vnis) + leaked;
  }

  lemma LeftEmpty(g: GraphVni, id: string)
    requires id in g.nics && g.nics == map[id := g.nics[id]]
    ensures Left(g, id).nics == map[]
  {}

  lemma SameVnis(vnis: Vnis, v: nat, id: string, on: bool)
    requires v in vnis && id in vnis[v].nics && vnis[v] == GraphVni(v, None, map[id := vnis[v].nics[id]]) && vnis[v].nics[id].id == id
    ensures var n := vnis[v].nics[id].(traced := on);
            vnis[v := Left(vnis[v], id)][v := GraphVni(v, None, map[n.id := n])] == Retraced(vnis, v, id, on)
  {
    var n := vnis[v].nics[id].(traced := on);
    assert map[id := vnis[v].nics[id]][id := n] == map[id := n];
  }

  // All other cases

  lemma EdgeOf(vnis: Vnis, w: World, leaked: set<Brick>, next: nat, v: nat, id: string, e: Edge)
    requires AtRest(vnis, w, leaked, next) && v in vnis && id in vnis[v].nics && e in NicEdges(vnis[v].sw, vnis[v].nics[id])
    ensures e in w.edges && !w.errors
  {
    hide *;
    AtRestFacts(vnis, w, leaked, next);
    HealthyIs(w);
    AtKnown(vnis, v);
    EdgeInVni(vnis[v], e);
    SplitEdges(vnis, v);
  }

  lemma HealthyIs(w: World)
    requires Healthy(w)
    ensures !w.errors
  {}

  lemma DeadSniffer(vnis: Vnis, w: World, leaked: set<Brick>, next: nat, s: Brick)
    requires AtRest(vnis, w, leaked, next) && s !in w.alive
    ensures forall e :: e in w.edges ==> e.0 != s && e.1 != s
  {
    DeadHasNoEdge(vnis, w, leaked, next, s);
  }

  lemma EnableBad(vnis: Vnis, w: World, leaked: set<Brick>, next: nat, v: nat, id: string)
    requires AtRest(vnis, w, leaked, next) && v in vnis && id in vnis[v].nics
    requires var n := vnis[v].nics[id]; !n.traced && Sniffer(n.key) !in w.alive && (!n.bypass || vnis[v].sw.Some?)
    ensures !AtRest(Retraced(vnis, v, id, true), EnableTrace(w, vnis[v].nics[id], v), leaked, next)
  {
    hide *;
    var n := vnis[v].nics[id];
    var w', vnis' := EnableTrace(w, n, v), Retraced(vnis, v, id, true);
    DeadSniffer(vnis, w, leaked, next, Sniffer(n.key));
    EnabledEdges(w, n, v);
    RetracedAt(vnis, v, id, true);
    var on := n.(traced := true);
    var e := if n.bypass then (Uplink(vnis[v].sw), Sniffer(n.key)) else (Antispoof(n.key), Vhost(n.key));
    EdgesOfNic(vnis[v].sw, on);
    if AtRest(vnis', w', leaked, next) {
      EdgeOf(vnis', w', leaked, next, v, id, e);
      assert false;
    }
  }

  lemma RetracedAt(vnis: Vnis, v: nat, id: string, on: bool)
    requires v in vnis && id in vnis[v].nics
    ensures var vnis' := Retraced(vnis, v, id, on);
            v in vnis' && id in vnis'[v].nics && vnis'[v].sw == vnis[v].sw && vnis'[v].nics[id] == vnis[v].nics[id].(traced := on)
  {}

  lemma EdgesOfNic(sw: Option<nat>, n: GraphNic)
    ensures !n.bypass ==> (Antispoof(n.key), Vhost(n.key)) in NicEdges(sw, n)
    ensures n.bypass && n.traced ==> (Uplink(sw), Sniffer(n.key)) in NicEdges(sw, n)
    ensures n.bypass && !n.traced ==> (Uplink(sw), Vhost(n.key)) in NicEdges(sw, n)
    ensures sw.Some? ==> Uplink(sw).Switch?
    ensures sw.None? ==> Uplink(sw) == Vtep
  {}

  /** The edges that matter of the graph after switching on. */
  lemma EnabledEdges(w: World, n: GraphNic, v: nat)
    requires forall e :: e in w.edges ==> e.0 != Sniffer(n.key) && e.1 != Sniffer(n.key)
    ensures var w' := EnableTrace(w, n, v);
            && (!n.bypass ==> (Antispoof(n.key), Vhost(n.key)) !in w'.edges)
            && (forall b: Brick :: (b, Sniffer(n.key)) in w'.edges <==> b == if n.bypass then Vtep else Antispoof(n.key))
            && (n.bypass ==> v in w'.neighbours && w'.neighbours[v] == Sniffer(n.key))
  {}

  lemma DisableBad(vnis: Vnis, w: World, leaked: set<Brick>, next: nat, v: nat, id: string)
    requires AtRest(vnis, w, leaked, next) && v in vnis && id in vnis[v].nics
    requires vnis[v].nics[id].traced && (!vnis[v].nics[id].bypass || vnis[v].sw.Some?)
    ensures var n := vnis[v].nics[id];
            !AtRest(Retraced(vnis, v, id, false), DisableTrace(w, n, v), leaked + {Sniffer(n.key)}, next)
  {
    hide *;
    var n := vnis[v].nics[id];
    var w', vnis' := DisableTrace(w, n, v), Retraced(vnis, v, id, false);
    var off, e := n.(traced := false), (Uplink(vnis[v].sw), Vhost(n.key));
    EdgesOfNic(vnis[v].sw, n);
    EdgesOfNic(vnis[v].sw, off);
    RetracedAt(vnis, v, id, false);
    if !n.bypass {
      EdgeOf(vnis, w, leaked, next, v, id, (Antispoof(n.key), Vhost(n.key)));
      DisabledTwice(w, n, v);
      if AtRest(vnis', w', leaked + {Sniffer(n.key)}, next) {
        EdgeOf(vnis', w', leaked + {Sniffer(n.key)}, next, v, id, (Antispoof(n.key), Vhost(n.key)));
        assert false;
      }
    } else {
      NotHung(vnis, w, leaked, next, v, id);
      DisabledEdge(w, n, v, e);
      if AtRest(vnis', w', leaked + {Sniffer(n.key)}, next) {
        EdgeOf(vnis', w', leaked + {Sniffer(n.key)}, next, v, id, e);
        assert false;
      }
    }
  }

  /** A NIC that was created with a trace is linked past its sniffer, so linking it again is refused. */
  lemma DisabledTwice(w: World, n: GraphNic, v: nat)
    requires !n.bypass && (Antispoof(n.key), Vhost(n.key)) in w.edges
    ensures DisableTrace(w, n, v).errors
  {}

  lemma DisabledEdge(w: World, n: GraphNic, v: nat, e: Edge)
    requires n.bypass && e !in w.edges && e != (Vtep, Vhost(n.key))
    ensures e !in DisableTrace(w, n, v).edges
  {}

  /** The vhost of a traced NIC hangs from its sniffer, not from the switch. */
  lemma NotHung(vnis: Vnis, w: World, leaked: set<Brick>, next: nat, v: nat, id: string)
    requires AtRest(vnis, w, leaked, next) && v in vnis && id in vnis[v].nics && vnis[v].sw.Some?
    requires vnis[v].nics[id].bypass && vnis[v].nics[id].traced
    ensures (Uplink(vnis[v].sw), Vhost(vnis[v].nics[id].key)) !in w.edges
  {
    var g, n := vnis[v], vnis[v].nics[id];
    var e := (Uplink(g.sw), Vhost(n.key));
    KeysOnce(vnis, next, v);
    HungFromSwitch(g);
    assert e.1 == Vhost(n.key);
    hide *;
    AtRestFacts(vnis, w, leaked, next);
    EdgesOfVni(vnis, w, leaked, next, v, e);
    EdgeInVni(g, e);
    if i :| i in g.nics && e in NicEdges(g.sw, g.nics[i]) { VhostHangs(g.sw, g.nics[i], n.key); }
  }

  lemma KeysOnce(vnis: Vnis, next: nat, v: nat)
    requires WellFormed(vnis, next) && v in vnis
    ensures forall i, j :: i in vnis[v].nics && j in vnis[v].nics && vnis[v].nics[i].key == vnis[v].nics[j].key ==> i == j
  {
    hide VniBricks;
    assert WellFormedVni(v, vnis[v], next);
  }

  lemma HungFromSwitch(g: GraphVni)
    requires g.sw.Some?
    ensures Uplink(g.sw) in VniBricks(g)
  {
    SwitchIn(g);
  }

  lemma VhostHangs(sw: Option<nat>, n: GraphNic, key: nat)
    requires sw.Some? && (Uplink(sw), Vhost(key)) in NicEdges(sw, n)
    ensures n.key == key && n.bypass && !n.traced
  {}

  /**
   Switching the trace of a NIC on leaves the graph that `vnis` stands for exactly when the NIC bypasses
   filtering and is alone in its VNI.
   */
  lemma EnableKeepsShape(vnis: Vnis, w: World, leaked: set<Brick>, next: nat, v: nat, id: string)
    requires AtRest(vnis, w, leaked, next) && v in vnis && id in vnis[v].nics
    requires !vnis[v].nics[id].traced && Sniffer(vnis[v].nics[id].key) !in w.alive
    ensures AtRest(Retraced(vnis, v, id, true), EnableTrace(w, vnis[v].nics[id], v), leaked, next)
       <==> vnis[v].nics[id].bypass && |vnis[v].nics| == 1
  {
    hide *;
    AtRestFacts(vnis, w, leaked, next);
    OnlyNic(vnis, next, v, id);
    if vnis[v].nics[id].bypass && |vnis[v].nics| == 1 {
      EnableGood(vnis, w, leaked, next, v, id);
    } else {
      EnableBad(vnis, w, leaked, next, v, id);
    }
  }

  /** And so does switching it off. */
  lemma DisableKeepsShape(vnis: Vnis, w: World, leaked: set<Brick>, next: nat, v: nat, id: string)
    requires AtRest(vnis, w, leaked, next) && v in vnis && id in vnis[v].nics && vnis[v].nics[id].traced
    ensures AtRest(Retraced(vnis, v, id, false), DisableTrace(w, vnis[v].nics[id], v), leaked + {Sniffer(vnis[v].nics[id].key)}, next)
       <==> vnis[v].nics[id].bypass && |vnis[v].nics| == 1
  {
    hide *;
    AtRestFacts(vnis, w, leaked, next);
    OnlyNic(vnis, next, v, id);
    if vnis[v].nics[id].bypass && |vnis[v].nics| == 1 {
      DisableGood(vnis, w, leaked, next, v, id);
    } else {
      DisableBad(vnis, w, leaked, next, v, id);
    }
  }

  // What comes of it

  /**
   The sniffer is now the head on record.  When a second NIC joins the VNI, the edge from the VTEP to that
   head is to be cut: for a filtering NIC there is none, and the addition fails.
   */
  lemma SecondNicRefused(vnis: Vnis, w: World, leaked: set<Brick>, next: nat, v: nat, id: string)
    requires AtRest(vnis, w, leaked, next) && v in vnis && id in vnis[v].nics && |vnis[v].nics| == 1
    requires !vnis[v].nics[id].traced && Sniffer(vnis[v].nics[id].key) !in w.alive
    ensures var n := vnis[v].nics[id];
            (Vtep, Sniffer(n.key)) in EnableTrace(w, n, v).edges <==> n.bypass
    ensures var n := vnis[v].nics[id];
            !n.bypass ==> Cut(EnableTrace(w, n, v), Vtep, Sniffer(n.key)).errors
  {
    hide AtRest, EnableTrace;
    DeadSniffer(vnis, w, leaked, next, Sniffer(vnis[v].nics[id].key));
    EnabledEdges(w, vnis[v].nics[id], v);
  }

  /** In a VNI with more NICs the VTEP then sends all that the VNI receives to the traced NIC, past the switch. */
  lemma VniTaken(vnis: Vnis, w: World, leaked: set<Brick>, next: nat, v: nat, id: string)
    requires AtRest(vnis, w, leaked, next) && v in vnis && id in vnis[v].nics && |vnis[v].nics| >= 2
    requires vnis[v].nics[id].bypass && !vnis[v].nics[id].traced && Sniffer(vnis[v].nics[id].key) !in w.alive
    ensures var w' := EnableTrace(w, vnis[v].nics[id], v);
            && v in w.neighbours && vnis[v].sw.Some? && w.neighbours[v] == Switch(vnis[v].sw.value)
            && v in w'.neighbours && w'.neighbours[v] == Sniffer(vnis[v].nics[id].key)
  {
    hide *;
    VniShape(vnis, w, leaked, next, v);
    DeadSniffer(vnis, w, leaked, next, Sniffer(vnis[v].nics[id].key));
    EnabledEdges(w, vnis[v].nics[id], v);
  }
}
