/** The switch's control plane: the API thread's `vnis_`, the command queue, and the poller that empties it. */
module Graphs {
  import opened Base
  import opened Bricks
  import opened Topology
  import opened Transitions
  import opened PollLists
  import opened Model
  import opened Filter
  import opened Compile
  import Order

  /** Which of the foreign constructors succeed, and the first link inside a branch. */
  datatype Outcome = Outcome(firewall: bool, antispoof: bool, vhost: bool, sniffer: bool, link: bool, switch: bool)

  /** Does everything that a branch needs behind its firewall come through? */
  predicate Builds(out: Outcome, bypass: bool, traced: bool) {
    out.antispoof && out.vhost && (traced ==> out.sniffer) && (!bypass || traced ==> out.link)
  }

  const EMPTY_WORLD: World := World({Port, Vtep}, {(Port, Vtep)}, map[], [], {}, false, false)

  lemma NoFault()
    ensures !EMPTY_WORLD.faults && EMPTY_WORLD.polled == []
  {}

  /**
   The filters of a firewall's two sides, whether the outbound side is the one every NIC starts with, and
   whether a filter was refused after a flush, so that the poller has not been told of it.
   */
  datatype Ruleset = Ruleset(west: seq<string>, east: seq<string>, defaultOutbound: bool, stale: bool)

  function Texts(text: string): seq<string> {
    if text == "" then [] else [text]
  }

  /** What a rebuild from scratch gives the firewall of a NIC: both filters, or what there is up to one that is refused. */
  function FullRules(pton: Resolver, groups: Groups, nic: Nic): Ruleset {
    var west, east := InText(groups, nic.securityGroups), OutText(nic.ipList);
    if west != "" && !Readable(pton, west) then Ruleset([], [], true, true)
    else if !Readable(pton, east) then Ruleset(Texts(west), [], true, true)
    else Ruleset(Texts(west), [east], true, false)
  }

  /** What one more compiled rule makes of a firewall's rules; when it is refused, the flush before it stands. */
  function AddedRules(pton: Resolver, r: Ruleset, rule: Rule, text: string): Ruleset {
    if !rule.direction.OUTBOUND? then
      if Readable(pton, text) then r.(west := r.west + [text], stale := false) else r
    else if r.defaultOutbound then
      if Readable(pton, text) then Ruleset(r.west, [text], false, false) else Ruleset(r.west, [], false, true)
    else
      if Readable(pton, text) then r.(east := r.east + [text], stale := false) else r
  }

  lemma OutTextNotEmpty(ips: seq<Ip>)
    ensures OutText(ips) != ""
  {
    JoinEnd(HostTexts(ips) + [DhcpText()], " || ");
  }

  ghost predicate Suffix<T>(a: seq<T>, b: seq<T>) {
    |a| <= |b| && a == b[|b| - |a|..]
  }

  lemma SuffixTransitive<T>(a: seq<T>, b: seq<T>, c: seq<T>)
    requires Suffix(a, b) && Suffix(b, c)
    ensures Suffix(a, c)
  {}

  lemma ExecListAlive(w: World, c: Command)
    requires ListAlive(w.polled, w.alive) && !Exec(w, c).faults
    ensures ListAlive(Exec(w, c).polled, Exec(w, c).alive)
    ensures c == Nothing ==> Exec(w, c) == w
  {}

  lemma CreateIs(w: World, b: Brick)
    ensures Create(w, b).alive == w.alive + {b} && Create(w, b).polled == w.polled
  {}

  lemma ConnectIs(w: World, a: Brick, b: Brick)
    ensures Connect(w, a, b).alive == w.alive && Connect(w, a, b).polled == w.polled
  {}

  lemma FreeIs(w: World, b: Brick)
    ensures Free(w, b).alive == w.alive - {b} && Free(w, b).polled == w.polled
  {}

  /** The graph of no VNI at all: the port and the VTEP. */
  lemma NoVniMatches()
    ensures AtRest(map[], EMPTY_WORLD, {}, 0) && PollList(map[]) == []
  {
    NoVniBricks();
    NoVniRows();
    hide AllBricks, AllEdges, PollList;
  }

  lemma NoVniBricks()
    ensures AllBricks(map[]) == {Port, Vtep} && AllEdges(map[]) == {(Port, Vtep)}
  {}

  lemma NoVniRows()
    ensures PollList(map[]) == []
  {
    hide Order.Numbers;
    var m: Vnis := map[];
    assert |Order.Numbers(m.Keys)| == 0;
    assert RowsOfVnis(m, Order.Numbers(m.Keys)) == [];
  }

  lemma NothingLoose(b: Brick)
    ensures Without({}, b) == {}
  {}

  lemma BranchIs(n: GraphNic)
    ensures NicBricks(n) == {Firewall(n.key), Antispoof(n.key), Vhost(n.key)} + if n.traced then {Sniffer(n.key)} else {}
    ensures !n.bypass ==>
      Branch(n) == {} + {(Firewall(n.key), Antispoof(n.key))} + {(Antispoof(n.key), Vhost(n.key))}
    ensures n.bypass && n.traced ==> Branch(n) == {} + {(Sniffer(n.key), Vhost(n.key))}
    ensures n.bypass && !n.traced ==> Branch(n) == {}
  {}

  class Graph {
    const pton: Resolver
    var vnis: Vnis
    var queue: seq<Command>
    /** The command that the poller has popped and not finished. */
    var current: Option<Command>
    var world: World
    var nextKey: nat
    /** Firewalls of branches whose construction failed: nothing destroys them. */
    ghost var leaked: set<Brick>
    /** By firewall allocation: the rules given to it, and the rules it had when it was last reloaded. */
    var rules: map<nat, Ruleset>
    var loaded: map<nat, Ruleset>

    constructor (pton: Resolver)
      ensures Inv() && vnis == map[] && Quiet() && Fresh() && this.pton == pton
    {
      this.pton := pton;
      vnis, queue, current, nextKey, leaked, rules, loaded := map[], [], None, 0, {}, map[], map[];
      world := EMPTY_WORLD;
      new;
      hide AtRest, PollList, EMPTY_WORLD;
      NoVniMatches();
      NoFault();
      QuietFinal();
    }

    // The queue as the two threads share it

    function Rules(k: nat): Ruleset
      reads `rules
    {
      if k in rules then rules[k] else Ruleset([], [], false, false)
    }

    function Loaded(k: nat): Ruleset
      reads `loaded
    {
      if k in loaded then loaded[k] else Ruleset([], [], false, false)
    }

    /** The poller filters by the rules the firewall was given, or is about to, unless a filter was refused. */
    ghost predicate FreshAt(k: nat)
      reads `rules, `loaded, `queue, `current
    {
      Rules(k).stale || Loaded(k) == Rules(k) || current == Some(FwReload(Firewall(k))) || FwReload(Firewall(k)) in queue
    }

    ghost predicate Fresh()
      reads `rules, `loaded, `queue, `current
    {
      forall k :: FreshAt(k)
    }

    ghost function Pending(): seq<Command>
      reads `queue, `current, `world
    {
      (if current.Some? then [current.value] else []) + queue
    }

    /** The graph once the queue has drained. */
    ghost function Final(): World
      reads `queue, `current, `world
    {
      Apply(world, Pending())
    }

    ghost predicate Safe()
      reads `queue, `current, `world
    {
      !Final().faults && ListAlive(world.polled, world.alive)
    }

    /** Nothing is waiting, and what the poller may still hold has no effect. */
    ghost predicate Quiet()
      reads `queue, `current
    {
      queue == [] && (current.None? || current == Some(Nothing))
    }

    ghost predicate Inv()
      reads this
    {
      && AtRest(vnis, Final(), leaked, nextKey)
      && Final().polled == PollList(vnis)
      && Safe()
    }

    lemma QuietFinal()
      requires Quiet()
      ensures Final() == world
    {
      if current.Some? {
        assert Pending() == [Nothing];
        assert Pending()[1..] == [];
        assert Apply(world, [Nothing]) == Apply(Exec(world, Nothing), []);
      }
    }

    /** The command that the poller holds takes effect; reloading a firewall reads the rules it has at this moment. */
    method ExecuteHeld()
      requires Safe() && current.Some?
      modifies `current, `world, `loaded
      ensures forall k :: old(FreshAt(k)) ==> FreshAt(k)
      ensures Safe() && Final() == old(Final()) && current == None
      ensures old(current) == Some(Nothing) ==> world == old(world)
    {
      hide ListAlive, FreshAt;
      var c := current.value;
      assert Pending()[0] == c && Pending()[1..] == queue;
      FaultsStay(Exec(world, c), queue);
      ExecListAlive(world, c);
      hide Exec;
      world := Exec(world, c);
      Reload(c);
      assert Pending() == queue;
    }

    method Reload(c: Command)
      requires current == Some(c)
      modifies `current, `loaded
      ensures current == None && forall k :: old(FreshAt(k)) ==> FreshAt(k)
    {
      if c.FwReload? && c.firewall.Firewall? { loaded := loaded[c.firewall.key := Rules(c.firewall.key)]; }
      current := None;
    }

    /** One atomic step of the poller: execute what it holds, or pop, or poll every listed brick once. */
    method PollerStep()
      requires Safe()
      modifies `queue, `current, `world, `loaded
      ensures forall k :: old(FreshAt(k)) ==> FreshAt(k)
      ensures Safe() && Final() == old(Final())
      ensures |queue| <= old(|queue|) && Suffix(Pending(), old(Pending()))
      ensures old(Pending()) != [] ==> |queue| < old(|queue|) || |Pending()| < old(|Pending()|)
      ensures old(Quiet()) ==> Quiet() && world == old(world)
    {
      if current.Some? {
        ExecuteHeld();
      } else if queue != [] {
        hide Exec, Apply, ListAlive;
        assert Pending() == queue;
        current := Some(queue[0]);
        queue := queue[1..];
        assert Pending() == old(queue);
      } else {
        assert ListAlive(world.polled, world.alive);
      }
    }

    /** The poller runs for any number of steps. */
    method Interleave()
      requires Safe()
      modifies `queue, `current, `world, `loaded
      ensures forall k :: old(FreshAt(k)) ==> FreshAt(k)
      ensures Safe() && Final() == old(Final())
      ensures |queue| <= old(|queue|) && Suffix(Pending(), old(Pending()))
      ensures old(Quiet()) ==> Quiet() && world == old(world)
    {
      var steps: nat := *;
      while steps > 0
        invariant Safe() && Final() == old(Final())
        invariant |queue| <= old(|queue|) && Suffix(Pending(), old(Pending()))
        invariant old(Quiet()) ==> Quiet() && world == old(world)
        invariant forall k :: old(FreshAt(k)) ==> FreshAt(k)
      {
        ghost var before := Pending();
        PollerStep();
        SuffixTransitive(Pending(), before, old(Pending()));
        steps := steps - 1;
      }
    }

    method Enqueue(c: Command)
      requires Safe() && !Exec(Final(), c).faults
      modifies `queue
      ensures forall k :: old(FreshAt(k)) || c == FwReload(Firewall(k)) ==> FreshAt(k)
      ensures Safe() && Final() == Exec(old(Final()), c) && Pending() == old(Pending()) + [c]
    {
      hide Exec, Apply, ListAlive;
      assert Pending() + [c] == (if current.Some? then [current.value] else []) + (queue + [c]);
      ApplyAppend(world, Pending(), c);
      queue := queue + [c];
    }

    /** Push one command; the poller may then run for any number of steps. */
    method Push(c: Command)
      requires Safe() && !Exec(Final(), c).faults
      modifies `queue, `current, `world, `loaded
      ensures forall k :: old(FreshAt(k)) || c == FwReload(Firewall(k)) ==> FreshAt(k)
      ensures Safe() && Final() == Exec(old(Final()), c)
      ensures Pending() == [] || Pending()[|Pending()| - 1] == c
    {
      hide Exec, Apply, ListAlive;
      Enqueue(c);
      Interleave();
    }

    /** One push after the other. */
    method PushTwo(a: Command, b: Command)
      requires Safe() && !Exec(Final(), a).faults && !Exec(Exec(Final(), a), b).faults
      modifies `queue, `current, `world, `loaded
      ensures forall k :: old(FreshAt(k)) ==> FreshAt(k)
      ensures Safe() && Final() == Exec(Exec(old(Final()), a), b)
    {
      hide *;
      Push(a);
      Push(b);
    }

    /** When this returns, every command pushed before it has been executed. */
    method WaitEmptyQueue()
      requires Safe()
      modifies `queue, `current, `world, `loaded
      ensures forall k :: old(FreshAt(k)) ==> FreshAt(k)
      ensures Quiet() && Safe() && world == old(Final()) && Final() == world
    {
      Push(Nothing);
      while queue != []
        invariant Safe() && Final() == old(Final())
        invariant Pending() == [] || Pending()[|Pending()| - 1] == Nothing
        invariant forall k :: old(FreshAt(k)) ==> FreshAt(k)
        decreases |queue|, |Pending()|
      {
        PollerStep();
        Interleave();
      }
      QuietFinal();
    }

    /**
     Every brick that a queued command names is alive, or is the firewall that an earlier queued command
     creates; and so is every brick that the poller polls.
     */
    lemma NothingDangles(i: nat)
      requires Safe() && i < |Pending()|
      ensures Named(Pending()[i]) <= world.alive + AllCreated(Pending()[..i])
      ensures forall x :: x in world.polled ==> x.vhost in world.alive && x.firewall in world.alive
    {
      hide Apply;
      QueuedBricksAlive(world, Pending(), i);
    }

    // Direct edits by the API thread

    /** The queue is drained, and the graph is that of `vnis` plus the bricks of a branch in the making. */
    ghost predicate Building(spare: set<Brick>, loose: set<Edge>)
      reads `vnis, `queue, `current, `world, `nextKey
    {
      Quiet() && Matches(vnis, world, spare, loose, nextKey) && world.polled == PollList(vnis)
    }

    /** After a direct edit the poller may run; the queue is empty, so it changes nothing. */
    method Settle(ghost spare: set<Brick>, ghost loose: set<Edge>)
      requires Quiet() && Matches(vnis, world, spare, loose, nextKey) && world.polled == PollList(vnis)
      modifies `queue, `current, `world, `loaded
      ensures forall k :: old(FreshAt(k)) ==> FreshAt(k)
      ensures Building(spare, loose) && world == old(world)
    {
      hide *;
      BuildingIs(spare, loose);
      BuildingFacts(spare, loose);
      Interleave();
      BuildingIs(spare, loose);
    }

    method NewBrick(b: Brick, ghost spare: set<Brick>, ghost loose: set<Edge>)
      requires Building(spare, loose)
      requires !b.Port? && !b.Vtep? && b.key < nextKey && b !in world.alive
      modifies `queue, `current, `world, `loaded
      ensures forall k :: old(FreshAt(k)) ==> FreshAt(k)
      ensures Building(spare + {b}, loose) && world.alive == old(world.alive) + {b}
    {
      hide *;
      BuildingFacts(spare, loose);
      PolledNow(spare, loose);
      CreateSpare(vnis, world, spare, loose, nextKey, b);
      CreateIs(world, b);
      world := Create(world, b);
      Settle(spare + {b}, loose);
    }

    method LinkBricks(west: Brick, east: Brick, ghost spare: set<Brick>, ghost loose: set<Edge>)
      requires Building(spare, loose)
      requires west in spare && east in spare && (west, east) !in loose
      modifies `queue, `current, `world, `loaded
      ensures forall k :: old(FreshAt(k)) ==> FreshAt(k)
      ensures Building(spare, loose + {(west, east)}) && world.alive == old(world.alive)
    {
      hide *;
      BuildingFacts(spare, loose);
      PolledNow(spare, loose);
      LinkSpare(vnis, world, spare, loose, nextKey, west, east);
      ConnectIs(world, west, east);
      world := Connect(world, west, east);
      Settle(spare, loose + {(west, east)});
    }

    method FreeBrick(b: Brick, ghost spare: set<Brick>, ghost loose: set<Edge>)
      requires Building(spare, loose) && b in spare
      modifies `queue, `current, `world, `loaded
      ensures forall k :: old(FreshAt(k)) ==> FreshAt(k)
      ensures Building(spare - {b}, Without(loose, b)) && world.alive == old(world.alive) - {b}
    {
      hide *;
      BuildingFacts(spare, loose);
      PolledNow(spare, loose);
      PollListBricks(vnis);
      FreeSpareAtRest(vnis, world, spare, loose, nextKey, b);
      FreeIs(world, b);
      world := Free(world, b);
      Settle(spare - {b}, Without(loose, b));
    }

    // Adding a NIC

    static ghost function NicsAt(vnis: Vnis, v: nat): map<string, GraphNic> {
      if v in vnis then vnis[v].nics else map[]
    }

    /** Build the branch of `n` after its firewall; a failure frees what was built and leaks the firewall. */
    method MakeBranch(n: GraphNic, out: Outcome) returns (ok: bool)
      requires Building(leaked + {Firewall(n.key)}, {})
      requires n.key < nextKey && Firewall(n.key) !in leaked && leaked <= world.alive
      requires {Antispoof(n.key), Vhost(n.key), Sniffer(n.key)} !! world.alive
      modifies `leaked, `queue, `current, `world, `loaded
      ensures forall k :: old(FreshAt(k)) ==> FreshAt(k)
      ensures vnis == old(vnis) && nextKey == old(nextKey)
      ensures ok <==> Builds(out, n.bypass, n.traced)
      ensures ok ==> leaked == old(leaked) && NicBricks(n) !! leaked && Building(leaked + NicBricks(n), Branch(n))
      ensures !ok ==> leaked == old(leaked) + {Firewall(n.key)} && Building(leaked, {})
    {
      hide Building, Matches, AllEdges, AllBricks, PollList, NicBricks, Branch, Without;
      BranchIs(n);
      var F, A, V, S := Firewall(n.key), Antispoof(n.key), Vhost(n.key), Sniffer(n.key);
      if !out.antispoof {
        leaked := leaked + {F};
        return false;
      }
      NewBrick(A, leaked + {F}, {});
      if !out.vhost {
        FreeBrick(A, leaked + {F} + {A}, {});
        NothingLoose(A);
        assert leaked + {F} + {A} - {A} == leaked + {F};
        leaked := leaked + {F};
        return false;
      }
      NewBrick(V, leaked + {F} + {A}, {});
      ghost var spare := leaked + {F} + {A} + {V};
      if n.traced {
        if !out.sniffer {
          FreeBrick(V, spare, {});
          NothingLoose(V);
          FreeBrick(A, spare - {V}, {});
          NothingLoose(A);
          assert spare - {V} - {A} == leaked + {F};
          leaked := leaked + {F};
          return false;
        }
        NewBrick(S, spare, {});
        spare := spare + {S};
      }
      assert spare == leaked + NicBricks(n);
      if (!n.bypass || n.traced) && !out.link {
        assert NicBricks(n) !! leaked;
        DropBranch(n, {});
        return false;
      }
      if n.bypass {
        if n.traced { LinkBricks(S, V, spare, {}); }
      } else {
        LinkBricks(F, A, spare, {});
        LinkBricks(A, V, spare, {} + {(F, A)});
      }
      ok := true;
    }

    /** Hang the finished branch `n` from its VNI; the queue holds the links when this returns. */
    method Attach(v: nat, n: GraphNic, out: Outcome) returns (ok: bool)
      requires Building(leaked + NicBricks(n), Branch(n)) && NicBricks(n) !! leaked && n.key < nextKey
      requires v in vnis && n.id !in vnis[v].nics
      modifies `vnis, `nextKey, `queue, `current, `world, `loaded
      ensures forall k :: old(FreshAt(k)) ==> FreshAt(k)
      ensures nextKey >= old(nextKey) && Safe()
      ensures ok <==> |old(vnis)[v].nics| != 1 || out.switch
      ensures !ok ==> vnis == old(vnis) && leaked == old(leaked) && Building(leaked + NicBricks(n), Branch(n))
      ensures ok ==> leaked == old(leaked) && AtRest(vnis, Final(), leaked, nextKey)
      ensures ok ==> vnis.Keys == old(vnis).Keys && forall u :: u in vnis && u != v ==> vnis[u] == old(vnis)[u]
      ensures ok ==> vnis[v].nics == old(vnis)[v].nics[n.id := n]
    {
      hide *;
      var g := vnis[v];
      BuildingFacts(leaked + NicBricks(n), Branch(n));
      if |g.nics| == 0 {
        AttachAsFirst(v, n);
        ok := true;
      } else if |g.nics| == 1 {
        if !out.switch { return false; }
        AttachWithSwitch(v, n);
        ok := true;
      } else {
        AttachToSwitch(v, n);
        ok := true;
      }
    }

    lemma BuildingFacts(spare: set<Brick>, loose: set<Edge>)
      requires Building(spare, loose)
      ensures Quiet() && Safe() && Final() == world && Matches(vnis, world, spare, loose, nextKey)
    {
      QuietFinal();
    }

    /** Straight to the VTEP. */
    method AttachAsFirst(v: nat, n: GraphNic)
      requires Building(leaked + NicBricks(n), Branch(n)) && NicBricks(n) !! leaked && n.key < nextKey
      requires v in vnis && |vnis[v].nics| == 0
      modifies `vnis, `queue, `current, `world, `loaded
      ensures forall k :: old(FreshAt(k)) ==> FreshAt(k)
      ensures Safe() && AtRest(vnis, Final(), leaked, nextKey)
      ensures v in vnis && vnis == old(vnis)[v := vnis[v]] && vnis[v].nics == old(vnis)[v].nics[n.id := n]
    {
      hide *;
      var g := vnis[v];
      ghost var w := world;
      BuildingFacts(leaked + NicBricks(n), Branch(n));
      VniFacts(vnis, w, leaked + NicBricks(n), Branch(n), nextKey, v);
      ReadyIs(vnis, w, n, leaked, nextKey);
      AttachFirstMatches(vnis, w, n, leaked, nextKey, v);
      FaultFree(vnis[v := GraphVni(v, None, map[n.id := n])], AttachFirst(w, n, v), leaked, {}, nextKey);
      AttachFirstSteps(w, n, v);
      PushTwo(Link(Vtep, Head(n)), AddVni(Head(n), v));
      OnlyOne(g, v, n);
      vnis := vnis[v := g.(nics := g.nics[n.id := n])];
      RestIs(vnis, Final(), leaked, nextKey);
    }

    /** A switch is put between the VTEP and the two heads; the old edge is removed here, not by the poller. */
    method AttachWithSwitch(v: nat, n: GraphNic)
      requires Building(leaked + NicBricks(n), Branch(n)) && NicBricks(n) !! leaked && n.key < nextKey
      requires v in vnis && |vnis[v].nics| == 1 && n.id !in vnis[v].nics
      modifies `vnis, `nextKey, `queue, `current, `world, `loaded
      ensures forall k :: old(FreshAt(k)) ==> FreshAt(k)
      ensures nextKey >= old(nextKey) && Safe() && AtRest(vnis, Final(), leaked, nextKey)
      ensures v in vnis && vnis == old(vnis)[v := vnis[v]] && vnis[v].nics == old(vnis)[v].nics[n.id := n]
    {
      hide *;
      var g := vnis[v];
      BuildingFacts(leaked + NicBricks(n), Branch(n));
      VniFacts(vnis, world, leaked + NicBricks(n), Branch(n), nextKey, v);
      var k := nextKey;
      SwitchFresh(vnis, world, leaked + NicBricks(n), Branch(n), k);
      BuildingMore(leaked + NicBricks(n), Branch(n));
      NewBrick(Switch(k), leaked + NicBricks(n), Branch(n));
      BuildingFacts(leaked + NicBricks(n) + {Switch(k)}, Branch(n));
      var i := Order.Texts(g.nics.Keys)[0];
      assert i in Order.Texts(g.nics.Keys);
      var first := g.nics[i];
      ghost var w := world;
      RegroupSpare(leaked, NicBricks(n), {Switch(k)});
      SwitchSpare(vnis, w, n, leaked, k, nextKey);
      AttachSecondMatches(vnis, w, i, k, n, leaked, nextKey, v);
      FaultFree(vnis[v := GraphVni(v, Some(k), g.nics[n.id := n])], AttachSecond(w, first, k, n, v), leaked, {}, nextKey);
      Rewire(first, k, n, v);
      vnis := vnis[v := g.(sw := Some(k), nics := g.nics[n.id := n])];
      RestIs(vnis, Final(), leaked, nextKey);
    }

    /** The cut on this thread, and the four commands for the poller. */
    method Rewire(first: GraphNic, k: nat, n: GraphNic, v: nat)
      requires Quiet() && Healthy(AttachSecond(world, first, k, n, v))
      modifies `queue, `current, `world, `loaded
      ensures forall k :: old(FreshAt(k)) ==> FreshAt(k)
      ensures Safe() && Final() == AttachSecond(old(world), first, k, n, v)
    {
      hide *;
      AttachSecondSteps(world, first, k, n, v);
      world := Cut(world, Vtep, Head(first));
      QuietSafe();
      Interleave();
      PushTwo(Link(Vtep, Switch(k)), AddVni(Switch(k), v));
      PushTwo(Link(Switch(k), Head(first)), Link(Switch(k), Head(n)));
    }

    method AttachToSwitch(v: nat, n: GraphNic)
      requires Building(leaked + NicBricks(n), Branch(n)) && NicBricks(n) !! leaked && n.key < nextKey
      requires v in vnis && |vnis[v].nics| >= 2 && n.id !in vnis[v].nics
      modifies `vnis, `queue, `current, `world, `loaded
      ensures forall k :: old(FreshAt(k)) ==> FreshAt(k)
      ensures Safe() && AtRest(vnis, Final(), leaked, nextKey)
      ensures v in vnis && vnis == old(vnis)[v := vnis[v]] && vnis[v].nics == old(vnis)[v].nics[n.id := n]
    {
      hide *;
      var g := vnis[v];
      ghost var w := world;
      BuildingFacts(leaked + NicBricks(n), Branch(n));
      ReadyIs(vnis, w, n, leaked, nextKey);
      AttachMoreMatches(vnis, w, n, leaked, nextKey, v);
      FaultFree(vnis[v := Joined(g, n)], AttachMore(w, g.sw.value, n), leaked, {}, nextKey);
      AttachMoreSteps(w, g.sw.value, n);
      Push(Link(Switch(g.sw.value), Head(n)));
      vnis := vnis[v := g.(nics := g.nics[n.id := n])];
      JoinedIs(g, n);
      RestIs(vnis, Final(), leaked, nextKey);
    }

    /** `update_poll`: list the enabled NICs by VNI and id, and hand the list to the poller. */
    method UpdatePollList()
      requires Safe() && AtRest(vnis, Final(), leaked, nextKey)
      modifies `queue, `current, `world, `loaded
      ensures forall k :: old(FreshAt(k)) ==> FreshAt(k)
      ensures Inv()
    {
      hide *;
      var rows := PollRows();
      PolledMatches(vnis, Final(), leaked, {}, nextKey) by { RestFacts(vnis, Final(), leaked, nextKey); }
      Push(UpdatePoll(rows));
      RestIs(vnis, Final(), leaked, nextKey);
      InvIs();
    }

    lemma InvIs()
      requires AtRest(vnis, Final(), leaked, nextKey) && Final().polled == PollList(vnis) && Safe()
      ensures Inv()
    {}

    /** The two nested loops that fill the poll arrays. */
    method PollRows() returns (rows: seq<Polled>)
      ensures rows == PollList(vnis)
    {
      hide Zip, Shorten, RowsOfVnis, RowsOf, Order.Texts, Order.Numbers;
      var pollables := new Brick[POLL_SLOTS](_ => Port);
      var firewalls := new Brick[POLL_SLOTS](_ => Port);
      var size: nat := 0;
      var keys := Order.Numbers(vnis.Keys);
      NoVnis(vnis, pollables[..0], firewalls[..0]);
      assert keys[..0] == [];
      for a := 0 to |keys|
        invariant size < POLL_SLOTS && fresh(pollables) && fresh(firewalls) && pollables != firewalls
        invariant pollables.Length == firewalls.Length == POLL_SLOTS
        invariant Zip(pollables[..size], firewalls[..size]) == Shorten(RowsOfVnis(vnis, keys[..a]))
      {
        size := AddRows(vnis[keys[a]].nics, pollables, firewalls, size, RowsOfVnis(vnis, keys[..a]));
        VnisSnoc(vnis, keys, a);
      }
      assert keys[..|keys|] == keys;
      rows := Zip(pollables[..size], firewalls[..size]);
    }

    static method PutRow(pollables: array<Brick>, firewalls: array<Brick>, size: nat, n: GraphNic)
      requires size < pollables.Length == firewalls.Length && pollables != firewalls
      modifies pollables, firewalls
      ensures pollables[..size + 1] == old(pollables[..size]) + [Vhost(n.key)]
      ensures firewalls[..size + 1] == old(firewalls[..size]) + [Firewall(n.key)]
    {
      pollables[size] := Vhost(n.key);
      firewalls[size] := Firewall(n.key);
    }

    /** The inner loop: one VNI's enabled NICs, until one slot short of the arrays' end. */
    static method AddRows(nics: map<string, GraphNic>, pollables: array<Brick>, firewalls: array<Brick>, from: nat,
                          ghost before: seq<Polled>) returns (size: nat)
      requires pollables.Length == firewalls.Length == POLL_SLOTS && pollables != firewalls && from < POLL_SLOTS
      requires Zip(pollables[..from], firewalls[..from]) == Shorten(before)
      modifies pollables, firewalls
      ensures size < POLL_SLOTS
      ensures Zip(pollables[..size], firewalls[..size]) == Shorten(before + RowsOf(nics, Order.Texts(nics.Keys)))
    {
      hide RowsOf, Zip, Shorten, Order.Texts;
      size := from;
      var ids := Order.Texts(nics.Keys);
      var b := 0;
      NoRows(nics);
      assert ids[..0] == [] && before + RowsOf(nics, []) == before;
      while b < |ids|
        invariant 0 <= b <= |ids| && size < POLL_SLOTS
        invariant Zip(pollables[..size], firewalls[..size]) == Shorten(before + RowsOf(nics, ids[..b]))
      {
        if size + 1 >= POLL_SLOTS {
          RowsPrefix(nics, ids, b);
          FullStays(pollables[..size], firewalls[..size], before, RowsOf(nics, ids[..b]), RowsOf(nics, ids));
          return;
        }
        RowsSnoc(nics, ids, b);
        var n := nics[ids[b]];
        if n.enable {
          OneMore(pollables[..size], firewalls[..size], before, RowsOf(nics, ids[..b]), n);
          PutRow(pollables, firewalls, size, n);
          size := size + 1;
        } else {
          assert RowsOf(nics, ids[..b]) + [] == RowsOf(nics, ids[..b]);
        }
        b := b + 1;
      }
      assert ids[..|ids|] == ids;
    }

    /** A VNI entry, if there is none yet. */
    method EnsureVni(v: nat)
      requires Inv()
      modifies `vnis
      ensures Inv() && v in vnis && vnis == old(vnis)[v := vnis[v]] && vnis[v].nics == NicsAt(old(vnis), v)
    {
      hide *;
      InvFacts();
      if v !in vnis {
        InsertVni(vnis, v, Final(), leaked, {}, nextKey);
        vnis := vnis[v := GraphVni(v, None, map[])];
        DropRows(vnis, v);
        assert vnis - {v} == old(vnis);
        RestIs(vnis, Final(), leaked, nextKey);
        InvIs();
      }
      NicsAtIs(vnis, v);
      NicsAtIs(old(vnis), v);
    }

    lemma InvFacts()
      requires Inv()
      ensures Safe() && AtRest(vnis, Final(), leaked, nextKey) && Final().polled == PollList(vnis)
      ensures Matches(vnis, Final(), leaked, {}, nextKey)
    {}

    /**
     `NicAdd`, up to the firewall rules.  The result of the firewall's allocation is read after the barrier;
     the edge from the VTEP to the first head is cut on this thread.
     */
    method BuildNic(id: string, v: nat, bypass: bool, traced: bool, out: Outcome) returns (ok: bool, n: GraphNic)
      requires Inv() && (v in vnis ==> id !in vnis[v].nics)
      modifies `vnis, `nextKey, `leaked, `queue, `current, `world, `loaded
      ensures forall k :: old(FreshAt(k)) ==> FreshAt(k)
      ensures Inv()
      ensures ok <==> out.firewall && Builds(out, bypass, traced) && (|NicsAt(old(vnis), v)| == 1 ==> out.switch)
      ensures n == GraphNic(id, old(nextKey), bypass, traced, true) && nextKey > old(nextKey)
      ensures v in vnis && vnis == old(vnis)[v := vnis[v]]
      ensures vnis[v].nics == if ok then NicsAt(old(vnis), v)[id := n] else NicsAt(old(vnis), v)
      ensures leaked == if ok || !out.firewall then old(leaked) else old(leaked) + {Firewall(n.key)}
    {
      hide *;
      NicsAtIs(vnis, v);
      EnsureVni(v);
      var key := nextKey;
      n := GraphNic(id, key, bypass, traced, true);
      ok := NewFirewall(out.firewall);
      if !ok { return; }
      BuildingFacts(leaked + {Firewall(key)}, {});
      ok := MakeBranch(n, out);
      if !ok { EndBuilding(); return; }
      ok := Attach(v, n, out);
      if !ok {
        DropBranch(n, Branch(n));
        EndBuilding();
        return;
      }
      UpdatePollList();
    }

    lemma EndBuilding()
      requires Building(leaked, {})
      ensures Inv()
    {
      QuietFinal();
    }

    /** `fw_new` and the barrier: the result pointer is read once the poller has written it. */
    method NewFirewall(succeeds: bool) returns (made: bool)
      requires Inv()
      modifies `nextKey, `queue, `current, `world, `loaded
      ensures forall k :: old(FreshAt(k)) ==> FreshAt(k)
      ensures nextKey == old(nextKey) + 1 && made == succeeds
      ensures !made ==> Inv()
      ensures made ==> Building(leaked + {Firewall(old(nextKey))}, {})
      ensures made ==> Firewall(old(nextKey)) !in leaked && leaked <= world.alive
      ensures made ==> {Antispoof(old(nextKey)), Vhost(old(nextKey)), Sniffer(old(nextKey))} !! world.alive
    {
      hide AllEdges, AllBricks, WellFormed, Neighbours, PollList, Apply;
      var key := nextKey;
      InvFacts();
      FirewallCreated(vnis, Final(), leaked, key);
      FreshKey(vnis, Final(), leaked, {}, key);
      nextKey := nextKey + 1;
      Push(FwNew(key, succeeds));
      WaitEmptyQueue();
      made := key in world.written;
      QuietFinal();
    }

    /** The owners of a branch's antispoof, vhost and sniffer go away. */
    method FreeBranch(n: GraphNic, ghost spare: set<Brick>, ghost loose: set<Edge>)
      requires Building(spare, loose) && loose <= Branch(n)
      requires {Antispoof(n.key), Vhost(n.key)} <= spare && (n.traced ==> Sniffer(n.key) in spare)
      modifies `queue, `current, `world, `loaded
      ensures forall k :: old(FreshAt(k)) ==> FreshAt(k)
      ensures Building(spare - Rest(n), {})
    {
      hide *;
      LooseGone(n, loose);
      if n.traced {
        FreeBrick(Sniffer(n.key), spare, loose);
        FreeBrick(Vhost(n.key), spare - {Sniffer(n.key)}, Without(loose, Sniffer(n.key)));
        FreeBrick(Antispoof(n.key), spare - {Sniffer(n.key)} - {Vhost(n.key)}, Without(Without(loose, Sniffer(n.key)), Vhost(n.key)));
      } else {
        FreeBrick(Vhost(n.key), spare, loose);
        FreeBrick(Antispoof(n.key), spare - {Vhost(n.key)}, Without(loose, Vhost(n.key)));
      }
      RestGone(n, spare);
    }

    /** The branch of a NIC that could not be linked or attached: freed, except for its firewall. */
    method DropBranch(n: GraphNic, ghost loose: set<Edge>)
      requires Building(leaked + NicBricks(n), loose) && loose <= Branch(n) && NicBricks(n) !! leaked
      modifies `leaked, `queue, `current, `world, `loaded
      ensures forall k :: old(FreshAt(k)) ==> FreshAt(k)
      ensures leaked == old(leaked) + {Firewall(n.key)} && Building(leaked, {})
    {
      hide *;
      BranchIs(n);
      FreeBranch(n, leaked + NicBricks(n), loose);
      FirewallLeft(n, leaked);
      leaked := leaked + {Firewall(n.key)};
    }

    // Firewall rules

    /** Two NICs never share a firewall, and no NIC has a firewall that is still to be allocated. */
    lemma KeysApart(v: nat, i: string, u: nat, j: string)
      requires Inv() && v in vnis && i in vnis[v].nics && u in vnis && j in vnis[u].nics
      ensures v != u || i != j ==> vnis[v].nics[i].key != vnis[u].nics[j].key
      ensures vnis[v].nics[i].key < nextKey
    {
      hide AllEdges, AllBricks, VniBricks, Neighbours, Apply, PollList;
      assert WellFormedVni(v, vnis[v], nextKey);
      if v != u { RowsApart(vnis, nextKey, v, i, u, j); }
    }

    /** Does the firewall of this NIC exist and take rules? */
    ghost predicate Filters(nic: Nic)
      reads `vnis
    {
      !nic.bypassFiltering && nic.vni in vnis && nic.id in vnis[nic.vni].nics
    }

    ghost function KeyOf(nic: Nic): nat
      requires Filters(nic)
      reads `vnis
    {
      vnis[nic.vni].nics[nic.id].key
    }

    lemma FirewallReady(v: nat, i: string)
      requires Inv() && v in vnis && i in vnis[v].nics
      ensures Exec(Final(), FwReload(Firewall(vnis[v].nics[i].key))) == Final() && !Final().faults
    {
      hide AllEdges, AllBricks, VniBricks, VniEdges, Neighbours, WellFormed, Apply, PollList;
      AtKnown(vnis, v);
      SplitNicBricks(vnis[v], i);
    }

    /** The rules of one firewall change on this thread; the poller may reload an older set meanwhile. */
    method SetRules(k: nat, r: Ruleset)
      requires Inv()
      modifies `rules, `queue, `current, `world, `loaded
      ensures Inv() && rules == old(rules)[k := r]
      ensures forall j :: j != k && old(FreshAt(j)) ==> FreshAt(j)
    {
      hide AtRest, PollList, Apply;
      rules := rules[k := r];
      Interleave();
    }

    method ReloadFirewall(v: nat, i: string)
      requires Inv() && v in vnis && i in vnis[v].nics
      modifies `queue, `current, `world, `loaded
      ensures Inv() && FreshAt(vnis[v].nics[i].key) && forall k :: old(FreshAt(k)) ==> FreshAt(k)
    {
      hide AtRest, PollList, Apply, Exec, FreshAt;
      FirewallReady(v, i);
      Push(FwReload(Firewall(vnis[v].nics[i].key)));
    }

    /**
     `FwUpdate`: compile all groups of the NIC, replace both sides of its firewall, and have it reloaded; a
     filter that is refused ends it there, after the flush and without the reload.
     */
    method FwUpdate(nic: Nic, groups: Groups)
      requires Inv()
      modifies `rules, `queue, `current, `world, `loaded
      ensures Inv() && forall k :: old(FreshAt(k)) ==> FreshAt(k)
      ensures rules == if Filters(nic) then old(rules)[KeyOf(nic) := FullRules(pton, groups, nic)] else old(rules)
      ensures Filters(nic) ==> FreshAt(KeyOf(nic))
    {
      hide Inv, FreshAt, InText, OutText, Readable;
      if nic.bypassFiltering || nic.vni !in vnis || nic.id !in vnis[nic.vni].nics { return; }
      var k := vnis[nic.vni].nics[nic.id].key;
      var inRules := BuildIn(groups, nic.securityGroups);
      var outRules := BuildOut(nic.ipList);
      SetRules(k, Rules(k).(defaultOutbound := true));
      SetRules(k, Rules(k).(west := [], east := [], stale := true));
      StaleIsFresh(k);
      if |inRules| > 0 {
        if !Readable(pton, inRules) { return; }
        SetRules(k, Rules(k).(west := Rules(k).west + [inRules]));
        StaleIsFresh(k);
      }
      OutTextNotEmpty(nic.ipList);
      if |outRules| > 0 {
        if !Readable(pton, outRules) {
          assert Rules(k) == FullRules(pton, groups, nic) && rules == old(rules)[k := Rules(k)];
          return;
        }
        SetRules(k, Rules(k).(east := Rules(k).east + [outRules], stale := false));
      }
      assert Rules(k) == FullRules(pton, groups, nic);
      assert rules == old(rules)[k := Rules(k)];
      ReloadFirewall(nic.vni, nic.id);
    }

    lemma StaleIsFresh(k: nat)
      ensures Rules(k).stale ==> FreshAt(k)
    {}

    /** `FwAddRule`: one more filter text; the first outbound rule replaces the default outbound filter. */
    method FwAddRule(nic: Nic, rule: Rule, groups: Groups)
      requires Inv()
      modifies `rules, `queue, `current, `world, `loaded
      ensures Inv() && forall k :: old(FreshAt(k)) ==> FreshAt(k)
      ensures forall k :: Rules(k) == if Filters(nic) && RuleText(groups, rule) != "" && k == KeyOf(nic)
                                      then AddedRules(pton, old(Rules(k)), rule, RuleText(groups, rule)) else old(Rules(k))
    {
      hide Inv, FreshAt, RuleText, Readable;
      if nic.bypassFiltering { return; }
      var r := FwBuildRule(groups, rule);
      if |r| == 0 || nic.vni !in vnis || nic.id !in vnis[nic.vni].nics { return; }
      var k := vnis[nic.vni].nics[nic.id].key;
      if rule.direction.OUTBOUND? && Rules(k).defaultOutbound {
        SetRules(k, Rules(k).(east := [], stale := true));
        SetRules(k, Rules(k).(defaultOutbound := false));
        StaleIsFresh(k);
      }
      if !Readable(pton, r) {
        assert Rules(k) == AddedRules(pton, old(Rules(k)), rule, r);
        return;
      }
      if rule.direction.OUTBOUND? {
        SetRules(k, Rules(k).(east := Rules(k).east + [r], stale := false));
      } else {
        SetRules(k, Rules(k).(west := Rules(k).west + [r], stale := false));
      }
      assert Rules(k) == AddedRules(pton, old(Rules(k)), rule, r);
      ReloadFirewall(nic.vni, nic.id);
    }

    /** `NicAdd`. */
    method NicAdd(nic: Nic, groups: Groups, out: Outcome) returns (ok: bool)
      requires Inv() && (nic.vni in vnis ==> nic.id !in vnis[nic.vni].nics)
      modifies this
      ensures Inv() && nextKey > old(nextKey) && forall k :: old(FreshAt(k)) ==> FreshAt(k)
      ensures ok <==> out.firewall && Builds(out, nic.bypassFiltering, nic.packetTrace) && (|NicsAt(old(vnis), nic.vni)| == 1 ==> out.switch)
      ensures nic.vni in vnis && vnis == old(vnis)[nic.vni := vnis[nic.vni]]
      ensures vnis[nic.vni].nics == if !ok then NicsAt(old(vnis), nic.vni) else
        NicsAt(old(vnis), nic.vni)[nic.id := GraphNic(nic.id, old(nextKey), nic.bypassFiltering, nic.packetTrace, true)]
      ensures leaked == if ok || !out.firewall then old(leaked) else old(leaked) + {Firewall(old(nextKey))}
      ensures rules == if ok && !nic.bypassFiltering then old(rules)[old(nextKey) := FullRules(pton, groups, nic)] else old(rules)
    {
      hide Inv, FreshAt, NicsAt, FullRules;
      var n: GraphNic;
      ok, n := BuildNic(nic.id, nic.vni, nic.bypassFiltering, nic.packetTrace, out);
      if ok { FwUpdate(nic, groups); }
    }

    // Removing a NIC

    /** The graph once the queue has drained is that of `after`, plus spare bricks; the poll list is already right. */
    ghost predicate Detached(after: Vnis, spare: set<Brick>, loose: set<Edge>)
      reads `queue, `current, `world, `nextKey
    {
      && Safe()
      && Matches(after, Final(), spare, loose, nextKey)
      && Final().polled == PollList(after)
    }

    lemma DetachedIs(after: Vnis, spare: set<Brick>, loose: set<Edge>)
      requires Safe() && Matches(after, Final(), spare, loose, nextKey) && Final().polled == PollList(after)
      ensures Detached(after, spare, loose)
    {}

    lemma DetachedFacts(after: Vnis, spare: set<Brick>, loose: set<Edge>)
      requires Detached(after, spare, loose)
      ensures Safe() && Matches(after, Final(), spare, loose, nextKey) && Final().polled == PollList(after)
    {}

    /** `n.enable = false; update_poll();` */
    method DisableNic(v: nat, id: string)
      requires Inv() && v in vnis && id in vnis[v].nics
      modifies `vnis, `queue, `current, `world, `loaded
      ensures forall k :: old(FreshAt(k)) ==> FreshAt(k)
      ensures Inv() && vnis == old(vnis)[v := Disable(old(vnis)[v], id)]
      ensures PollList(vnis) == PollList(old(vnis)[v := Left(old(vnis)[v], id)])
    {
      hide *;
      InvFacts();
      Disabled(vnis, v, id, Final(), leaked, {}, nextKey);
      var g := vnis[v];
      DisableIs(g, id);
      vnis := vnis[v := g.(nics := g.nics[id := g.nics[id].(enable := false)])];
      RestIs(vnis, Final(), leaked, nextKey);
      UpdatePollList();
      DisabledRows(g, id);
      SameRows(vnis, v, Left(g, id));
      assert vnis[v := Left(g, id)] == old(vnis)[v := Left(g, id)];
    }

    /** A head that shares its VTEP or its switch with none or with at least two others is simply unlinked. */
    method DetachAlone(v: nat, n: GraphNic, ghost after: Vnis)
      requires Inv() && v in vnis && n.id in vnis[v].nics && n == vnis[v].nics[n.id] && |vnis[v].nics| != 2
      requires after == vnis[v := Left(vnis[v], n.id)] && PollList(vnis) == PollList(after)
      modifies `queue, `current, `world, `loaded
      ensures forall k :: old(FreshAt(k)) ==> FreshAt(k)
      ensures NicBricks(n) !! leaked
      ensures Detached(after, leaked + NicBricks(n), Without(Branch(n), Head(n)))
    {
      hide *;
      InvFacts();
      LeakedApart(vnis, v, n.id, leaked, Final(), nextKey);
      DetachHeadMatches(vnis, Final(), n.id, leaked, nextKey, v);
      FaultFree(after, DetachHead(Final(), n), leaked + NicBricks(n), Without(Branch(n), Head(n)), nextKey);
      DetachHeadSteps(Final(), n);
      Push(Unlink(Head(n)));
      DetachedIs(after, leaked + NicBricks(n), Without(Branch(n), Head(n)));
    }

    /** Of two heads one stays: the switch is unlinked, the other head takes its place, and the switch is freed here. */
    method DetachFromPair(v: nat, n: GraphNic, ghost after: Vnis)
      requires Inv() && v in vnis && n.id in vnis[v].nics && n == vnis[v].nics[n.id] && |vnis[v].nics| == 2
      requires after == vnis[v := GraphVni(v, None, vnis[v].nics - {n.id})] && PollList(vnis) == PollList(after)
      modifies `queue, `current, `world, `loaded
      ensures forall k :: old(FreshAt(k)) ==> FreshAt(k)
      ensures NicBricks(n) !! leaked
      ensures Detached(after, leaked + NicBricks(n), Branch(n))
    {
      hide *;
      var g := vnis[v];
      InvFacts();
      LeakedApart(vnis, v, n.id, leaked, Final(), nextKey);
      var ids := Order.Texts(g.nics.Keys);
      TwoIds(g, n.id, ids, Final(), vnis, leaked, nextKey, v);
      var other := if g.nics[ids[0]].id == n.id then ids[1] else ids[0];
      DetachPairMatches(vnis, Final(), n.id, other, leaked, nextKey, v);
      SwitchApart(vnis, v, leaked, n, g.sw.value, Final(), nextKey);
      ReplaceSwitch(v, n, g.sw.value, g.nics[other], after);
      FreeSwitch(g.sw.value, n, after);
    }

    method ReplaceSwitch(v: nat, n: GraphNic, k: nat, o: GraphNic, ghost after: Vnis)
      requires Safe() && Final().polled == PollList(after)
      requires Matches(after, DetachPair(Final(), k, o, v), leaked + NicBricks(n) + {Switch(k)}, Branch(n), nextKey)
      modifies `queue, `current, `world, `loaded
      ensures forall k :: old(FreshAt(k)) ==> FreshAt(k)
      ensures Quiet() && Matches(after, world, leaked + NicBricks(n) + {Switch(k)}, Branch(n), nextKey)
      ensures world.polled == PollList(after)
    {
      hide *;
      FaultFree(after, DetachPair(Final(), k, o, v), leaked + NicBricks(n) + {Switch(k)}, Branch(n), nextKey);
      DetachPairSteps(Final(), k, o, v);
      Push(Unlink(Switch(k)));
      PushTwo(Link(Vtep, Head(o)), AddVni(Head(o), v));
      WaitEmptyQueue();
    }

    /** `vni.sw.reset()`. */
    method FreeSwitch(k: nat, n: GraphNic, ghost after: Vnis)
      requires Switch(k) !in leaked + NicBricks(n)
      requires Quiet() && Matches(after, world, leaked + NicBricks(n) + {Switch(k)}, Branch(n), nextKey)
      requires world.polled == PollList(after)
      modifies `queue, `current, `world, `loaded
      ensures forall k :: old(FreshAt(k)) ==> FreshAt(k)
      ensures Detached(after, leaked + NicBricks(n), Branch(n))
    {
      hide *;
      SwitchFreed(after, world, leaked + NicBricks(n) + {Switch(k)}, leaked, n, k, nextKey);
      world := Free(world, Switch(k));
      QuietSafe();
      Interleave();
      DetachedIs(after, leaked + NicBricks(n), Branch(n));
    }

    /**
     `NicDel`: the poller stops polling the branch before its firewall is destroyed by the poller, and has
     destroyed it before the rest of the branch is freed here.
     */
    method NicDel(id: string, v: nat)
      requires Inv()
      modifies `vnis, `queue, `current, `world, `loaded
      ensures forall k :: old(FreshAt(k)) ==> FreshAt(k)
      ensures Inv()
      ensures v !in old(vnis) || id !in old(vnis)[v].nics ==> vnis == old(vnis)
      ensures v in old(vnis) && id in old(vnis)[v].nics ==>
        && Quiet()
        && vnis - {v} == old(vnis) - {v}
        && (v in vnis <==> old(vnis)[v].nics - {id} != map[])
        && NicsAt(vnis, v) == old(vnis)[v].nics - {id}
        && NicBricks(old(vnis)[v].nics[id]) !! world.alive
    {
      hide *;
      if v !in vnis || id !in vnis[v].nics { return; }
      InvFacts();
      VniFacts(vnis, Final(), leaked, {}, nextKey, v);
      ghost var g0 := vnis[v];
      DisableNic(v, id);
      DisableIs(g0, id);
      LeftIs(g0, id);
      SameBricks(g0.nics[id]);
      var g := vnis[v];
      LeftIs(g, id);
      assert g.nics - {id} == g0.nics - {id};
      assert |g.nics| == |g0.nics| by { assert g.nics.Keys == g0.nics.Keys; }
      var n := g.nics[id];
      var left := g.(nics := g.nics - {id});
      if |g.nics| == 2 { left := left.(sw := None); }
      var after := vnis[v := left];
      assert old(vnis)[v := Left(g0, id)] == vnis[v := Left(g, id)];
      SwitchIrrelevant(vnis, v, Left(g, id), left);
      ghost var loose: set<Edge>;
      if |g.nics| == 2 {
        DetachFromPair(v, n, after);
        loose := Branch(n);
      } else {
        DetachAlone(v, n, after);
        loose := Without(Branch(n), Head(n));
      }
      DestroyBranch(v, n, after, loose);
      assert vnis - {v} == old(vnis) - {v};
      NicsAtIs(vnis, v);
    }

    /** The entry of a VNI goes with its last NIC. */
    method DropIfEmpty(v: nat)
      requires Building(leaked, {}) && v in vnis
      modifies `vnis
      ensures Building(leaked, {})
      ensures vnis == if old(vnis)[v].nics == map[] then old(vnis) - {v} else old(vnis)
    {
      hide *;
      if |vnis[v].nics| == 0 {
        BuildingFacts(leaked, {});
        DropVni(vnis, v, world, leaked, {}, nextKey) by { assert vnis[v].nics == map[]; }
        DropRows(vnis, v);
        PolledNow(leaked, {});
        vnis := vnis - {v};
        BuildingIs(leaked, {});
      }
    }

    method DestroyBranch(v: nat, n: GraphNic, after: Vnis, ghost loose: set<Edge>)
      requires Detached(after, leaked + NicBricks(n), loose) && NicBricks(n) !! leaked
      requires loose == Branch(n) || loose == Without(Branch(n), Head(n))
      requires v in after
      modifies `vnis, `queue, `current, `world, `loaded
      ensures forall k :: old(FreshAt(k)) ==> FreshAt(k)
      ensures Inv() && Quiet()
      ensures vnis == if after[v].nics == map[] then after - {v} else after
      ensures NicBricks(n) !! world.alive
    {
      hide *;
      DetachedFacts(after, leaked + NicBricks(n), loose);
      BranchApart(after, Final(), leaked, n, loose, nextKey);
      FirewallFreed(after, Final(), leaked, n, loose, nextKey);
      Push(BrickDestroy(Firewall(n.key)));
      WaitEmptyQueue();
      vnis := after;
      StillLoose(n, loose);
      BuildingIs(leaked + Rest(n), Without(loose, Firewall(n.key)));
      RestHas(n);
      FreeBranch(n, leaked + Rest(n), Without(loose, Firewall(n.key)));
      RestFreed(n, leaked);
      DropIfEmpty(v);
      BuildingFacts(leaked, {});
      OnlyThese(after, vnis, world, leaked, n, nextKey);
      EndBuilding();
    }

    lemma BuildingIs(spare: set<Brick>, loose: set<Edge>)
      requires Quiet() && Matches(vnis, world, spare, loose, nextKey) && world.polled == PollList(vnis)
      ensures Building(spare, loose)
    {}

    lemma PolledNow(spare: set<Brick>, loose: set<Edge>)
      requires Building(spare, loose)
      ensures world.polled == PollList(vnis)
    {}

    /** One more allocation id. */
    method BuildingMore(ghost spare: set<Brick>, ghost loose: set<Edge>)
      requires Building(spare, loose)
      modifies `nextKey
      ensures nextKey == old(nextKey) + 1 && Building(spare, loose)
    {
      hide AllEdges, AllBricks, WellFormed, Neighbours, PollList;
      MoreKeys(vnis, world, spare, loose, nextKey, nextKey + 1);
      nextKey := nextKey + 1;
    }

    lemma QuietSafe()
      requires Quiet() && Healthy(world)
      ensures Safe() && Final() == world
    {
      QuietFinal();
    }
  }

  lemma BranchApart(after: Vnis, w: World, leaked: set<Brick>, n: GraphNic, loose: set<Edge>, next: nat)
    requires Matches(after, w, leaked + NicBricks(n), loose, next)
    ensures NicBricks(n) !! AllBricks(after)
  {}

  lemma OnlyThese(after: Vnis, vnis: Vnis, w: World, leaked: set<Brick>, n: GraphNic, next: nat)
    requires NicBricks(n) !! AllBricks(after) && NicBricks(n) !! leaked && Matches(vnis, w, leaked, {}, next)
    requires vnis == after || exists v :: v in after && vnis == after - {v}
    ensures NicBricks(n) !! w.alive
  {
    hide AllEdges, WellFormed, Neighbours, VniBricks, NicBricks, AllBricks;
    if vnis != after {
      var v :| v in after && vnis == after - {v};
      SplitBricks(after, v);
    }
  }

  lemma SameBricks(n: GraphNic)
    ensures NicBricks(n.(enable := false)) == NicBricks(n)
  {}

  lemma NicsAtIs(vnis: Vnis, v: nat)
    ensures Graph.NicsAt(vnis, v) == if v in vnis then vnis[v].nics else map[]
  {}

  /** The bricks that a branch's owner frees itself. */
  ghost function Rest(n: GraphNic): set<Brick> {
    {Antispoof(n.key), Vhost(n.key)} + if n.traced then {Sniffer(n.key)} else {}
  }

  lemma LooseGone(n: GraphNic, loose: set<Edge>)
    requires loose <= Branch(n)
    ensures Without(Without(loose, Vhost(n.key)), Antispoof(n.key)) == {}
    ensures Without(Without(Without(loose, Sniffer(n.key)), Vhost(n.key)), Antispoof(n.key)) == {}
  {}

  lemma RestGone(n: GraphNic, spare: set<Brick>)
    ensures n.traced ==> spare - {Sniffer(n.key)} - {Vhost(n.key)} - {Antispoof(n.key)} == spare - Rest(n)
    ensures !n.traced ==> spare - {Vhost(n.key)} - {Antispoof(n.key)} == spare - Rest(n)
  {}

  lemma FirewallLeft(n: GraphNic, leaked: set<Brick>)
    requires NicBricks(n) !! leaked
    ensures leaked + NicBricks(n) - Rest(n) == leaked + {Firewall(n.key)}
  {}

  lemma DisableIs(g: GraphVni, id: string)
    requires id in g.nics
    ensures Disable(g, id) == g.(nics := g.nics[id := g.nics[id].(enable := false)])
  {}

  lemma DetachHeadSteps(w: World, n: GraphNic)
    requires Healthy(DetachHead(w, n))
    ensures DetachHead(w, n) == Exec(w, Unlink(Head(n))) && !DetachHead(w, n).faults
    ensures DetachHead(w, n).polled == w.polled
  {
    hide Head;
  }

  lemma DetachPairSteps(w: World, k: nat, o: GraphNic, v: nat)
    requires Healthy(DetachPair(w, k, o, v))
    ensures var w1 := Exec(w, Unlink(Switch(k)));
            var w2 := Exec(w1, Link(Vtep, Head(o)));
            var w3 := Exec(w2, AddVni(Head(o), v));
            !w1.faults && !w2.faults && !w3.faults && DetachPair(w, k, o, v) == w3 && w3.polled == w.polled
  {
    hide Head;
  }

  /** `begin()`, or the one after it: the NIC of a pair that stays. */
  lemma TwoIds(g: GraphVni, id: string, ids: seq<string>, w: World, vnis: Vnis, leaked: set<Brick>, next: nat, v: nat)
    requires AtRest(vnis, w, leaked, next) && v in vnis && vnis[v] == g
    requires id in g.nics && |g.nics| == 2 && ids == Order.Texts(g.nics.Keys)
    ensures |ids| == 2 && ids[0] in g.nics && ids[1] in g.nics
    ensures g.nics[ids[0]].id == ids[0] && (ids[0] == id <==> ids[1] != id)
  {
    assert WellFormedVni(v, g, next);
    hide Order.Texts, AtRest, WellFormed;
    assert ids[0] in ids && ids[1] in ids;
    assert id in ids;
    Order.TextLessTotal(ids[0], ids[1]);
  }

  lemma SwitchApart(vnis: Vnis, v: nat, leaked: set<Brick>, n: GraphNic, k: nat, w: World, next: nat)
    requires AtRest(vnis, w, leaked, next) && v in vnis && vnis[v].sw == Some(k)
    ensures Switch(k) !in leaked + NicBricks(n)
  {
    hide AllBricks, AllEdges, WellFormed, VniBricks, VniEdges;
    AtKnown(vnis, v);
    SwitchInVni(vnis[v]);
    assert Switch(k) in VniBricks(vnis[v]);
  }

  lemma SwitchFreed(after: Vnis, w: World, spare: set<Brick>, leaked: set<Brick>, n: GraphNic, k: nat, next: nat)
    requires spare == leaked + NicBricks(n) + {Switch(k)} && Switch(k) !in leaked + NicBricks(n)
    requires Matches(after, w, spare, Branch(n), next) && w.polled == PollList(after)
    ensures Matches(after, Free(w, Switch(k)), leaked + NicBricks(n), Branch(n), next)
    ensures Healthy(Free(w, Switch(k))) && Free(w, Switch(k)).polled == PollList(after)
  {
    HeadOfBranch(n);
    hide AllBricks, AllEdges, WellFormed, PollList, Neighbours, NicBricks, Branch;
    PollListBricks(after);
    FreeSpareAtRest(after, w, spare, Branch(n), next, Switch(k));
    WithoutNone(Branch(n), Switch(k));
    assert spare - {Switch(k)} == leaked + NicBricks(n);
  }

  /** The poll list does not depend on the switch. */
  lemma SwitchIrrelevant(vnis: Vnis, v: nat, a: GraphVni, b: GraphVni)
    requires v in vnis && a.nics == b.nics
    ensures PollList(vnis[v := a]) == PollList(vnis[v := b])
  {
    hide *;
    RowsAtIs(a);
    RowsAtIs(b);
    SameRows(vnis[v := a], v, b);
    Overwrite(vnis, v, a, b);
  }

  lemma Overwrite<K, T>(m: map<K, T>, k: K, a: T, b: T)
    ensures m[k := a][k := b] == m[k := b]
  {}

  lemma ButFirewall(n: GraphNic, leaked: set<Brick>)
    requires NicBricks(n) !! leaked
    ensures leaked + NicBricks(n) - {Firewall(n.key)} == leaked + Rest(n)
    ensures Firewall(n.key) in leaked + NicBricks(n)
  {}

  lemma LeakedApart(vnis: Vnis, v: nat, id: string, leaked: set<Brick>, w: World, next: nat)
    requires Matches(vnis, w, leaked, {}, next) && v in vnis && id in vnis[v].nics
    ensures NicBricks(vnis[v].nics[id]) !! leaked
  {
    hide AllBricks, AllEdges, WellFormed, VniBricks, VniEdges, Neighbours;
    AtKnown(vnis, v);
    SplitNicBricks(vnis[v], id);
  }

  lemma FirewallFreed(after: Vnis, w: World, leaked: set<Brick>, n: GraphNic, loose: set<Edge>, next: nat)
    requires NicBricks(n) !! leaked
    requires Matches(after, w, leaked + NicBricks(n), loose, next) && w.polled == PollList(after)
    ensures var w' := Exec(w, BrickDestroy(Firewall(n.key)));
            && Matches(after, w', leaked + Rest(n), Without(loose, Firewall(n.key)), next)
            && !w'.faults && w'.polled == PollList(after)
  {
    hide *;
    ButFirewall(n, leaked);
    PollListBricks(after);
    FreeSpareAtRest(after, w, leaked + NicBricks(n), loose, next, Firewall(n.key));
    FaultFree(after, Free(w, Firewall(n.key)), leaked + Rest(n), Without(loose, Firewall(n.key)), next);
    DestroyIs(w, Firewall(n.key));
  }

  lemma DestroyIs(w: World, b: Brick)
    ensures Exec(w, BrickDestroy(b)) == Free(w, b) && Free(w, b).polled == w.polled
    ensures Healthy(Free(w, b)) ==> !Free(w, b).faults
  {}

  lemma StillLoose(n: GraphNic, loose: set<Edge>)
    requires loose == Branch(n) || loose == Without(Branch(n), Head(n))
    ensures Without(loose, Firewall(n.key)) <= Branch(n)
  {}

  lemma RestHas(n: GraphNic)
    ensures {Antispoof(n.key), Vhost(n.key)} <= Rest(n) && (n.traced ==> Sniffer(n.key) in Rest(n))
  {}

  lemma RestFreed(n: GraphNic, leaked: set<Brick>)
    requires NicBricks(n) !! leaked
    ensures leaked + Rest(n) - Rest(n) == leaked
  {}

  lemma NoVnis(vnis: Vnis, a: seq<Brick>, b: seq<Brick>)
    requires a == [] && b == []
    ensures Zip(a, b) == Shorten(RowsOfVnis(vnis, []))
  {}

  lemma NoRows(nics: map<string, GraphNic>)
    ensures RowsOf(nics, []) == []
  {}

  lemma FullStays(vhosts: seq<Brick>, walls: seq<Brick>, before: seq<Polled>, some: seq<Polled>, all: seq<Polled>)
    requires |vhosts| == |walls| == POLL_SLOTS - 1 && some <= all
    requires Zip(vhosts, walls) == Shorten(before + some)
    ensures Shorten(before + some) == Shorten(before + all)
  {}

  lemma OneMore(vhosts: seq<Brick>, walls: seq<Brick>, before: seq<Polled>, some: seq<Polled>, n: GraphNic)
    requires |vhosts| == |walls| < POLL_SLOTS - 1
    requires Zip(vhosts, walls) == Shorten(before + some)
    ensures Zip(vhosts + [Vhost(n.key)], walls + [Firewall(n.key)]) == Shorten(before + (some + [Row(n)]))
  {
    ZipSnoc(vhosts, walls, Vhost(n.key), Firewall(n.key));
    assert before + (some + [Row(n)]) == before + some + [Row(n)];
  }

  lemma RestFacts(vnis: Vnis, w: World, leaked: set<Brick>, next: nat)
    requires AtRest(vnis, w, leaked, next)
    ensures Matches(vnis, w, leaked, {}, next)
  {}

  lemma RestIs(vnis: Vnis, w: World, leaked: set<Brick>, next: nat)
    requires Matches(vnis, w, leaked, {}, next)
    ensures AtRest(vnis, w, leaked, next)
  {}

  lemma ReadyIs(vnis: Vnis, w: World, n: GraphNic, leaked: set<Brick>, next: nat)
    requires NicBricks(n) !! leaked && n.key < next && Matches(vnis, w, leaked + NicBricks(n), Branch(n), next)
    ensures Ready(vnis, w, n, leaked, next)
  {
    hide Matches, NicBricks, Branch;
  }

  lemma JoinedIs(g: GraphVni, n: GraphNic)
    ensures Joined(g, n) == g.(nics := g.nics[n.id := n])
  {}

  lemma VniFacts(vnis: Vnis, w: World, spare: set<Brick>, loose: set<Edge>, next: nat, v: nat)
    requires Matches(vnis, w, spare, loose, next) && v in vnis
    ensures vnis[v].vni == v && (|vnis[v].nics| < 2 ==> vnis[v].sw.None?)
    ensures |vnis[v].nics| == 0 ==> vnis[v].nics == map[]
    ensures forall i :: i in vnis[v].nics ==> vnis[v].nics[i].id == i
  {
    assert WellFormedVni(v, vnis[v], next);
  }

  lemma OnlyOne(g: GraphVni, v: nat, n: GraphNic)
    requires g.nics == map[] && g.vni == v && g.sw.None?
    ensures g.(nics := g.nics[n.id := n]) == GraphVni(v, None, map[n.id := n])
  {}

  lemma AttachFirstSteps(w: World, n: GraphNic, v: nat)
    requires Healthy(AttachFirst(w, n, v))
    ensures !Exec(w, Link(Vtep, Head(n))).faults
    ensures AttachFirst(w, n, v) == Exec(Exec(w, Link(Vtep, Head(n))), AddVni(Head(n), v))
    ensures !AttachFirst(w, n, v).faults
  {
    hide Head;
  }

  lemma AttachMoreSteps(w: World, k: nat, n: GraphNic)
    requires Healthy(AttachMore(w, k, n))
    ensures AttachMore(w, k, n) == Exec(w, Link(Switch(k), Head(n))) && !AttachMore(w, k, n).faults
  {
    hide Head;
  }

  lemma FaultFree(vnis: Vnis, w: World, spare: set<Brick>, loose: set<Edge>, next: nat)
    requires Matches(vnis, w, spare, loose, next)
    ensures Healthy(w)
  {}

  lemma SwitchFresh(vnis: Vnis, w: World, spare: set<Brick>, loose: set<Edge>, k: nat)
    requires Matches(vnis, w, spare, loose, k)
    ensures Matches(vnis, w, spare, loose, k + 1) && Switch(k) !in w.alive && Switch(k) !in spare
  {
    hide AllEdges, AllBricks, WellFormed, Neighbours;
    FreshKey(vnis, w, spare, loose, k);
    MoreKeys(vnis, w, spare, loose, k, k + 1);
  }

  lemma RegroupSpare<T>(a: set<T>, b: set<T>, c: set<T>)
    ensures a + b + c == a + c + b
  {}

  lemma SwitchSpare(vnis: Vnis, w: World, n: GraphNic, leaked: set<Brick>, k: nat, next: nat)
    requires Matches(vnis, w, leaked + {Switch(k)} + NicBricks(n), Branch(n), next)
    requires NicBricks(n) !! leaked && n.key < next
    ensures Ready(vnis, w, n, leaked + {Switch(k)}, next)
  {
    HeadOfBranch(n);
    hide Matches, NicBricks;
  }

  /** No step of the sequence can fault unless its end does. */
  lemma AttachSecondSteps(w: World, first: GraphNic, k: nat, n: GraphNic, v: nat)
    requires Healthy(AttachSecond(w, first, k, n, v))
    ensures var w1 := Cut(w, Vtep, Head(first));
            var w2 := Exec(w1, Link(Vtep, Switch(k)));
            var w3 := Exec(w2, AddVni(Switch(k), v));
            var w4 := Exec(w3, Link(Switch(k), Head(first)));
            var w5 := Exec(w4, Link(Switch(k), Head(n)));
            && Healthy(w1) && !w2.faults && !w3.faults && !w4.faults && !w5.faults
            && AttachSecond(w, first, k, n, v) == w5
  {
    hide Head;
  }
}
