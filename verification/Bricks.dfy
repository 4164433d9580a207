/**
 The packet graph as the poller thread and the API thread see it, and the commands that the API thread
 queues for the poller thread.

 A brick is named by what it is and by the allocation that produced it, so two bricks are equal exactly
 when they are the same allocation.
 */
module Bricks {

  datatype Brick =
    | Port
    | Vtep
    | Switch(key: nat)
    | Firewall(key: nat)
    | Antispoof(key: nat)
    | Vhost(key: nat)
    | Sniffer(key: nat)

  /** West brick, east brick. */
  type Edge = (Brick, Brick)

  /** One row of the two parallel poll arrays. */
  datatype Polled = Polled(vhost: Brick, firewall: Brick)

  datatype Command =
    | Link(west: Brick, east: Brick)
    | Unlink(brick: Brick)
    | UnlinkEdge(west: Brick, east: Brick)
    | AddVni(neighbour: Brick, vni: nat)
    | UpdatePoll(list: seq<Polled>)
    | FwReload(firewall: Brick)
    | FwNew(key: nat, succeeds: bool)
    | BrickDestroy(brick: Brick)
    | Nothing

  /**
   `alive`: allocated and not destroyed.  `neighbours`: the VTEP's vni table.  `polled`: the list the
   poller is using.  `written`: the firewall allocations whose result pointer has been written.
   `errors`: a graph call was refused.  `faults`: a destroyed brick was used, or is still polled.
   */
  datatype World = World(
    alive: set<Brick>,
    edges: set<Edge>,
    neighbours: map<nat, Brick>,
    polled: seq<Polled>,
    written: set<nat>,
    errors: bool,
    faults: bool)

  predicate ListAlive(list: seq<Polled>, alive: set<Brick>) {
    forall x | x in list :: x.vhost in alive && x.firewall in alive
  }

  /** `after` is what `w` becomes when bricks `named` have been touched. */
  function Touch(w: World, named: set<Brick>, after: World): World {
    after.(faults := w.faults || !(named <= w.alive) || !ListAlive(after.polled, after.alive))
  }

  function Without(edges: set<Edge>, b: Brick): set<Edge> {
    set e | e in edges && e.0 != b && e.1 != b
  }

  function Forget(neighbours: map<nat, Brick>, b: Brick): map<nat, Brick> {
    map v | v in neighbours && neighbours[v] != b :: neighbours[v]
  }

  /** `pg_brick_link`. */
  function Connect(w: World, west: Brick, east: Brick): World {
    Touch(w, {west, east}, w.(edges := w.edges + {(west, east)}, errors := w.errors || (west, east) in w.edges))
  }

  /** `pg_brick_unlink`: every edge of the brick goes, and the VTEP forgets it. */
  function Isolate(w: World, b: Brick): World {
    Touch(w, {b}, w.(edges := Without(w.edges, b), neighbours := if b.Vtep? then map[] else Forget(w.neighbours, b)))
  }

  /** `pg_brick_unlink_edge`: refused when there is no such edge. */
  function Cut(w: World, west: Brick, east: Brick): World {
    Touch(w, {west, east},
          if (west, east) in w.edges then
            w.(edges := w.edges - {(west, east)},
               neighbours := if west.Vtep? then Forget(w.neighbours, east) else w.neighbours)
          else w.(errors := true))
  }

  /** `pg_vtep_add_vni`: refused when the neighbour is not linked to the VTEP. */
  function Announce(w: World, neighbour: Brick, vni: nat): World {
    Touch(w, {Vtep, neighbour},
          if (Vtep, neighbour) in w.edges then w.(neighbours := w.neighbours[vni := neighbour])
          else w.(errors := true))
  }

  /** A constructor of a brick that is not in use. */
  function Create(w: World, b: Brick): World {
    w.(alive := w.alive + {b}, faults := w.faults || b in w.alive)
  }

  /** `pg_brick_destroy`: unlinks the brick and frees it. */
  function Free(w: World, b: Brick): World {
    Touch(w, {b}, w.(alive := w.alive - {b}, edges := Without(w.edges, b), neighbours := Forget(w.neighbours, b)))
  }

  ghost function Named(c: Command): set<Brick> {
    match c
    case Link(a, b) => {a, b}
    case Unlink(b) => {b}
    case UnlinkEdge(a, b) => {a, b}
    case AddVni(n, _) => {Vtep, n}
    case UpdatePoll(list) => ListedBricks(list)
    case FwReload(f) => {f}
    case FwNew(_, _) => {}
    case BrickDestroy(b) => {b}
    case Nothing => {}
  }

  function ListedBricks(list: seq<Polled>): set<Brick> {
    (set x | x in list :: x.vhost) + (set x | x in list :: x.firewall)
  }

  /** One command, as the poller executes it. */
  function Exec(w: World, c: Command): World {
    match c
    case Link(a, b) => Connect(w, a, b)
    case Unlink(b) => Isolate(w, b)
    case UnlinkEdge(a, b) => Cut(w, a, b)
    case AddVni(n, v) => Announce(w, n, v)
    case UpdatePoll(list) => Touch(w, ListedBricks(list), w.(polled := list))
    case FwReload(f) => Touch(w, {f}, w)
    case FwNew(k, succeeds) =>
      if succeeds then Create(w.(written := w.written + {k}), Firewall(k)) else w
    case BrickDestroy(b) => Free(w, b)
    case Nothing => w
  }

  /** What the graph becomes once every command of `q` has been executed. */
  ghost function Apply(w: World, q: seq<Command>): World
    decreases |q|
  {
    if q == [] then w else Apply(Exec(w, q[0]), q[1..])
  }

  lemma {:induction false} ApplyAppend(w: World, q: seq<Command>, c: Command)
    ensures Apply(w, q + [c]) == Exec(Apply(w, q), c)
    decreases |q|
  {
    if q == [] {
      assert (q + [c])[1..] == [];
      assert Apply(Exec(w, c), []) == Exec(w, c);
    } else {
      assert (q + [c])[1..] == q[1..] + [c];
      ApplyAppend(Exec(w, q[0]), q[1..], c);
    }
  }

  lemma {:induction false} FaultsStay(w: World, q: seq<Command>)
    ensures w.faults ==> Apply(w, q).faults
    ensures w.errors ==> Apply(w, q).errors
    decreases |q|
  {
    if q != [] { FaultsStay(Exec(w, q[0]), q[1..]); }
  }

  /** The firewall that a command will create. */
  ghost function Creates(c: Command): set<Brick> {
    if c.FwNew? && c.succeeds then {Firewall(c.key)} else {}
  }

  ghost function AllCreated(q: seq<Command>): set<Brick> {
    set i, b | 0 <= i < |q| && b in Creates(q[i]) :: b
  }

  /**
   If executing the whole queue faults nowhere, then every brick that any queued command names is alive
   already, or is the firewall that an earlier command of the queue creates.
   */
  lemma {:induction false} QueuedBricksAlive(w: World, q: seq<Command>, i: nat)
    requires !Apply(w, q).faults && i < |q|
    ensures Named(q[i]) <= w.alive + AllCreated(q[..i])
    decreases |q|
  {
    FaultsStay(Exec(w, q[0]), q[1..]);
    if i > 0 {
      QueuedBricksAlive(Exec(w, q[0]), q[1..], i - 1);
      var created := AllCreated(q[1..][..i - 1]);
      forall b | b in created ensures b in AllCreated(q[..i]) {
        var j :| 0 <= j < i - 1 && b in Creates(q[1..][..i - 1][j]);
        assert q[..i][j + 1] == q[1..][..i - 1][j];
      }
      forall b | b in Creates(q[0]) ensures b in AllCreated(q[..i]) {
        assert q[..i][0] == q[0];
      }
    }
  }
}
