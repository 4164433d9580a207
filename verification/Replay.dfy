/** Replaying a dump: the requests that `butterfly dump` prints rebuild the model on an empty server. */
module Replay {
  import opened Base
  import opened Model
  import opened Graphs
  import opened Coherence
  import opened Apis
  import opened Convert
  import opened Filter
  import opened Meaning
  import Order

  /** What the API keeps true of its model, as far as a dump depends on it. */
  ghost predicate Dumpable(env: Env, m: Contents) {
    && (forall id :: id in m.nics ==> m.nics[id].id == id && NicOk(env, m.nics[id]))
    && (forall id :: id in m.groups ==> m.groups[id].id == id && SgOk(env, m.groups[id]))
  }

  /** The requests that keep it so: converted from valid messages, with replayable rules. */
  ghost predicate KeepsDumpable(env: Env, r: Request) {
    match r
    case AddNic(nic, _, _) => NicOk(env, nic)
    case UpdateNic(u) =>
      && (u.ip.Some? ==> (forall ip :: ip in u.ip.value ==> Canonical(env, ip)) && AllDiffer(u.ip.value))
      && (u.securityGroups.Some? ==> NoRepeats(u.securityGroups.value))
    case AddSg(sg) => SgOk(env, sg)
    case AddRule(_, rule) => Replayable(env, rule)
    case AddMember(_, ip) => Canonical(env, ip)
    case _ => true
  }

  lemma EmptyDumpable(env: Env)
    ensures Dumpable(env, Contents(map[], map[]))
  {}

  /** Whatever the request and its answer, a dumpable model stays dumpable. */
  lemma StepDumpable(env: Env, m: Contents, r: Request, ok: bool)
    requires Dumpable(env, m) && KeepsDumpable(env, r)
    ensures Dumpable(env, Step(env.hash, m, r, ok))
  {
    if r.AddNic? || r.UpdateNic? || r.DelNic? { NicStepDumpable(env, m, r, ok); } else { SgStepDumpable(env, m, r, ok); }
  }

  /** So every run of such requests from an empty server ends with a dumpable model. */
  lemma {:induction false} RunDumpable(env: Env, rs: seq<Request>, oks: seq<bool>)
    requires |rs| == |oks| && forall r :: r in rs ==> KeepsDumpable(env, r)
    ensures Dumpable(env, Steps(env.hash, Contents(map[], map[]), rs, oks))
    decreases |rs|
  {
    hide Dumpable, KeepsDumpable, Step;
    if rs == [] {
      EmptyDumpable(env);
    } else {
      RunDumpable(env, rs[..|rs| - 1], oks[..|rs| - 1]);
      StepDumpable(env, Steps(env.hash, Contents(map[], map[]), rs[..|rs| - 1], oks[..|rs| - 1]), rs[|rs| - 1], oks[|rs| - 1]);
    }
  }

  lemma NicStepDumpable(env: Env, m: Contents, r: Request, ok: bool)
    requires Dumpable(env, m) && KeepsDumpable(env, r) && (r.AddNic? || r.UpdateNic? || r.DelNic?)
    ensures Dumpable(env, Step(env.hash, m, r, ok))
  {
    hide NicOk, SgOk, Updated, RuleKey, SgEqual, Replayable, Canonical, AllDiffer, NoRepeats;
    match r
    case AddNic(nic, path, _) => PathOk(env, nic, path);
    case UpdateNic(u) => if u.id in m.nics { UpdatedOk(env, m.nics[u.id], u); }
    case DelNic(_) =>
  }

  lemma SgStepDumpable(env: Env, m: Contents, r: Request, ok: bool)
    requires Dumpable(env, m) && KeepsDumpable(env, r) && !r.AddNic? && !r.UpdateNic? && !r.DelNic?
    ensures Dumpable(env, Step(env.hash, m, r, ok))
  {
    hide NicOk, SgOk, RuleKey, SgEqual, Replayable, Canonical, AllDiffer, NoRepeats;
    match r
    case AddRule(id, rule) => RuleAddedOk(env, if id in m.groups then m.groups[id] else Sg(id, [], map[]), rule, id in m.groups);
    case DelRule(id, rule) => if id in m.groups { RuleDroppedOk(env, m.groups[id], env.hash(RuleKey(rule))); }
    case AddMember(id, ip) => MemberAddedOk(env, id, if id in m.groups then m.groups[id] else Sg(id, [], map[]), ip, id in m.groups);
    case DelMember(id, ip) => if id in m.groups && FindIp(m.groups[id].members, ip) < |m.groups[id].members| {
      MemberDroppedOk(env, m.groups[id], FindIp(m.groups[id].members, ip));
    }
    case _ =>
  }

  lemma PathOk(env: Env, nic: Nic, path: string)
    ensures NicOk(env, nic.(path := path)) <==> NicOk(env, nic)
  {}

  lemma UpdatedOk(env: Env, nic: Nic, u: Update)
    requires NicOk(env, nic) && KeepsDumpable(env, UpdateNic(u))
    ensures NicOk(env, Updated(nic, u)) && Updated(nic, u).id == nic.id
  {}

  lemma RuleAddedOk(env: Env, sg: Sg, rule: Rule, known: bool)
    requires Replayable(env, rule) && (known ==> SgOk(env, sg)) && (!known ==> sg.members == [] && sg.rules == map[])
    ensures SgOk(env, sg.(rules := sg.rules[env.hash(RuleKey(rule)) := rule]))
  {
    hide Replayable, RuleKey;
  }

  lemma RuleDroppedOk(env: Env, sg: Sg, h: nat)
    requires SgOk(env, sg)
    ensures SgOk(env, sg.(rules := sg.rules - {h}))
  {
    hide Replayable, RuleKey;
  }

  lemma MemberAddedOk(env: Env, id: string, sg: Sg, ip: Ip, known: bool)
    requires Canonical(env, ip) && (known ==> SgOk(env, sg)) && (!known ==> sg.members == [] && sg.rules == map[])
    ensures SgOk(env, Sg(id, if FindIp(sg.members, ip) < |sg.members| then sg.members else sg.members + [ip], sg.rules))
  {
    hide Replayable, RuleKey, FindIp, Canonical, AllDiffer;
    if !known { AllDifferNone(); }
    AllDifferSnoc(sg.members, ip);
  }

  lemma AllDifferNone()
    ensures AllDiffer([])
  {}

  lemma MemberDroppedOk(env: Env, sg: Sg, i: nat)
    requires SgOk(env, sg) && i < |sg.members|
    ensures SgOk(env, sg.(members := sg.members[..i] + sg.members[i + 1..]))
  {
    hide Replayable, RuleKey, Canonical, IpEqual;
    var left := sg.members[..i] + sg.members[i + 1..];
    forall a, b | 0 <= a < b < |left| ensures !IpEqual(left[a], left[b]) {
      var a', b' := if a < i then a else a + 1, if b < i then b else b + 1;
      assert left[a] == sg.members[a'] && left[b] == sg.members[b'];
    }
  }

  // The dump

  /** `nic_details` for all NICs. */
  function NicDetails(m: Contents): seq<NicMessage> {
    NicsTo(m.nics, Order.Texts(m.nics.Keys))
  }

  function NicsTo(nics: map<string, Nic>, ids: seq<string>): seq<NicMessage>
    requires forall id :: id in ids ==> id in nics
  {
    if ids == [] then []
    else
      assert ids[|ids| - 1] in ids && forall id :: id in ids[..|ids| - 1] ==> id in ids;
      NicsTo(nics, ids[..|ids| - 1]) + [NicTo(nics[ids[|ids| - 1]])]
  }

  /** `sg_details` for all groups: `None` if a rule cannot be converted. */
  function SgDetails(m: Contents): Option<seq<SgMessage>> {
    SgsTo(m.groups, Order.Texts(m.groups.Keys))
  }

  function SgsTo(groups: Groups, ids: seq<string>): Option<seq<SgMessage>>
    requires forall id :: id in ids ==> id in groups
  {
    if ids == [] then Some([])
    else
      assert ids[|ids| - 1] in ids && forall id :: id in ids[..|ids| - 1] ==> id in ids;
      match (SgsTo(groups, ids[..|ids| - 1]), SgTo(groups[ids[|ids| - 1]]))
      case (Some(before), Some(m)) => Some(before + [m])
      case _ => None
  }

  // The replay

  /** The request that a NIC message is turned into; `None` when it is refused. */
  function NicRequest(env: Env, m: NicMessage, path: string, out: Outcome): Option<Request> {
    if !ValidNic(env, m) then None
    else match NicFrom(env, m) case Some(nic) => Some(AddNic(nic, path, out)) case None => None
  }

  function SgRequest(env: Env, m: SgMessage): Option<Request> {
    if !ValidSg(env, m) then None
    else match SgFrom(env, m) case Some(sg) => Some(AddSg(sg)) case None => None
  }

  /** The model after a message: refused messages change nothing; every NIC is created, with the path it is given. */
  ghost function AfterNic(env: Env, paths: string -> string, out: Outcome, m: Contents, msg: NicMessage): Contents {
    match NicRequest(env, msg, paths(msg.id), out)
    case Some(r) => Step(env.hash, m, r, true)
    case None => m
  }

  ghost function AfterSg(env: Env, m: Contents, msg: SgMessage): Contents {
    match SgRequest(env, msg)
    case Some(r) => Step(env.hash, m, r, true)
    case None => m
  }

  ghost function AfterNics(env: Env, paths: string -> string, out: Outcome, m: Contents, ms: seq<NicMessage>): Contents {
    if ms == [] then m else AfterNic(env, paths, out, AfterNics(env, paths, out, m, ms[..|ms| - 1]), ms[|ms| - 1])
  }

  ghost function AfterSgs(env: Env, m: Contents, ms: seq<SgMessage>): Contents {
    if ms == [] then m else AfterSg(env, AfterSgs(env, m, ms[..|ms| - 1]), ms[|ms| - 1])
  }

  /** All NICs first, then all groups. */
  ghost function Replayed(env: Env, paths: string -> string, out: Outcome, m: Contents): Contents {
    var nics := AfterNics(env, paths, out, Contents(map[], map[]), NicDetails(m));
    match SgDetails(m) case Some(ms) => AfterSgs(env, nics, ms) case None => nics
  }

  /** The NICs with the paths that the new server gave them. */
  ghost function WithPaths(paths: string -> string, nics: map<string, Nic>): map<string, Nic> {
    map id | id in nics :: nics[id].(path := paths(id))
  }

  lemma AfterNicOf(env: Env, paths: string -> string, out: Outcome, m: Contents, nic: Nic)
    requires NicOk(env, nic)
    ensures AfterNic(env, paths, out, m, NicTo(nic)) == m.(nics := m.nics[nic.id := nic.(path := paths(nic.id))])
  {
    hide NicOk, ValidNic, NicFrom;
    NicRoundTrip(env, nic);
  }

  /** The NICs at `ids`, with their new paths. */
  ghost function PartWithPaths(paths: string -> string, nics: map<string, Nic>, ids: seq<string>): map<string, Nic> {
    map id | id in ids && id in nics :: nics[id].(path := paths(id))
  }

  lemma PartSnoc(paths: string -> string, nics: map<string, Nic>, ids: seq<string>, id: string)
    requires id in nics
    ensures PartWithPaths(paths, nics, ids + [id]) == PartWithPaths(paths, nics, ids)[id := nics[id].(path := paths(id))]
  {}

  lemma {:induction false} ReplayNics(env: Env, paths: string -> string, out: Outcome, m: Contents, ids: seq<string>)
    requires Dumpable(env, m) && forall id :: id in ids ==> id in m.nics
    ensures AfterNics(env, paths, out, Contents(map[], map[]), NicsTo(m.nics, ids))
         == Contents(PartWithPaths(paths, m.nics, ids), map[])
    decreases |ids|
  {
    hide NicTo, AfterNic, SgOk, NicOk, PartWithPaths;
    if ids == [] {
      NoPart(paths, m.nics);
    } else {
      var before, id := ids[..|ids| - 1], ids[|ids| - 1];
      assert ids == before + [id] && id in ids;
      ReplayNics(env, paths, out, m, before);
      AfterNicOf(env, paths, out, Contents(PartWithPaths(paths, m.nics, before), map[]), m.nics[id]);
      PartSnoc(paths, m.nics, before, id);
      var ms := NicsTo(m.nics, ids);
      assert ms[..|ms| - 1] == NicsTo(m.nics, before);
    }
  }

  lemma NoPart(paths: string -> string, nics: map<string, Nic>)
    ensures PartWithPaths(paths, nics, []) == map[]
  {}

  lemma AfterSgOf(env: Env, m: Contents, sg: Sg)
    requires SgOk(env, sg) && sg.id !in m.groups
    ensures SgTo(sg).Some? && AfterSg(env, m, SgTo(sg).value) == m.(groups := m.groups[sg.id := sg])
  {
    hide SgOk, ValidSg, SgFrom, SgTo;
    SgRoundTrip(env, sg);
  }

  /** The groups at `ids`. */
  ghost function Part(groups: Groups, ids: seq<string>): Groups {
    map id | id in ids && id in groups :: groups[id]
  }

  lemma PartOfSnoc(groups: Groups, ids: seq<string>, id: string)
    requires id in groups && id !in ids
    ensures Part(groups, ids + [id]) == Part(groups, ids)[id := groups[id]] && id !in Part(groups, ids)
  {}

  lemma NoGroups(groups: Groups)
    ensures Part(groups, []) == map[]
  {}

  lemma SgsToSnoc(groups: Groups, ids: seq<string>, id: string)
    requires id in groups && (forall i :: i in ids ==> i in groups) && SgsTo(groups, ids).Some? && SgTo(groups[id]).Some?
    ensures forall i :: i in ids + [id] ==> i in groups
    ensures SgsTo(groups, ids + [id]) == Some(SgsTo(groups, ids).value + [SgTo(groups[id]).value])
  {
    hide SgTo;
    var all := ids + [id];
    assert all[..|all| - 1] == ids;
  }

  lemma AfterSgsSnoc(env: Env, m: Contents, ms: seq<SgMessage>, msg: SgMessage)
    ensures AfterSgs(env, m, ms + [msg]) == AfterSg(env, AfterSgs(env, m, ms), msg)
  {
    hide AfterSg;
    var all := ms + [msg];
    assert all[..|all| - 1] == ms;
  }

  lemma {:induction false} ReplaySgs(env: Env, m: Contents, start: Contents, ids: seq<string>)
    requires (forall id :: id in m.groups ==> m.groups[id].id == id && SgOk(env, m.groups[id]))
    requires start.groups == map[] && (forall id :: id in ids ==> id in m.groups) && NoRepeats(ids)
    ensures SgsTo(m.groups, ids).Some?
    ensures AfterSgs(env, start, SgsTo(m.groups, ids).value) == start.(groups := Part(m.groups, ids))
    decreases |ids|
  {
    hide SgTo, AfterSg, SgOk, AfterSgs, SgsTo, Part;
    if ids == [] {
      NoGroups(m.groups);
      NoMessages(env, m.groups, start);
    } else {
      var before, id := ids[..|ids| - 1], ids[|ids| - 1];
      assert ids == before + [id];
      assert forall i :: 0 <= i < |before| ==> before[i] == ids[i] && before[i] != id;
      ReplaySgs(env, m, start, before);
      PartOfSnoc(m.groups, before, id);
      AfterSgOf(env, start.(groups := Part(m.groups, before)), m.groups[id]);
      SgsToSnoc(m.groups, before, id);
      AfterSgsSnoc(env, start, SgsTo(m.groups, before).value, SgTo(m.groups[id]).value);
    }
  }

  lemma NoMessages(env: Env, groups: Groups, start: Contents)
    ensures SgsTo(groups, []) == Some([]) && AfterSgs(env, start, []) == start
  {}

  /** Replaying the dump of a dumpable model on an empty server rebuilds it, up to the paths of the NICs. */
  lemma ReplayRebuilds(env: Env, paths: string -> string, out: Outcome, m: Contents)
    requires Dumpable(env, m)
    ensures Replayed(env, paths, out, m) == Contents(WithPaths(paths, m.nics), m.groups)
  {
    GroupsDumpable(env, m);
    hide Dumpable, AfterNics, AfterSgs, SgsTo, NicsTo, Order.Texts, PartWithPaths, Part, WithPaths;
    ReplayNics(env, paths, out, m, Order.Texts(m.nics.Keys));
    Order.TextsOnce(m.groups.Keys);
    ReplaySgs(env, m, Contents(WithPaths(paths, m.nics), map[]), Order.Texts(m.groups.Keys)) by { AllParts(paths, m); }
    AllParts(paths, m);
  }

  lemma GroupsDumpable(env: Env, m: Contents)
    requires Dumpable(env, m)
    ensures forall id :: id in m.groups ==> m.groups[id].id == id && SgOk(env, m.groups[id])
  {}

  lemma AllParts(paths: string -> string, m: Contents)
    ensures PartWithPaths(paths, m.nics, Order.Texts(m.nics.Keys)) == WithPaths(paths, m.nics)
    ensures Part(m.groups, Order.Texts(m.groups.Keys)) == m.groups
  {}

  /** The poller of `b` filters for this NIC as the poller of `a` does, both ways. */
  ghost predicate SameFilters(a: Api, b: Api, id: string)
    reads a, a.graph, b, b.graph
  {
    var ra, rb := a.graph.Loaded(KeyAt(a.nics, a.graph.vnis, id)), b.graph.Loaded(KeyAt(b.nics, b.graph.vnis, id));
    FilterAlike(a.pton, ra.west, rb.west) && FilterAlike(a.pton, ra.east, rb.east)
  }

  /** Two servers with the same groups filter alike for a NIC with the same settings, whatever led them there. */
  lemma SameContentsSameFilters(a: Api, b: Api, id: string, path: string)
    requires a.Valid() && a.graph.Quiet() && b.Valid() && b.graph.Quiet() && a.pton == b.pton && a.groups == b.groups
    requires id in a.nics && id in b.nics && b.nics[id] == a.nics[id].(path := path)
    requires !a.nics[id].bypassFiltering && Regular(a.groups, a.nics[id].securityGroups)
    ensures SameFilters(a, b, id)
  {
    hide *;
    var ra, rb := a.graph.Loaded(KeyAt(a.nics, a.graph.vnis, id)), b.graph.Loaded(KeyAt(b.nics, b.graph.vnis, id));
    forall k
      ensures SideAllows(a.pton, ra.west, k) <==> SideAllows(a.pton, rb.west, k)
      ensures SideAllows(a.pton, ra.east, k) <==> SideAllows(a.pton, rb.east, k)
    {
      a.FiltersEnforceGroups(id, k);
      b.FiltersEnforceGroups(id, k);
    }
    AlikeIs(a.pton, ra.west, rb.west);
    AlikeIs(a.pton, ra.east, rb.east);
    SameFiltersIs(a, b, id);
  }

  lemma SameFiltersIs(a: Api, b: Api, id: string)
    requires var ra, rb := a.graph.Loaded(KeyAt(a.nics, a.graph.vnis, id)), b.graph.Loaded(KeyAt(b.nics, b.graph.vnis, id));
             FilterAlike(a.pton, ra.west, rb.west) && FilterAlike(a.pton, ra.east, rb.east)
    ensures SameFilters(a, b, id)
  {}

  // The replay against a server

  /** Every foreign constructor succeeds. */
  const WELL := Outcome(true, true, true, true, true, true)

  lemma AllBuild()
    ensures WELL.firewall && WELL.switch && forall bypass, traced :: Builds(WELL, bypass, traced)
  {}

  /**
   The dump of `a`, run against an empty server `b`: it ends with the same model, up to the paths of the NICs,
   and its poller filters as the poller of `a` does.
   */
  method ReplayOn(env: Env, paths: string -> string, a: Api, b: Api)
    requires a.Valid() && a.graph.Quiet() && Dumpable(env, a.Content())
    requires b.Valid() && b.nics == map[] && b.groups == map[]
    requires a.pton == b.pton == env.pton && a.hash == b.hash == env.hash && a != b && a.graph != b.graph
    modifies b, b.graph
    ensures b.Valid() && b.graph.Quiet()
    ensures b.nics == WithPaths(paths, a.nics) && b.groups == a.groups
    ensures forall id :: (id in a.nics && !a.nics[id].bypassFiltering && Regular(a.groups, a.nics[id].securityGroups)
                          ==> SameFilters(a, b, id))
  {
    hide *;
    ReplayRebuilds(env, paths, WELL, a.Content());
    TwoHalves(env, paths, a.Content());
    ContentIs(a);
    ContentIs(b);
    ReplayNicDetails(env, paths, a, b);
    ContentIs(b);
    ReplaySgDetails(env, paths, a, b);
    b.Drain();
    ContentIs(b);
    PathsAre(paths, a.nics);
    forall id | id in a.nics && !a.nics[id].bypassFiltering && Regular(a.groups, a.nics[id].securityGroups)
      ensures SameFilters(a, b, id)
    {
      SameContentsSameFilters(a, b, id, paths(id));
    }
  }

  lemma TwoHalves(env: Env, paths: string -> string, m: Contents)
    requires Dumpable(env, m)
    ensures var nics := AfterNics(env, paths, WELL, Contents(map[], map[]), NicDetails(m));
            && nics.groups == map[]
            && (SgDetails(m).Some? ==> Replayed(env, paths, WELL, m) == AfterSgs(env, nics, SgDetails(m).value))
  {
    hide Dumpable, AfterNics, AfterSgs, SgDetails, NicsTo, Order.Texts, PartWithPaths, WELL;
    ReplayNics(env, paths, WELL, m, Order.Texts(m.nics.Keys));
  }

  lemma ContentIs(a: Api)
    ensures a.Content() == Contents(a.nics, a.groups)
  {}

  lemma PathsAre(paths: string -> string, nics: map<string, Nic>)
    ensures forall id :: id in nics ==> id in WithPaths(paths, nics) && WithPaths(paths, nics)[id] == nics[id].(path := paths(id))
  {}

  /** The first half: the NICs. */
  method ReplayNicDetails(env: Env, paths: string -> string, a: Api, b: Api)
    requires a.Valid() && Dumpable(env, a.Content())
    requires b.Valid() && b.Content() == Contents(map[], map[])
    requires a.pton == b.pton && a != b && a.graph != b.graph
    modifies b, b.graph
    ensures b.Valid() && b.Content() == AfterNics(env, paths, WELL, Contents(map[], map[]), NicDetails(a.Content()))
  {
    hide *;
    AllBuild();
    ContentIs(a);
    var ms := NicDetails(Contents(a.nics, a.groups));
    assert ms[..0] == [];
    NoneAfter(env, paths);
    for i := 0 to |ms|
      invariant b.Valid() && b.Content() == AfterNics(env, paths, WELL, Contents(map[], map[]), ms[..i])
    {
      DumpedNic(env, a, i);
      ContentIs(b);
      AfterNicsStep(env, paths, ms, i);
      if ValidNic(env, ms[i]) {
        var nic := ConvertNicMessage(env, ms[i]);
        if nic.Some? { var ok := b.ActionNicAdd(nic.value, paths(ms[i].id), WELL); }
      }
      ContentIs(b);
    }
    assert ms[..|ms|] == ms;
  }

  lemma NoneAfter(env: Env, paths: string -> string)
    ensures forall m :: AfterNics(env, paths, WELL, m, []) == m && AfterSgs(env, m, []) == m
  {}

  lemma AfterNicsStep(env: Env, paths: string -> string, ms: seq<NicMessage>, i: nat)
    requires i < |ms| && ValidNic(env, ms[i]) && NicFrom(env, ms[i]).Some?
    ensures var m := AfterNics(env, paths, WELL, Contents(map[], map[]), ms[..i]);
            var nic := NicFrom(env, ms[i]).value;
            (AfterNics(env, paths, WELL, Contents(map[], map[]), ms[..i + 1])
             == Contents(m.nics[nic.id := nic.(path := paths(ms[i].id))], m.groups))
  {
    hide ValidNic, NicFrom;
    assert ms[..i + 1][..i] == ms[..i];
  }

  lemma {:induction false} NicsToAt(nics: map<string, Nic>, ids: seq<string>, i: nat)
    requires (forall id :: id in ids ==> id in nics) && i < |ids|
    ensures |NicsTo(nics, ids)| == |ids| && NicsTo(nics, ids)[i] == NicTo(nics[ids[i]])
    decreases |ids|
  {
    hide NicTo;
    if |ids| > 1 { NicsToAt(nics, ids[..|ids| - 1], if i < |ids| - 1 then i else 0); }
  }

  /** A message of the dump is valid, and stands for a NIC of the old server. */
  lemma DumpedNic(env: Env, a: Api, i: nat)
    requires a.Valid() && Dumpable(env, a.Content()) && i < |NicDetails(a.Content())|
    ensures var m := NicDetails(a.Content())[i];
            ValidNic(env, m) && NicFrom(env, m).Some? && AddressesOk(a.pton, NicFrom(env, m).value.ipList)
  {
    hide ValidNic, NicFrom, NicTo, NicOk, SgOk, NicsTo, Order.Texts, Graph.Inv, Graph.FreshAt, Coherent, AddressesOk, GroupsOk;
    var ids := Order.Texts(a.nics.Keys);
    NoNicDetails(a.nics);
    NicsToAt(a.nics, ids, i);
    assert ids[i] in ids;
    NicRoundTrip(env, a.nics[ids[i]]);
  }

  lemma NoNicDetails(nics: map<string, Nic>)
    ensures |NicsTo(nics, Order.Texts(nics.Keys))| == |Order.Texts(nics.Keys)|
  {
    var ids := Order.Texts(nics.Keys);
    if ids != [] { NicsToAt(nics, ids, 0); }
  }

  /** The second half: the groups. */
  method ReplaySgDetails(env: Env, paths: string -> string, a: Api, b: Api)
    requires a.Valid() && Dumpable(env, a.Content())
    requires b.Valid() && b.groups == map[]
    requires a.pton == b.pton && a.hash == b.hash == env.hash && a != b && a.graph != b.graph
    modifies b, b.graph
    ensures b.Valid() && SgDetails(a.Content()).Some?
    ensures b.Content() == AfterSgs(env, old(b.Content()), SgDetails(a.Content()).value)
  {
    hide *;
    ContentIs(a);
    NoneAfter(env, paths);
    DumpedSgs(env, a);
    var ms := SgDetails(Contents(a.nics, a.groups)).value;
    assert ms[..0] == [];
    for i := 0 to |ms|
      invariant b.Valid() && b.Content() == AfterSgs(env, old(b.Content()), ms[..i])
    {
      DumpedSg(env, a, i);
      ContentIs(b);
      AfterSgsStep(env, old(b.Content()), ms, i);
      if ValidSg(env, ms[i]) {
        var sg := ConvertSgMessage(env, ms[i]);
        if sg.Some? { b.ActionSgAdd(sg.value); }
      }
      ContentIs(b);
    }
    assert ms[..|ms|] == ms;
  }

  lemma AfterSgsStep(env: Env, start: Contents, ms: seq<SgMessage>, i: nat)
    requires i < |ms| && ValidSg(env, ms[i]) && SgFrom(env, ms[i]).Some?
    ensures var m := AfterSgs(env, start, ms[..i]);
            var sg := SgFrom(env, ms[i]).value;
            (AfterSgs(env, start, ms[..i + 1])
             == if sg.id in m.groups && SgEqual(sg, m.groups[sg.id]) then m else Contents(m.nics, m.groups[sg.id := sg]))
  {
    hide ValidSg, SgFrom, SgEqual;
    assert ms[..i + 1][..i] == ms[..i];
  }

  lemma {:induction false} SgsToAt(groups: Groups, ids: seq<string>, i: nat)
    requires (forall id :: id in ids ==> id in groups && SgTo(groups[id]).Some?) && i < |ids|
    ensures SgsTo(groups, ids).Some? && |SgsTo(groups, ids).value| == |ids|
    ensures SgsTo(groups, ids).value[i] == SgTo(groups[ids[i]]).value
    decreases |ids|
  {
    hide SgTo;
    assert ids[|ids| - 1] in ids;
    if |ids| > 1 { SgsToAt(groups, ids[..|ids| - 1], if i < |ids| - 1 then i else 0); }
  }

  lemma DumpedSgs(env: Env, a: Api)
    requires Dumpable(env, a.Content())
    ensures SgDetails(a.Content()).Some? && |SgDetails(a.Content()).value| == |Order.Texts(a.groups.Keys)|
    ensures forall i :: 0 <= i < |Order.Texts(a.groups.Keys)| ==>
      var sg := a.groups[Order.Texts(a.groups.Keys)[i]];
      SgTo(sg).Some? && SgDetails(a.Content()).value[i] == SgTo(sg).value && SgOk(env, sg)
  {
    hide SgTo, SgsTo, Order.Texts, SgOk, NicOk;
    var ids := Order.Texts(a.groups.Keys);
    forall id | id in ids ensures SgTo(a.groups[id]).Some? { SgRoundTrip(env, a.groups[id]); }
    forall i | 0 <= i < |ids|
      ensures SgsTo(a.groups, ids).Some? && |SgsTo(a.groups, ids).value| == |ids|
      ensures SgsTo(a.groups, ids).value[i] == SgTo(a.groups[ids[i]]).value && SgOk(env, a.groups[ids[i]])
    {
      assert ids[i] in ids;
      SgsToAt(a.groups, ids, i);
    }
    if ids == [] { NoSgs(a.groups, ids); }
  }

  lemma NoSgs(groups: Groups, ids: seq<string>)
    requires ids == []
    ensures SgsTo(groups, ids) == Some([])
  {}

  /** A message of the dump is valid, and stands for a group of the old server. */
  lemma DumpedSg(env: Env, a: Api, i: nat)
    requires a.Valid() && Dumpable(env, a.Content())
    requires SgDetails(a.Content()).Some? && i < |SgDetails(a.Content()).value|
    ensures var m := SgDetails(a.Content()).value[i];
            && ValidSg(env, m) && SgFrom(env, m).Some?
            && GroupOk(a.pton, SgFrom(env, m).value) && FiledByHash(a.hash, SgFrom(env, m).value.rules)
  {
    hide ValidSg, SgFrom, SgTo, SgOk, NicOk, SgDetails, Order.Texts, Graph.Inv, Graph.FreshAt, Coherent, GroupOk, FiledByHash, AddressesOk;
    var ids := Order.Texts(a.groups.Keys);
    DumpedSgs(env, a);
    assert ids[i] in ids;
    SgRoundTrip(env, a.groups[ids[i]]);
  }

  // From an empty server, through any run, to its copy

  /** What `inet_ntop` writes can stand in a filter text and in a rule key. */
  ghost predicate PlainTexts(env: Env) {
    forall x :: PlainWord(env.ntop(x)) && '/' !in env.ntop(x)
  }

  lemma CanonicalOk(env: Env, ip: Ip)
    requires PlainTexts(env) && Canonical(env, ip)
    ensures IpOk(env.pton, ip)
  {
    hide PlainWord;
    assert ip.text == env.ntop(AddressOf(ip));
  }

  lemma ReplayableOk(env: Env, rule: Rule)
    requires PlainTexts(env) && Replayable(env, rule)
    ensures RuleOk(env.pton, rule) && '/' !in rule.cidr.address.text
  {
    hide PlainWord, Canonical, IpOk;
    if rule.securityGroup == "" {
      CanonicalOk(env, rule.cidr.address);
      TextOk(env.pton, rule.cidr.address);
    }
  }

  lemma TextOk(pton: Resolver, ip: Ip)
    requires IpOk(pton, ip)
    ensures '/' !in ip.text
  {}

  /** The requests that keep a model dumpable are requests that the server takes. */
  lemma KeptIsOk(env: Env, a: Api, r: Request)
    requires PlainTexts(env) && KeepsDumpable(env, r) && a.pton == env.pton && a.hash == env.hash
    ensures a.RequestOk(r)
  {
    hide PlainTexts, Canonical, Replayable, RuleOk, IpOk, AllDiffer, NoRepeats, RuleKey;
    forall ip | Canonical(env, ip) ensures IpOk(env.pton, ip) { CanonicalOk(env, ip); }
    forall rule | Replayable(env, rule) ensures RuleOk(env.pton, rule) && '/' !in rule.cidr.address.text { ReplayableOk(env, rule); }
  }

  /** Any run on an empty server, then its dump on another: the second server filters as the first. */
  method RunAndReplay(env: Env, paths: string -> string, rs: seq<Request>, a: Api, b: Api) returns (oks: seq<bool>)
    requires a.Valid() && a.nics == map[] && a.groups == map[] && b.Valid() && b.nics == map[] && b.groups == map[]
    requires a.pton == b.pton == env.pton && a.hash == b.hash == env.hash && a != b && a.graph != b.graph
    requires PlainTexts(env) && forall r :: r in rs ==> KeepsDumpable(env, r)
    modifies a, a.graph, b, b.graph
    ensures |oks| <= |rs| && a.Content() == Steps(env.hash, Contents(map[], map[]), rs[..|oks|], oks)
    ensures |oks| < |rs| ==> RewiresNow(a.Content(), rs[|oks|])
    ensures b.nics == WithPaths(paths, a.nics) && b.groups == a.groups
    ensures forall id :: (id in a.nics && !a.nics[id].bypassFiltering && Regular(a.groups, a.nics[id].securityGroups)
                          ==> SameFilters(a, b, id))
  {
    hide *;
    ContentIs(a);
    forall r | r in rs ensures a.RequestOk(r) { KeptIsOk(env, a, r); }
    oks := a.Run(rs);
    RunDumpable(env, rs[..|oks|], oks);
    ReplayOn(env, paths, a, b);
  }
}
