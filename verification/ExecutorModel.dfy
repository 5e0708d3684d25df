/** What one run of the deploy executor does, given how each of its calls ends:
    where it stops, what is left on the cluster, and what the row says after. */
module ExecutorModel {
  import opened Common
  import opened DeployModel
  import opened DeployActive
  import opened FlatIp
  import Addresses

  /** How a call ends: normally, with the error its stage expects, or with any
      other exception. */
  datatype Stage = Passes | Fails | Breaks

  /** The calls that remove the attempt's container. `gone` says whether the
      container really disappears when the destroy call is reached. */
  datatype Cleanup = Cleanup(owned: Stage, stop: Stage, ownedAgain: Stage, destroy: Stage, gone: bool)

  datatype Network = Flat(ip: string) | Leased(leased: Option<string>) | NoNetwork(broken: bool)

  /** How every call of a run ends. `stored` and `made` say whether an upload or
      a creation that was not confirmed left something behind all the same, and
      `deleted` whether an unconfirmed deletion of the template took effect. */
  datatype Plan = Plan(
    network: Network, convert: Stage, port: nat, installed: bool, secrets: Stage, tarball: Stage,
    schedule: Stage, node: string, upload: Stage, stored: bool, numbered: bool, vmid: nat,
    create: Stage, made: bool, owned: Stage, start: Stage, check: Stage, cleanup: Cleanup,
    existing: bool, restart: Stage, stopOld: Stage, routing: Stage, production: bool,
    lastCleanup: Cleanup, deletion: Stage, deleted: bool)

  datatype Point =
    | AtTransition | AtNetwork | AtClaim | AtConvert | AtInstall | AtSecrets | AtTarball | AtSchedule | AtUpload
    | AtNumber | AtCreate | AtOwnership | AtStart | AtHealth | AfterPromotion

  /** Where a run stops early; `broken` when no stage expected the exception. */
  datatype Halt = Halt(point: Point, broken: bool)

  // ------------------------------------------------------------- where it stops

  predicate Startable(s: Status) {
    s in {Queued, Building, ArtifactReady, Provisioning}
  }

  predicate PreActive(s: Status) {
    Startable(s) || s == Healthy
  }

  /** Another row in the filter claims the address. */
  predicate ClaimedElsewhere(t: Table, id: DeployId, address: string) {
    exists j :: j in t && j != id && InFilter(t[j]) && t[j].container.ip.value == address
  }

  /** Committing the claim would break the index. */
  predicate Conflicts(t: Table, id: DeployId, p: Plan) {
    p.network.Flat? && ClaimedElsewhere(t, id, p.network.ip)
  }

  /** The address that the network gave the attempt. */
  function AddressOf(p: Plan): Option<string> {
    match p.network case Flat(ip) => Some(ip) case Leased(ip) => ip case NoNetwork(_) => None
  }

  /** An empty one counts as none. */
  function HealthIp(p: Plan): Option<string> {
    if AddressOf(p) == Some("") then None else AddressOf(p)
  }

  function First(stage: Stage, point: Point, rest: Option<Halt>): Option<Halt> {
    if stage.Passes? then rest else Some(Halt(point, stage.Breaks?))
  }

  /** How removing the container ends. A handler for expected errors tolerates a
      container that would not stop; the other handler does not. */
  function Ended(c: Cleanup, tolerant: bool): Stage {
    if !c.owned.Passes? then c.owned
    else if c.stop.Breaks? || (c.stop.Fails? && !tolerant) then c.stop
    else if !c.ownedAgain.Passes? then c.ownedAgain
    else c.destroy
  }

  predicate Destroys(c: Cleanup, tolerant: bool) {
    c.owned.Passes? && !c.stop.Breaks? && (tolerant || c.stop.Passes?) && c.ownedAgain.Passes? && c.gone
  }

  /** A failed check becomes an unexpected error when removing the container, or
      restarting the previous one, breaks. */
  function HealthHalt(p: Plan): (h: Option<Halt>)
    ensures h.Some? ==> h.value.point == AtHealth
  {
    if HealthIp(p).None? || p.check.Passes? then None
    else Some(Halt(AtHealth, p.check.Breaks? || Ended(p.cleanup, true).Breaks? || (p.existing && p.restart.Breaks?)))
  }

  function PromotionHalt(p: Plan): (h: Option<Halt>)
    ensures h.Some? ==> h.value == Halt(AfterPromotion, true)
  {
    if (p.existing && p.stopOld.Breaks?) || (HealthIp(p).Some? && p.port != 0 && p.routing.Breaks?)
    then Some(Halt(AfterPromotion, true))
    else None
  }

  function PrepareHalt(t: Table, id: DeployId, p: Plan): (h: Option<Halt>)
    requires id in t
    ensures h.Some? ==> h.value.point in {AtTransition, AtNetwork, AtClaim}
  {
    if !Startable(t[id].status) then Some(Halt(AtTransition, false))
    else if p.network.NoNetwork? then Some(Halt(AtNetwork, p.network.broken))
    else if Conflicts(t, id, p) then Some(Halt(AtClaim, true))
    else None
  }

  function ImageHalt(p: Plan): (h: Option<Halt>)
    ensures h.Some? ==> h.value.point in {AtConvert, AtInstall, AtSecrets, AtTarball, AtSchedule, AtUpload}
  {
    First(p.convert, AtConvert,
      First(if p.installed then Passes else Breaks, AtInstall,
        First(if p.secrets.Breaks? then Breaks else Passes, AtSecrets,
          First(p.tarball, AtTarball, First(p.schedule, AtSchedule, First(p.upload, AtUpload, None))))))
  }

  function ContainerHalt(p: Plan): (h: Option<Halt>)
    ensures h.Some? ==> h.value.point in {AtNumber, AtCreate, AtOwnership, AtStart}
  {
    First(if p.numbered then Passes else Breaks, AtNumber,
      First(p.create, AtCreate, First(p.owned, AtOwnership, First(p.start, AtStart, None))))
  }

  function Or(a: Option<Halt>, b: Option<Halt>): Option<Halt> {
    if a.Some? then a else b
  }

  /** Stages up to starting the container. */
  function EarlyHalt(t: Table, id: DeployId, p: Plan): (h: Option<Halt>)
    requires id in t
    ensures h.Some? ==> h.value.point != AtHealth && h.value.point != AfterPromotion
  {
    Or(PrepareHalt(t, id, p), Or(ImageHalt(p), ContainerHalt(p)))
  }

  function Halts(t: Table, id: DeployId, p: Plan): Option<Halt>
    requires id in t
  {
    Or(EarlyHalt(t, id, p), Or(HealthHalt(p), PromotionHalt(p)))
  }

  // --------------------------------------------------------------- what is left

  predicate AfterUpload(h: Option<Halt>) {
    h.None? || h.value.point in {AtNumber, AtCreate, AtOwnership, AtStart, AtHealth, AfterPromotion}
  }

  predicate AfterCreate(h: Option<Halt>) {
    h.None? || h.value.point in {AtOwnership, AtStart, AtHealth, AfterPromotion}
  }

  /** Did the failed check already remove the container, and know it? */
  predicate AlreadyRemoved(h: Option<Halt>, p: Plan) {
    h.Some? && h.value.point == AtHealth && p.check.Fails? && Ended(p.cleanup, true).Passes?
  }

  predicate LastCleanupRuns(h: Option<Halt>, p: Plan) {
    h.Some? && AfterCreate(h) && !AlreadyRemoved(h, p)
  }

  /** Made, confirmed or not, and not removed by either removal that may be tried. */
  predicate LeavesContainer(h: Option<Halt>, p: Plan) {
    (if h == Some(Halt(AtCreate, p.create.Breaks?)) then p.made else AfterCreate(h)) &&
    !(h.Some? && h.value.point == AtHealth && p.check.Fails? && Destroys(p.cleanup, true)) &&
    !(LastCleanupRuns(h, p) && Destroys(p.lastCleanup, !h.value.broken))
  }

  // --------------------------------------------------- calls on the container

  /** What a run asks of the cluster about its container. */
  datatype ClusterCall =
    | CreateLxc(took: bool)
    | ProveOwned(ended: Stage)
    | StopLxc(ended: Stage)
    | DestroyLxc(took: bool)

  function CreationCalls(p: Plan): seq<ClusterCall> {
    if !p.numbered then []
    else [CreateLxc(p.create.Passes? || p.made)] + if p.create.Passes? then [ProveOwned(p.owned)] else []
  }

  function RemovalCalls(c: Cleanup, tolerant: bool): seq<ClusterCall> {
    if !c.owned.Passes? then [ProveOwned(c.owned)]
    else if c.stop.Breaks? || (c.stop.Fails? && !tolerant) then [ProveOwned(c.owned), StopLxc(c.stop)]
    else if !c.ownedAgain.Passes? then [ProveOwned(c.owned), StopLxc(c.stop), ProveOwned(c.ownedAgain)]
    else [ProveOwned(c.owned), StopLxc(c.stop), ProveOwned(c.ownedAgain), DestroyLxc(c.gone)]
  }

  function StageCalls(h: Option<Halt>, p: Plan): seq<ClusterCall> {
    if AfterUpload(h) then CreationCalls(p) else []
  }

  function HealthCalls(h: Option<Halt>, p: Plan): seq<ClusterCall> {
    if h.Some? && h.value.point == AtHealth && p.check.Fails? then RemovalCalls(p.cleanup, true) else []
  }

  function HandlerCalls(h: Option<Halt>, p: Plan): seq<ClusterCall> {
    if LastCleanupRuns(h, p) then RemovalCalls(p.lastCleanup, !h.value.broken) else []
  }

  function RunCalls(h: Option<Halt>, p: Plan): seq<ClusterCall> {
    StageCalls(h, p) + HealthCalls(h, p) + HandlerCalls(h, p)
  }

  /** What the calls leave of a cluster, the attempt's container being `v`. */
  function Replayed(cs: set<nat>, v: nat, calls: seq<ClusterCall>): set<nat>
    decreases |calls|
  {
    if calls == [] then cs
    else
      var next := match calls[0] case CreateLxc(true) => cs + {v} case DestroyLxc(true) => cs - {v} case _ => cs;
      Replayed(next, v, calls[1..])
  }

  lemma {:induction false} ReplayedThen(cs: set<nat>, v: nat, a: seq<ClusterCall>, b: seq<ClusterCall>)
    ensures Replayed(cs, v, a + b) == Replayed(Replayed(cs, v, a), v, b)
    decreases |a|
  {
    if a == [] {
      assert a + b == b;
    } else {
      assert (a + b)[0] == a[0] && (a + b)[1..] == a[1..] + b;
      var next := match a[0] case CreateLxc(true) => cs + {v} case DestroyLxc(true) => cs - {v} case _ => cs;
      ReplayedThen(next, v, a[1..], b);
    }
  }

  /** A container is there after some calls exactly when it was created and no
      destroy after that took effect. */
  lemma {:induction false} ThereUnlessDestroyed(cs: set<nat>, v: nat, calls: seq<ClusterCall>)
    requires CreateLxc(true) !in calls && CreateLxc(false) !in calls
    ensures v in Replayed(cs, v, calls) <==> v in cs && DestroyLxc(true) !in calls
    ensures forall w :: w != v ==> (w in Replayed(cs, v, calls) <==> w in cs)
    decreases |calls|
  {
    if calls != [] {
      var next := match calls[0] case CreateLxc(true) => cs + {v} case DestroyLxc(true) => cs - {v} case _ => cs;
      assert forall c :: c in calls <==> c == calls[0] || c in calls[1..];
      ThereUnlessDestroyed(next, v, calls[1..]);
    }
  }

  lemma RemovalReplayed(cs: set<nat>, v: nat, c: Cleanup, tolerant: bool)
    ensures Replayed(cs, v, RemovalCalls(c, tolerant)) == cs - if Destroys(c, tolerant) then {v} else {}
    ensures DestroyLxc(true) in RemovalCalls(c, tolerant) <==> Destroys(c, tolerant)
    ensures CreateLxc(true) !in RemovalCalls(c, tolerant) && CreateLxc(false) !in RemovalCalls(c, tolerant)
  {
    ThereUnlessDestroyed(cs, v, RemovalCalls(c, tolerant));
  }

  lemma CreationReplayed(cs: set<nat>, v: nat, p: Plan)
    ensures Replayed(cs, v, CreationCalls(p)) == cs + if p.numbered && (p.create.Passes? || p.made) then {v} else {}
  {
    if p.numbered {
      var made := p.create.Passes? || p.made;
      ReplayedThen(cs, v, [CreateLxc(made)], if p.create.Passes? then [ProveOwned(p.owned)] else []);
      assert [CreateLxc(made)][1..] == [] && [ProveOwned(p.owned)][1..] == [];
    }
  }

  /** The calls account for what is left on the cluster. */
  lemma RunReplayed(cs: set<nat>, t: Table, id: DeployId, p: Plan)
    requires id in t && (p.vmid in cs ==> !p.create.Passes? && !p.made)
    ensures var h := Halts(t, id, p);
            Replayed(cs, p.vmid, RunCalls(h, p)) == cs + if LeavesContainer(h, p) then {p.vmid} else {}
  {
    var h := Halts(t, id, p);
    var staged :=
      cs + if (h == Some(Halt(AtCreate, p.create.Breaks?)) && p.made) || AfterCreate(h) then {p.vmid} else {};
    StagesReplayed(cs, t, id, p);
    hide Replayed, RemovalCalls, CreationCalls, StageCalls, Ended, Destroys, Halts;
    var checked := Replayed(staged, p.vmid, HealthCalls(h, p));
    NoCalls(staged, p.vmid);
    NoCalls(checked, p.vmid);
    ReplayedThen(cs, p.vmid, StageCalls(h, p) + HealthCalls(h, p), HandlerCalls(h, p));
    ReplayedThen(cs, p.vmid, StageCalls(h, p), HealthCalls(h, p));
    RemovalReplayed(staged, p.vmid, p.cleanup, true);
    if h.Some? {
      RemovalReplayed(checked, p.vmid, p.lastCleanup, !h.value.broken);
    }
  }

  lemma StagesReplayed(cs: set<nat>, t: Table, id: DeployId, p: Plan)
    requires id in t && (p.vmid in cs ==> !p.create.Passes? && !p.made)
    ensures var h := Halts(t, id, p);
            (AfterCreate(h) ==> p.vmid !in cs) &&
            Replayed(cs, p.vmid, StageCalls(h, p)) ==
            cs + if (h == Some(Halt(AtCreate, p.create.Breaks?)) && p.made) || AfterCreate(h) then {p.vmid} else {}
  {
    hide Replayed, CreationCalls, Conflicts;
    NoCalls(cs, p.vmid);
    CreationReplayed(cs, p.vmid, p);
  }

  lemma NoCalls(cs: set<nat>, v: nat)
    ensures Replayed(cs, v, []) == cs
  {
  }

  // ------------------------------------------------------------ left templates

  function LeftTemplates(h: Option<Halt>, p: Plan, name: string, before: set<string>): set<string> {
    if AfterUpload(h) then (if p.deletion.Passes? || p.deleted then before - {name} else before + {name})
    else if h.value.point == AtUpload && p.stored then before + {name}
    else before
  }

  /** An exception escapes a handler, or the deletion of the template; whatever
      was not committed is lost. */
  predicate HandlerRaises(h: Option<Halt>, p: Plan) {
    h.Some? && !h.value.broken && LastCleanupRuns(h, p) && Ended(p.lastCleanup, true).Breaks?
  }

  predicate Raises(h: Option<Halt>, p: Plan) {
    HandlerRaises(h, p) || (AfterUpload(h) && p.deletion.Breaks?)
  }

  // ------------------------------------------------------------- what is stored

  function WithClaim(p: Plan, c: Container): Container {
    if p.network.Flat? then c.(ip := Some(p.network.ip)) else c
  }

  function Full(p: Plan, c: Container): Container {
    WithClaim(p, c).(port := Some(p.port), vmid := Some(p.vmid), node := Some(p.node))
  }

  function At(t: Table, id: DeployId, s: Status, c: Container): Table
    requires id in t
  {
    t[id := t[id].(status := s, container := c)]
  }

  /** The table once this deploy has been promoted, before the freed slot is handed on. */
  function Promoted(t: Table, id: DeployId, p: Plan, now: Time): Table
    requires id in t
  {
    Moved(At(t, id, Healthy, Full(p, t[id].container)), id, Active, now)
  }

  ghost predicate Handed(cfg: Config, t: Table, e: Env, pick: Option<DeployId>, t': Table) {
    ValidPick(cfg, t, e, pick) && t' == PromoteNext(t, pick)
  }

  /** The table after the run. */
  ghost predicate Outcome(cfg: Config, t: Table, id: DeployId, p: Plan, now: Time, pick: Option<DeployId>, t': Table)
    requires id in t
  {
    var h, d := Halts(t, id, p), t[id];
    if h.None? then
      Handed(cfg, Promoted(t, id, p, now), d.env, pick, t')
    else if h.value.point == AfterPromotion then
      ValidPick(cfg, Promoted(t, id, p, now), d.env, pick) &&
      var t1 := PromoteNext(Promoted(t, id, p, now), pick);
      t' == if p.deletion.Breaks? then t1 else At(t1, id, t1[id].status, NO_CONTAINER)
    else if h.value.point == AtClaim then
      pick == None && t' == At(t, id, Provisioning, d.container)
    else if HandlerRaises(h, p) then
      pick == None &&
      t' == At(t, id, Provisioning,
               if h.value.point == AtOwnership then WithClaim(p, d.container) else Full(p, d.container))
    else if !PreActive(d.status) then
      pick == None && t' == At(t, id, d.status, NO_CONTAINER)
    else
      Handed(cfg, At(t, id, Failed, NO_CONTAINER), d.env, pick, t')
  }

  /** The table, and what of it is committed, where the run stops and before any
      handler has acted. */
  ghost predicate Reached(cfg: Config, t: Table, id: DeployId, p: Plan, now: Time, h: Option<Halt>,
                          pick: Option<DeployId>,
                          rows: Table, committed: Table)
    requires id in t
  {
    var d := t[id];
    if h.None? || h.value.point == AfterPromotion then
      Handed(cfg, Promoted(t, id, p, now), d.env, pick, rows) && committed == rows
    else
      pick == None && id in rows &&
      match h.value.point
      case AtTransition => rows == t && committed == t
      case AtNetwork => rows == At(t, id, Provisioning, d.container) && committed == rows
      case AtClaim => rows == At(t, id, Provisioning, d.container) && committed == rows
      case AtStart => rows == At(t, id, Provisioning, Full(p, d.container)) && committed == rows
      case AtHealth => rows == At(t, id, Provisioning, Full(p, d.container)) && committed == rows
      case _ =>
        rows == At(t, id, Provisioning, rows[id].container) &&
        committed == At(t, id, Provisioning, WithClaim(p, d.container))
  }

  lemma ReachedKeys(cfg: Config, t: Table, id: DeployId, p: Plan, now: Time, h: Option<Halt>, pick: Option<DeployId>,
                    rows: Table, committed: Table)
    requires id in t && Reached(cfg, t, id, p, now, h, pick, rows, committed)
    ensures rows.Keys == committed.Keys == t.Keys
  {
    var t1 := Promoted(t, id, p, now);
    assert pick.Some? ==> pick.value in QueuedIn(t1, t[id].env);
  }

  lemma ReachedEarly(cfg: Config, t: Table, id: DeployId, p: Plan, now: Time, h: Option<Halt>, pick: Option<DeployId>,
                     rows: Table, committed: Table)
    requires id in t && Reached(cfg, t, id, p, now, h, pick, rows, committed)
    requires h.Some? && h.value.point != AfterPromotion
    ensures pick == None
  {
  }

  lemma ReachedEnd(cfg: Config, t: Table, id: DeployId, p: Plan, now: Time, pick: Option<DeployId>, rows: Table,
                   committed: Table)
    requires id in t && Halts(t, id, p) == None && Reached(cfg, t, id, p, now, None, pick, rows, committed)
    ensures Outcome(cfg, t, id, p, now, pick, rows) && committed == rows
  {
  }

  /** What the handler of an exception makes of the table. */
  ghost predicate Handled(cfg: Config, rows: Table, committed: Table, id: DeployId, h: Halt, raised: bool,
                          pick: Option<DeployId>,
                          rows': Table, committed': Table)
  {
    id in rows &&
    var d := rows[id];
    if raised || h.point == AtClaim then pick == None && rows' == rows && committed' == committed
    else if CanTransition(d.status, Failed)
    then Handed(cfg, At(rows, id, Failed, NO_CONTAINER), d.env, pick, rows') && committed' == rows'
    else pick == None && rows' == At(rows, id, d.status, NO_CONTAINER) && committed' == committed
  }

  lemma HandledEarly(cfg: Config, t: Table, id: DeployId, p: Plan, now: Time, h: Halt, rows: Table, committed: Table,
                     pick: Option<DeployId>, rows': Table, committed': Table)
    requires id in t && Halts(t, id, p) == Some(h) && h.point != AfterPromotion
    requires Reached(cfg, t, id, p, now, Some(h), None, rows, committed)
    requires Handled(cfg, rows, committed, id, h, HandlerRaises(Some(h), p), pick, rows', committed')
    ensures Outcome(cfg, t, id, p, now, pick, if Raises(Some(h), p) then committed' else rows')
  {
    hide Promoted, Ended, ValidPick, PromoteNext, ImageHalt, ContainerHalt, HealthHalt, PromotionHalt, Destroys,
         Conflicts;
    if h.point != AtTransition {
      assert Startable(t[id].status);
      assert At(rows, id, Failed, NO_CONTAINER) == At(t, id, Failed, NO_CONTAINER);
    }
  }

  lemma HandledLate(cfg: Config, t: Table, id: DeployId, p: Plan, now: Time, h: Halt, rows: Table, committed: Table,
                    pick: Option<DeployId>, handlerPick: Option<DeployId>, rows': Table, committed': Table)
    requires id in t && Halts(t, id, p) == Some(h) && h.point == AfterPromotion
    requires Reached(cfg, t, id, p, now, Some(h), pick, rows, committed)
    requires Handled(cfg, rows, committed, id, h, HandlerRaises(Some(h), p), handlerPick, rows', committed')
    ensures var t' := if Raises(Some(h), p) then committed' else rows';
            Outcome(cfg, t, id, p, now, pick, t') && id in t' && t'[id].status == rows[id].status
  {
    hide Promoted, Ended, ValidPick, PromoteNext, Destroys, Halts, Raises, HandlerRaises, PreActive, Full, WithClaim;
    LateIsBroken(t, id, p);
    PromotedStatus(cfg, t, id, p, now, pick, rows);
  }

  lemma LateIsBroken(t: Table, id: DeployId, p: Plan)
    requires id in t && Halts(t, id, p).Some? && Halts(t, id, p).value.point == AfterPromotion
    ensures var h := Halts(t, id, p); h.value.broken && !HandlerRaises(h, p) && (Raises(h, p) <==> p.deletion.Breaks?)
  {
    hide ImageHalt, ContainerHalt, PrepareHalt, HealthHalt, PromotionHalt, Ended;
  }

  lemma PromotedStatus(cfg: Config, t: Table, id: DeployId, p: Plan, now: Time, pick: Option<DeployId>, rows: Table)
    requires id in t && Handed(cfg, Promoted(t, id, p, now), t[id].env, pick, rows)
    ensures id in rows && rows[id].status in {Active, Superseded}
  {
    assert pick.Some? ==> pick.value in QueuedIn(Promoted(t, id, p, now), t[id].env);
  }

  lemma ConflictsElsewhere(t: Table, t': Table, id: DeployId, address: string)
    requires t'.Keys == t.Keys && forall j :: j in t && j != id ==> t'[j] == t[j]
    ensures ClaimedElsewhere(t, id, address) <==> ClaimedElsewhere(t', id, address)
  {
    if j :| j in t && j != id && InFilter(t[j]) && t[j].container.ip.value == address {
      assert j in t' && InFilter(t'[j]);
    }
    if j :| j in t' && j != id && InFilter(t'[j]) && t'[j].container.ip.value == address {
      assert j in t && InFilter(t[j]);
    }
  }

  // ------------------------------------------------------------------ the route

  /** "order by promoted_at desc": rows never promoted come first. */
  predicate NoLaterThan(a: Option<Time>, b: Option<Time>) {
    a.None? || (b.Some? && a.value >= b.value)
  }

  ghost predicate NewestActive(t: Table, e: Env, newest: Option<DeployId>) {
    if ActiveIn(t, e) == {} then newest.None?
    else newest.Some? && newest.value in ActiveIn(t, e) &&
         forall j :: j in ActiveIn(t, e) ==> NoLaterThan(t[newest.value].promotedAt, t[j].promotedAt)
  }

  predicate Routes(p: Plan) {
    !(p.existing && p.stopOld.Breaks?) && HealthIp(p).Some? && p.port != 0 && p.routing.Passes? && p.production
  }

  // --------------------------------------------------------------- main results

  predicate Succeeds(c: Cleanup) {
    c.owned.Passes? && c.stop.Passes? && c.ownedAgain.Passes? && c.destroy.Passes? && c.gone
  }

  /** An address that the allocator found free, with the database answering,
      meets no conflict when it is claimed. */
  lemma AllocatedMeetsNoConflict(t: Table, id: DeployId, p: Plan, nodes: Option<seq<Node>>, start: nat, end: nat,
                                 a: nat)
    requires Addresses.IsAddress(start) && Addresses.IsAddress(end)
    requires FirstFit(start, end, Used(t, true, nodes), Ok(a)) && p.network == Flat(Addresses.ToString(a))
    ensures !Conflicts(t, id, p)
  {
    hide Addresses.ToString;
    forall j | j in t && InFilter(t[j])
      ensures t[j].container.ip.value != p.network.ip
    {
      assert t[j].container.ip.value in Claimed(t);
    }
  }

  /** All that a run changes. */
  datatype World = World(rows: Table, containers: set<nat>, templates: set<string>, production: map<nat, DeployId>,
                         calls: seq<ClusterCall>)

  /** One run of the executor, from one world to another. */
  ghost predicate Ran(cfg: Config, before: World, id: DeployId, p: Plan, name: string, now: Time,
                      pick: Option<DeployId>, raised: bool, after: World)
    requires id in before.rows
  {
    var h := Halts(before.rows, id, p);
    raised == Raises(h, p) &&
    Outcome(cfg, before.rows, id, p, now, pick, after.rows) &&
    after.calls == before.calls + RunCalls(h, p) &&
    after.containers == Replayed(before.containers, p.vmid, RunCalls(h, p)) &&
    after.templates == LeftTemplates(h, p, name, before.templates) &&
    after.production == if Routes(p) && (h.None? || h.value.point == AfterPromotion) &&
                           id in after.rows && after.rows[id].status == Active
                        then before.production[before.rows[id].env.project := id] else before.production
  }

  /** The cluster never reports making a container whose number is taken. */
  predicate Plausible(before: World, p: Plan) {
    p.vmid in before.containers ==> !p.create.Passes? && !p.made
  }

  /** The calls that a run makes. */
  function NewCalls(before: World, after: World): seq<ClusterCall>
    requires |before.calls| <= |after.calls|
  {
    after.calls[|before.calls|..]
  }

  /** A container that the run confirmed creating is there in the end exactly when
      none of the destroys the run asked for took effect. */
  lemma ContainerSurvivesIff(cfg: Config, before: World, id: DeployId, p: Plan, name: string, now: Time,
                             pick: Option<DeployId>, raised: bool, after: World)
    requires id in before.rows && Plausible(before, p) && Ran(cfg, before, id, p, name, now, pick, raised, after)
    requires AfterCreate(Halts(before.rows, id, p))
    ensures |before.calls| <= |after.calls|
    ensures p.vmid in after.containers <==> DestroyLxc(true) !in NewCalls(before, after)
    ensures forall v :: v != p.vmid ==> (v in after.containers <==> v in before.containers)
  {
    hide Outcome, RunCalls, Replayed, LeftTemplates, Routes, Raises, Halts;
    assert NewCalls(before, after) == RunCalls(Halts(before.rows, id, p), p);
    SurvivesItsCalls(before.containers, before.rows, id, p);
  }

  lemma SurvivesItsCalls(cs: set<nat>, t: Table, id: DeployId, p: Plan)
    requires id in t && AfterCreate(Halts(t, id, p))
    ensures var calls := RunCalls(Halts(t, id, p), p);
            (p.vmid in Replayed(cs, p.vmid, calls) <==> DestroyLxc(true) !in calls) &&
            forall v :: v != p.vmid ==> (v in Replayed(cs, p.vmid, calls) <==> v in cs)
  {
    var h := Halts(t, id, p);
    var first, rest := [CreateLxc(true), ProveOwned(p.owned)], HealthCalls(h, p) + HandlerCalls(h, p);
    ConfirmedCalls(t, id, p);
    OnlyOneCreation(h, p);
    CreationReplayed(cs, p.vmid, p);
    hide RemovalCalls, CreationCalls, HealthCalls, HandlerCalls, Halts, Replayed;
    assert RunCalls(h, p) == first + rest;
    ReplayedThen(cs, p.vmid, first, rest);
    ThereUnlessDestroyed(cs + {p.vmid}, p.vmid, rest);
    hide RunCalls, Ended, Destroys, AfterCreate, LastCleanupRuns;
    assert DestroyLxc(true) in first + rest <==> DestroyLxc(true) in first || DestroyLxc(true) in rest;
  }

  lemma ConfirmedCalls(t: Table, id: DeployId, p: Plan)
    requires id in t && AfterCreate(Halts(t, id, p))
    ensures p.numbered && p.create.Passes? && CreationCalls(p) == [CreateLxc(true), ProveOwned(p.owned)]
    ensures StageCalls(Halts(t, id, p), p) == CreationCalls(p)
  {
  }

  lemma OnlyOneCreation(h: Option<Halt>, p: Plan)
    ensures var rest := HealthCalls(h, p) + HandlerCalls(h, p); CreateLxc(true) !in rest && CreateLxc(false) !in rest
  {
  }

  /** A destroy is only ever asked for right after the second of two proofs of
      ownership, with a stop in between, in the same removal. */
  predicate FailClosed(calls: seq<ClusterCall>) {
    forall k :: 0 <= k < |calls| && calls[k].DestroyLxc? ==>
      k >= 3 && calls[k - 1] == ProveOwned(Passes) && calls[k - 2].StopLxc? && calls[k - 3] == ProveOwned(Passes)
  }

  lemma FailClosedThen(a: seq<ClusterCall>, b: seq<ClusterCall>)
    requires FailClosed(a) && FailClosed(b)
    ensures FailClosed(a + b)
  {
    var c := a + b;
    forall k | 0 <= k < |c| && c[k].DestroyLxc?
      ensures k >= 3 && c[k - 1] == ProveOwned(Passes) && c[k - 2].StopLxc? && c[k - 3] == ProveOwned(Passes)
    {
      if k >= |a| {
        assert b[k - |a|].DestroyLxc?;
      }
    }
  }

  /** However its calls end, a run destroys nothing it has not proved to be its
      own twice, and nothing it did not confirm creating. */
  lemma DestroysOnlyItsOwn(cfg: Config, before: World, id: DeployId, p: Plan, name: string, now: Time,
                           pick: Option<DeployId>, raised: bool, after: World)
    requires id in before.rows && Ran(cfg, before, id, p, name, now, pick, raised, after)
    ensures |before.calls| <= |after.calls| && FailClosed(NewCalls(before, after))
    ensures (exists c :: c in NewCalls(before, after) && c.DestroyLxc?) ==>
              NewCalls(before, after)[0] == CreateLxc(true)
  {
    hide Outcome, RunCalls, Replayed, LeftTemplates, Routes, Raises, Halts, FailClosed;
    assert NewCalls(before, after) == RunCalls(Halts(before.rows, id, p), p);
    RunFailsClosed(before.rows, id, p);
  }

  lemma RunFailsClosed(t: Table, id: DeployId, p: Plan)
    requires id in t
    ensures var calls := RunCalls(Halts(t, id, p), p);
            FailClosed(calls) && ((exists c :: c in calls && c.DestroyLxc?) ==> calls[0] == CreateLxc(true))
  {
    var h := Halts(t, id, p);
    PartsFailClosed(h, p);
    if AfterCreate(h) {
      ConfirmedCalls(t, id, p);
    }
    hide Halts, CreationCalls, RemovalCalls, StageCalls, HealthCalls, HandlerCalls, FailClosed;
    FailClosedThen(StageCalls(h, p), HealthCalls(h, p));
    FailClosedThen(StageCalls(h, p) + HealthCalls(h, p), HandlerCalls(h, p));
  }

  lemma PartsFailClosed(h: Option<Halt>, p: Plan)
    ensures FailClosed(StageCalls(h, p)) && FailClosed(HealthCalls(h, p)) && FailClosed(HandlerCalls(h, p))
    ensures forall c :: c in StageCalls(h, p) ==> !c.DestroyLxc?
    ensures !AfterCreate(h) ==> HealthCalls(h, p) == [] && HandlerCalls(h, p) == []
  {
    RemovalFailsClosed(p.cleanup, true);
    if h.Some? {
      RemovalFailsClosed(p.lastCleanup, !h.value.broken);
    }
    hide RemovalCalls, Ended;
  }

  lemma RemovalFailsClosed(c: Cleanup, tolerant: bool)
    ensures FailClosed(RemovalCalls(c, tolerant))
  {
  }

  /** Whichever stage stops the run, up to and including the health check, the
      deploy ends failed, with all four container columns empty and every other
      row as it was except one that takes the freed slot; the container this
      attempt confirmed creating is gone, and so is the template it uploaded. */
  lemma FailureIsCleanedUp(cfg: Config, before: World, id: DeployId, p: Plan, name: string, now: Time,
                           pick: Option<DeployId>, raised: bool, after: World)
    requires id in before.rows && PreActive(before.rows[id].status) && !Conflicts(before.rows, id, p) &&
             Plausible(before, p)
    requires Ran(cfg, before, id, p, name, now, pick, raised, after)
    requires Succeeds(p.cleanup) && Succeeds(p.lastCleanup) && p.deletion.Passes?
    requires var h := Halts(before.rows, id, p); h.Some? && h.value.point != AfterPromotion
    ensures !raised && id in after.rows &&
            after.rows[id] == before.rows[id].(status := Failed, container := NO_CONTAINER)
    ensures after.rows.Keys == before.rows.Keys &&
            forall j :: j in before.rows && j != id && Some(j) != pick ==> after.rows[j] == before.rows[j]
    ensures pick.Some? ==> pick.value in before.rows && pick.value != id &&
                           after.rows[pick.value] == before.rows[pick.value].(status := Building)
    ensures p.create.Passes? || !p.made ==> after.containers == before.containers
    ensures p.upload.Passes? || !p.stored ==>
              after.templates == before.templates || after.templates == before.templates - {name}
    ensures AfterUpload(Halts(before.rows, id, p)) ==> name !in after.templates
    ensures after.production == before.production
  {
    RowFails(cfg, before.rows, id, p, now, pick, after.rows);
    RunReplayed(before.containers, before.rows, id, p);
    NothingLeft(before.rows, id, p);
    hide RunCalls, Replayed, Outcome, LeavesContainer;
  }

  lemma RowFails(cfg: Config, t: Table, id: DeployId, p: Plan, now: Time, pick: Option<DeployId>, t': Table)
    requires id in t && PreActive(t[id].status) && !Conflicts(t, id, p) && Outcome(cfg, t, id, p, now, pick, t')
    requires Succeeds(p.cleanup) && Succeeds(p.lastCleanup)
    requires var h := Halts(t, id, p); h.Some? && h.value.point != AfterPromotion
    ensures id in t' && t'[id] == t[id].(status := Failed, container := NO_CONTAINER)
    ensures t'.Keys == t.Keys && forall j :: j in t && j != id && Some(j) != pick ==> t'[j] == t[j]
    ensures pick.Some? ==> pick.value in t && pick.value != id && t'[pick.value] == t[pick.value].(status := Building)
  {
    var h := Halts(t, id, p);
    assert h.value.point != AtClaim;
    var t1 := At(t, id, Failed, NO_CONTAINER);
    assert Handed(cfg, t1, t[id].env, pick, t');
    assert pick.Some? ==> pick.value in QueuedIn(t1, t[id].env);
  }

  lemma NothingLeft(t: Table, id: DeployId, p: Plan)
    requires id in t && Succeeds(p.cleanup) && Succeeds(p.lastCleanup) && p.deletion.Passes?
    requires var h := Halts(t, id, p); h.Some? && h.value.point != AfterPromotion
    ensures var h := Halts(t, id, p);
            !Raises(h, p) && (p.create.Passes? || !p.made ==> !LeavesContainer(h, p))
  {
  }

  /** Without assumptions on the cleanup calls: a run that stops early from a
      pre-active status leaves the deploy failed with its columns empty exactly
      when its claim met no conflict, it was not promoted yet, and removing the
      container after an expected failure did not itself break. */
  lemma EndsFailedIff(cfg: Config, t: Table, id: DeployId, p: Plan, now: Time, pick: Option<DeployId>, t': Table)
    requires id in t && PreActive(t[id].status) && Outcome(cfg, t, id, p, now, pick, t')
    requires Halts(t, id, p).Some?
    ensures var h := Halts(t, id, p);
            t'[id].status == Failed && t'[id].container == NO_CONTAINER <==>
            h.value.point != AtClaim && h.value.point != AfterPromotion &&
            !(!h.value.broken && AfterCreate(h) && !AlreadyRemoved(h, p) && Ended(p.lastCleanup, true).Breaks?)
  {
    var h, d := Halts(t, id, p), t[id];
    if h.value.point == AfterPromotion {
      var t1 := Promoted(t, id, p, now);
      assert pick.Some? ==> pick.value in QueuedIn(t1, d.env);
    } else if h.value.point != AtClaim && !HandlerRaises(h, p) {
      var t1 := At(t, id, Failed, NO_CONTAINER);
      assert pick.Some? ==> pick.value in QueuedIn(t1, d.env);
    }
  }

  /** After promotion there is no way back: an unexpected exception then leaves
      the deploy in service with its container destroyed and its columns empty. */
  lemma BrokenAfterPromotion(cfg: Config, before: World, id: DeployId, p: Plan, name: string, now: Time,
                             pick: Option<DeployId>, raised: bool, after: World)
    requires id in before.rows && Plausible(before, p) && Ran(cfg, before, id, p, name, now, pick, raised, after)
    requires Succeeds(p.lastCleanup) && p.deletion.Passes?
    requires Halts(before.rows, id, p) == Some(Halt(AfterPromotion, true))
    ensures var healthy := At(before.rows, id, Healthy, Full(p, before.rows[id].container));
            id in after.rows && after.rows[id].container == NO_CONTAINER &&
            after.rows[id].status == if NewerActive(healthy, id) then Superseded else Active
    ensures after.containers == before.containers && p.vmid !in after.containers
  {
    RowStaysInService(cfg, before.rows, id, p, now, pick, after.rows);
    ConfirmedCalls(before.rows, id, p);
    RunReplayed(before.containers, before.rows, id, p);
    assert !LeavesContainer(Halts(before.rows, id, p), p);
    hide RunCalls, Replayed, Outcome, LeavesContainer;
  }

  lemma RowStaysInService(cfg: Config, t: Table, id: DeployId, p: Plan, now: Time, pick: Option<DeployId>, t': Table)
    requires id in t && Outcome(cfg, t, id, p, now, pick, t') && p.deletion.Passes?
    requires Halts(t, id, p) == Some(Halt(AfterPromotion, true))
    ensures id in t' && t'[id].container == NO_CONTAINER
    ensures t'[id].status ==
            if NewerActive(At(t, id, Healthy, Full(p, t[id].container)), id) then Superseded else Active
  {
    var t1 := Promoted(t, id, p, now);
    assert pick.Some? ==> pick.value in QueuedIn(t1, t[id].env);
  }

  /** The race guard: right after a promotion the newest active deploy is this
      one exactly when the promotion really ended active. */
  lemma GuardAgreesWithPromotion(cfg: Config, t: Table, id: DeployId, now: Time, pick: Option<DeployId>,
                                 newest: Option<DeployId>)
    requires id in t && t[id].status != Active && ValidPick(cfg, Moved(t, id, Active, now), t[id].env, pick)
    requires NewestActive(PromoteNext(Moved(t, id, Active, now), pick), t[id].env, newest)
    ensures var t' := PromoteNext(Moved(t, id, Active, now), pick);
            id in t' && (newest == None || newest == Some(id) <==> t'[id].status == Active)
  {
    var t1 := Moved(t, id, Active, now);
    var t2 := PromoteNext(t1, pick);
    assert pick.Some? ==> pick.value in QueuedIn(t1, t[id].env);
    if NewerActive(t, id) {
      var j :| j in ActiveIn(t, t[id].env) && t[j].promotedAt.Some? && t[j].createdAt > t[id].createdAt;
      assert j in ActiveIn(t2, t[id].env);
    } else {
      assert ActiveIn(t2, t[id].env) == {id};
    }
  }

  /** With other handlers at work between the promotion and the query, starts
      excepted, the guard lets the route move exactly when no other deploy of the
      environment is active by then. */
  lemma GuardAfterOthers(cfg: Config, t: Table, evs: seq<Event>, e: Env, id: DeployId, newest: Option<DeployId>)
    requires Feasible(cfg, t, evs) && NoStart(evs) && AtMostOneActive(t, e)
    requires NewestActive(Final(cfg, t, evs), e, newest)
    ensures newest == None || newest == Some(id) <==> ActiveIn(Final(cfg, t, evs), e) <= {id}
  {
    RunKeepsOneActive(cfg, t, evs, e);
  }

  /** Whatever happened in between, also starts: a deploy of the environment that
      was promoted later and is active makes the guard refuse. */
  lemma GuardRefusesLater(t: Table, e: Env, id: DeployId, j: DeployId, newest: Option<DeployId>)
    requires NewestActive(t, e, newest) && j in ActiveIn(t, e) && j != id
    requires id in ActiveIn(t, e) ==>
               t[id].promotedAt.Some? && (t[j].promotedAt.None? || t[j].promotedAt.value > t[id].promotedAt.value)
    ensures newest.Some? && newest != Some(id)
  {
    if newest == Some(id) {
      assert false;
    }
  }

  /** So a deploy of the environment that is started in between is noticed. */
  lemma GuardNoticesStart(cfg: Config, t: Table, e: Env, id: DeployId, j: DeployId, now: Time, newest: Option<DeployId>)
    requires j in t && t[j].env == e && j != id && StartAccepted(t, j, true)
    requires id in ActiveIn(t, e) ==> t[id].promotedAt.Some? && t[id].promotedAt.value < now
    requires NewestActive(Apply(cfg, t, Start(j, now, true)), e, newest)
    ensures newest.Some? && newest != Some(id)
  {
    var t' := Apply(cfg, t, Start(j, now, true));
    assert t' == Activate(t, j, now) && j in ActiveIn(t', e);
    hide NewestActive;
    GuardRefusesLater(t', e, id, j, newest);
  }

  /** A deploy stopped in between is not noticed when it was the only active one:
      the route is moved to it all the same. */
  lemma GuardMissesStop(cfg: Config, t: Table, e: Env, id: DeployId, newest: Option<DeployId>)
    requires ActiveIn(t, e) == {id} && NewestActive(Apply(cfg, t, Stop(id, true)), e, newest)
    ensures newest == None && Apply(cfg, t, Stop(id, true))[id].status == Stopped
  {
    var t' := Apply(cfg, t, Stop(id, true));
    assert id in ActiveIn(t, e) && t' == SetStatus(t, id, Stopped);
    assert forall j :: j in ActiveIn(t', e) ==> j in ActiveIn(t, e);
  }
}
