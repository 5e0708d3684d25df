/** The deploy executor: one run takes a deploy through its stages, changing the
    deploys table, the cluster and the attempt's own context as it goes, and
    cleans up behind itself when a stage fails. No other writer runs meanwhile. */
module DeployExecutor {
  import opened Common
  import opened DeployModel
  import opened FlatIp
  import opened ExecutorModel
  import Store = DeployStore

  lemma HealthyRow(t: Table, id: DeployId)
    requires id in t
    ensures var t1 := SetStatus(t, id, Healthy); id in t1 && t1[id].env == t[id].env && t1[id].status == Healthy
  {
  }

  class DeployExecutor {
    const store: Store.DeployStore
    /** What the table returns to when the session is abandoned. */
    var committed: Table
    var containers: set<nat>
    var templates: set<string>
    /** The deploy that each project's production route leads to. */
    var production: map<nat, DeployId>
    /** What has been asked of the cluster about the attempt's container. */
    ghost var calls: seq<ClusterCall>

    // The attempt's context.
    var ip: Option<string>
    var port: nat
    var node: Option<string>
    var vmid: Option<nat>
    var createdByAttempt: bool
    var uploaded: bool

    constructor (store: Store.DeployStore)
      ensures this.store == store && containers == {} && templates == {} && production == map[] && calls == []
    {
      this.store := store;
      committed := store.rows;
      containers, templates, production, calls := {}, {}, map[], [];
      ip, port, node, vmid, createdByAttempt, uploaded := None, 3000, None, None, false, false;
    }

    ghost function State(): World
      reads this, store
    {
      World(store.rows, containers, templates, production, calls)
    }

    method Commit()
      modifies this`committed
      ensures committed == store.rows
    {
      committed := store.rows;
    }

    method SetContainer(id: DeployId, c: Container)
      requires id in store.rows
      modifies store`rows
      ensures store.rows == At(old(store.rows), id, old(store.rows)[id].status, c)
    {
      store.TrackContainer(id, c);
    }

    // ------------------------------------------------------------ steps 1 and 2

    /** Walks the deploy through the statuses that remain before provisioning. */
    method AdvanceToProvisioning(id: DeployId, now: Time)
      requires id in store.rows && Startable(store.rows[id].status)
      modifies store`rows
      ensures store.rows == At(old(store.rows), id, Provisioning, old(store.rows)[id].container)
    {
      var steps := [Building, ArtifactReady, Provisioning];
      ghost var t := store.rows;
      for k := 0 to 3
        invariant id in store.rows && store.rows == At(t, id, store.rows[id].status, t[id].container)
        invariant Startable(store.rows[id].status)
        invariant k >= 1 ==> store.rows[id].status != Queued
        invariant k >= 2 ==> store.rows[id].status != Building
        invariant k >= 3 ==> store.rows[id].status != ArtifactReady
      {
        if CanTransition(store.rows[id].status, steps[k]) {
          var _, _ := store.TransitionDeploy(id, steps[k], now);
        }
      }
    }

    /** Records the claim; a commit that the index refuses is undone. */
    method ClaimAddress(id: DeployId, address: string) returns (conflict: bool)
      requires id in store.rows && store.rows[id].status == Provisioning && committed == store.rows
      modifies this`committed, store`rows
      ensures conflict <==> ClaimedElsewhere(old(store.rows), id, address)
      ensures var c := old(store.rows)[id].container;
              store.rows == if conflict then old(store.rows)
                            else At(old(store.rows), id, Provisioning, c.(ip := Some(address)))
      ensures committed == store.rows
    {
      ConflictsElsewhere(store.rows, At(store.rows, id, Provisioning, store.rows[id].container.(ip := Some(address))),
                         id, address);
      SetContainer(id, store.rows[id].container.(ip := Some(address)));
      var others := set j |
        j in store.rows && j != id && InFilter(store.rows[j]) && store.rows[j].container.ip.value == address;
      conflict := others != {};
      assert forall j :: j in others <==>
                         j in store.rows && j != id && InFilter(store.rows[j]) &&
                         store.rows[j].container.ip.value == address;
      if conflict {
        var j :| j in others;
        store.rows := committed;
      } else {
        Commit();
      }
    }

    method Prepare(id: DeployId, p: Plan, now: Time) returns (h: Option<Halt>)
      requires id in store.rows && committed == store.rows
      modifies this`committed, this`ip, store`rows
      ensures h == PrepareHalt(old(store.rows), id, p)
      ensures var t, c := old(store.rows), old(store.rows)[id].container;
              store.rows == if h.None? then At(t, id, Provisioning, WithClaim(p, c))
                            else if h.value.point == AtTransition then t
                            else At(t, id, Provisioning, c)
      ensures committed == store.rows
      ensures h.None? ==> ip == AddressOf(p)
    {
      var status := store.rows[id].status;
      if status == Queued || status == Building || status == ArtifactReady {
        AdvanceToProvisioning(id, now);
      } else if status != Provisioning {
        return Some(Halt(AtTransition, false));
      }
      Commit();
      h := None;
      match p.network {
        case NoNetwork(broken) =>
          h := Some(Halt(AtNetwork, broken));
        case Flat(address) =>
          ip := Some(address);
          ConflictsElsewhere(old(store.rows), store.rows, id, address);
          var conflict := ClaimAddress(id, address);
          if conflict {
            h := Some(Halt(AtClaim, true));
          }
        case Leased(address) =>
          ip := address;
      }
    }

    // ------------------------------------------------------------- steps 3 to 8

    method BuildAndUpload(id: DeployId, p: Plan, name: string) returns (h: Option<Halt>)
      requires id in store.rows && store.rows[id].status == Provisioning && !uploaded
      modifies this`templates, this`port, this`node, this`uploaded, store`rows
      ensures h == ImageHalt(p)
      ensures id in store.rows && store.rows == At(old(store.rows), id, Provisioning, store.rows[id].container)
      ensures h.None? ==>
                store.rows[id].container == old(store.rows)[id].container.(port := Some(p.port)) && port == p.port &&
                node == Some(p.node)
      ensures uploaded == h.None?
      ensures templates == old(templates) + if h.None? || (h.value.point == AtUpload && p.stored) then {name} else {}
    {
      h := None;
      if !p.convert.Passes? {
        return Some(Halt(AtConvert, p.convert.Breaks?));
      }
      port := p.port;
      SetContainer(id, store.rows[id].container.(port := Some(port)));
      if !p.installed {
        return Some(Halt(AtInstall, true));
      }
      if p.secrets.Breaks? {
        return Some(Halt(AtSecrets, true));
      }
      if !p.tarball.Passes? {
        return Some(Halt(AtTarball, p.tarball.Breaks?));
      }
      if !p.schedule.Passes? {
        return Some(Halt(AtSchedule, p.schedule.Breaks?));
      }
      node := Some(p.node);
      if p.upload.Passes? || p.stored {
        templates := templates + {name};
      }
      if !p.upload.Passes? {
        return Some(Halt(AtUpload, p.upload.Breaks?));
      }
      uploaded := true;
    }

    // ------------------------------------------------------------ steps 9 to 11

    method MakeContainer(id: DeployId, p: Plan) returns (h: Option<Halt>)
      requires id in store.rows && node == Some(p.node) && vmid == None && !createdByAttempt
      modifies this`committed, this`containers, this`calls, this`vmid, this`createdByAttempt, store`rows
      ensures h == ContainerHalt(p) && calls == old(calls) + CreationCalls(p)
      ensures createdByAttempt == AfterCreate(h) && (createdByAttempt ==> vmid == Some(p.vmid) && p.create.Passes?)
      ensures containers == old(containers) +
                            if createdByAttempt || (h == Some(Halt(AtCreate, p.create.Breaks?)) && p.made)
                            then {p.vmid} else {}
      ensures var full := At(old(store.rows), id, old(store.rows)[id].status,
                             old(store.rows)[id].container.(vmid := Some(p.vmid), node := Some(p.node)));
              if h.None? || h.value.point == AtStart then store.rows == full && committed == full
              else store.rows == old(store.rows) && committed == old(committed)
    {
      h := None;
      if !p.numbered {
        return Some(Halt(AtNumber, true));
      }
      vmid := Some(p.vmid);
      calls := calls + [CreateLxc(p.create.Passes? || p.made)];
      if p.create.Passes? || p.made {
        containers := containers + {p.vmid};
      }
      if !p.create.Passes? {
        return Some(Halt(AtCreate, p.create.Breaks?));
      }
      createdByAttempt := true;
      calls := calls + [ProveOwned(p.owned)];
      if !p.owned.Passes? {
        return Some(Halt(AtOwnership, p.owned.Breaks?));
      }
      SetContainer(id, store.rows[id].container.(vmid := vmid, node := node));
      Commit();
      if !p.start.Passes? {
        return Some(Halt(AtStart, p.start.Breaks?));
      }
    }

    /** Removes the attempt's container: proves it is the attempt's own, stops
        it, proves it again, destroys it. */
    method RemoveContainer(c: Cleanup, tolerant: bool) returns (ended: Stage)
      requires vmid.Some?
      modifies this`containers, this`calls
      ensures ended == Ended(c, tolerant) && calls == old(calls) + RemovalCalls(c, tolerant)
      ensures containers == old(containers) - if Destroys(c, tolerant) then {vmid.value} else {}
    {
      calls := calls + [ProveOwned(c.owned)];
      if !c.owned.Passes? {
        return c.owned;
      }
      calls := calls + [StopLxc(c.stop)];
      if c.stop.Breaks? || (c.stop.Fails? && !tolerant) {
        return c.stop;
      }
      calls := calls + [ProveOwned(c.ownedAgain)];
      if !c.ownedAgain.Passes? {
        return c.ownedAgain;
      }
      calls := calls + [DestroyLxc(c.gone)];
      if c.gone {
        containers := containers - {vmid.value};
      }
      ended := c.destroy;
    }

    // ------------------------------------------------------------------ step 13

    method CheckHealth(p: Plan) returns (h: Option<Halt>)
      requires vmid == Some(p.vmid) && p.vmid != 0 && node == Some(p.node) && p.node != "" && createdByAttempt
      requires ip == AddressOf(p)
      modifies this`containers, this`calls, this`vmid
      ensures h == HealthHalt(p) && calls == old(calls) + HealthCalls(h, p)
      ensures vmid == if AlreadyRemoved(h, p) then None else Some(p.vmid)
      ensures containers ==
              old(containers) - if h.Some? && p.check.Fails? && Destroys(p.cleanup, true) then {p.vmid} else {}
    {
      h := None;
      if ip.None? || ip.value == "" || p.check.Passes? {
        return;
      }
      if p.check.Breaks? {
        return Some(Halt(AtHealth, true));
      }
      var ended := RemoveContainer(p.cleanup, true);
      if ended.Breaks? {
        return Some(Halt(AtHealth, true));
      }
      if ended.Passes? {
        vmid := None;
      }
      h := Some(Halt(AtHealth, p.existing && p.restart.Breaks?));
    }

    // ----------------------------------------------------------- steps 14 and 15

    method SelectNewestActive(e: Env) returns (newest: Option<DeployId>)
      ensures NewestActive(store.rows, e, newest)
    {
      var t := store.rows;
      var active := ActiveIn(t, e);
      var remaining := active;
      newest := None;
      while remaining != {}
        invariant remaining <= active
        invariant newest.None? ==> remaining == active
        invariant newest.Some? ==> newest.value in active
        invariant newest.Some? ==>
                    forall j :: j in active - remaining ==> NoLaterThan(t[newest.value].promotedAt, t[j].promotedAt)
        decreases remaining
      {
        var i :| i in remaining;
        remaining := remaining - {i};
        if newest.None? || !NoLaterThan(t[newest.value].promotedAt, t[i].promotedAt) {
          newest := Some(i);
        }
      }
    }

    /** Provisioning, healthy, active, each committed. */
    method PromoteRow(id: DeployId, now: Time) returns (pick: Option<DeployId>)
      requires id in store.rows && store.rows[id].status == Provisioning
      modifies this`committed, store`rows
      ensures var t1 := Moved(SetStatus(old(store.rows), id, Healthy), id, Active, now);
              Handed(store.cfg, t1, old(store.rows)[id].env, pick, store.rows)
      ensures committed == store.rows
    {
      ghost var t := store.rows;
      var _, _ := store.TransitionDeploy(id, Healthy, now);
      assert store.rows == SetStatus(t, id, Healthy);
      Commit();
      var _, picked := store.TransitionDeploy(id, Active, now);
      pick := picked;
      Commit();
    }

    method Promote(id: DeployId, p: Plan, now: Time) returns (h: Option<Halt>, pick: Option<DeployId>)
      requires id in store.rows && store.rows[id].status == Provisioning && port == p.port
      requires ip == AddressOf(p)
      modifies this`committed, this`production, store`rows
      ensures h == PromotionHalt(p)
      ensures var t1 := Moved(SetStatus(old(store.rows), id, Healthy), id, Active, now);
              Handed(store.cfg, t1, old(store.rows)[id].env, pick, store.rows)
      ensures committed == store.rows && id in store.rows
      ensures production == if Routes(p) && store.rows[id].status == Active
                            then old(production)[old(store.rows)[id].env.project := id] else old(production)
    {
      hide Moved, ValidPick, NewestActive, SetStatus;
      ghost var t := store.rows;
      var e := store.rows[id].env;
      pick := PromoteRow(id, now);
      HealthyRow(t, id);
      var newest := SelectNewestActive(e);
      GuardAgreesWithPromotion(store.cfg, SetStatus(t, id, Healthy), id, now, pick, newest);
      h := None;
      if p.existing && p.stopOld.Breaks? {
        return Some(Halt(AfterPromotion, true)), pick;
      }
      if ip.Some? && ip.value != "" && port != 0 {
        if p.routing.Breaks? {
          return Some(Halt(AfterPromotion, true)), pick;
        }
        if p.routing.Passes? && (newest == None || newest == Some(id)) && p.production {
          production := production[e.project := id];
        }
      }
    }

    // ----------------------------------------------------------------- handlers

    /** Fails the deploy and clears its columns. A deploy that cannot be failed
        keeps its status. */
    method FailDeploy(id: DeployId, now: Time) returns (pick: Option<DeployId>)
      requires id in store.rows
      modifies this`committed, store`rows
      ensures var t, d := old(store.rows), old(store.rows)[id];
              if CanTransition(d.status, Failed)
              then Handed(store.cfg, At(t, id, Failed, NO_CONTAINER), d.env, pick, store.rows) &&
                   committed == store.rows
              else pick == None && store.rows == At(t, id, d.status, NO_CONTAINER) && committed == old(committed)
    {
      SetContainer(id, NO_CONTAINER);
      assert CanTransition(old(store.rows)[id].status, Failed) ==>
               Moved(store.rows, id, Failed, now) == At(old(store.rows), id, Failed, NO_CONTAINER);
      var ok, picked := store.TransitionDeploy(id, Failed, now);
      pick := picked;
      if ok {
        Commit();
      }
    }

    /** The handler that matches the exception, entered with the session intact
        unless the claim was refused. */
    method Handle(id: DeployId, h: Halt, p: Plan, now: Time) returns (raised: bool, pick: Option<DeployId>)
      requires id in store.rows && committed.Keys == store.rows.Keys
      requires createdByAttempt ==> node == Some(p.node) && p.node != "" && p.vmid != 0 && vmid in {None, Some(p.vmid)}
      modifies this`committed, this`containers, this`calls, store`rows
      ensures calls ==
              old(calls) + if createdByAttempt && vmid.Some? then RemovalCalls(p.lastCleanup, !h.broken) else []
      ensures var runs := createdByAttempt && vmid.Some?;
              raised == (!h.broken && runs && Ended(p.lastCleanup, true).Breaks?) &&
              containers == old(containers) - if runs && Destroys(p.lastCleanup, !h.broken) then {p.vmid} else {}
      ensures Handled(store.cfg, old(store.rows), old(committed), id, h, raised, pick, store.rows, committed)
    {
      raised, pick := false, None;
      if createdByAttempt && vmid.Some? && vmid.value != 0 && node.Some? && node.value != "" {
        var ended := RemoveContainer(p.lastCleanup, !h.broken);
        if ended.Breaks? && !h.broken {
          return true, None;
        }
      }
      if h.point != AtClaim {
        pick := FailDeploy(id, now);
      }
    }

    /** Deletes the template whatever happened; only its own errors are caught. */
    method DeleteTemplate(p: Plan, name: string) returns (raised: bool)
      requires uploaded ==> node == Some(p.node) && p.node != ""
      modifies this`templates
      ensures raised == (uploaded && p.deletion.Breaks?)
      ensures templates == old(templates) - if uploaded && (p.deletion.Passes? || p.deleted) then {name} else {}
    {
      raised := false;
      if uploaded && node.Some? && node.value != "" {
        if p.deletion.Passes? || p.deleted {
          templates := templates - {name};
        }
        raised := p.deletion.Breaks?;
      }
    }

    // ------------------------------------------------------------------ the run

    /** The session as its caller leaves it: committed on return, abandoned when
        an exception escapes. */
    method CloseSession(raised: bool)
      modifies this`committed, store`rows
      ensures store.rows == if raised then old(committed) else old(store.rows)
      ensures committed == store.rows
    {
      if raised {
        store.rows := committed;
      }
      Commit();
    }

    /** The stages up to uploading the template. */
    method RunToUpload(id: DeployId, p: Plan, name: string, now: Time) returns (h: Option<Halt>)
      requires id in store.rows && committed == store.rows && !uploaded
      modifies this`committed, this`ip, this`port, this`node, this`templates, this`uploaded, store`rows
      ensures h == Or(PrepareHalt(old(store.rows), id, p), ImageHalt(p))
      ensures h.Some? ==> Reached(store.cfg, old(store.rows), id, p, now, h, None, store.rows, committed)
      ensures h.None? ==>
                var t, c := old(store.rows), WithClaim(p, old(store.rows)[id].container);
                store.rows == At(t, id, Provisioning, c.(port := Some(p.port))) &&
                committed == At(t, id, Provisioning, c)
      ensures h.None? ==>
                port == p.port && ip == AddressOf(p)
      ensures uploaded == h.None? && (uploaded ==> node == Some(p.node))
      ensures templates == old(templates) + if h.None? || (h.value.point == AtUpload && p.stored) then {name} else {}
    {
      hide PrepareHalt, ImageHalt, Handed, Promoted, Conflicts;
      h := Prepare(id, p, now);
      if h.None? {
        h := BuildAndUpload(id, p, name);
      }
    }

    /** The stages up to starting the container. */
    method RunToStart(id: DeployId, p: Plan, name: string, now: Time) returns (h: Option<Halt>)
      requires id in store.rows && committed == store.rows
      requires vmid == None && !createdByAttempt && !uploaded
      modifies this, store`rows
      ensures h == EarlyHalt(old(store.rows), id, p) && calls == old(calls) + StageCalls(h, p)
      ensures h.Some? ==> Reached(store.cfg, old(store.rows), id, p, now, h, None, store.rows, committed)
      ensures h.None? ==>
                store.rows == At(old(store.rows), id, Provisioning, Full(p, old(store.rows)[id].container)) &&
                committed == store.rows
      ensures h.None? ==>
                port == p.port && ip == AddressOf(p)
      ensures createdByAttempt == AfterCreate(h) && uploaded == AfterUpload(h)
      ensures createdByAttempt || uploaded ==> node == Some(p.node)
      ensures createdByAttempt ==> vmid == Some(p.vmid) && p.create.Passes?
      ensures containers == old(containers) +
                if (if h == Some(Halt(AtCreate, p.create.Breaks?)) then p.made else AfterCreate(h))
                then {p.vmid} else {}
      ensures templates == old(templates) +
                if AfterUpload(h) || (h.value.point == AtUpload && p.stored) then {name} else {}
      ensures production == old(production)
    {
      hide PrepareHalt, ImageHalt, ContainerHalt, Handed, Promoted, Ended, Destroys, Moved, ValidPick, Conflicts;
      h := RunToUpload(id, p, name, now);
      if h.None? {
        h := MakeContainer(id, p);
      }
    }

    /** The stages, up to where one stops the run. */
    method RunStages(id: DeployId, p: Plan, name: string, now: Time) returns (h: Option<Halt>, pick: Option<DeployId>)
      requires id in store.rows && committed == store.rows
      requires vmid == None && !createdByAttempt && !uploaded
      requires p.vmid != 0 && p.node != ""
      requires p.vmid in containers ==> !p.create.Passes? && !p.made
      modifies this, store`rows
      ensures h == Halts(old(store.rows), id, p) && calls == old(calls) + (StageCalls(h, p) + HealthCalls(h, p))
      ensures Reached(store.cfg, old(store.rows), id, p, now, h, pick, store.rows, committed)
      ensures createdByAttempt == AfterCreate(h) && uploaded == AfterUpload(h)
      ensures createdByAttempt || uploaded ==> node == Some(p.node)
      ensures createdByAttempt ==> p.create.Passes? && vmid == if AlreadyRemoved(h, p) then None else Some(p.vmid)
      ensures containers == old(containers) +
                if (if h == Some(Halt(AtCreate, p.create.Breaks?)) then p.made else AfterCreate(h)) &&
                   !(h.Some? && h.value.point == AtHealth && p.check.Fails? && Destroys(p.cleanup, true))
                then {p.vmid} else {}
      ensures templates == old(templates) +
                if AfterUpload(h) || (h.value.point == AtUpload && p.stored) then {name} else {}
      ensures production == if Routes(p) && (h.None? || h.value.point == AfterPromotion) &&
                               id in store.rows && store.rows[id].status == Active
                            then old(production)[old(store.rows)[id].env.project := id] else old(production)
    {
      hide EarlyHalt, HealthHalt, PromotionHalt, Ended, Routes, Destroys, Moved, ValidPick, PromoteNext, Full;
      pick := None;
      h := RunToStart(id, p, name, now);
      if h.Some? {
        return;
      }
      h := CheckHealth(p);
      if h.Some? {
        return;
      }
      assert SetStatus(store.rows, id, Healthy) ==
             At(old(store.rows), id, Healthy, Full(p, old(store.rows)[id].container));
      h, pick := Promote(id, p, now);
    }

    /** Enters the matching handler when a stage stopped the run. */
    method Recover(id: DeployId, h: Option<Halt>, reachedPick: Option<DeployId>, p: Plan, now: Time, ghost t: Table)
      returns (raised: bool, pick: Option<DeployId>)
      requires id in t && h == Halts(t, id, p)
      requires Reached(store.cfg, t, id, p, now, h, reachedPick, store.rows, committed)
      requires createdByAttempt == AfterCreate(h)
      requires createdByAttempt ==> node == Some(p.node) && p.node != "" && p.vmid != 0
      requires createdByAttempt ==> vmid == if AlreadyRemoved(h, p) then None else Some(p.vmid)
      modifies this`committed, this`containers, this`calls, store`rows
      ensures raised == HandlerRaises(h, p) && calls == old(calls) + HandlerCalls(h, p)
      ensures Outcome(store.cfg, t, id, p, now, pick, if Raises(h, p) then committed else store.rows)
      ensures containers == old(containers) -
                if LastCleanupRuns(h, p) && Destroys(p.lastCleanup, !h.value.broken) then {p.vmid} else {}
      ensures id in old(store.rows)
      ensures h.None? || h.value.point == AfterPromotion ==>
                var t' := if Raises(h, p) then committed else store.rows;
                id in t' && t'[id].status == old(store.rows)[id].status
    {
      hide Halts, Reached, Outcome, Ended, Destroys, Handed, CanTransition, At, Handled, PreActive, Promoted;
      raised, pick := false, reachedPick;
      ghost var reached, kept := store.rows, committed;
      ReachedKeys(store.cfg, t, id, p, now, h, pick, reached, kept);
      if h.None? {
        ReachedEnd(store.cfg, t, id, p, now, pick, reached, kept);
        return;
      }
      var handlerRaised, handlerPick := Handle(id, h.value, p, now);
      raised := handlerRaised;
      if h.value.point == AfterPromotion {
        HandledLate(store.cfg, t, id, p, now, h.value, reached, kept, pick, handlerPick, store.rows, committed);
      } else {
        ReachedEarly(store.cfg, t, id, p, now, h, pick, reached, kept);
        pick := handlerPick;
        HandledEarly(store.cfg, t, id, p, now, h.value, reached, kept, pick, store.rows, committed);
      }
    }

    /** The stages and, if one stops the run, its handler. */
    method Attempt(id: DeployId, p: Plan, name: string, now: Time) returns (raised: bool, pick: Option<DeployId>)
      requires id in store.rows && committed == store.rows
      requires vmid == None && !createdByAttempt && !uploaded
      requires p.vmid != 0 && p.node != ""
      requires p.vmid in containers ==> !p.create.Passes? && !p.made
      modifies this, store`rows
      ensures var h := Halts(old(store.rows), id, p);
              raised == HandlerRaises(h, p) && calls == old(calls) + RunCalls(h, p) &&
              containers == old(containers) + (if LeavesContainer(h, p) then {p.vmid} else {}) &&
              uploaded == AfterUpload(h) && (uploaded ==> node == Some(p.node)) &&
              templates ==
                old(templates) + (if AfterUpload(h) || (h.value.point == AtUpload && p.stored) then {name} else {})
      ensures var h := Halts(old(store.rows), id, p);
              var t' := if Raises(h, p) then committed else store.rows;
              Outcome(store.cfg, old(store.rows), id, p, now, pick, t') &&
              production == if Routes(p) && (h.None? || h.value.point == AfterPromotion) &&
                               id in t' && t'[id].status == Active
                            then old(production)[old(store.rows)[id].env.project := id] else old(production)
    {
      hide Halts, Reached, Outcome, Ended, Routes, Destroys, HandlerRaises, AlreadyRemoved, StageCalls, HealthCalls,
           HandlerCalls;
      ghost var t := store.rows;
      var h, reachedPick := RunStages(id, p, name, now);
      var handlerRaised, endPick := Recover(id, h, reachedPick, p, now, t);
      raised, pick := handlerRaised, endPick;
    }

    /** One run, from a fresh context. Proxmox numbers containers from 100, names
        its nodes, and refuses to create a container whose number is taken. */
    method ExecuteDeploy(id: DeployId, p: Plan, name: string, now: Time) returns (raised: bool, pick: Option<DeployId>)
      requires id in store.rows && committed == store.rows
      requires vmid == None && !createdByAttempt && !uploaded
      requires p.vmid != 0 && p.node != ""
      requires Plausible(State(), p)
      modifies this, store`rows
      ensures Ran(store.cfg, old(State()), id, p, name, now, pick, raised, State())
    {
      hide Halts, Reached, Outcome, Routes, HandlerRaises, LeavesContainer, RunCalls, Replayed;
      ghost var t, cs := store.rows, containers;
      var handlerRaised, endPick := Attempt(id, p, name, now);
      pick := endPick;
      var notDeleted := DeleteTemplate(p, name);
      raised := handlerRaised || notDeleted;
      CloseSession(raised);
      RunReplayed(cs, t, id, p);
    }
  }
}
