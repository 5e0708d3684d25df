/** What each lifecycle event does to every row, spelled out on the table before
    and after, and what short runs of them come to. */
module DeployLaws {
  import opened Common
  import opened DeployModel
  import opened DeployActive
  import opened DeployAccounting

  /** The status changes that are allowed. */
  const EDGES: set<(Status, Status)> := {
    (Queued, Building), (Queued, Failed), (Building, ArtifactReady), (Building, Failed),
    (ArtifactReady, Provisioning), (ArtifactReady, Failed), (Provisioning, Healthy), (Provisioning, Failed),
    (Healthy, Active), (Healthy, Failed), (Active, Superseded), (Active, RolledBack), (Active, Stopped),
    (Stopped, Active), (Stopped, RolledBack), (Failed, Queued), (Failed, RolledBack),
    (Superseded, Active), (Superseded, Stopped)
  }

  predicate Busy(d: Deploy, e: Env) {
    d.env == e && (d.status == Building || d.status == ArtifactReady || d.status == Provisioning || d.status == Healthy)
  }

  /** The deploys of the environment, but one, that take up a slot. */
  function BusyBut(t: Table, e: Env, id: DeployId): set<DeployId> {
    set j | j in t && j != id && Busy(t[j], e)
  }

  /** The deploys of the environment, but one, that wait for a slot. */
  function WaitingBut(t: Table, e: Env, id: DeployId): set<DeployId> {
    set j | j in t && j != id && t[j].env == e && t[j].status == Queued
  }

  /** Whom the queue lets go: with a slot free, one of those that have waited
      longest; without one, or with nobody waiting, nobody. */
  predicate Served(cfg: Config, t: Table, busy: set<DeployId>, waiting: set<DeployId>, pick: Option<DeployId>)
    requires waiting <= t.Keys
  {
    if |busy| >= cfg.maxConcurrent || waiting == {} then pick == None
    else pick.Some? && pick.value in waiting && forall j :: j in waiting ==> t[pick.value].createdAt <= t[j].createdAt
  }

  lemma EdgesAreTheTable(from: Status, to: Status)
    ensures CanTransition(from, to) <==> (from, to) in EDGES
  {
  }

  // ---------------------------------------------------------------- transitions

  /** A newer promoted deploy of the environment is active. */
  predicate Outrun(t: Table, id: DeployId)
    requires id in t
  {
    exists j :: j in t && t[j].env == t[id].env && t[j].status == Active && t[j].promotedAt != None &&
                t[j].createdAt > t[id].createdAt
  }

  /** The status asked for, unless that is active and a newer deploy is. */
  function Reached(t: Table, id: DeployId, target: Status): Status
    requires id in t
  {
    if target == Active && Outrun(t, id) then Superseded else target
  }

  predicate GivesUpItsSlot(s: Status) {
    s == Active || s == Failed || s == RolledBack || s == Superseded || s == Stopped
  }

  lemma ReachedIs(t: Table, id: DeployId, target: Status)
    requires id in t
    ensures Effective(t, id, target) == Reached(t, id, target)
    ensures Frees(Reached(t, id, target)) <==> GivesUpItsSlot(Reached(t, id, target))
  {
    if Outrun(t, id) {
      var j :| j in t && t[j].env == t[id].env && t[j].status == Active && t[j].promotedAt != None &&
               t[j].createdAt > t[id].createdAt;
      assert j in ActiveIn(t, t[id].env);
    }
  }

  /** Outside the table of edges nothing happens. Along an edge the deploy changes
      status, is stamped if it became active, the others that were active are then
      superseded, and a slot it gives up goes to the queue. */
  lemma TransitionRows(cfg: Config, t: Table, id: DeployId, target: Status, now: Time, pick: Option<DeployId>)
    requires Allowed(cfg, t, Transition(id, target, now, pick))
    ensures var t' := Apply(cfg, t, Transition(id, target, now, pick));
            if id !in t || (t[id].status, target) !in EDGES then t' == t && pick == None
            else
              var d, reached := t[id], Reached(t, id, target);
              t'.Keys == t.Keys &&
              t'[id] == d.(status := reached, promotedAt := if reached == Active then Some(now) else d.promotedAt) &&
              (if GivesUpItsSlot(reached) then Served(cfg, t, BusyBut(t, d.env, id), WaitingBut(t, d.env, id), pick)
               else pick == None) &&
              forall j :: j in t && j != id ==>
                t'[j] == if reached == Active && t[j].env == d.env && t[j].status == Active
                         then t[j].(status := Superseded)
                         else if pick == Some(j) then t[j].(status := Building) else t[j]
  {
    if id in t {
      EdgesAreTheTable(t[id].status, target);
      if (t[id].status, target) in EDGES {
        ReachedIs(t, id, target);
        MovedRows(t, id, target, now);
        if GivesUpItsSlot(Reached(t, id, target)) {
          SlotAfterMove(t, id, target, now);
        }
        hide CanTransition, EDGES, Effective, Moved, Reached, Outrun, NewerActive, InProgress, QueuedIn;
      }
    }
  }

  lemma MovedRows(t: Table, id: DeployId, target: Status, now: Time)
    requires id in t && Effective(t, id, target) == Reached(t, id, target)
    ensures var t1, d, reached := Moved(t, id, target, now), t[id], Reached(t, id, target);
            t1.Keys == t.Keys &&
            t1[id] == d.(status := reached, promotedAt := if reached == Active then Some(now) else d.promotedAt) &&
            forall j :: j in t && j != id ==>
              t1[j] == if reached == Active && t[j].env == d.env && t[j].status == Active
                       then t[j].(status := Superseded) else t[j]
  {
    hide Reached, Effective;
  }

  /** Whoever gives up a slot leaves the others where they were. */
  lemma SlotAfterMove(t: Table, id: DeployId, target: Status, now: Time)
    requires id in t && Effective(t, id, target) == Reached(t, id, target) && GivesUpItsSlot(Reached(t, id, target))
    ensures var t1, e := Moved(t, id, target, now), t[id].env;
            InProgress(t1, e) == BusyBut(t, e, id) && QueuedIn(t1, e) == WaitingBut(t, e, id) &&
            forall j :: j in t ==> t1[j].createdAt == t[j].createdAt
  {
    MovedRows(t, id, target, now);
    hide Moved, Reached, Effective;
  }
  // ------------------------------------------------------------------- creation

  function NewRow(e: Env, s: Status, now: Time): Deploy {
    Deploy(e, s, now, None, Container(None, None, None, None))
  }

  /** A new deploy carries the time of its creation and nothing of a container. It
      fails when it fills the queue, and otherwise the queue may let somebody go,
      the new deploy included. */
  lemma CreateRows(cfg: Config, t: Table, id: DeployId, e: Env, now: Time, pick: Option<DeployId>)
    requires Allowed(cfg, t, Create(id, e, now, pick))
    ensures id !in t
    ensures |WaitingBut(t, e, id)| + 1 >= cfg.maxQueue ==>
              pick == None && Apply(cfg, t, Create(id, e, now, pick)) == t[id := NewRow(e, Failed, now)]
    ensures |WaitingBut(t, e, id)| + 1 < cfg.maxQueue ==>
              Served(cfg, t[id := NewRow(e, Queued, now)], BusyBut(t, e, id), WaitingBut(t, e, id) + {id}, pick) &&
              Apply(cfg, t, Create(id, e, now, pick)) == LetGo(t[id := NewRow(e, Queued, now)], pick)
  {
    var t1 := Inserted(t, id, e, now);
    SlotOnCreation(t, id, e, now);
    assert |WaitingBut(t, e, id) + {id}| == |WaitingBut(t, e, id)| + 1;
    if QueueFull(cfg, t1, e) {
      assert t1[id := NewRow(e, Failed, now)] == t[id := NewRow(e, Failed, now)];
    } else {
      QueuePicks(cfg, t1, e, pick);
    }
    hide InProgress, QueuedIn, Inserted, WaitingBut, BusyBut, ValidPick, Served;
  }

  /** The deploy that the queue lets go starts building. */
  function LetGo(t: Table, pick: Option<DeployId>): Table {
    if pick.Some? && pick.value in t then t[pick.value := t[pick.value].(status := Building)] else t
  }

  lemma QueuePicks(cfg: Config, t: Table, e: Env, pick: Option<DeployId>)
    requires ValidPick(cfg, t, e, pick)
    ensures Served(cfg, t, InProgress(t, e), QueuedIn(t, e), pick) && PromoteNext(t, pick) == LetGo(t, pick)
  {
  }

  lemma SlotOnCreation(t: Table, id: DeployId, e: Env, now: Time)
    requires id !in t
    ensures var t1 := Inserted(t, id, e, now);
            t1 == t[id := NewRow(e, Queued, now)] &&
            InProgress(t1, e) == BusyBut(t, e, id) && QueuedIn(t1, e) == WaitingBut(t, e, id) + {id} &&
            id !in WaitingBut(t, e, id)
  {
  }

  // ----------------------------------------------------------- promote, rollback

  /** Promoted strictly later; a deploy never promoted comes last. */
  predicate Later(a: Option<Time>, b: Option<Time>) {
    a.Some? && (b.None? || a.value > b.value)
  }

  predicate HasAddressAndNumber(c: Container) {
    c.ip.Some? && c.ip.value != "" && c.vmid.Some? && c.vmid.value != 0
  }

  predicate HasNumberAndNode(c: Container) {
    c.vmid.Some? && c.vmid.value != 0 && c.node.Some? && c.node.value != ""
  }

  /** The deploy in production: of the project's active ones, one promoted last. */
  predicate InProduction(t: Table, project: nat, choice: Option<DeployId>) {
    if choice.Some? then
      choice.value in t && t[choice.value].env.project == project && t[choice.value].status == Active &&
      forall j :: j in t && t[j].env.project == project && t[j].status == Active ==>
        !Later(t[j].promotedAt, t[choice.value].promotedAt)
    else forall j :: j in t && t[j].env.project == project ==> t[j].status != Active
  }

  lemma ProductionIs(t: Table, project: nat, choice: Option<DeployId>)
    ensures IsProduction(t, project, choice) <==> InProduction(t, project, choice)
  {
    var candidates := set i | i in t && t[i].env.project == project && t[i].status == Active;
    assert candidates == {} <==> forall j :: j in t ==> j !in candidates;
  }

  /** Promoting makes an active or superseded deploy with a container, that is not
      in production yet, the only active one of its environment. */
  lemma PromoteRows(cfg: Config, t: Table, id: DeployId, now: Time, production: Option<DeployId>, routed: bool)
    requires Allowed(cfg, t, Promote(id, now, production, routed))
    ensures var t' := Apply(cfg, t, Promote(id, now, production, routed));
            if id in t && (t[id].status == Active || t[id].status == Superseded) &&
               HasAddressAndNumber(t[id].container) && production != Some(id) && routed
            then
              t'.Keys == t.Keys && t'[id] == t[id].(status := Active, promotedAt := Some(now)) &&
              forall j :: j in t && j != id ==>
                t'[j] == if t[j].env == t[id].env && t[j].status == Active then t[j].(status := Superseded) else t[j]
            else t' == t
    ensures id in t ==> InProduction(t, t[id].env.project, production)
  {
    if id in t {
      ProductionIs(t, t[id].env.project, production);
    }
    hide IsProduction, InProduction;
  }

  /** A deploy that a rollback of `id` may return to. */
  predicate MayReturn(t: Table, id: DeployId, j: DeployId)
    requires id in t
  {
    j in t && j != id && t[j].env == t[id].env && (t[j].status == Superseded || t[j].status == Stopped) &&
    t[j].container.vmid.Some? && t[j].container.ip.Some?
  }

  /** Rolling back an active deploy supersedes it. If another deploy of the
      environment has a container and is superseded or stopped, one of these is
      active after, and it is one promoted last and, among those, created last. */
  lemma RollbackRows(cfg: Config, t: Table, id: DeployId, now: Time, previous: Option<DeployId>)
    requires Allowed(cfg, t, Rollback(id, now, previous))
    ensures var t' := Apply(cfg, t, Rollback(id, now, previous));
            if id !in t || t[id].status != Active then t' == t
            else
              t'.Keys == t.Keys && t'[id] == t[id].(status := Superseded) &&
              (previous == None <==> forall j :: j in t ==> !MayReturn(t, id, j)) &&
              (previous.Some? ==>
                MayReturn(t, id, previous.value) &&
                t'[previous.value] == t[previous.value].(status := Active, promotedAt := Some(now)) &&
                forall j :: MayReturn(t, id, j) ==>
                  !Later(t[j].promotedAt, t[previous.value].promotedAt) &&
                  !(t[j].promotedAt == t[previous.value].promotedAt && t[j].createdAt > t[previous.value].createdAt)) &&
              forall j :: j in t && j != id && previous != Some(j) ==> t'[j] == t[j]
  {
    if id in t {
      assert forall j :: j in RollbackCandidates(t, id) <==> MayReturn(t, id, j);
      hide RollbackCandidates, MayReturn;
    }
  }

  // ------------------------------------------------ stop, start, destroy, the sweep

  lemma StopRows(cfg: Config, t: Table, id: DeployId, confirmed: bool)
    ensures Apply(cfg, t, Stop(id, confirmed)) ==
            if id in t && (t[id].status == Active || t[id].status == Superseded) &&
               (HasNumberAndNode(t[id].container) ==> confirmed)
            then t[id := t[id].(status := Stopped)] else t
  {
  }

  /** The containers of the project that are running. */
  function Running(t: Table, project: nat): set<DeployId> {
    set j | j in t && t[j].env.project == project && (t[j].status == Active || t[j].status == Superseded) &&
            t[j].container.vmid.Some?
  }

  /** A start is refused once three containers of the project are running. */
  lemma StartRows(cfg: Config, t: Table, id: DeployId, now: Time, started: bool)
    ensures Apply(cfg, t, Start(id, now, started)) ==
            if id in t && t[id].status == Stopped && |Running(t, t[id].env.project)| < 3 &&
               HasNumberAndNode(t[id].container) && started
            then t[id := t[id].(status := Active, promotedAt := Some(now))] else t
  {
    if id in t {
      assert Running(t, t[id].env.project) == RunningIn(t, t[id].env.project);
    }
  }

  /** A destroy counts when the container is proved gone or the row never had one
      and is at no stage that has one. */
  lemma DestroyRows(cfg: Config, t: Table, id: DeployId, tornDown: bool)
    ensures Apply(cfg, t, Destroy(id, tornDown)) ==
            if id in t && t[id].status != RolledBack &&
               (if HasNumberAndNode(t[id].container) then tornDown
                else (t[id].container.vmid == None || t[id].container.vmid == Some(0)) &&
                     t[id].status != Provisioning && t[id].status != Healthy && t[id].status != Active &&
                     t[id].status != Superseded && t[id].status != Stopped)
            then t[id := t[id].(status := RolledBack)] else t
  {
  }

  /** A sweep fails exactly the deploys that are in progress, were created more
      than 1800 seconds ago and are not locked, and clears their columns. */
  lemma SweepRows(cfg: Config, t: Table, now: Time, skipped: set<DeployId>)
    ensures var t' := Apply(cfg, t, Sweep(now, skipped));
            t'.Keys == t.Keys &&
            forall j :: j in t ==>
              t'[j] == if Busy(t[j], t[j].env) && now - t[j].createdAt > 1800 && j !in skipped
                       then t[j].(status := Failed, container := Container(None, None, None, None)) else t[j]
  {
  }

  lemma TrackRows(cfg: Config, t: Table, id: DeployId, c: Container)
    requires id in t
    ensures Apply(cfg, t, Track(id, c)) == t[id := t[id].(container := c)]
  {
  }

  // ------------------------------------------------------------------ short runs

  lemma FirstEvent(cfg: Config, t: Table, evs: seq<Event>)
    requires evs != [] && Feasible(cfg, t, evs)
    ensures Allowed(cfg, t, evs[0]) &&
            var t1 := Apply(cfg, t, evs[0]);
            Feasible(cfg, t1, evs[1..]) && Final(cfg, t, evs) == Final(cfg, t1, evs[1..])
  {
    hide Allowed, Apply;
  }

  lemma ThreeEvents(cfg: Config, t: Table, x: Event, y: Event, z: Event)
    requires Feasible(cfg, t, [x, y, z])
    ensures Allowed(cfg, t, x) &&
            var t1 := Apply(cfg, t, x);
            Allowed(cfg, t1, y) &&
            var t2 := Apply(cfg, t1, y);
            Allowed(cfg, t2, z) && Final(cfg, t, [x, y, z]) == Apply(cfg, t2, z)
  {
    hide Allowed, Apply, Feasible, Final;
    FirstEvent(cfg, t, [x, y, z]);
    assert [x, y, z][1..] == [y, z] && [y, z][1..] == [z] && [z][1..] == [];
    var t1 := Apply(cfg, t, x);
    FirstEvent(cfg, t1, [y, z]);
    var t2 := Apply(cfg, t1, y);
    FirstEvent(cfg, t2, [z]);
    NoEvents(cfg, Apply(cfg, t2, z));
  }

  lemma NoEvents(cfg: Config, t: Table)
    ensures Feasible(cfg, t, []) && Final(cfg, t, []) == t
  {
  }

  /** What a healthy deploy that no newer one outruns does to the others when it
      becomes active: it supersedes, and the queue may move. */
  lemma HealthyWins(cfg: Config, t: Table, h: DeployId, now: Time, pick: Option<DeployId>)
    requires h in t && t[h].status == Healthy && !Outrun(t, h)
    requires Allowed(cfg, t, Transition(h, Active, now, pick))
    ensures var t' := Apply(cfg, t, Transition(h, Active, now, pick));
            t'.Keys == t.Keys && t'[h] == t[h].(status := Active, promotedAt := Some(now)) &&
            forall j :: j in t && j != h ==>
              t'[j].env == t[j].env && t'[j].promotedAt == t[j].promotedAt && t'[j].createdAt == t[j].createdAt &&
              (t[j].env == t[h].env ==> t'[j].status != Active) &&
              (t[j].status == Active && t[j].env == t[h].env ==> t'[j] == t[j].(status := Superseded)) &&
              (t[j].status == Healthy ==> t'[j] == t[j])
  {
    HealthyToActive();
    TransitionRows(cfg, t, h, Active, now, pick);
    assert pick.Some? ==> pick.value in WaitingBut(t, t[h].env, h);
    hide Allowed, Apply, EDGES, BusyBut, Served, Outrun;
  }

  /** Promoting the older of two healthy deploys and then the newer leaves the newer
      active alone, and everything else as it was but for what it superseded. */
  lemma BothPromoted(cfg: Config, t: Table, a: DeployId, b: DeployId, first: Time, second: Time,
                     p: Option<DeployId>, q: Option<DeployId>)
    requires a in t && b in t && a != b && t[a].env == t[b].env && t[a].status == Healthy && t[b].status == Healthy
    requires t[a].createdAt < t[b].createdAt && !Outrun(t, a)
    requires Allowed(cfg, t, Transition(a, Active, first, p))
    requires Allowed(cfg, Apply(cfg, t, Transition(a, Active, first, p)), Transition(b, Active, second, q))
    ensures var t2 := Apply(cfg, Apply(cfg, t, Transition(a, Active, first, p)), Transition(b, Active, second, q));
            t2.Keys == t.Keys && t2[a] == t[a].(status := Superseded, promotedAt := Some(first)) &&
            t2[b] == t[b].(status := Active, promotedAt := Some(second)) &&
            forall j :: j in t && j != a && j != b ==>
              t2[j].env == t[j].env && t2[j].promotedAt == t[j].promotedAt && t2[j].createdAt == t[j].createdAt &&
              (t[j].env == t[a].env ==> t2[j].status != Active)
  {
    hide Allowed, Apply;
    HealthyWins(cfg, t, a, first, p);
    var t1 := Apply(cfg, t, Transition(a, Active, first, p));
    assert !Outrun(t1, b);
    hide Outrun;
    HealthyWins(cfg, t1, b, second, q);
  }

  lemma HealthyToActive()
    ensures (Healthy, Active) in EDGES
  {
  }

  /** Promote `a`, then the newer `b`, then roll `b` back: `a` alone is active again,
      if nothing else of the environment was promoted as late as `a` was. */
  lemma RollbackUndoesPromotion(cfg: Config, t: Table, a: DeployId, b: DeployId, first: Time, second: Time, third: Time,
                                p: Option<DeployId>, q: Option<DeployId>, previous: Option<DeployId>)
    requires a in t && b in t && a != b && t[a].env == t[b].env && t[a].status == Healthy && t[b].status == Healthy
    requires t[a].createdAt < t[b].createdAt && !Outrun(t, a)
    requires t[a].container.vmid.Some? && t[a].container.ip.Some?
    requires forall j :: j in t && t[j].env == t[a].env && t[j].promotedAt.Some? ==> t[j].promotedAt.value < first
    requires Feasible(cfg, t, [Transition(a, Active, first, p), Transition(b, Active, second, q),
                               Rollback(b, third, previous)])
    ensures var evs := [Transition(a, Active, first, p), Transition(b, Active, second, q),
                        Rollback(b, third, previous)];
            var f := Final(cfg, t, evs);
            a in f && b in f && f[a].status == Active && f[b].status == Superseded &&
            forall j :: j in f && f[j].env == t[a].env && f[j].status == Active ==> j == a
  {
    ThreeEvents(cfg, t, Transition(a, Active, first, p), Transition(b, Active, second, q),
                Rollback(b, third, previous));
    hide Feasible, Final, Allowed, Apply;
    BothPromoted(cfg, t, a, b, first, second, p, q);
    var t2 := Apply(cfg, Apply(cfg, t, Transition(a, Active, first, p)), Transition(b, Active, second, q));
    RollbackRows(cfg, t2, b, third, previous);
    assert MayReturn(t2, b, a);
  }

  // --------------------------------------------------------------- order of arrival

  /** A deploy carries the time at which it was created, so the later of two
      creations has the later time. */
  lemma ArrivalOrder(cfg: Config, t: Table, evs: seq<Event>, i: nat, j: nat)
    requires Feasible(cfg, t, evs) && i < j < |evs| && evs[i].Create? && evs[j].Create? && evs[i].now < evs[j].now
    ensures var f := Final(cfg, t, evs);
            evs[i].id in f && evs[j].id in f && f[evs[i].id].createdAt < f[evs[j].id].createdAt &&
            f[evs[i].id].env == evs[i].env && f[evs[j].id].env == evs[j].env
  {
    CreatedThen(cfg, t, evs, i);
    CreatedThen(cfg, t, evs, j);
  }

  lemma {:induction false} CreatedThen(cfg: Config, t: Table, evs: seq<Event>, k: nat)
    requires Feasible(cfg, t, evs) && k < |evs| && evs[k].Create?
    ensures var f := Final(cfg, t, evs);
            evs[k].id in f && f[evs[k].id].createdAt == evs[k].now && f[evs[k].id].env == evs[k].env
    decreases |evs|
  {
    hide Allowed, Apply, Feasible, Final;
    FirstEvent(cfg, t, evs);
    var t1 := Apply(cfg, t, evs[0]);
    if k == 0 {
      CreateRows(cfg, t, evs[0].id, evs[0].env, evs[0].now, evs[0].pick);
      RolledBackIsAbsorbing(cfg, t1, evs[1..], evs[0].id);
    } else {
      CreatedThen(cfg, t1, evs[1..], k - 1);
    }
  }
  /** The earlier of two deploys does not wait any more, or the later waits too or
      was refused. */
  predicate InTurn(t: Table, a: DeployId, b: DeployId) {
    a in t && b in t && (t[a].status == Queued ==> t[b].status == Queued || t[b].status == Failed)
  }

  lemma StepInTurn(cfg: Config, t: Table, ev: Event, a: DeployId, b: DeployId)
    requires Allowed(cfg, t, ev) && LeftToTheQueue([ev], a, b)
    requires InTurn(t, a, b) && t[a].env == t[b].env && t[a].createdAt < t[b].createdAt
    ensures InTurn(Apply(cfg, t, ev), a, b)
  {
    StepKeepsRolledBack(cfg, t, ev, a);
    StepKeepsRolledBack(cfg, t, ev, b);
    assert [ev][0] == ev;
    if t[b].status == Failed {
      RefusedStays(cfg, t, ev, b);
    } else {
      StepDoesNotOvertake(cfg, t, ev, a, b);
    }
  }

  lemma RefusedStays(cfg: Config, t: Table, ev: Event, b: DeployId)
    requires Allowed(cfg, t, ev) && b in t && t[b].status == Failed
    requires !((ev.Transition? || ev.Destroy?) && ev.id == b)
    ensures b in Apply(cfg, t, ev) && Apply(cfg, t, ev)[b].status == Failed
  {
    if ev.Create? {
      CreateRows(cfg, t, ev.id, ev.env, ev.now, ev.pick);
    } else if ev.Transition? {
      TransitionRows(cfg, t, ev.id, ev.target, ev.now, ev.pick);
    } else if ev.Rollback? {
      RollbackRows(cfg, t, ev.id, ev.now, ev.previous);
    }
  }

  lemma {:induction false} RunInTurn(cfg: Config, t: Table, evs: seq<Event>, a: DeployId, b: DeployId)
    requires Feasible(cfg, t, evs) && LeftToTheQueue(evs, a, b)
    requires InTurn(t, a, b) && t[a].env == t[b].env && t[a].createdAt < t[b].createdAt
    ensures InTurn(Final(cfg, t, evs), a, b)
    decreases |evs|
  {
    hide Allowed, Apply;
    if evs != [] {
      assert [evs[0]][0] == evs[0];
      StepInTurn(cfg, t, evs[0], a, b);
      StepKeepsRolledBack(cfg, t, evs[0], a);
      StepKeepsRolledBack(cfg, t, evs[0], b);
      RunInTurn(cfg, Apply(cfg, t, evs[0]), evs[1..], a, b);
    }
  }

  lemma ArrivesInTurn(cfg: Config, t: Table, ev: Event, a: DeployId)
    requires Allowed(cfg, t, ev) && ev.Create? && a in t && t[a].env == ev.env && t[a].createdAt < ev.now
    ensures InTurn(Apply(cfg, t, ev), a, ev.id)
  {
    CreateRows(cfg, t, ev.id, ev.env, ev.now, ev.pick);
    if t[a].status == Queued {
      assert a in WaitingBut(t, ev.env, ev.id);
    }
    hide Allowed, Apply, BusyBut;
  }

  lemma {:induction false} LaterArrival(cfg: Config, t: Table, evs: seq<Event>, a: DeployId, j: nat)
    requires Feasible(cfg, t, evs) && j < |evs| && evs[j].Create? && a in t
    requires t[a].env == evs[j].env && t[a].createdAt < evs[j].now && LeftToTheQueue(evs, a, evs[j].id)
    ensures InTurn(Final(cfg, t, evs), a, evs[j].id)
    decreases |evs|
  {
    hide Allowed, Apply, InTurn;
    var t1 := Apply(cfg, t, evs[0]);
    StepKeepsRolledBack(cfg, t, evs[0], a);
    if j == 0 {
      ArrivesInTurn(cfg, t, evs[0], a);
      CreatedThen(cfg, t, [evs[0]], 0);
      OneEvent(cfg, t, evs[0]);
      RunInTurn(cfg, t1, evs[1..], a, evs[0].id);
    } else {
      assert evs[1..][j - 1] == evs[j];
      LaterArrival(cfg, t1, evs[1..], a, j - 1);
    }
  }

  lemma OneEvent(cfg: Config, t: Table, ev: Event)
    requires Allowed(cfg, t, ev)
    ensures Feasible(cfg, t, [ev]) && Final(cfg, t, [ev]) == Apply(cfg, t, ev)
  {
    hide Allowed, Apply;
    assert [ev][1..] == [];
    NoEvents(cfg, Apply(cfg, t, ev));
  }

  /** First come, first served: of two deploys of an environment that only the queue
      moves, the one created later does not leave the queue before the earlier,
      unless it was refused on arrival. */
  lemma {:induction false} FirstComeFirstServed(cfg: Config, t: Table, evs: seq<Event>, i: nat, j: nat)
    requires Feasible(cfg, t, evs) && i < j < |evs| && evs[i].Create? && evs[j].Create?
    requires evs[i].env == evs[j].env && evs[i].now < evs[j].now && LeftToTheQueue(evs, evs[i].id, evs[j].id)
    ensures InTurn(Final(cfg, t, evs), evs[i].id, evs[j].id)
    decreases |evs|
  {
    hide Allowed, Apply, InTurn;
    var t1 := Apply(cfg, t, evs[0]);
    assert evs[1..][j - 1] == evs[j];
    if i == 0 {
      OneEvent(cfg, t, evs[0]);
      CreatedThen(cfg, t, [evs[0]], 0);
      LaterArrival(cfg, t1, evs[1..], evs[0].id, j - 1);
    } else {
      assert evs[1..][i - 1] == evs[i];
      FirstComeFirstServed(cfg, t1, evs[1..], i - 1, j - 1);
    }
  }
}
