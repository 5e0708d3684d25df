/** The deploys table as the services update it, row by row. Every method is one
    transaction and is proved to take exactly the step of its event. */
module DeployStore {
  import opened Common
  import opened DeployModel

  class DeployStore {
    var rows: Table
    const cfg: Config

    constructor (cfg: Config)
      ensures rows == map[] && this.cfg == cfg
    {
      this.cfg := cfg;
      rows := map[];
    }

    // --------------------------------------------------------------- queries

    method CountQueued(e: Env) returns (n: nat)
      ensures n == |QueuedIn(rows, e)|
    {
      n := |QueuedIn(rows, e)|;
    }

    method CountInProgress(e: Env) returns (n: nat)
      ensures n == |InProgress(rows, e)|
    {
      n := |InProgress(rows, e)|;
    }

    /** Walks the queued rows of the environment, keeping the oldest seen. */
    method SelectOldestQueued(e: Env) returns (next: Option<DeployId>)
      ensures if QueuedIn(rows, e) == {} then next.None? else next.Some? && OldestQueued(rows, e, next.value)
    {
      var remaining := QueuedIn(rows, e);
      next := None;
      while remaining != {}
        invariant remaining <= QueuedIn(rows, e)
        invariant next.None? ==> remaining == QueuedIn(rows, e)
        invariant next.Some? ==> next.value in QueuedIn(rows, e)
        invariant next.Some? ==>
                    forall j :: j in QueuedIn(rows, e) - remaining ==> rows[next.value].createdAt <= rows[j].createdAt
        decreases remaining
      {
        var i :| i in remaining;
        remaining := remaining - {i};
        if next.None? || rows[i].createdAt < rows[next.value].createdAt {
          next := Some(i);
        }
      }
    }

    // ----------------------------------------------------------------- queue

    /** Promotes the oldest queued deploy when there is capacity. The capacity is
        read again once the row is locked. */
    method TryPromoteNext(e: Env) returns (pick: Option<DeployId>)
      modifies this`rows
      ensures ValidPick(cfg, old(rows), e, pick) && rows == PromoteNext(old(rows), pick)
    {
      pick := None;
      var inProgress := CountInProgress(e);
      if inProgress >= cfg.maxConcurrent {
        return;
      }
      var next := SelectOldestQueued(e);
      if next.None? {
        return;
      }
      inProgress := CountInProgress(e);
      if inProgress >= cfg.maxConcurrent {
        return;
      }
      if CanTransition(rows[next.value].status, Building) {
        rows := rows[next.value := rows[next.value].(status := Building)];
        pick := next;
      }
    }

    method OnDeployCompleted(e: Env) returns (pick: Option<DeployId>)
      modifies this`rows
      ensures ValidPick(cfg, old(rows), e, pick) && rows == PromoteNext(old(rows), pick)
    {
      pick := TryPromoteNext(e);
    }

    /** The new row is already stored as queued when the queue is counted. */
    method EnqueueDeploy(id: DeployId) returns (pick: Option<DeployId>)
      requires id in rows && rows[id].status == Queued
      modifies this`rows
      ensures var e := old(rows)[id].env;
              if QueueFull(cfg, old(rows), e) then pick.None? && rows == SetStatus(old(rows), id, Failed)
              else ValidPick(cfg, old(rows), e, pick) && rows == PromoteNext(old(rows), pick)
    {
      pick := None;
      var queued := CountQueued(rows[id].env);
      if queued >= cfg.maxQueue {
        rows := rows[id := rows[id].(status := Failed)];
        return;
      }
      rows := rows[id := rows[id].(status := Queued)];
      assert rows == old(rows);
      pick := TryPromoteNext(rows[id].env);
    }

    method TriggerDeploy(id: DeployId, e: Env, now: Time) returns (pick: Option<DeployId>)
      requires id !in rows
      modifies this`rows
      ensures var ev := Create(id, e, now, pick); Allowed(cfg, old(rows), ev) && rows == Apply(cfg, old(rows), ev)
    {
      rows := rows[id := Deploy(e, Queued, now, None, NO_CONTAINER)];
      pick := EnqueueDeploy(id);
    }

    /** Marks every active deploy of the environment but one as superseded, and
        says which. */
    method MarkSuperseded(e: Env, except: DeployId) returns (marked: set<DeployId>)
      modifies this`rows
      ensures rows == Supersede(old(rows), e, except)
      ensures marked == ActiveIn(old(rows), e) - {except}
    {
      var selected := set i | i in rows && rows[i].env == e && rows[i].status == Active && i != except;
      var remaining := selected;
      marked := {};
      while remaining != {}
        invariant marked !! remaining && marked + remaining == selected
        invariant rows.Keys == old(rows).Keys
        invariant forall i :: i in rows ==>
                    rows[i] == if i in marked then old(rows)[i].(status := Superseded) else old(rows)[i]
        decreases remaining
      {
        var i :| i in remaining;
        remaining := remaining - {i};
        if CanTransition(rows[i].status, Superseded) {
          rows := rows[i := rows[i].(status := Superseded)];
          marked := marked + {i};
        }
      }
    }

    // ----------------------------------------------------------- coordinator

    method TransitionDeploy(id: DeployId, target: Status, now: Time) returns (ok: bool, pick: Option<DeployId>)
      modifies this`rows
      ensures ok == TransitionAccepted(old(rows), id, target)
      ensures var ev := Transition(id, target, now, pick);
              Allowed(cfg, old(rows), ev) && rows == Apply(cfg, old(rows), ev)
    {
      ok, pick := false, None;
      if id !in rows || !CanTransition(rows[id].status, target) {
        return;
      }
      ok := true;
      var e, s := rows[id].env, target;
      if target == Active {
        var newer := set j | j in rows && rows[j].env == e && rows[j].status == Active &&
                             rows[j].promotedAt.Some? && rows[j].createdAt > rows[id].createdAt;
        if newer != {} {
          s := Superseded;
          var j :| j in newer;
          assert j in ActiveIn(rows, e);
        }
        assert newer == {} <==> !NewerActive(rows, id) by {
          assert forall j ::
                   j in ActiveIn(rows, e) && rows[j].promotedAt.Some? && rows[j].createdAt > rows[id].createdAt ==>
                     j in newer;
        }
      }
      assert s == Effective(rows, id, target);
      rows := rows[id := rows[id].(status := s)];
      if s == Active {
        rows := rows[id := rows[id].(promotedAt := Some(now))];
        assert rows == Activate(old(rows), id, now);
        var _ := MarkSuperseded(e, id);
      }
      assert rows == Moved(old(rows), id, target, now);
      if s == Active || s == Failed || s == RolledBack || s == Superseded || s == Stopped {
        pick := OnDeployCompleted(e);
      }
    }

    // -------------------------------------------------------------- handlers

    /** The latest promoted active deploy of the project. */
    method GetProductionDeployId(project: nat) returns (choice: Option<DeployId>)
      ensures IsProduction(rows, project, choice)
    {
      var candidates := set i | i in rows && rows[i].env.project == project && rows[i].status == Active;
      var remaining := candidates;
      choice := None;
      while remaining != {}
        invariant remaining <= candidates
        invariant choice.None? ==> remaining == candidates
        invariant choice.Some? ==> choice.value in candidates
        invariant choice.Some? ==>
                    forall j :: j in candidates - remaining ==>
                      PromotedNoEarlier(rows[choice.value].promotedAt, rows[j].promotedAt)
        decreases remaining
      {
        var i :| i in remaining;
        remaining := remaining - {i};
        if choice.None? || !PromotedNoEarlier(rows[choice.value].promotedAt, rows[i].promotedAt) {
          choice := Some(i);
        }
      }
    }

    /** The candidate promoted last and, among those, created last. */
    method SelectRollbackTarget(id: DeployId) returns (previous: Option<DeployId>)
      requires id in rows
      ensures RollsBackTo(rows, id, previous)
    {
      var candidates := RollbackCandidates(rows, id);
      var remaining := candidates;
      previous := None;
      while remaining != {}
        invariant remaining <= candidates
        invariant previous.None? ==> remaining == candidates
        invariant previous.Some? ==> previous.value in candidates
        invariant previous.Some? ==>
                    forall j :: j in candidates - remaining ==> ListedNoLater(rows[previous.value], rows[j])
        decreases remaining
      {
        var i :| i in remaining;
        remaining := remaining - {i};
        if previous.None? || !ListedNoLater(rows[previous.value], rows[i]) {
          previous := Some(i);
        }
      }
    }

    /** A routing failure aborts the request, and its transaction with it. */
    method PromoteDeploy(id: DeployId, now: Time, routed: bool) returns (ok: bool, production: Option<DeployId>)
      modifies this`rows
      ensures var ev := Promote(id, now, production, routed);
              ok == PromoteAccepted(old(rows), ev) && Allowed(cfg, old(rows), ev) && rows == Apply(cfg, old(rows), ev)
    {
      var before := rows;
      ok, production := false, None;
      if id !in rows {
        return;
      }
      production := GetProductionDeployId(rows[id].env.project);
      if rows[id].status != Active && rows[id].status != Superseded {
        return;
      }
      if !HasContainer(rows[id].container) || production == Some(id) {
        return;
      }
      var _ := MarkSuperseded(rows[id].env, id);
      rows := rows[id := rows[id].(status := Active, promotedAt := Some(now))];
      if !routed {
        rows := before;
        return;
      }
      ok := true;
    }

    method RollbackDeploy(id: DeployId, now: Time) returns (ok: bool, previous: Option<DeployId>)
      modifies this`rows
      ensures ok == (id in old(rows) && old(rows)[id].status == Active)
      ensures var ev := Rollback(id, now, previous); Allowed(cfg, old(rows), ev) && rows == Apply(cfg, old(rows), ev)
    {
      ok, previous := id in rows && rows[id].status == Active, None;
      if id in rows {
        previous := SelectRollbackTarget(id);
      }
      if !ok {
        return;
      }
      rows := rows[id := rows[id].(status := Superseded)];
      if previous.Some? {
        rows := rows[previous.value := rows[previous.value].(status := Active)];
        rows := rows[previous.value := rows[previous.value].(promotedAt := Some(now))];
      }
    }

    method StopDeploy(id: DeployId, confirmed: bool) returns (ok: bool)
      modifies this`rows
      ensures ok == StopAccepted(old(rows), id, confirmed)
      ensures rows == Apply(cfg, old(rows), Stop(id, confirmed))
    {
      ok := false;
      if id !in rows || (rows[id].status != Active && rows[id].status != Superseded) {
        return;
      }
      if HasIdentity(rows[id].container) && !confirmed {
        return;
      }
      rows := rows[id := rows[id].(status := Stopped)];
      ok := true;
    }

    /** Makes the deploy active again and supersedes nothing. */
    method StartDeploy(id: DeployId, now: Time, started: bool) returns (ok: bool)
      modifies this`rows
      ensures ok == StartAccepted(old(rows), id, started)
      ensures rows == Apply(cfg, old(rows), Start(id, now, started))
    {
      ok := false;
      if id !in rows || rows[id].status != Stopped {
        return;
      }
      if |RunningIn(rows, rows[id].env.project)| >= MAX_RUNNING {
        return;
      }
      if !HasIdentity(rows[id].container) || !started {
        return;
      }
      rows := rows[id := rows[id].(status := Active, promotedAt := Some(now))];
      ok := true;
    }

    method DestroyDeploy(id: DeployId, tornDown: bool) returns (ok: bool)
      modifies this`rows
      ensures ok == DestroyAccepted(old(rows), id, tornDown)
      ensures rows == Apply(cfg, old(rows), Destroy(id, tornDown))
    {
      ok := false;
      if id !in rows || rows[id].status == RolledBack {
        return;
      }
      var d := rows[id];
      if HasIdentity(d.container) {
        if !tornDown {
          return;
        }
      } else if (d.container.vmid.Some? && d.container.vmid.value != 0) ||
                d.status in {Provisioning, Healthy, Active, Superseded, Stopped} {
        return;
      }
      rows := rows[id := d.(status := RolledBack)];
      ok := true;
    }

    // ------------------------------------------------------------ reconciler

    /** Fails every stuck deploy that no other transaction holds, and clears its
        container columns. The queue is not woken. */
    method ReconcileStuckDeploys(now: Time, skipped: set<DeployId>) returns (failed: nat)
      modifies this`rows
      ensures rows == Apply(cfg, old(rows), Sweep(now, skipped))
      ensures failed == |StuckIds(old(rows), now, skipped)|
    {
      var stuck := StuckIds(rows, now, skipped);
      var remaining := stuck;
      failed := 0;
      assert rows == FailAll(rows, {});
      while remaining != {}
        invariant remaining <= stuck && failed == |stuck| - |remaining|
        invariant rows == FailAll(old(rows), stuck - remaining)
        decreases remaining
      {
        var i :| i in remaining;
        assert stuck - (remaining - {i}) == (stuck - remaining) + {i};
        FailOneMore(old(rows), stuck - remaining, i);
        remaining := remaining - {i};
        if CanTransition(rows[i].status, Failed) {
          rows := rows[i := rows[i].(status := Failed, container := NO_CONTAINER)];
          failed := failed + 1;
        }
      }
    }

    /** The executor records what it knows of the deploy's container. */
    method TrackContainer(id: DeployId, container: Container)
      requires id in rows
      modifies this`rows
      ensures rows == Apply(cfg, old(rows), Track(id, container))
    {
      rows := rows[id := rows[id].(container := container)];
    }
  }
}
