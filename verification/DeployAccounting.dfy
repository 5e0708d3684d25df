/** Concurrency, queue length, idle capacity and FIFO order over all runs. */
module DeployAccounting {
  import opened Common
  import opened DeployModel
  import opened DeployActive

  // ------------------------------------------------- what one step does to sets

  /** A row update moves one deploy between the two counted sets. */
  lemma RowUpdateSets(t: Table, id: DeployId, d: Deploy, e: Env)
    requires id in t ==> t[id].env == d.env
    ensures var t' := t[id := d];
            InProgress(t', e) ==
              (if d.env == e && IsInProgress(d.status) then InProgress(t, e) + {id} else InProgress(t, e) - {id}) &&
            QueuedIn(t', e) ==
              (if d.env == e && d.status == Queued then QueuedIn(t, e) + {id} else QueuedIn(t, e) - {id})
  {
  }

  /** Superseding touches neither set. */
  lemma SupersedeSets(t: Table, env: Env, except: DeployId, e: Env)
    ensures InProgress(Supersede(t, env, except), e) == InProgress(t, e)
    ensures QueuedIn(Supersede(t, env, except), e) == QueuedIn(t, e)
  {
  }

  /** Before the freed slot is handed on, a transition moves just its own row. */
  lemma MovedSets(t: Table, id: DeployId, target: Status, now: Time, e: Env)
    requires id in t
    ensures var t' := Moved(t, id, target, now);
            var s := Effective(t, id, target);
            id in t' && t'[id].status == s && t'[id].env == t[id].env &&
            InProgress(t', e) ==
              (if t[id].env == e && IsInProgress(s) then InProgress(t, e) + {id} else InProgress(t, e) - {id}) &&
            QueuedIn(t', e) == (if t[id].env == e && s == Queued then QueuedIn(t, e) + {id} else QueuedIn(t, e) - {id})
  {
    var s := Effective(t, id, target);
    if s == Active {
      RowUpdateSets(t, id, t[id].(status := Active, promotedAt := Some(now)), e);
      SupersedeSets(Activate(t, id, now), t[id].env, id, e);
    } else {
      RowUpdateSets(t, id, t[id].(status := s), e);
    }
  }

  /** A queue promotion is the only way the queue itself changes the counts. */
  lemma PromoteNextCounts(cfg: Config, t: Table, env: Env, pick: Option<DeployId>, e: Env)
    requires ValidPick(cfg, t, env, pick)
    ensures var t' := PromoteNext(t, pick);
            if pick.Some? && env == e
            then |InProgress(t', e)| == |InProgress(t, e)| + 1 && |QueuedIn(t', e)| == |QueuedIn(t, e)| - 1
            else |InProgress(t', e)| == |InProgress(t, e)| && |QueuedIn(t', e)| == |QueuedIn(t, e)|
  {
    if pick.Some? {
      RowUpdateSets(t, pick.value, t[pick.value].(status := Building), e);
      if env != e {
        assert InProgress(PromoteNext(t, pick), e) == InProgress(t, e);
        assert QueuedIn(PromoteNext(t, pick), e) == QueuedIn(t, e);
      }
    }
  }

  // ------------------------------------------------- steps that are singled out

  /** A queued deploy starts building without the queue having chosen it. */
  predicate BypassesQueue(t: Table, ev: Event, e: Env) {
    ev.Transition? && ev.target == Building && TransitionAccepted(t, ev.id, ev.target) && t[ev.id].env == e
  }

  predicate Retries(t: Table, ev: Event, e: Env) {
    ev.Transition? && ev.target == Queued && TransitionAccepted(t, ev.id, ev.target) && t[ev.id].env == e
  }

  predicate DestroysInProgress(t: Table, ev: Event, e: Env) {
    ev.Destroy? && DestroyAccepted(t, ev.id, ev.tornDown) && ev.id in InProgress(t, e)
  }

  /** The deploys of the environment that a sweep fails. */
  function SweptIn(t: Table, ev: Event, e: Env): set<DeployId> {
    if ev.Sweep? then InProgress(t, e) * StuckIds(t, ev.now, ev.skipped) else {}
  }

  lemma FailAllSets(t: Table, ids: set<DeployId>, e: Env)
    requires forall i :: i in ids && i in t ==> IsInProgress(t[i].status)
    ensures InProgress(FailAll(t, ids), e) == InProgress(t, e) - InProgress(t, e) * ids
    ensures QueuedIn(FailAll(t, ids), e) == QueuedIn(t, e)
  {
  }

  lemma SweepCounts(cfg: Config, t: Table, ev: Event, e: Env)
    requires Allowed(cfg, t, ev) && ev.Sweep?
    ensures |InProgress(Apply(cfg, t, ev), e)| == |InProgress(t, e)| - |SweptIn(t, ev, e)|
    ensures |QueuedIn(Apply(cfg, t, ev), e)| == |QueuedIn(t, e)|
  {
    FailAllSets(t, StuckIds(t, ev.now, ev.skipped), e);
    RemoveSubset(InProgress(t, e), SweptIn(t, ev, e));
  }

  // -------------------------------------------------------------- step lemmas

  /** Promote, rollback, stop, start and column updates move no deploy into or
      out of either set. */
  lemma HandlerSets(cfg: Config, t: Table, ev: Event, e: Env)
    requires Allowed(cfg, t, ev)
    requires ev.Promote? || ev.Rollback? || ev.Stop? || ev.Start? || ev.Track?
    ensures InProgress(Apply(cfg, t, ev), e) == InProgress(t, e)
    ensures QueuedIn(Apply(cfg, t, ev), e) == QueuedIn(t, e)
  {
    var t' := Apply(cfg, t, ev);
    assert t'.Keys == t.Keys;
    forall i | i in t
      ensures t'[i].env == t[i].env
      ensures IsInProgress(t'[i].status) == IsInProgress(t[i].status) &&
              (t'[i].status == Queued) == (t[i].status == Queued)
    {
    }
  }

  lemma DestroySets(cfg: Config, t: Table, ev: Event, e: Env)
    requires Allowed(cfg, t, ev) && ev.Destroy?
    ensures var t' := Apply(cfg, t, ev);
            var gone := if DestroyAccepted(t, ev.id, ev.tornDown) then {ev.id} else {};
            InProgress(t', e) == InProgress(t, e) - gone && QueuedIn(t', e) == QueuedIn(t, e) - gone
  {
  }

  lemma DestroyCounts(cfg: Config, t: Table, ev: Event, e: Env)
    requires Allowed(cfg, t, ev) && ev.Destroy?
    ensures var t' := Apply(cfg, t, ev);
            if DestroysInProgress(t, ev, e)
            then |InProgress(t', e)| == |InProgress(t, e)| - 1 && |QueuedIn(t', e)| == |QueuedIn(t, e)|
            else |InProgress(t', e)| == |InProgress(t, e)| && |QueuedIn(t', e)| <= |QueuedIn(t, e)|
  {
    DestroySets(cfg, t, ev, e);
    var p, q := InProgress(t, e), QueuedIn(t, e);
    SubsetSize(q - {ev.id}, q);
    if ev.id !in p {
      assert p - {ev.id} == p;
    } else {
      assert q - {ev.id} == q;
    }
  }

  /** Both counts after a create. */
  lemma CreateCounts(cfg: Config, t: Table, ev: Event, e: Env)
    requires Allowed(cfg, t, ev) && ev.Create?
    ensures var t' := Apply(cfg, t, ev);
            var p, q, p', q' := |InProgress(t, e)|, |QueuedIn(t, e)|, |InProgress(t', e)|, |QueuedIn(t', e)|;
            if ev.env != e || q + 1 >= cfg.maxQueue then p' == p && q' == q
            else if p < cfg.maxConcurrent then p' == p + 1 && q' == q
            else p' == p && q' == q + 1
  {
    var t1 := Inserted(t, ev.id, ev.env, ev.now);
    InsertedSets(t, ev.id, ev.env, ev.now, e);
    if QueueFull(cfg, t1, ev.env) {
      RefusedSets(t, ev.id, ev.env, ev.now, e);
    } else {
      PromoteNextCounts(cfg, t1, ev.env, ev.pick, e);
    }
  }

  lemma InsertedSets(t: Table, id: DeployId, env: Env, now: Time, e: Env)
    requires id !in t
    ensures var t1 := Inserted(t, id, env, now);
            InProgress(t1, e) == InProgress(t, e) &&
            if env == e then QueuedIn(t1, e) == QueuedIn(t, e) + {id} && |QueuedIn(t1, e)| == |QueuedIn(t, e)| + 1
            else QueuedIn(t1, e) == QueuedIn(t, e)
  {
    RowUpdateSets(t, id, Inserted(t, id, env, now)[id], e);
    assert InProgress(t, e) - {id} == InProgress(t, e);
    assert QueuedIn(t, e) - {id} == QueuedIn(t, e);
  }

  lemma RefusedSets(t: Table, id: DeployId, env: Env, now: Time, e: Env)
    requires id !in t
    ensures var t2 := SetStatus(Inserted(t, id, env, now), id, Failed);
            InProgress(t2, e) == InProgress(t, e) && QueuedIn(t2, e) == QueuedIn(t, e)
  {
  }

  /** What an accepted transition in the environment does to the counts before
      any freed slot is handed on. */
  lemma MovedCounts(t: Table, id: DeployId, target: Status, now: Time)
    requires TransitionAccepted(t, id, target)
    ensures var e := t[id].env; var t1 := Moved(t, id, target, now); var s := t[id].status;
            |InProgress(t1, e)| ==
              |InProgress(t, e)| - (if IsInProgress(s) then 1 else 0) + (if IsInProgress(target) then 1 else 0) &&
            |QueuedIn(t1, e)| == |QueuedIn(t, e)| - (if s == Queued then 1 else 0) + (if target == Queued then 1 else 0)
  {
    var e := t[id].env;
    MovedSets(t, id, target, now, e);
    ResizeBy(InProgress(t, e), id);
    ResizeBy(QueuedIn(t, e), id);
  }

  lemma ResizeBy(s: set<DeployId>, id: DeployId)
    ensures |s + {id}| == if id in s then |s| else |s| + 1
    ensures |s - {id}| == if id in s then |s| - 1 else |s|
  {
    if id in s {
      assert s + {id} == s;
    } else {
      assert s - {id} == s;
    }
  }

  /** Both counts after an accepted transition in the environment. */
  lemma TransitionCounts(cfg: Config, t: Table, ev: Event, e: Env)
    requires Allowed(cfg, t, ev) && ev.Transition? && TransitionAccepted(t, ev.id, ev.target) && t[ev.id].env == e
    ensures var t' := Apply(cfg, t, ev);
            var p, q, p', q' := |InProgress(t, e)|, |QueuedIn(t, e)|, |InProgress(t', e)|, |QueuedIn(t', e)|;
            var p1 := if IsInProgress(t[ev.id].status) then p - 1 else p;
            var q1 := if t[ev.id].status == Queued then q - 1 else q;
            if ev.target == Building then p' == p + 1 && q' == q - 1
            else if ev.target == Queued then p' == p && q' == q + 1
            else if IsInProgress(ev.target) then p' == p && q' == q
            else if p1 < cfg.maxConcurrent && q1 > 0 then p' == p1 + 1 && q' == q1 - 1
            else p' == p1 && q' == q1
  {
    MovedCounts(t, ev.id, ev.target, ev.now);
    if Frees(Effective(t, ev.id, ev.target)) {
      PromoteNextCounts(cfg, Moved(t, ev.id, ev.target, ev.now), e, ev.pick, e);
    }
  }

  /** A transition elsewhere, or a refused one, changes neither set here. */
  lemma ForeignTransitionSets(cfg: Config, t: Table, ev: Event, e: Env)
    requires Allowed(cfg, t, ev) && ev.Transition?
    requires !TransitionAccepted(t, ev.id, ev.target) || t[ev.id].env != e
    ensures var t' := Apply(cfg, t, ev);
            InProgress(t', e) == InProgress(t, e) && QueuedIn(t', e) == QueuedIn(t, e)
  {
    if TransitionAccepted(t, ev.id, ev.target) {
      MovedSets(t, ev.id, ev.target, ev.now, e);
      if ev.pick.Some? {
        var t1 := Moved(t, ev.id, ev.target, ev.now);
        RowUpdateSets(t1, ev.pick.value, t1[ev.pick.value].(status := Building), e);
      }
    }
  }

  // ------------------------------------------------------ limits over all runs

  function Bypasses(cfg: Config, t: Table, evs: seq<Event>, e: Env): nat
    requires Feasible(cfg, t, evs)
    decreases |evs|
  {
    if evs == [] then 0
    else (if BypassesQueue(t, evs[0], e) then 1 else 0) + Bypasses(cfg, Apply(cfg, t, evs[0]), evs[1..], e)
  }

  function Retried(cfg: Config, t: Table, evs: seq<Event>, e: Env): nat
    requires Feasible(cfg, t, evs)
    decreases |evs|
  {
    if evs == [] then 0
    else (if Retries(t, evs[0], e) then 1 else 0) + Retried(cfg, Apply(cfg, t, evs[0]), evs[1..], e)
  }

  lemma StepKeepsLimits(cfg: Config, t: Table, ev: Event, e: Env, bypassed: nat, retried: nat)
    requires Allowed(cfg, t, ev)
    requires |InProgress(t, e)| <= Max(cfg.maxConcurrent, 0) + bypassed
    requires |QueuedIn(t, e)| <= Max(cfg.maxQueue - 1, 0) + retried
    ensures |InProgress(Apply(cfg, t, ev), e)| <=
            Max(cfg.maxConcurrent, 0) + bypassed + if BypassesQueue(t, ev, e) then 1 else 0
    ensures |QueuedIn(Apply(cfg, t, ev), e)| <= Max(cfg.maxQueue - 1, 0) + retried + if Retries(t, ev, e) then 1 else 0
  {
    match ev {
      case Create(_, _, _, _) => CreateCounts(cfg, t, ev, e);
      case Transition(id, target, _, _) =>
        if TransitionAccepted(t, id, target) && t[id].env == e {
          TransitionCounts(cfg, t, ev, e);
        } else {
          ForeignTransitionSets(cfg, t, ev, e);
        }
      case Sweep(_, _) => SweepCounts(cfg, t, ev, e);
      case Destroy(_, _) => DestroyCounts(cfg, t, ev, e);
      case _ => HandlerSets(cfg, t, ev, e);
    }
  }

  /** In progress never exceeds the limit by more than the deploys that were
      started past the queue; queued never exceeds the queue by more than the retries. */
  lemma {:induction false} RunKeepsLimits(cfg: Config, t: Table, evs: seq<Event>, e: Env, bypassed: nat, retried: nat)
    requires Feasible(cfg, t, evs)
    requires |InProgress(t, e)| <= Max(cfg.maxConcurrent, 0) + bypassed
    requires |QueuedIn(t, e)| <= Max(cfg.maxQueue - 1, 0) + retried
    ensures |InProgress(Final(cfg, t, evs), e)| <= Max(cfg.maxConcurrent, 0) + bypassed + Bypasses(cfg, t, evs, e)
    ensures |QueuedIn(Final(cfg, t, evs), e)| <= Max(cfg.maxQueue - 1, 0) + retried + Retried(cfg, t, evs, e)
    decreases |evs|
  {
    if evs != [] {
      StepKeepsLimits(cfg, t, evs[0], e, bypassed, retried);
      RunKeepsLimits(cfg, Apply(cfg, t, evs[0]), evs[1..], e,
                     bypassed + (if BypassesQueue(t, evs[0], e) then 1 else 0),
                     retried + (if Retries(t, evs[0], e) then 1 else 0));
    }
  }

  // ------------------------------------------------------------ idle capacity

  /** Free slots that queued deploys are waiting for. */
  function Idle(cfg: Config, t: Table, e: Env): nat {
    Min(|QueuedIn(t, e)|, Max(0, cfg.maxConcurrent - |InProgress(t, e)|))
  }

  /** The most an event may raise it. */
  function IdleGain(t: Table, ev: Event, e: Env): nat {
    if ev.Sweep? then |SweptIn(t, ev, e)|
    else if Retries(t, ev, e) || DestroysInProgress(t, ev, e) then 1
    else 0
  }

  lemma StepIdle(cfg: Config, t: Table, ev: Event, e: Env)
    requires Allowed(cfg, t, ev)
    ensures Idle(cfg, Apply(cfg, t, ev), e) <= Idle(cfg, t, e) + IdleGain(t, ev, e)
  {
    match ev {
      case Create(_, _, _, _) => CreateCounts(cfg, t, ev, e);
      case Transition(id, target, _, _) =>
        if TransitionAccepted(t, id, target) && t[id].env == e {
          TransitionCounts(cfg, t, ev, e);
        } else {
          ForeignTransitionSets(cfg, t, ev, e);
        }
      case Sweep(_, _) => SweepCounts(cfg, t, ev, e);
      case Destroy(_, _) => DestroyCounts(cfg, t, ev, e);
      case _ => HandlerSets(cfg, t, ev, e);
    }
  }

  /** A destroy of an in-progress deploy frees a slot and wakes nobody: it strands
      capacity exactly when another deploy was waiting for that slot. */
  lemma DestroyStrandsIff(cfg: Config, t: Table, ev: Event, e: Env)
    requires Allowed(cfg, t, ev) && ev.Destroy?
    ensures Idle(cfg, Apply(cfg, t, ev), e) > Idle(cfg, t, e) <==>
            DestroysInProgress(t, ev, e) && |InProgress(t, e)| <= cfg.maxConcurrent &&
            |QueuedIn(t, e)| > cfg.maxConcurrent - |InProgress(t, e)|
  {
    DestroyCounts(cfg, t, ev, e);
  }

  /** So a run without sweeps and retries need not be work conserving: one slot,
      one deploy building, one waiting, and the building one is destroyed. */
  lemma DestroyLeavesOneWaiting()
    ensures var cfg, e := Config(1, 10), Env(0, "production");
            var t: Table := map[0 := Deploy(e, Building, 0, None, NO_CONTAINER),
                                1 := Deploy(e, Queued, 1, None, NO_CONTAINER)];
            Allowed(cfg, t, Destroy(0, true)) && Idle(cfg, t, e) == 0 &&
            Idle(cfg, Apply(cfg, t, Destroy(0, true)), e) == 1
  {
    var cfg, e := Config(1, 10), Env(0, "production");
    var t: Table := map[0 := Deploy(e, Building, 0, None, NO_CONTAINER), 1 := Deploy(e, Queued, 1, None, NO_CONTAINER)];
    assert InProgress(t, e) == {0} && QueuedIn(t, e) == {1};
    DestroyCounts(cfg, t, Destroy(0, true), e);
  }

  /** A retry queues a deploy and wakes nobody: it strands capacity exactly when
      there is a slot no queued deploy is already waiting for. */
  lemma RetryStrandsIff(cfg: Config, t: Table, ev: Event, e: Env)
    requires Allowed(cfg, t, ev) && Retries(t, ev, e)
    ensures Idle(cfg, Apply(cfg, t, ev), e) > Idle(cfg, t, e) <==>
            |QueuedIn(t, e)| < cfg.maxConcurrent - |InProgress(t, e)|
  {
    TransitionCounts(cfg, t, ev, e);
  }

  function IdleGains(cfg: Config, t: Table, evs: seq<Event>, e: Env): nat
    requires Feasible(cfg, t, evs)
    decreases |evs|
  {
    if evs == [] then 0 else IdleGain(t, evs[0], e) + IdleGains(cfg, Apply(cfg, t, evs[0]), evs[1..], e)
  }

  /** Runs in which nothing is swept, retried or destroyed in progress are work
      conserving: with no slot idle before, none is idle after. */
  lemma {:induction false} RunIdle(cfg: Config, t: Table, evs: seq<Event>, e: Env)
    requires Feasible(cfg, t, evs)
    ensures Idle(cfg, Final(cfg, t, evs), e) <= Idle(cfg, t, e) + IdleGains(cfg, t, evs, e)
    decreases |evs|
  {
    if evs != [] {
      StepIdle(cfg, t, evs[0], e);
      RunIdle(cfg, Apply(cfg, t, evs[0]), evs[1..], e);
    }
  }

  // --------------------------------------------------------------------- FIFO

  /** Nobody names deploy `b`, and nobody retries deploy `a`. */
  ghost predicate LeftToTheQueue(evs: seq<Event>, a: DeployId, b: DeployId) {
    forall k :: 0 <= k < |evs| ==>
      !((evs[k].Transition? || evs[k].Destroy?) && evs[k].id == b) &&
      !(evs[k].Transition? && evs[k].id == a && evs[k].target == Queued)
  }

  lemma StepDoesNotOvertake(cfg: Config, t: Table, ev: Event, a: DeployId, b: DeployId)
    requires Allowed(cfg, t, ev) && LeftToTheQueue([ev], a, b)
    requires a in t && b in t && t[a].env == t[b].env && t[a].createdAt < t[b].createdAt
    requires t[a].status == Queued ==> t[b].status == Queued
    ensures var t' := Apply(cfg, t, ev); t'[a].status == Queued ==> t'[b].status == Queued
  {
    assert [ev][0] == ev;
  }

  /** First in, first out over whole runs: while the queue alone moves `b`, it
      does not leave before the older `a` of its environment has left. */
  lemma {:induction false} NoOvertaking(cfg: Config, t: Table, evs: seq<Event>, a: DeployId, b: DeployId)
    requires Feasible(cfg, t, evs) && LeftToTheQueue(evs, a, b)
    requires a in t && b in t && t[a].env == t[b].env && t[a].createdAt < t[b].createdAt
    requires t[a].status == Queued ==> t[b].status == Queued
    ensures var f := Final(cfg, t, evs);
            a in f && b in f && (f[a].status == Queued ==> f[b].status == Queued)
    decreases |evs|
  {
    if evs != [] {
      var t1 := Apply(cfg, t, evs[0]);
      assert LeftToTheQueue([evs[0]], a, b);
      StepDoesNotOvertake(cfg, t, evs[0], a, b);
      StepKeepsRolledBack(cfg, t, evs[0], a);
      StepKeepsRolledBack(cfg, t, evs[0], b);
      NoOvertaking(cfg, t1, evs[1..], a, b);
    }
  }
}
