/** At most one active deploy per environment, and what rolled_back means. */
module DeployActive {
  import opened Common
  import opened DeployModel

  ghost predicate AtMostOneActive(t: Table, e: Env) {
    forall i, j :: i in ActiveIn(t, e) && j in ActiveIn(t, e) ==> i == j
  }

  /** An active deploy was promoted at some time; the newest-deploy guard only
      looks at rows of which this is true. */
  ghost predicate ActivePromoted(t: Table) {
    forall i :: i in t && t[i].status == Active ==> t[i].promotedAt.Some?
  }

  ghost predicate NoStart(evs: seq<Event>) {
    forall k :: 0 <= k < |evs| ==> !evs[k].Start?
  }

  // --------------------------------------------------------------- one step

  /** Every event but a start keeps the invariant. */
  lemma StepKeepsOneActive(cfg: Config, t: Table, ev: Event, e: Env)
    requires Allowed(cfg, t, ev) && AtMostOneActive(t, e) && !ev.Start?
    ensures AtMostOneActive(Apply(cfg, t, ev), e)
  {
    var t' := Apply(cfg, t, ev);
    if (ev.Transition? && TransitionAccepted(t, ev.id, ev.target)) || (ev.Promote? && PromoteAccepted(t, ev)) {
      EndsActiveAlone(cfg, t, ev);
      assert ActiveIn(t', e) <= ActiveIn(t, e) || (t'[ev.id].status == Active && e == t[ev.id].env);
    } else if ev.Rollback? && ev.id in ActiveIn(t, e) {
      forall i | i in ActiveIn(t', e)
        ensures ev.previous == Some(i)
      {
        assert i in ActiveIn(t, e) || ev.previous == Some(i);
      }
    } else {
      hide Apply, Allowed;
      NothingActivated(cfg, t, ev, e);
    }
  }

  lemma NothingActivated(cfg: Config, t: Table, ev: Event, e: Env)
    requires Allowed(cfg, t, ev) && !ev.Start? && !(ev.Transition? && TransitionAccepted(t, ev.id, ev.target))
    requires !(ev.Promote? && PromoteAccepted(t, ev)) && !(ev.Rollback? && ev.id in ActiveIn(t, e))
    ensures ActiveIn(Apply(cfg, t, ev), e) <= ActiveIn(t, e)
  {
    hide IsProduction;
  }

  /** A start keeps it exactly when it is refused or nothing else is active in
      the environment: it does not supersede. */
  lemma StartKeepsOneActiveIff(cfg: Config, t: Table, ev: Event)
    requires Allowed(cfg, t, ev) && ev.Start? && ev.id in t && AtMostOneActive(t, t[ev.id].env)
    ensures AtMostOneActive(Apply(cfg, t, ev), t[ev.id].env) <==>
            (!StartAccepted(t, ev.id, ev.started) || ActiveIn(t, t[ev.id].env) == {})
  {
    var e := t[ev.id].env;
    if StartAccepted(t, ev.id, ev.started) {
      var t' := Apply(cfg, t, ev);
      assert ActiveIn(t', e) == ActiveIn(t, e) + {ev.id};
      if a :| a in ActiveIn(t, e) {
        assert a in ActiveIn(t', e) && ev.id in ActiveIn(t', e) && a != ev.id;
      }
    }
  }

  /** A table in which it does not: one deploy active, one stopped. */
  function OneStopped(e: Env): Table {
    var container := Container(Some("10.0.0.2"), Some(3000), Some(101), Some("node"));
    map[0 := Deploy(e, Active, 0, Some(1), container),
        1 := Deploy(e, Stopped, 2, Some(3), container.(vmid := Some(102)))]
  }

  lemma StartLeavesTwoActive(cfg: Config, e: Env, now: Time)
    ensures var t, ev := OneStopped(e), Start(1, now, true);
            Allowed(cfg, t, ev) && ActiveIn(t, e) == {0} && ActiveIn(Apply(cfg, t, ev), e) == {0, 1}
  {
    var t, ev := OneStopped(e), Start(1, now, true);
    assert RunningIn(t, e.project) == {0};
    assert Apply(cfg, t, ev) == Activate(t, 1, now);
  }

  lemma StepKeepsActivePromoted(cfg: Config, t: Table, ev: Event)
    requires Allowed(cfg, t, ev) && ActivePromoted(t)
    ensures ActivePromoted(Apply(cfg, t, ev))
  {
  }

  /** From any table whatever, also one with several active deploys, a
      transition or promote that ends active leaves that deploy as the only one. */
  lemma EndsActiveAlone(cfg: Config, t: Table, ev: Event)
    requires Allowed(cfg, t, ev)
    requires (ev.Transition? && TransitionAccepted(t, ev.id, ev.target)) || (ev.Promote? && PromoteAccepted(t, ev))
    ensures var t' := Apply(cfg, t, ev);
            t'[ev.id].status == Active ==> ActiveIn(t', t[ev.id].env) == {ev.id}
  {
  }

  /** No event, accepted or refused, moves a deploy out of rolled_back or
      removes a row, and a row never changes environment or age. */
  lemma StepKeepsRolledBack(cfg: Config, t: Table, ev: Event, id: DeployId)
    requires Allowed(cfg, t, ev) && id in t
    ensures var t' := Apply(cfg, t, ev);
            id in t' && t'[id].env == t[id].env && t'[id].createdAt == t[id].createdAt &&
            (t[id].status == RolledBack ==> t'[id].status == RolledBack)
  {
  }

  // --------------------------------------------------------------- all runs

  lemma {:induction false} RunKeepsOneActive(cfg: Config, t: Table, evs: seq<Event>, e: Env)
    requires Feasible(cfg, t, evs) && AtMostOneActive(t, e) && NoStart(evs)
    ensures AtMostOneActive(Final(cfg, t, evs), e)
    decreases |evs|
  {
    if evs != [] {
      StepKeepsOneActive(cfg, t, evs[0], e);
      RunKeepsOneActive(cfg, Apply(cfg, t, evs[0]), evs[1..], e);
    }
  }

  lemma {:induction false} RunKeepsActivePromoted(cfg: Config, t: Table, evs: seq<Event>)
    requires Feasible(cfg, t, evs) && ActivePromoted(t)
    ensures ActivePromoted(Final(cfg, t, evs))
    decreases |evs|
  {
    if evs != [] {
      StepKeepsActivePromoted(cfg, t, evs[0]);
      RunKeepsActivePromoted(cfg, Apply(cfg, t, evs[0]), evs[1..]);
    }
  }

  lemma {:induction false} RolledBackIsAbsorbing(cfg: Config, t: Table, evs: seq<Event>, id: DeployId)
    requires Feasible(cfg, t, evs) && id in t
    ensures id in Final(cfg, t, evs)
    ensures Final(cfg, t, evs)[id].env == t[id].env && Final(cfg, t, evs)[id].createdAt == t[id].createdAt
    ensures t[id].status == RolledBack ==> Final(cfg, t, evs)[id].status == RolledBack
    decreases |evs|
  {
    if evs != [] {
      StepKeepsRolledBack(cfg, t, evs[0], id);
      RolledBackIsAbsorbing(cfg, Apply(cfg, t, evs[0]), evs[1..], id);
    }
  }

  /** From any table, starts having done what they may: an accepted transition
      or promote that ends active repairs the environment until the next start. */
  lemma RepairedUntilNextStart(cfg: Config, t: Table, ev: Event, rest: seq<Event>)
    requires Allowed(cfg, t, ev) && Feasible(cfg, Apply(cfg, t, ev), rest) && NoStart(rest)
    requires (ev.Transition? && TransitionAccepted(t, ev.id, ev.target)) || (ev.Promote? && PromoteAccepted(t, ev))
    requires Apply(cfg, t, ev)[ev.id].status == Active
    ensures AtMostOneActive(Final(cfg, Apply(cfg, t, ev), rest), t[ev.id].env)
  {
    EndsActiveAlone(cfg, t, ev);
    RunKeepsOneActive(cfg, Apply(cfg, t, ev), rest, t[ev.id].env);
  }
}
