/** What a run of the executor comes to, told from how its calls ended. */
module ExecutorLaws {
  import opened Common
  import opened DeployModel
  import Laws = DeployLaws
  import opened ExecutorModel

  /** The network gave the attempt an address. */
  predicate HasAddress(p: Plan) {
    (p.network.Flat? && p.network.ip != "") ||
    (p.network.Leased? && p.network.leased.Some? && p.network.leased.value != "")
  }

  /** Every call up to the health check ended well; secrets only have to be
      written without an unexpected exception, and a container without an address
      is not checked. */
  predicate AllStagesPass(p: Plan) {
    !p.network.NoNetwork? && p.convert == Passes && p.installed && p.secrets != Breaks && p.tarball == Passes &&
    p.schedule == Passes && p.upload == Passes && p.numbered && p.create == Passes && p.owned == Passes &&
    p.start == Passes && (HasAddress(p) ==> p.check == Passes)
  }

  /** Another deploy that is not failed, rolled back or superseded has the address. */
  predicate TakenByAnother(t: Table, id: DeployId, p: Plan) {
    p.network.Flat? &&
    exists j :: j in t && j != id && t[j].container.ip == Some(p.network.ip) &&
                t[j].status != Failed && t[j].status != RolledBack && t[j].status != Superseded
  }

  predicate Waiting(d: Deploy) {
    d.status == Queued || d.status == Building || d.status == ArtifactReady || d.status == Provisioning
  }

  /** Stopping the previous container, or routing, ended unexpectedly. */
  predicate BreaksLate(p: Plan) {
    (p.existing && p.stopOld == Breaks) || (HasAddress(p) && p.port != 0 && p.routing == Breaks)
  }

  lemma HaltsIff(t: Table, id: DeployId, p: Plan)
    requires id in t && Waiting(t[id])
    ensures var h := Halts(t, id, p);
            (h.None? || h.value.point == AfterPromotion <==> AllStagesPass(p) && !TakenByAnother(t, id, p)) &&
            (AllStagesPass(p) && !TakenByAnother(t, id, p) ==> (h.None? <==> !BreaksLate(p)))
  {
    hide Ended;
    assert Conflicts(t, id, p) <==> TakenByAnother(t, id, p);
    hide Conflicts, TakenByAnother;
  }

  /** The deploy is promoted exactly when every stage ended well and nobody else
      has the address; otherwise no route moves. */
  lemma PromotedIff(cfg: Config, before: World, id: DeployId, p: Plan, name: string, now: Time,
                    pick: Option<DeployId>, raised: bool, after: World)
    requires id in before.rows && Waiting(before.rows[id])
    requires Ran(cfg, before, id, p, name, now, pick, raised, after)
    ensures id in after.rows
    ensures after.rows[id].status == Active || after.rows[id].status == Superseded <==>
            AllStagesPass(p) && !TakenByAnother(before.rows, id, p)
    ensures !(AllStagesPass(p) && !TakenByAnother(before.rows, id, p)) ==> after.production == before.production
  {
    HaltsIff(before.rows, id, p);
    StatusAfter(cfg, before.rows, id, p, now, pick, after.rows);
    hide Halts, Outcome, RunCalls, Replayed, LeftTemplates, Raises, AllStagesPass, TakenByAnother;
  }

  lemma StatusAfter(cfg: Config, t: Table, id: DeployId, p: Plan, now: Time, pick: Option<DeployId>, t': Table)
    requires id in t && Waiting(t[id]) && Outcome(cfg, t, id, p, now, pick, t')
    ensures var h := Halts(t, id, p);
            id in t' && (t'[id].status in {Active, Superseded} <==> h.None? || h.value.point == AfterPromotion)
  {
    var h := Halts(t, id, p);
    if h.None? || h.value.point == AfterPromotion {
      var t1 := Promoted(t, id, p, now);
      assert pick.Some? ==> pick.value in QueuedIn(t1, t[id].env);
    } else {
      var t1 := At(t, id, Failed, NO_CONTAINER);
      assert PreActive(t[id].status);
      if h.value.point != AtClaim && !HandlerRaises(h, p) {
        assert pick.Some? ==> pick.value in QueuedIn(t1, t[id].env);
      }
    }
  }

  // --------------------------------------------------------- a run that promotes

  /** Nothing but the promoted row, the deploys it supersedes and the one the queue
      picks has changed. The row has the address, port, number and node of the
      attempt, unless something broke after the promotion: then its columns are
      empty, or all of them full still when deleting the template breaks as well. */
  lemma PromotedRows(cfg: Config, before: World, id: DeployId, p: Plan, name: string, now: Time,
                     pick: Option<DeployId>, raised: bool, after: World)
    requires id in before.rows && Waiting(before.rows[id])
    requires Ran(cfg, before, id, p, name, now, pick, raised, after)
    requires AllStagesPass(p) && !TakenByAnother(before.rows, id, p)
    ensures after.rows.Keys == before.rows.Keys
    ensures var d, d', outrun := before.rows[id], after.rows[id], Laws.Outrun(before.rows, id);
            d'.env == d.env && d'.createdAt == d.createdAt && d'.status == (if outrun then Superseded else Active) &&
            d'.promotedAt == (if outrun then d.promotedAt else Some(now)) &&
            d'.container ==
            if BreaksLate(p) && p.deletion != Breaks then Container(None, None, None, None)
            else Container(if p.network.Flat? then Some(p.network.ip) else d.container.ip,
                           Some(p.port), Some(p.vmid), Some(p.node))
    ensures forall j :: j in before.rows && j != id ==>
              var d, d' := before.rows[j], after.rows[j];
              if d.env == before.rows[id].env && d.status == Active && !Laws.Outrun(before.rows, id)
              then d' == d.(status := Superseded)
              else d' == d || (pick == Some(j) && d.status == Queued && d' == d.(status := Building))
  {
    HaltsIff(before.rows, id, p);
    RowsAfterPromotion(cfg, before.rows, id, p, now, pick);
    hide Halts, RunCalls, Replayed, LeftTemplates, Raises, AllStagesPass, TakenByAnother, Laws.Outrun, Promoted,
         ValidPick, Full;
  }

  lemma OutrunIff(t: Table, id: DeployId, c: Container)
    requires id in t && Waiting(t[id])
    ensures NewerActive(At(t, id, Healthy, c), id) <==> Laws.Outrun(t, id)
  {
    var healthy := At(t, id, Healthy, c);
    if Laws.Outrun(t, id) {
      var j :| j in t && t[j].env == t[id].env && t[j].status == Active && t[j].promotedAt != None &&
               t[j].createdAt > t[id].createdAt;
      assert j in ActiveIn(healthy, healthy[id].env);
    }
  }

  lemma RowsAfterPromotion(cfg: Config, t: Table, id: DeployId, p: Plan, now: Time, pick: Option<DeployId>)
    requires id in t && Waiting(t[id])
    requires ValidPick(cfg, Promoted(t, id, p, now), t[id].env, pick)
    ensures var t', outrun := PromoteNext(Promoted(t, id, p, now), pick), Laws.Outrun(t, id);
            t'.Keys == t.Keys &&
            t'[id] == t[id].(status := if outrun then Superseded else Active,
                             promotedAt := if outrun then t[id].promotedAt else Some(now),
                             container := Container(if p.network.Flat? then Some(p.network.ip) else t[id].container.ip,
                                                    Some(p.port), Some(p.vmid), Some(p.node))) &&
            forall j :: j in t && j != id ==>
              if t[j].env == t[id].env && t[j].status == Active && !outrun then t'[j] == t[j].(status := Superseded)
              else t'[j] == t[j] || (pick == Some(j) && t[j].status == Queued && t'[j] == t[j].(status := Building))
  {
    OutrunIff(t, id, Full(p, t[id].container));
    hide Laws.Outrun;
    assert pick.Some? ==> pick.value in QueuedIn(Promoted(t, id, p, now), t[id].env);
  }

  /** The production route moves, and to this deploy, exactly when the run is in
      production, it is active in the end, and it has somewhere to route to. */
  lemma RoutedIff(cfg: Config, before: World, id: DeployId, p: Plan, name: string, now: Time,
                  pick: Option<DeployId>, raised: bool, after: World)
    requires id in before.rows && Waiting(before.rows[id])
    requires Ran(cfg, before, id, p, name, now, pick, raised, after)
    ensures id in after.rows
    ensures after.production ==
            if AllStagesPass(p) && !TakenByAnother(before.rows, id, p) && after.rows[id].status == Active &&
               p.production && HasAddress(p) && p.port != 0 && p.routing == Passes &&
               !(p.existing && p.stopOld == Breaks)
            then before.production[before.rows[id].env.project := id] else before.production
  {
    PromotedIff(cfg, before, id, p, name, now, pick, raised, after);
    HaltsIff(before.rows, id, p);
    hide Halts, Outcome, RunCalls, Replayed, LeftTemplates, Raises, AllStagesPass, TakenByAnother;
  }

  // ------------------------------------------------------------ a run that fails

  /** Removing the container: both proofs and the destroy are needed, and a stop
      that merely fails is tolerated. */
  predicate Removed(c: Cleanup) {
    c.owned == Passes && c.stop != Breaks && c.ownedAgain == Passes && c.destroy == Passes
  }

  predicate RemovalBreaks(c: Cleanup) {
    c.owned == Breaks ||
    (c.owned == Passes &&
     (c.stop == Breaks || c.ownedAgain == Breaks || (c.ownedAgain == Passes && c.destroy == Breaks)))
  }

  /** The stages before the container exists. */
  predicate Creates(p: Plan) {
    !p.network.NoNetwork? && p.convert == Passes && p.installed && p.secrets != Breaks && p.tarball == Passes &&
    p.schedule == Passes && p.upload == Passes && p.numbered && p.create == Passes
  }

  /** An expected failure leaves the container to the last cleanup, which breaks. */
  predicate HandlerBreaks(p: Plan) {
    Creates(p) && RemovalBreaks(p.lastCleanup) &&
    (p.owned == Fails || (p.owned == Passes && p.start == Fails) ||
     (p.owned == Passes && p.start == Passes && HasAddress(p) && p.check == Fails && !Removed(p.cleanup) &&
      !RemovalBreaks(p.cleanup) && !(p.existing && p.restart == Breaks)))
  }

  /** The deploy ends failed with empty columns exactly when some stage did not
      end well, nobody else has its address, and the last cleanup does not break. */
  lemma FailedIff(cfg: Config, before: World, id: DeployId, p: Plan, name: string, now: Time,
                  pick: Option<DeployId>, raised: bool, after: World)
    requires id in before.rows && Waiting(before.rows[id])
    requires Ran(cfg, before, id, p, name, now, pick, raised, after)
    ensures id in after.rows
    ensures after.rows[id].status == Failed && after.rows[id].container == Container(None, None, None, None) <==>
            !AllStagesPass(p) && !TakenByAnother(before.rows, id, p) && !HandlerBreaks(p)
  {
    PromotedIff(cfg, before, id, p, name, now, pick, raised, after);
    HaltsIff(before.rows, id, p);
    var h := Halts(before.rows, id, p);
    if h.Some? && h.value.point != AfterPromotion {
      EndsFailedIff(cfg, before.rows, id, p, now, pick, after.rows);
      LeftToHandler(before.rows, id, p);
    }
    hide Halts, Outcome, RunCalls, Replayed, LeftTemplates, Raises, AllStagesPass, TakenByAnother, HandlerBreaks;
  }

  lemma LeftToHandler(t: Table, id: DeployId, p: Plan)
    requires id in t && Waiting(t[id])
    requires Halts(t, id, p).Some? && Halts(t, id, p).value.point != AfterPromotion
    ensures var h := Halts(t, id, p);
            (h.value.point == AtClaim <==> TakenByAnother(t, id, p)) &&
            (!TakenByAnother(t, id, p) ==>
              (!h.value.broken && AfterCreate(h) && !AlreadyRemoved(h, p) && Ended(p.lastCleanup, true).Breaks? <==>
               HandlerBreaks(p)))
  {
    assert Conflicts(t, id, p) <==> TakenByAnother(t, id, p);
    hide Conflicts, TakenByAnother;
  }

  /** Every call of the cleanup ends well, and the container is gone. */
  predicate Works(c: Cleanup) {
    c == Cleanup(Passes, Passes, Passes, Passes, true)
  }

  /** With cleanups that work, a run that some stage stopped leaves nothing behind:
      the deploy failed, one queued deploy may have started, no other row has
      changed, and containers and routes are as they were; so are the templates,
      but for one of the same name. */
  lemma StoppedRunLeavesNothing(cfg: Config, before: World, id: DeployId, p: Plan, name: string, now: Time,
                                pick: Option<DeployId>, raised: bool, after: World)
    requires id in before.rows && Waiting(before.rows[id]) && Plausible(before, p)
    requires Ran(cfg, before, id, p, name, now, pick, raised, after)
    requires !AllStagesPass(p) && !TakenByAnother(before.rows, id, p)
    requires Works(p.cleanup) && Works(p.lastCleanup) && p.deletion == Passes
    requires (p.create != Passes ==> !p.made) && (p.upload != Passes ==> !p.stored)
    ensures !raised && after.rows.Keys == before.rows.Keys
    ensures after.rows[id] == before.rows[id].(status := Failed, container := Container(None, None, None, None))
    ensures forall j :: j in before.rows && j != id ==>
              after.rows[j] == before.rows[j] ||
              (pick == Some(j) && before.rows[j].status == Queued &&
               after.rows[j] == before.rows[j].(status := Building))
    ensures after.containers == before.containers && after.production == before.production
    ensures after.templates == before.templates || after.templates == before.templates - {name}
  {
    HaltsIff(before.rows, id, p);
    assert !Conflicts(before.rows, id, p) by {
      assert Conflicts(before.rows, id, p) <==> TakenByAnother(before.rows, id, p);
    }
    FailureIsCleanedUp(cfg, before, id, p, name, now, pick, raised, after);
    PickWasQueued(cfg, before.rows, id, p, now, pick, after.rows);
    hide Halts, RunCalls, Replayed, LeftTemplates, Raises, AllStagesPass, TakenByAnother, Outcome;
  }

  lemma PickWasQueued(cfg: Config, t: Table, id: DeployId, p: Plan, now: Time, pick: Option<DeployId>, t': Table)
    requires id in t && Outcome(cfg, t, id, p, now, pick, t')
    ensures pick.Some? ==> pick.value in t && (pick.value != id ==> t[pick.value].status == Queued)
  {
    var t1, t2 := Promoted(t, id, p, now), At(t, id, Failed, NO_CONTAINER);
    assert pick.Some? ==> pick.value in QueuedIn(t1, t[id].env) || pick.value in QueuedIn(t2, t[id].env);
  }

  // ---------------------------------------------------------- calls and leftovers

  /** A removal asks for the destroy exactly when both proofs succeed and the stop
      does, or merely fails where that is tolerated. */
  lemma RemovalAsks(c: Cleanup, tolerant: bool)
    ensures (exists call :: call in RemovalCalls(c, tolerant) && call.DestroyLxc?) <==>
            c.owned == Passes && (c.stop == Passes || (c.stop == Fails && tolerant)) && c.ownedAgain == Passes
    ensures Destroys(c, tolerant) <==>
            c.owned == Passes && (c.stop == Passes || (c.stop == Fails && tolerant)) && c.ownedAgain == Passes && c.gone
  {
    var calls := RemovalCalls(c, tolerant);
    if c.owned == Passes && (c.stop == Passes || (c.stop == Fails && tolerant)) && c.ownedAgain == Passes {
      assert calls[3] == DestroyLxc(c.gone);
    }
  }

  /** The cluster is asked for a container exactly when the stages before that
      ended well; and after a run that promoted, the container is there exactly
      when nothing broke late or the last cleanup could not destroy it. */
  lemma ContainerIff(cfg: Config, before: World, id: DeployId, p: Plan, name: string, now: Time,
                     pick: Option<DeployId>, raised: bool, after: World)
    requires id in before.rows && Waiting(before.rows[id]) && Plausible(before, p)
    requires Ran(cfg, before, id, p, name, now, pick, raised, after)
    ensures |before.calls| <= |after.calls|
    ensures (exists c :: c in NewCalls(before, after) && c.CreateLxc?) <==>
            Creates(p.(create := Passes)) && !TakenByAnother(before.rows, id, p)
    ensures AllStagesPass(p) && !TakenByAnother(before.rows, id, p) ==>
              (p.vmid in after.containers <==>
               !BreaksLate(p) ||
               !(p.lastCleanup.owned == Passes && p.lastCleanup.stop == Passes && p.lastCleanup.ownedAgain == Passes &&
                 p.lastCleanup.gone))
  {
    HaltsIff(before.rows, id, p);
    var h := Halts(before.rows, id, p);
    assert NewCalls(before, after) == RunCalls(h, p);
    CreationAsked(before.rows, id, p);
    RunReplayed(before.containers, before.rows, id, p);
    PromotedLeaves(before.rows, id, p);
    hide Halts, RunCalls, Replayed, LeftTemplates, Raises, AllStagesPass, TakenByAnother, Outcome, LeavesContainer,
         Creates;
  }

  lemma CreationAsked(t: Table, id: DeployId, p: Plan)
    requires id in t && Waiting(t[id])
    ensures (exists c :: c in RunCalls(Halts(t, id, p), p) && c.CreateLxc?) <==>
            Creates(p.(create := Passes)) && !TakenByAnother(t, id, p)
  {
    var h := Halts(t, id, p);
    assert Conflicts(t, id, p) <==> TakenByAnother(t, id, p);
    OnlyOneCreation(h, p);
    var rest := HealthCalls(h, p) + HandlerCalls(h, p);
    assert RunCalls(h, p) == StageCalls(h, p) + rest;
    hide Conflicts, TakenByAnother, HealthCalls, HandlerCalls, Ended;
    if Creates(p.(create := Passes)) && !TakenByAnother(t, id, p) {
      assert StageCalls(h, p) == CreationCalls(p) && CreationCalls(p)[0].CreateLxc?;
      assert CreationCalls(p)[0] in RunCalls(h, p);
    }
  }

  lemma PromotedLeaves(t: Table, id: DeployId, p: Plan)
    requires id in t && Waiting(t[id])
    ensures AllStagesPass(p) && !TakenByAnother(t, id, p) ==>
              (LeavesContainer(Halts(t, id, p), p) <==>
               !BreaksLate(p) ||
               !(p.lastCleanup.owned == Passes && p.lastCleanup.stop == Passes && p.lastCleanup.ownedAgain == Passes &&
                 p.lastCleanup.gone)) &&
              p.create == Passes
  {
    assert Conflicts(t, id, p) <==> TakenByAnother(t, id, p);
    hide Conflicts, TakenByAnother;
  }

  /** The stages before the upload. */
  predicate Uploads(p: Plan) {
    !p.network.NoNetwork? && p.convert == Passes && p.installed && p.secrets != Breaks && p.tarball == Passes &&
    p.schedule == Passes
  }

  /** An exception escapes the run exactly when the last cleanup breaks after an
      expected failure, or deleting the uploaded template does. The template is
      there in the end exactly when an upload left it there and no deletion took
      effect; no other template is touched. */
  lemma TemplatesAndRaise(cfg: Config, before: World, id: DeployId, p: Plan, name: string, now: Time,
                          pick: Option<DeployId>, raised: bool, after: World)
    requires id in before.rows && Waiting(before.rows[id])
    requires Ran(cfg, before, id, p, name, now, pick, raised, after)
    ensures var reached := Uploads(p) && !TakenByAnother(before.rows, id, p);
            (raised <==> (reached && HandlerBreaks(p)) || (reached && p.upload == Passes && p.deletion == Breaks)) &&
            after.templates ==
            if reached && p.upload == Passes then
              if p.deletion == Passes || p.deleted then before.templates - {name} else before.templates + {name}
            else if reached && p.stored then before.templates + {name} else before.templates
  {
    EndOfRun(before.rows, id, p);
    hide Halts, Outcome, RunCalls, Replayed, Uploads, TakenByAnother, HandlerBreaks, HandlerRaises, AfterUpload;
  }

  lemma EndOfRun(t: Table, id: DeployId, p: Plan)
    requires id in t && Waiting(t[id])
    ensures var h, reached := Halts(t, id, p), Uploads(p) && !TakenByAnother(t, id, p);
            (AfterUpload(h) <==> reached && p.upload == Passes) &&
            (h.Some? && h.value.point == AtUpload <==> reached && p.upload != Passes) &&
            (HandlerRaises(h, p) <==> reached && HandlerBreaks(p))
  {
    assert Conflicts(t, id, p) <==> TakenByAnother(t, id, p);
    hide Conflicts, TakenByAnother;
  }
}
