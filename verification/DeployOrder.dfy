/** Promotion is order-independent: whichever of the healthy deploys of an
    environment reaches "active" first, the newest ends up active. */
module DeployOrder {
  import opened Common
  import opened DeployModel
  import opened DeployActive
  import opened DeployAccounting

  function Ids(order: seq<DeployId>): set<DeployId> {
    set i | i in order
  }

  ghost predicate NoRepeats(order: seq<DeployId>) {
    forall i, j :: 0 <= i < j < |order| ==> order[i] != order[j]
  }

  predicate Activates(ev: Event, id: DeployId) {
    ev.Transition? && ev.id == id && ev.target == Active
  }

  /** The events that promote the deploys of `order` to active, one by one. */
  ghost predicate Activations(evs: seq<Event>, order: seq<DeployId>) {
    |evs| == |order| && forall k :: 0 <= k < |evs| ==> Activates(evs[k], order[k])
  }

  /** An event that leaves the deploys of `e` where they are: a new deploy, which
      may wake the queue, container columns, another environment's business, or a
      sweep that finds nothing stuck here. */
  predicate Bystander(t: Table, ev: Event, e: Env) {
    match ev
    case Create(_, _, _, _) => true
    case Track(_, _) => true
    case Sweep(now, skipped) => forall i :: i in StuckIds(t, now, skipped) ==> t[i].env != e
    case _ => ev.id in t ==> t[ev.id].env != e
  }

  /** The activations of `order`, with any bystanders before, between and after. */
  ghost predicate Race(cfg: Config, t: Table, evs: seq<Event>, order: seq<DeployId>, e: Env)
    requires Feasible(cfg, t, evs)
    decreases |evs|
  {
    if evs == [] then order == []
    else
      var t1 := Apply(cfg, t, evs[0]);
      if order != [] && Activates(evs[0], order[0]) then Race(cfg, t1, evs[1..], order[1..], e)
      else Bystander(t, evs[0], e) && Race(cfg, t1, evs[1..], order, e)
  }

  ghost predicate Healthies(t: Table, e: Env, ids: set<DeployId>) {
    forall i :: i in ids ==> i in t && t[i].env == e && t[i].status == Healthy
  }

  ghost predicate DistinctAges(t: Table, ids: set<DeployId>)
    requires ids <= t.Keys
  {
    forall i, j :: i in ids && j in ids && t[i].createdAt == t[j].createdAt ==> i == j
  }

  ghost predicate Newest(t: Table, ids: set<DeployId>, w: DeployId)
    requires ids <= t.Keys
  {
    w in ids && forall i :: i in ids ==> t[i].createdAt <= t[w].createdAt
  }

  /** What the race promises: the newest contender is active and alone, unless it
      is one of the previously active deploys, which then all stay as they were. */
  ghost predicate RaceWon(t: Table, f: Table, e: Env, contenders: set<DeployId>, w: DeployId)
    requires contenders + ActiveIn(t, e) <= t.Keys
  {
    t.Keys <= f.Keys &&
    (forall i :: i in contenders && i != w ==> f[i].status == Superseded) &&
    (w in contenders ==>
      ActiveIn(f, e) == {w} && forall a :: a in ActiveIn(t, e) ==> f[a].status == Superseded) &&
    (w !in contenders ==> ActiveIn(f, e) == ActiveIn(t, e))
  }

  // ---------------------------------------------------------- one activation

  /** A row that an activation neither targets, supersedes nor takes from the queue. */
  ghost predicate SameButFor(t: Table, t': Table, h: DeployId) {
    t'.Keys == t.Keys &&
    (forall i :: i in t ==> t'[i].env == t[i].env && t'[i].createdAt == t[i].createdAt) &&
    (forall i :: i in t && i != h && t[i].status != Active && t[i].status != Queued ==> t'[i] == t[i])
  }

  ghost predicate OlderThanSomeActive(t: Table, h: DeployId, e: Env)
    requires h in t
  {
    exists a :: a in ActiveIn(t, e) && t[a].createdAt > t[h].createdAt
  }

  /** A healthy deploy told to become active wins against every active deploy of
      its environment, or is superseded and changes nothing else. */
  ghost predicate WinsOrLoses(t: Table, t': Table, h: DeployId, e: Env)
    requires h in t && t'.Keys == t.Keys
  {
    if OlderThanSomeActive(t, h, e) then t'[h].status == Superseded && ActiveIn(t', e) == ActiveIn(t, e)
    else ActiveIn(t', e) == {h} && forall a :: a in ActiveIn(t, e) ==> t'[a].status == Superseded
  }

  lemma MovedToActive(t: Table, h: DeployId, now: Time, e: Env)
    requires Healthies(t, e, {h}) && ActivePromoted(t)
    ensures NewerActive(t, h) <==> OlderThanSomeActive(t, h, e)
    ensures var t' := Moved(t, h, Active, now); SameButFor(t, t', h) && WinsOrLoses(t, t', h, e)
  {
    if OlderThanSomeActive(t, h, e) {
      var a :| a in ActiveIn(t, e) && t[a].createdAt > t[h].createdAt;
      assert t[a].promotedAt.Some?;
      var t' := Moved(t, h, Active, now);
      assert ActiveIn(t', e) == ActiveIn(t, e);
    }
  }

  lemma OneActivation(cfg: Config, t: Table, ev: Event, e: Env)
    requires Allowed(cfg, t, ev) && ev.Transition? && ev.target == Active
    requires Healthies(t, e, {ev.id}) && ActivePromoted(t)
    ensures ValidPick(cfg, Moved(t, ev.id, Active, ev.now), e, ev.pick)
    ensures Apply(cfg, t, ev) == PromoteNext(Moved(t, ev.id, Active, ev.now), ev.pick)
    ensures var t' := Apply(cfg, t, ev); SameButFor(t, t', ev.id) && WinsOrLoses(t, t', ev.id, e)
  {
    MovedToActive(t, ev.id, ev.now, e);
    assert TransitionAccepted(t, ev.id, Active) && Frees(Effective(t, ev.id, Active));
    var t1 := Moved(t, ev.id, Active, ev.now);
    PromotionLeavesActives(cfg, t1, ev.pick, e);
  }

  lemma PromotionLeavesActives(cfg: Config, t: Table, pick: Option<DeployId>, e: Env)
    requires ValidPick(cfg, t, e, pick)
    ensures var t' := PromoteNext(t, pick);
            t'.Keys == t.Keys && ActiveIn(t', e) == ActiveIn(t, e) &&
            forall i :: i in t ==> t'[i] == t[i] || (t[i].status == Queued && t'[i] == t[i].(status := Building))
  {
  }

  /** No deploy of the environment is gone, or changed but by leaving the queue. */
  ghost predicate Kept(t: Table, t1: Table, e: Env) {
    t.Keys <= t1.Keys &&
    (forall i :: i in t && t[i].env == e ==>
      t1[i].env == e && t1[i].createdAt == t[i].createdAt && (t[i].status != Queued ==> t1[i].status == t[i].status)) &&
    (forall i :: i in t1 && t1[i].env == e && t1[i].status == Active ==>
      i in t && t[i].env == e && t[i].status == Active)
  }

  lemma KeptActives(t: Table, t1: Table, e: Env)
    requires Kept(t, t1, e)
    ensures ActiveIn(t1, e) == ActiveIn(t, e)
  {
  }

  lemma PickKeeps(cfg: Config, t: Table, t1: Table, env: Env, pick: Option<DeployId>, e: Env)
    requires Kept(t, t1, e) && ValidPick(cfg, t1, env, pick)
    requires pick.Some? && pick.value in t && t[pick.value].env == e ==> t[pick.value].status == Queued
    ensures Kept(t, PromoteNext(t1, pick), e)
  {
  }

  lemma CreateKeeps(cfg: Config, t: Table, ev: Event, e: Env)
    requires Allowed(cfg, t, ev) && ev.Create?
    ensures Kept(t, Apply(cfg, t, ev), e)
  {
    var t1 := Inserted(t, ev.id, ev.env, ev.now);
    assert Kept(t, t1, e);
    if !QueueFull(cfg, t1, ev.env) {
      PickKeeps(cfg, t, t1, ev.env, ev.pick, e);
    }
  }

  lemma ForeignTransitionKeeps(cfg: Config, t: Table, ev: Event, e: Env)
    requires Allowed(cfg, t, ev) && ev.Transition? && (ev.id in t ==> t[ev.id].env != e)
    ensures Kept(t, Apply(cfg, t, ev), e)
  {
    if TransitionAccepted(t, ev.id, ev.target) {
      var t1 := Moved(t, ev.id, ev.target, ev.now);
      assert Kept(t, t1, e);
      assert ev.pick.Some? ==> ev.pick.value in QueuedIn(t1, t[ev.id].env);
    }
  }

  lemma ForeignRollbackKeeps(cfg: Config, t: Table, ev: Event, e: Env)
    requires Allowed(cfg, t, ev) && ev.Rollback? && (ev.id in t ==> t[ev.id].env != e)
    ensures Kept(t, Apply(cfg, t, ev), e)
  {
    assert ev.id in t && ev.previous.Some? ==> ev.previous.value in RollbackCandidates(t, ev.id);
  }

  lemma ForeignPromoteKeeps(cfg: Config, t: Table, ev: Event, e: Env)
    requires Allowed(cfg, t, ev) && ev.Promote? && (ev.id in t ==> t[ev.id].env != e)
    ensures Kept(t, Apply(cfg, t, ev), e)
  {
    hide IsProduction;
  }

  lemma OtherBystanderKeeps(cfg: Config, t: Table, ev: Event, e: Env)
    requires Allowed(cfg, t, ev) && Bystander(t, ev, e) &&
             (ev.Stop? || ev.Start? || ev.Destroy? || ev.Sweep? || ev.Track?)
    ensures Kept(t, Apply(cfg, t, ev), e)
  {
  }

  lemma BystanderKeeps(cfg: Config, t: Table, ev: Event, e: Env)
    requires Allowed(cfg, t, ev) && Bystander(t, ev, e)
    ensures Kept(t, Apply(cfg, t, ev), e)
  {
    hide Allowed, Apply, Kept;
    if ev.Create? {
      CreateKeeps(cfg, t, ev, e);
    } else if ev.Transition? {
      ForeignTransitionKeeps(cfg, t, ev, e);
    } else if ev.Rollback? {
      ForeignRollbackKeeps(cfg, t, ev, e);
    } else if ev.Promote? {
      ForeignPromoteKeeps(cfg, t, ev, e);
    } else {
      OtherBystanderKeeps(cfg, t, ev, e);
    }
  }

  /** The hypotheses of the race carry over its first activation. */
  lemma StepIntoRace(cfg: Config, t: Table, ev: Event, order: seq<DeployId>, e: Env)
    requires Allowed(cfg, t, ev) && order != [] && Activates(ev, order[0]) && NoRepeats(order)
    requires Healthies(t, e, Ids(order)) && ActivePromoted(t)
    ensures Ids(order) == {order[0]} + Ids(order[1..]) && order[0] !in Ids(order[1..]) && NoRepeats(order[1..])
    ensures Healthies(t, e, {order[0]})
    ensures var t1 := Apply(cfg, t, ev);
            SameButFor(t, t1, order[0]) && WinsOrLoses(t, t1, order[0], e) &&
            Healthies(t1, e, Ids(order[1..])) && ActivePromoted(t1)
  {
    assert forall i :: i in order[1..] ==> i in order;
    OneActivation(cfg, t, ev, e);
    StepKeepsActivePromoted(cfg, t, ev);
  }

  /** And over a bystander. */
  lemma StepPastRace(cfg: Config, t: Table, ev: Event, order: seq<DeployId>, e: Env)
    requires Allowed(cfg, t, ev) && Bystander(t, ev, e) && Healthies(t, e, Ids(order)) && ActivePromoted(t)
    ensures var t1 := Apply(cfg, t, ev);
            Healthies(t1, e, Ids(order)) && ActivePromoted(t1) && Kept(t, t1, e) && ActiveIn(t1, e) == ActiveIn(t, e)
  {
    hide Allowed, Apply, Bystander;
    BystanderKeeps(cfg, t, ev, e);
    KeptActives(t, Apply(cfg, t, ev), e);
    StepKeepsActivePromoted(cfg, t, ev);
  }

  /** Deploys superseded in the race stay so while the others run. */
  lemma {:induction false} SupersededStays(cfg: Config, t: Table, evs: seq<Event>, order: seq<DeployId>, e: Env,
                                           id: DeployId)
    requires Feasible(cfg, t, evs) && Race(cfg, t, evs, order, e) && NoRepeats(order)
    requires Healthies(t, e, Ids(order)) && ActivePromoted(t)
    requires id in t && t[id].env == e && t[id].status == Superseded
    ensures id in Final(cfg, t, evs) && Final(cfg, t, evs)[id].status == Superseded
    decreases |evs|
  {
    hide Apply, Allowed, Bystander;
    if evs != [] {
      var t1 := Apply(cfg, t, evs[0]);
      if order != [] && Activates(evs[0], order[0]) {
        StepIntoRace(cfg, t, evs[0], order, e);
        SupersededStays(cfg, t1, evs[1..], order[1..], e, id);
      } else {
        StepPastRace(cfg, t, evs[0], order, e);
        SupersededStays(cfg, t1, evs[1..], order, e, id);
      }
    }
  }

  lemma RestOfOrder(evs: seq<Event>, order: seq<DeployId>)
    requires Activations(evs, order) && evs != []
    ensures Activates(evs[0], order[0]) && Activations(evs[1..], order[1..])
  {
  }

  /** The activations alone are a race. */
  lemma {:induction false} ActivationsRace(cfg: Config, t: Table, evs: seq<Event>, order: seq<DeployId>, e: Env)
    requires Feasible(cfg, t, evs) && Activations(evs, order)
    ensures Race(cfg, t, evs, order, e)
    decreases |evs|
  {
    hide Apply, Allowed;
    if evs != [] {
      RestOfOrder(evs, order);
      ActivationsRace(cfg, Apply(cfg, t, evs[0]), evs[1..], order[1..], e);
    }
  }

  // ------------------------------------------------------------ the whole race

  /** The first contender lost to an active deploy. */
  lemma LoserWasFirst(t: Table, t1: Table, f: Table, e: Env, h: DeployId, rest: set<DeployId>, w: DeployId)
    requires h in t && rest + ActiveIn(t, e) <= t.Keys && h !in ActiveIn(t, e)
    requires SameButFor(t, t1, h) && OlderThanSomeActive(t, h, e) && WinsOrLoses(t, t1, h, e)
    requires Newest(t, {h} + rest + ActiveIn(t, e), w)
    requires RaceWon(t1, f, e, rest, w) && f[h].status == Superseded
    ensures RaceWon(t, f, e, {h} + rest, w)
  {
    assert w != h;
  }

  /** The first contender beat every active deploy. */
  lemma WinnerWasFirst(t: Table, t1: Table, f: Table, e: Env, h: DeployId, rest: set<DeployId>, w: DeployId)
    requires h in t && rest + ActiveIn(t, e) <= t.Keys && h !in rest
    requires SameButFor(t, t1, h) && !OlderThanSomeActive(t, h, e) && WinsOrLoses(t, t1, h, e)
    requires w in {h} + rest && rest <= t1.Keys
    requires RaceWon(t1, f, e, rest, w)
    requires forall a :: a in ActiveIn(t, e) ==> f[a].status == Superseded
    ensures RaceWon(t, f, e, {h} + rest, w)
  {
    if h != w {
      assert h in ActiveIn(t1, e);
    }
  }

  /** The newest of all contenders is the newest of those left in the race. */
  lemma NewestStays(t: Table, t1: Table, e: Env, h: DeployId, rest: set<DeployId>, w: DeployId)
    requires h in t && rest + ActiveIn(t, e) <= t.Keys && h !in ActiveIn(t, e)
    requires SameButFor(t, t1, h) && WinsOrLoses(t, t1, h, e)
    requires DistinctAges(t, {h} + rest + ActiveIn(t, e)) && Newest(t, {h} + rest + ActiveIn(t, e), w)
    ensures rest + ActiveIn(t1, e) <= t1.Keys
    ensures DistinctAges(t1, rest + ActiveIn(t1, e)) && Newest(t1, rest + ActiveIn(t1, e), w)
    ensures !OlderThanSomeActive(t, h, e) ==> w !in ActiveIn(t, e)
  {
    assert rest + ActiveIn(t1, e) <= {h} + rest + ActiveIn(t, e);
    assert t[h].createdAt <= t[w].createdAt && (t[h].createdAt == t[w].createdAt ==> h == w);
  }

  /** A bystander changes neither who is newest nor what there is to win. */
  lemma NewestMeanwhile(t: Table, t1: Table, e: Env, ids: set<DeployId>, w: DeployId)
    requires ids <= t.Keys && (forall i :: i in ids ==> t[i].env == e) && Kept(t, t1, e)
    requires DistinctAges(t, ids) && Newest(t, ids, w)
    ensures DistinctAges(t1, ids) && Newest(t1, ids, w)
  {
  }

  /** In any order, the newest of the contenders and the previously active
      deploys wins, whatever bystanders do in between. The table may start with
      any number of active deploys. */
  lemma {:induction false} NewestWins(cfg: Config, t: Table, evs: seq<Event>, order: seq<DeployId>, e: Env, w: DeployId)
    requires Feasible(cfg, t, evs) && Race(cfg, t, evs, order, e) && NoRepeats(order)
    requires Healthies(t, e, Ids(order)) && ActivePromoted(t)
    requires DistinctAges(t, Ids(order) + ActiveIn(t, e)) && Newest(t, Ids(order) + ActiveIn(t, e), w)
    ensures RaceWon(t, Final(cfg, t, evs), e, Ids(order), w)
    decreases |evs|
  {
    hide Apply, Allowed, Bystander;
    if evs != [] {
      var t1 := Apply(cfg, t, evs[0]);
      if order != [] && Activates(evs[0], order[0]) {
        FirstOfRace(cfg, t, evs, order, e, w);
      } else {
        StepPastRace(cfg, t, evs[0], order, e);
        NewestMeanwhile(t, t1, e, Ids(order) + ActiveIn(t, e), w);
        NewestWins(cfg, t1, evs[1..], order, e, w);
      }
    }
  }

  lemma {:induction false} FirstOfRace(cfg: Config, t: Table, evs: seq<Event>, order: seq<DeployId>, e: Env,
                                       w: DeployId)
    requires Feasible(cfg, t, evs) && Race(cfg, t, evs, order, e) && NoRepeats(order)
    requires Healthies(t, e, Ids(order)) && ActivePromoted(t)
    requires evs != [] && order != [] && Activates(evs[0], order[0])
    requires DistinctAges(t, Ids(order) + ActiveIn(t, e)) && Newest(t, Ids(order) + ActiveIn(t, e), w)
    ensures RaceWon(t, Final(cfg, t, evs), e, Ids(order), w)
    decreases |evs|, 0
  {
    hide Apply, Allowed, Bystander;
    var h, t1 := order[0], Apply(cfg, t, evs[0]);
    var rest, f := Ids(order[1..]), Final(cfg, t, evs);
    StepIntoRace(cfg, t, evs[0], order, e);
    assert h !in ActiveIn(t, e) && Ids(order) == {h} + rest;
    NewestStays(t, t1, e, h, rest, w);
    NewestWins(cfg, t1, evs[1..], order[1..], e, w);
    if OlderThanSomeActive(t, h, e) {
      SupersededStays(cfg, t1, evs[1..], order[1..], e, h);
      LoserWasFirst(t, t1, f, e, h, rest, w);
    } else {
      forall a | a in ActiveIn(t, e)
        ensures f[a].status == Superseded
      {
        SupersededStays(cfg, t1, evs[1..], order[1..], e, a);
      }
      WinnerWasFirst(t, t1, f, e, h, rest, w);
    }
  }

  // ---------------------------------------------------------------- confluence

  /** Nobody joins the environment. */
  ghost predicate NoNewcomers(evs: seq<Event>, e: Env) {
    forall k :: 0 <= k < |evs| && evs[k].Create? ==> evs[k].env != e
  }

  /** The environment's deploys are the same, of the same age and in the same status. */
  ghost predicate EnvKept(t: Table, t1: Table, e: Env) {
    (forall i :: (i in t && t[i].env == e) <==> (i in t1 && t1[i].env == e)) &&
    forall i :: i in t && t[i].env == e ==> t1[i].status == t[i].status && t1[i].createdAt == t[i].createdAt
  }

  lemma ForeignPickKeepsEnv(cfg: Config, t: Table, t1: Table, env: Env, pick: Option<DeployId>, e: Env)
    requires EnvKept(t, t1, e) && ValidPick(cfg, t1, env, pick) && env != e
    ensures EnvKept(t, PromoteNext(t1, pick), e)
  {
  }

  /** A bystander that adds no deploy to the environment keeps its queue as well. */
  lemma BystanderKeepsEnv(cfg: Config, t: Table, ev: Event, e: Env)
    requires Allowed(cfg, t, ev) && Bystander(t, ev, e) && (ev.Create? ==> ev.env != e)
    ensures EnvKept(t, Apply(cfg, t, ev), e)
  {
    if ev.Create? {
      var t1 := Inserted(t, ev.id, ev.env, ev.now);
      if !QueueFull(cfg, t1, ev.env) {
        ForeignPickKeepsEnv(cfg, t, t1, ev.env, ev.pick, e);
      }
    } else if ev.Transition? {
      if TransitionAccepted(t, ev.id, ev.target) {
        var t1 := Moved(t, ev.id, ev.target, ev.now);
        assert EnvKept(t, t1, e);
        if ev.pick.Some? {
          ForeignPickKeepsEnv(cfg, t, t1, t[ev.id].env, ev.pick, e);
        }
      }
    } else {
      QueuedStayBehind(cfg, t, ev, e);
    }
  }

  lemma QueuedStayBehind(cfg: Config, t: Table, ev: Event, e: Env)
    requires Allowed(cfg, t, ev) && Bystander(t, ev, e) && !ev.Create? && !ev.Transition?
    ensures EnvKept(t, Apply(cfg, t, ev), e)
  {
    hide IsProduction;
    BystanderKeeps(cfg, t, ev, e);
  }

  /** Two tables with the same deploys in the environment, in the same status
      outside the race. */
  ghost predicate AgreeOutside(x: Table, y: Table, e: Env, race: set<DeployId>) {
    (forall i :: (i in x && x[i].env == e) <==> (i in y && y[i].env == e)) &&
    forall i :: i in x && x[i].env == e && i !in race ==> x[i].status == y[i].status && x[i].createdAt == y[i].createdAt
  }

  /** What two tables in the same race have in common outside it. */
  ghost predicate SameOutside(x: Table, y: Table, e: Env, race: set<DeployId>) {
    AgreeOutside(x, y, e, race) && |InProgress(x, e)| == |InProgress(y, e)| &&
    ActiveIn(x, e) <= race && ActiveIn(y, e) <= race &&
    QueuedIn(x, e) !! race && QueuedIn(y, e) !! race && DistinctAges(x, QueuedIn(x, e))
  }

  /** What one activation does outside the race, before the queue moves. */
  lemma OneSide(t: Table, h: DeployId, now: Time, e: Env, race: set<DeployId>)
    requires Healthies(t, e, {h}) && ActivePromoted(t)
    requires h in race && ActiveIn(t, e) <= race && QueuedIn(t, e) !! race
    ensures var t1 := Moved(t, h, Active, now);
            AgreeOutside(t, t1, e, race) && ActiveIn(t1, e) <= race && QueuedIn(t1, e) == QueuedIn(t, e) &&
            |InProgress(t1, e)| == |InProgress(t, e)| - 1 &&
            forall i :: i in t ==> t1[i].createdAt == t[i].createdAt
  {
    MovedToActive(t, h, now, e);
    MovedSets(t, h, Active, now, e);
    ResizeBy(InProgress(t, e), h);
  }

  lemma SameChoice(cfg: Config, x: Table, y: Table, e: Env, race: set<DeployId>, p: Option<DeployId>,
                   q: Option<DeployId>)
    requires SameOutside(x, y, e, race) && ValidPick(cfg, x, e, p) && ValidPick(cfg, y, e, q)
    ensures p == q && (p.Some? ==> p.value in QueuedIn(x, e) && p.value in QueuedIn(y, e))
  {
    assert QueuedIn(x, e) == QueuedIn(y, e);
    if p.Some? {
      assert x[p.value].createdAt <= x[q.value].createdAt;
      assert y[q.value].createdAt <= y[p.value].createdAt;
    }
  }

  lemma PromotedAlike(x: Table, y: Table, e: Env, race: set<DeployId>, p: DeployId)
    requires SameOutside(x, y, e, race) && p in QueuedIn(x, e) && p in QueuedIn(y, e)
    ensures var x1, y1 := SetStatus(x, p, Building), SetStatus(y, p, Building);
            AgreeOutside(x1, y1, e, race) && ActiveIn(x1, e) <= race && ActiveIn(y1, e) <= race &&
            QueuedIn(x1, e) !! race && QueuedIn(y1, e) !! race && DistinctAges(x1, QueuedIn(x1, e))
  {
    var x1 := SetStatus(x, p, Building);
    assert forall i :: i in QueuedIn(x1, e) ==> i in QueuedIn(x, e) && x1[i] == x[i];
  }

  /** The queue makes the same choice on both sides. */
  lemma SamePick(cfg: Config, x: Table, y: Table, e: Env, race: set<DeployId>, p: Option<DeployId>, q: Option<DeployId>)
    requires SameOutside(x, y, e, race) && ValidPick(cfg, x, e, p) && ValidPick(cfg, y, e, q)
    ensures p == q && SameOutside(PromoteNext(x, p), PromoteNext(y, q), e, race)
  {
    SameChoice(cfg, x, y, e, race, p, q);
    if p.Some? {
      hide AgreeOutside, ActiveIn, DistinctAges, ValidPick, QueuedIn, InProgress;
      PromotedAlike(x, y, e, race, p.value);
      PromoteNextCounts(cfg, x, e, p, e);
      PromoteNextCounts(cfg, y, e, q, e);
    }
  }

  lemma MovedAlike(x: Table, y: Table, hx: DeployId, hy: DeployId, nowx: Time, nowy: Time, e: Env, race: set<DeployId>)
    requires Healthies(x, e, {hx}) && ActivePromoted(x) && hx in race
    requires Healthies(y, e, {hy}) && ActivePromoted(y) && hy in race
    requires SameOutside(x, y, e, race)
    ensures SameOutside(Moved(x, hx, Active, nowx), Moved(y, hy, Active, nowy), e, race)
  {
    hide Moved;
    OneSide(x, hx, nowx, e, race);
    OneSide(y, hy, nowy, e, race);
  }

  lemma BothSides(cfg: Config, x: Table, y: Table, evx: Event, evy: Event, hx: DeployId, hy: DeployId,
                  e: Env, race: set<DeployId>)
    requires Allowed(cfg, x, evx) && Activates(evx, hx) && Healthies(x, e, {hx}) && ActivePromoted(x) && hx in race
    requires Allowed(cfg, y, evy) && Activates(evy, hy) && Healthies(y, e, {hy}) && ActivePromoted(y) && hy in race
    requires SameOutside(x, y, e, race)
    ensures SameOutside(Apply(cfg, x, evx), Apply(cfg, y, evy), e, race)
  {
    hide Apply, Allowed, Moved, PromoteNext, ValidPick, SameOutside;
    OneActivation(cfg, x, evx, e);
    OneActivation(cfg, y, evy, e);
    MovedAlike(x, y, hx, hy, evx.now, evy.now, e, race);
    SamePick(cfg, Moved(x, hx, Active, evx.now), Moved(y, hy, Active, evy.now), e, race, evx.pick, evy.pick);
  }

  /** Bystanders on either side change nothing. */
  lemma Meanwhile(x: Table, x1: Table, y: Table, y1: Table, e: Env, race: set<DeployId>)
    requires SameOutside(x, y, e, race) && EnvKept(x, x1, e) && EnvKept(y, y1, e)
    ensures SameOutside(x1, y1, e, race)
  {
    assert InProgress(x1, e) == InProgress(x, e) && InProgress(y1, e) == InProgress(y, e);
    assert QueuedIn(x1, e) == QueuedIn(x, e) && QueuedIn(y1, e) == QueuedIn(y, e);
  }

  lemma StepPast(cfg: Config, t: Table, evs: seq<Event>, order: seq<DeployId>, e: Env)
    requires Feasible(cfg, t, evs) && Race(cfg, t, evs, order, e) && NoNewcomers(evs, e)
    requires Healthies(t, e, Ids(order)) && ActivePromoted(t)
    requires evs != [] && !(order != [] && Activates(evs[0], order[0]))
    ensures var t1 := Apply(cfg, t, evs[0]);
            Race(cfg, t1, evs[1..], order, e) && NoNewcomers(evs[1..], e) && EnvKept(t, t1, e) &&
            Healthies(t1, e, Ids(order)) && ActivePromoted(t1)
  {
    hide Apply, Allowed, Bystander, ActivePromoted, Healthies, EnvKept;
    StepPastRace(cfg, t, evs[0], order, e);
    BystanderKeepsEnv(cfg, t, evs[0], e);
  }

  lemma EnvKeptSelf(t: Table, e: Env)
    ensures EnvKept(t, t, e)
  {
  }

  lemma {:induction false} OutsideAgrees(cfg: Config, x: Table, y: Table, evx: seq<Event>, evy: seq<Event>,
                                         ox: seq<DeployId>, oy: seq<DeployId>, e: Env, race: set<DeployId>)
    requires Feasible(cfg, x, evx) && Race(cfg, x, evx, ox, e) && NoNewcomers(evx, e) && NoRepeats(ox)
    requires Feasible(cfg, y, evy) && Race(cfg, y, evy, oy, e) && NoNewcomers(evy, e) && NoRepeats(oy)
    requires Healthies(x, e, Ids(ox)) && ActivePromoted(x) && Healthies(y, e, Ids(oy)) && ActivePromoted(y)
    requires |ox| == |oy| && Ids(ox) <= race && Ids(oy) <= race && SameOutside(x, y, e, race)
    ensures SameOutside(Final(cfg, x, evx), Final(cfg, y, evy), e, race)
    decreases |evx| + |evy|
  {
    hide Apply, Allowed, Bystander, ActivePromoted, SameOutside, Healthies, EnvKept;
    if evx != [] && !(ox != [] && Activates(evx[0], ox[0])) {
      StepPast(cfg, x, evx, ox, e);
      EnvKeptSelf(y, e);
      Meanwhile(x, Apply(cfg, x, evx[0]), y, y, e, race);
      OutsideAgrees(cfg, Apply(cfg, x, evx[0]), y, evx[1..], evy, ox, oy, e, race);
    } else if evy != [] && !(oy != [] && Activates(evy[0], oy[0])) {
      StepPast(cfg, y, evy, oy, e);
      EnvKeptSelf(x, e);
      Meanwhile(x, x, y, Apply(cfg, y, evy[0]), e, race);
      OutsideAgrees(cfg, x, Apply(cfg, y, evy[0]), evx, evy[1..], ox, oy, e, race);
    } else if evx != [] {
      BothStep(cfg, x, y, evx, evy, ox, oy, e, race);
      OutsideAgrees(cfg, Apply(cfg, x, evx[0]), Apply(cfg, y, evy[0]), evx[1..], evy[1..], ox[1..], oy[1..], e, race);
    }
  }

  lemma BothStep(cfg: Config, x: Table, y: Table, evx: seq<Event>, evy: seq<Event>,
                 ox: seq<DeployId>, oy: seq<DeployId>, e: Env, race: set<DeployId>)
    requires Feasible(cfg, x, evx) && evx != [] && ox != [] && Activates(evx[0], ox[0]) && NoRepeats(ox)
    requires Feasible(cfg, y, evy) && evy != [] && oy != [] && Activates(evy[0], oy[0]) && NoRepeats(oy)
    requires NoNewcomers(evx, e) && NoNewcomers(evy, e)
    requires Healthies(x, e, Ids(ox)) && ActivePromoted(x) && Healthies(y, e, Ids(oy)) && ActivePromoted(y)
    requires Ids(ox) <= race && Ids(oy) <= race && SameOutside(x, y, e, race)
    ensures NoRepeats(ox[1..]) && NoRepeats(oy[1..]) && Ids(ox[1..]) <= race && Ids(oy[1..]) <= race
    ensures NoNewcomers(evx[1..], e) && NoNewcomers(evy[1..], e)
    ensures var x1, y1 := Apply(cfg, x, evx[0]), Apply(cfg, y, evy[0]);
            Healthies(x1, e, Ids(ox[1..])) && ActivePromoted(x1) && Healthies(y1, e, Ids(oy[1..])) &&
            ActivePromoted(y1) &&
            SameOutside(x1, y1, e, race)
  {
    hide Apply, Allowed, ActivePromoted, SameOutside, Healthies;
    StepIntoRace(cfg, x, evx[0], ox, e);
    StepIntoRace(cfg, y, evy[0], oy, e);
    assert ox[0] in Ids(ox) && oy[0] in Ids(oy);
    BothSides(cfg, x, y, evx[0], evy[0], ox[0], oy[0], e, race);
  }

  lemma {:induction false} IdsCount(order: seq<DeployId>)
    requires NoRepeats(order)
    ensures |Ids(order)| == |order|
  {
    if order != [] {
      assert Ids(order) == {order[0]} + Ids(order[1..]);
      IdsCount(order[1..]);
    }
  }

  /** The environment's deploys stay, whatever happens to them. */
  lemma {:induction false} EnvStays(cfg: Config, t: Table, evs: seq<Event>, order: seq<DeployId>, e: Env)
    requires Feasible(cfg, t, evs) && Race(cfg, t, evs, order, e) && NoRepeats(order)
    requires Healthies(t, e, Ids(order)) && ActivePromoted(t)
    ensures forall i :: i in t && t[i].env == e ==> i in Final(cfg, t, evs) && Final(cfg, t, evs)[i].env == e
    decreases |evs|
  {
    hide Apply, Allowed, Bystander, ActivePromoted, Healthies;
    if evs != [] {
      var t1 := Apply(cfg, t, evs[0]);
      if order != [] && Activates(evs[0], order[0]) {
        StepIntoRace(cfg, t, evs[0], order, e);
        EnvStays(cfg, t1, evs[1..], order[1..], e);
      } else {
        StepPastRace(cfg, t, evs[0], order, e);
        EnvStays(cfg, t1, evs[1..], order, e);
      }
    }
  }

  /** The outcome of the race leaves no choice of status. */
  lemma SameOutcome(t: Table, x: Table, y: Table, e: Env, contenders: set<DeployId>, w: DeployId)
    requires contenders + ActiveIn(t, e) <= t.Keys && RaceWon(t, x, e, contenders, w) && RaceWon(t, y, e, contenders, w)
    ensures forall i :: i in contenders + ActiveIn(t, e) ==> i in x && i in y && x[i].status == y[i].status
  {
    forall i | i in contenders + ActiveIn(t, e)
      ensures x[i].status == y[i].status
    {
      if i == w && w in contenders {
        assert w in ActiveIn(x, e) && w in ActiveIn(y, e);
      }
      if i !in contenders && w !in contenders {
        assert i in ActiveIn(x, e) && i in ActiveIn(y, e);
      }
    }
  }

  /** Two runs that promote the same deploys in different orders, each with
      bystanders of its own that add no deploy to the environment, end with the
      same status on each of its deploys, queued ones included. */
  lemma OrderDoesNotMatter(cfg: Config, t: Table, evx: seq<Event>, evy: seq<Event>,
                           ox: seq<DeployId>, oy: seq<DeployId>, e: Env)
    requires Feasible(cfg, t, evx) && Race(cfg, t, evx, ox, e) && NoNewcomers(evx, e) && NoRepeats(ox)
    requires Feasible(cfg, t, evy) && Race(cfg, t, evy, oy, e) && NoNewcomers(evy, e) && NoRepeats(oy)
    requires Ids(ox) == Ids(oy)
    requires Healthies(t, e, Ids(ox)) && ActivePromoted(t)
    requires DistinctAges(t, Ids(ox) + ActiveIn(t, e)) && DistinctAges(t, QueuedIn(t, e))
    ensures var x, y := Final(cfg, t, evx), Final(cfg, t, evy);
            forall i :: i in t && t[i].env == e ==> i in x && i in y && x[i].status == y[i].status
  {
    hide Feasible, Final, Race, NoNewcomers;
    var contenders, race := Ids(ox), Ids(ox) + ActiveIn(t, e);
    var x, y := Final(cfg, t, evx), Final(cfg, t, evy);
    IdsCount(ox);
    IdsCount(oy);
    OutsideAgrees(cfg, t, t, evx, evy, ox, oy, e, race);
    EnvStays(cfg, t, evx, ox, e);
    EnvStays(cfg, t, evy, oy, e);
    if race != {} {
      var w := NewestExists(t, race);
      NewestWins(cfg, t, evx, ox, e, w);
      NewestWins(cfg, t, evy, oy, e, w);
      SameOutcome(t, x, y, e, contenders, w);
    }
  }

  lemma ActivationStaysHome(cfg: Config, t: Table, ev: Event, e: Env)
    requires Allowed(cfg, t, ev) && ev.Transition? && ev.target == Active && Healthies(t, e, {ev.id}) &&
             ActivePromoted(t)
    ensures Apply(cfg, t, ev).Keys == t.Keys && forall i :: i in t && t[i].env != e ==> Apply(cfg, t, ev)[i] == t[i]
  {
    OneActivation(cfg, t, ev, e);
    assert ev.pick.Some? ==> ev.pick.value in QueuedIn(Moved(t, ev.id, Active, ev.now), e);
  }

  /** Without bystanders, no other environment's row changes and none is added. */
  lemma {:induction false} ActivationsStayHome(cfg: Config, t: Table, evs: seq<Event>, order: seq<DeployId>, e: Env)
    requires Feasible(cfg, t, evs) && Activations(evs, order) && NoRepeats(order)
    requires Healthies(t, e, Ids(order)) && ActivePromoted(t)
    ensures var f := Final(cfg, t, evs); f.Keys == t.Keys && forall i :: i in t && t[i].env != e ==> f[i] == t[i]
    decreases |evs|
  {
    hide Apply, Allowed, ActivePromoted, Healthies;
    if evs != [] {
      var t1 := Apply(cfg, t, evs[0]);
      RestOfOrder(evs, order);
      StepIntoRace(cfg, t, evs[0], order, e);
      ActivationStaysHome(cfg, t, evs[0], e);
      ActivationsStayHome(cfg, t1, evs[1..], order[1..], e);
    }
  }

  /** With nothing else going on, they agree on every row of the table. */
  lemma OrderAloneDoesNotMatter(cfg: Config, t: Table, evx: seq<Event>, evy: seq<Event>,
                                ox: seq<DeployId>, oy: seq<DeployId>, e: Env)
    requires Feasible(cfg, t, evx) && Activations(evx, ox) && NoRepeats(ox)
    requires Feasible(cfg, t, evy) && Activations(evy, oy) && NoRepeats(oy)
    requires Ids(ox) == Ids(oy)
    requires Healthies(t, e, Ids(ox)) && ActivePromoted(t)
    requires DistinctAges(t, Ids(ox) + ActiveIn(t, e)) && DistinctAges(t, QueuedIn(t, e))
    ensures var x, y := Final(cfg, t, evx), Final(cfg, t, evy);
            x.Keys == y.Keys && forall i :: i in x ==> x[i].status == y[i].status
  {
    hide Feasible, Final, Race;
    ActivationsRace(cfg, t, evx, ox, e);
    ActivationsRace(cfg, t, evy, oy, e);
    ActivationsStayHome(cfg, t, evx, ox, e);
    ActivationsStayHome(cfg, t, evy, oy, e);
    OrderDoesNotMatter(cfg, t, evx, evy, ox, oy, e);
  }

  lemma NewestExists(t: Table, ids: set<DeployId>) returns (w: DeployId)
    requires ids != {} && ids <= t.Keys
    ensures Newest(t, ids, w)
  {
    w :| w in ids;
    if ids != {w} {
      var rest := NewestExists(t, ids - {w});
      if t[rest].createdAt > t[w].createdAt {
        w := rest;
      }
    }
  }
}
