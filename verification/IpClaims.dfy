/** Claiming addresses while every other handler runs: attempts scan, claim and
    create containers, and the lifecycle of all deploys goes on around them. */
module IpClaims {
  import opened Common
  import opened DeployModel
  import opened FlatIp

  /** `live` are the containers of the cluster, `pending` the attempts whose
      claim is committed and whose container is not made yet, and `chosen` the
      attempts that have picked an address without having committed it. */
  datatype State = State(t: Table, live: map<nat, string>, pending: map<DeployId, string>,
                         chosen: map<DeployId, string>)

  datatype Step =
    | Lifecycle(ev: Event)
    | ScanAndClaim(id: DeployId, ip: string)
    | Scan(id: DeployId, ip: string)
    | Claim(id: DeployId)
    | MakeContainer(id: DeployId, c: nat)
    | Abandon(id: DeployId)
    | Vanish(c: nat)

  predicate Unserved(s: State, id: DeployId) {
    id in s.t && id !in s.pending && id !in s.chosen
  }

  predicate Waiting(s: State, id: DeployId) {
    Unserved(s, id) && s.t[id].status == Provisioning
  }

  /** Free according to the database and to a scan that sees every container. */
  predicate Free(s: State, ip: string) {
    ip !in Claimed(s.t) && ip !in s.live.Values
  }

  /** The address column is written by claims only; other writers keep or clear it. */
  predicate KeepsAddress(t: Table, ev: Event) {
    ev.Track? && ev.id in t ==> ev.container.ip == t[ev.id].container.ip || ev.container.ip == None
  }

  /** A transaction whose commit the index refuses is undone, and so is no step.
      An attempt scans, and writes the address it claims, whatever has become of
      its deploy since it was provisioning. */
  ghost predicate Enabled(cfg: Config, s: State, step: Step) {
    match step
    case Lifecycle(ev) => Allowed(cfg, s.t, ev) && KeepsAddress(s.t, ev) && IndexHolds(Apply(cfg, s.t, ev))
    case ScanAndClaim(id, ip) => Unserved(s, id) && Free(s, ip)
    case Scan(id, ip) => Unserved(s, id) && Free(s, ip)
    case Claim(id) => id in s.chosen && id in s.t && id !in s.pending
    case MakeContainer(id, c) => id in s.pending && c !in s.live
    case Abandon(id) => id in s.pending || id in s.chosen
    case Vanish(c) => c in s.live
  }

  function WithIp(t: Table, id: DeployId, ip: string): Table
    requires id in t
  {
    t[id := t[id].(container := t[id].container.(ip := Some(ip)))]
  }

  ghost function Next(cfg: Config, s: State, step: Step): State
    requires Enabled(cfg, s, step)
  {
    match step
    case Lifecycle(ev) => s.(t := Apply(cfg, s.t, ev))
    case ScanAndClaim(id, ip) => ClaimNow(s, id, ip)
    case Scan(id, ip) => s.(chosen := s.chosen[id := ip])
    case Claim(id) => ClaimNow(s, id, s.chosen[id])
    case MakeContainer(id, c) => s.(live := s.live[c := s.pending[id]], pending := s.pending - {id})
    case Abandon(id) => s.(pending := s.pending - {id}, chosen := s.chosen - {id})
    case Vanish(c) => s.(live := s.live - {c})
  }

  /** Commits the claim, or gives up when the index refuses it. */
  ghost function ClaimNow(s: State, id: DeployId, ip: string): State
    requires id in s.t
  {
    var t' := WithIp(s.t, id, ip);
    if IndexHolds(t') then s.(t := t', pending := s.pending[id := ip], chosen := s.chosen - {id})
    else s.(chosen := s.chosen - {id})
  }

  // ------------------------------------------------------------------ safety

  /** No two containers, attempts about to make one, or one of each, share an address. */
  ghost predicate Distinct(s: State) {
    (forall c, d :: c in s.live && d in s.live && c != d ==> s.live[c] != s.live[d]) &&
    (forall c, id :: c in s.live && id in s.pending ==> s.live[c] != s.pending[id]) &&
    (forall i, j :: i in s.pending && j in s.pending && i != j ==> s.pending[i] != s.pending[j])
  }

  /** The row still claims the address, where the allocator and the index look. */
  predicate Holds(t: Table, id: DeployId, ip: string) {
    id in t && InFilter(t[id]) && t[id].container.ip == Some(ip)
  }

  ghost predicate ClaimsHold(s: State) {
    forall id :: id in s.pending ==> Holds(s.t, id, s.pending[id])
  }

  ghost predicate Safe(s: State) {
    IndexHolds(s.t) && ClaimsHold(s) && Distinct(s)
  }

  /** The events by which the row of a pending claim leaves that view: the deploy
      is failed, rolled back or superseded, by its own transition or rollback or
      by another deploy's promotion; it is destroyed or swept; or its address is
      cleared. */
  predicate LosesClaim(t: Table, ev: Event, id: DeployId) {
    id in t &&
    match ev
    case Transition(i, target, _, _) =>
      TransitionAccepted(t, i, target) &&
      if i == id then Effective(t, i, target) in {Failed, RolledBack, Superseded}
      else Effective(t, i, target) == Active && t[id].env == t[i].env && t[id].status == Active
    case Promote(i, _, _, _) => PromoteAccepted(t, ev) && i != id && t[id].env == t[i].env && t[id].status == Active
    case Rollback(i, _, _) => i == id && t[id].status == Active
    case Destroy(i, tornDown) => i == id && DestroyAccepted(t, id, tornDown)
    case Sweep(now, skipped) => id in StuckIds(t, now, skipped)
    case Track(i, container) => i == id && container.ip == None
    case _ => false
  }

  /** Some pending claim is lost. */
  predicate Disturbs(s: State, ev: Event) {
    exists id :: id in s.pending && LosesClaim(s.t, ev, id)
  }

  lemma ClaimIsLostIff(cfg: Config, t: Table, ev: Event, id: DeployId, ip: string)
    requires Allowed(cfg, t, ev) && KeepsAddress(t, ev) && Holds(t, id, ip)
    ensures !Holds(Apply(cfg, t, ev), id, ip) <==> LosesClaim(t, ev, id)
  {
    match ev
    case Create(new_, e, now, pick) =>
      var t1 := Inserted(t, new_, e, now);
      assert pick.Some? ==> pick.value in QueuedIn(t1, e);
    case Transition(other, target, now, pick) => TransitionLosesIff(cfg, t, ev, id, ip);
    case Promote(other, now, _, _) =>
    case Rollback(other, now, previous) =>
      assert other in t && previous.Some? ==> previous.value in RollbackCandidates(t, other);
    case Stop(_, _) =>
    case Start(_, _, _) =>
    case Destroy(_, _) =>
    case Sweep(now, skipped) =>
    case Track(_, _) =>
  }

  lemma TransitionLosesIff(cfg: Config, t: Table, ev: Event, id: DeployId, ip: string)
    requires Allowed(cfg, t, ev) && Holds(t, id, ip) && ev.Transition?
    ensures !Holds(Apply(cfg, t, ev), id, ip) <==> LosesClaim(t, ev, id)
  {
    if TransitionAccepted(t, ev.id, ev.target) {
      var t1 := Moved(t, ev.id, ev.target, ev.now);
      assert ev.pick.Some? ==> ev.pick.value in QueuedIn(t1, t[ev.id].env);
      assert !Holds(t1, id, ip) <==> LosesClaim(t, ev, id);
    }
  }

  /** The allocator and the index no longer look at the row, whatever its address. */
  predicate LeftView(d: Deploy) {
    d.status in {Superseded, RolledBack, Failed}
  }

  /** The index lets an attempt commit what it picked at its scan, but by now a
      live container has the address, or its deploy has left the index's view. */
  ghost predicate ClaimsTooLate(s: State, id: DeployId) {
    id in s.chosen && id in s.t && IndexHolds(WithIp(s.t, id, s.chosen[id])) &&
    (s.chosen[id] in s.live.Values || LeftView(s.t[id]))
  }

  /** No pending claim is lost, and none is committed too late. */
  ghost predicate Quiet(s: State, step: Step) {
    (step.Lifecycle? ==> !Disturbs(s, step.ev)) && (step.Claim? ==> !ClaimsTooLate(s, step.id)) &&
    (step.ScanAndClaim? ==> step.id in s.t && !LeftView(s.t[step.id]))
  }

  lemma FreeAddressCommits(s: State, id: DeployId, ip: string)
    requires IndexHolds(s.t) && id in s.t && ip !in Claimed(s.t)
    ensures IndexHolds(WithIp(s.t, id, ip))
  {
    forall j | j in s.t && InFilter(s.t[j])
      ensures s.t[j].container.ip.value != ip
    {
      assert s.t[j].container.ip.value in Claimed(s.t);
    }
  }

  /** Every quiet step keeps all addresses distinct, with the scan and the claim
      in one step or apart. */
  lemma StepKeepsSafe(cfg: Config, s: State, step: Step)
    requires Enabled(cfg, s, step) && Safe(s) && Quiet(s, step)
    ensures Safe(Next(cfg, s, step))
  {
    match step
    case Lifecycle(ev) => LifecycleKeepsSafe(cfg, s, ev);
    case ScanAndClaim(id, ip) => ClaimKeepsSafe(s, id, ip);
    case Scan(_, _) =>
    case Claim(id) => LateClaimIff(cfg, s, id);
    case MakeContainer(id, c) =>
    case Abandon(id) =>
    case Vanish(c) =>
  }

  lemma LifecycleKeepsSafe(cfg: Config, s: State, ev: Event)
    requires Enabled(cfg, s, Lifecycle(ev)) && Safe(s) && !Disturbs(s, ev)
    ensures Safe(s.(t := Apply(cfg, s.t, ev)))
  {
    hide Apply, Allowed, LosesClaim, IndexHolds, Holds;
    forall id | id in s.pending
      ensures Holds(Apply(cfg, s.t, ev), id, s.pending[id])
    {
      ClaimIsLostIff(cfg, s.t, ev, id, s.pending[id]);
    }
  }

  lemma ClaimKeepsSafe(s: State, id: DeployId, ip: string)
    requires Safe(s) && Unserved(s, id) && Free(s, ip) && !LeftView(s.t[id])
    ensures Safe(ClaimNow(s, id, ip))
  {
    hide IndexHolds;
    FreeAddressCommits(s, id, ip);
    forall j | j in s.pending
      ensures s.pending[j] != ip
    {
      assert Holds(s.t, j, s.pending[j]);
      assert s.pending[j] in Claimed(s.t);
    }
  }

  /** A new claim leaves the pending ones in place, and the index lets it share
      the address of one only outside its view. */
  lemma PendingAndClaim(s: State, id: DeployId, ip: string, j: DeployId)
    requires id in s.t && id !in s.pending && j in s.pending && ClaimsHold(s) && IndexHolds(WithIp(s.t, id, ip))
    ensures Holds(WithIp(s.t, id, ip), j, s.pending[j])
    ensures s.pending[j] == ip ==> LeftView(s.t[id])
  {
    var t' := WithIp(s.t, id, ip);
    assert Holds(s.t, j, s.pending[j]) && t'[j] == s.t[j];
    assert InFilter(t'[j]) && (InFilter(t'[id]) <==> !LeftView(s.t[id]));
  }

  lemma DistinctWithClaim(s: State, s': State, id: DeployId, ip: string)
    requires Distinct(s) && id !in s.pending && s'.live == s.live && s'.pending == s.pending[id := ip]
    ensures Distinct(s') <==> ip !in s.live.Values && ip !in s.pending.Values
  {
    assert s'.pending[id] == ip;
    assert forall j :: j in s.pending ==> j in s'.pending && s'.pending[j] == s.pending[j];
    assert forall c :: c in s.live && s.live[c] == ip ==> !Distinct(s');
    assert forall j :: j in s.pending && s.pending[j] == ip ==> !Distinct(s');
  }

  /** A claim committed some time after its scan leaves the addresses distinct
      exactly when the index refuses it or nobody else has the address, and it
      keeps the state safe exactly when it is not too late. */
  lemma LateClaimIff(cfg: Config, s: State, id: DeployId)
    requires Safe(s) && Enabled(cfg, s, Claim(id))
    ensures Distinct(Next(cfg, s, Claim(id))) <==>
            !IndexHolds(WithIp(s.t, id, s.chosen[id])) ||
            (s.chosen[id] !in s.live.Values && s.chosen[id] !in s.pending.Values)
    ensures Safe(Next(cfg, s, Claim(id))) <==>
            !IndexHolds(WithIp(s.t, id, s.chosen[id])) ||
            (s.chosen[id] !in s.live.Values && !LeftView(s.t[id]))
  {
    var ip := s.chosen[id];
    if IndexHolds(WithIp(s.t, id, ip)) {
      var s' := Next(cfg, s, Claim(id));
      assert s' == s.(t := WithIp(s.t, id, ip), pending := s.pending[id := ip], chosen := s.chosen - {id});
      hide IndexHolds, WithIp, Next, Distinct;
      DistinctWithClaim(s, s', id, ip);
      ClaimsHoldAfter(s, s', id, ip);
    }
  }

  lemma ClaimsHoldAfter(s: State, s': State, id: DeployId, ip: string)
    requires id in s.t && id !in s.pending && ClaimsHold(s) && IndexHolds(WithIp(s.t, id, ip))
    requires s'.t == WithIp(s.t, id, ip) && s'.pending == s.pending[id := ip]
    ensures ClaimsHold(s') <==> !LeftView(s.t[id])
    ensures ip in s.pending.Values ==> LeftView(s.t[id])
  {
    hide IndexHolds;
    forall j | j in s.pending
      ensures s.pending[j] == ip ==> LeftView(s.t[id])
      ensures Holds(s'.t, j, s'.pending[j])
    {
      PendingAndClaim(s, id, ip, j);
    }
    assert id in s'.pending && s'.pending[id] == ip;
  }

  // -------------------------------------------------------------------- runs

  ghost predicate Runs(cfg: Config, s: State, steps: seq<Step>)
    decreases |steps|
  {
    steps == [] || (Enabled(cfg, s, steps[0]) && Runs(cfg, Next(cfg, s, steps[0]), steps[1..]))
  }

  ghost function After(cfg: Config, s: State, steps: seq<Step>): State
    requires Runs(cfg, s, steps)
    decreases |steps|
  {
    if steps == [] then s else After(cfg, Next(cfg, s, steps[0]), steps[1..])
  }

  ghost predicate AllQuiet(cfg: Config, s: State, steps: seq<Step>)
    requires Runs(cfg, s, steps)
    decreases |steps|
  {
    steps == [] || (Quiet(s, steps[0]) && AllQuiet(cfg, Next(cfg, s, steps[0]), steps[1..]))
  }

  /** Live addresses stay distinct over every quiet run, scan and claim together
      or apart, although superseded deploys with live containers leave the
      database's view. */
  lemma {:induction false} LiveAddressesDistinct(cfg: Config, s: State, steps: seq<Step>)
    requires Runs(cfg, s, steps) && AllQuiet(cfg, s, steps) && Safe(s)
    ensures Safe(After(cfg, s, steps)) && Distinct(After(cfg, s, steps))
    decreases |steps|
  {
    hide Enabled, Next, Safe, Quiet;
    if steps != [] {
      StepKeepsSafe(cfg, s, steps[0]);
      LiveAddressesDistinct(cfg, Next(cfg, s, steps[0]), steps[1..]);
    } else {
      SafeIsDistinct(s);
    }
  }

  lemma SafeIsDistinct(s: State)
    requires Safe(s)
    ensures Distinct(s)
  {
  }

  /** What is left in general: rows in the filter never share an address. */
  lemma {:induction false} IndexAlwaysHolds(cfg: Config, s: State, steps: seq<Step>)
    requires Runs(cfg, s, steps) && IndexHolds(s.t)
    ensures IndexHolds(After(cfg, s, steps).t)
    decreases |steps|
  {
    hide IndexHolds, Apply, Allowed;
    if steps != [] {
      IndexAlwaysHolds(cfg, Next(cfg, s, steps[0]), steps[1..]);
    }
  }

  // ---------------------------------------------------------------- collisions

  /** A chain of states, each the next of the one before it, is a run. */
  lemma {:induction false} ChainIsRun(cfg: Config, states: seq<State>, steps: seq<Step>)
    requires |states| == |steps| + 1
    requires forall k :: 0 <= k < |steps| ==>
               Enabled(cfg, states[k], steps[k]) && Next(cfg, states[k], steps[k]) == states[k + 1]
    ensures Runs(cfg, states[0], steps) && After(cfg, states[0], steps) == states[|steps|]
    decreases |steps|
  {
    hide Enabled, Next;
    if steps != [] {
      assert Enabled(cfg, states[0], steps[0]) && Next(cfg, states[0], steps[0]) == states[1];
      ChainIsRun(cfg, states[1..], steps[1..]);
    }
  }

  /** One quiet run leads from one state to the other. */
  ghost predicate Reaches(cfg: Config, s: State, steps: seq<Step>, s': State) {
    Runs(cfg, s, steps) && AllQuiet(cfg, s, steps) && After(cfg, s, steps) == s'
  }

  lemma ReachesSelf(cfg: Config, s: State)
    ensures Reaches(cfg, s, [], s)
  {
  }

  lemma ReachesNext(cfg: Config, s: State, step: Step, rest: seq<Step>, s': State)
    requires Enabled(cfg, s, step) && Quiet(s, step) && Reaches(cfg, Next(cfg, s, step), rest, s')
    ensures Reaches(cfg, s, [step] + rest, s')
  {
    hide Enabled, Next, Quiet;
    assert ([step] + rest)[0] == step && ([step] + rest)[1..] == rest;
  }

  lemma {:induction false} ReachesThen(cfg: Config, s: State, a: seq<Step>, m: State, b: seq<Step>, s': State)
    requires Reaches(cfg, s, a, m) && Reaches(cfg, m, b, s')
    ensures Reaches(cfg, s, a + b, s')
    decreases |a|
  {
    hide Enabled, Next, Quiet;
    if a == [] {
      assert a + b == b;
    } else {
      ReachesThen(cfg, Next(cfg, s, a[0]), a[1..], m, b, s');
      ReachesNext(cfg, s, a[0], a[1..] + b, s');
      assert [a[0]] + (a[1..] + b) == a + b;
    }
  }

  // Someone to hand an address to: a new deploy, led to provisioning.

  /** How a deploy gets on towards provisioning. */
  function Onward(s: Status): Status {
    match s
    case Failed => Queued
    case Queued => Building
    case Building => ArtifactReady
    case _ => Provisioning
  }

  function StagesLeft(s: Status): nat {
    match s
    case Failed => 4
    case Queued => 3
    case Building => 2
    case ArtifactReady => 1
    case _ => 0
  }

  /** A deploy without a container, on its way and known to no attempt. */
  predicate Unclaimed(s: State, b: DeployId) {
    b in s.t && s.t[b].container.ip == None && b !in s.pending && b !in s.chosen
  }

  lemma OneStageOn(cfg: Config, s: State, b: DeployId)
    requires Unclaimed(s, b) && IndexHolds(s.t) && StagesLeft(s.t[b].status) > 0
    ensures var step := Lifecycle(Transition(b, Onward(s.t[b].status), 0, None));
            Enabled(cfg, s, step) && Quiet(s, step) &&
            Next(cfg, s, step) == s.(t := s.t[b := s.t[b].(status := Onward(s.t[b].status))])
  {
    var ev := Transition(b, Onward(s.t[b].status), 0, None);
    var t1 := s.t[b := s.t[b].(status := Onward(s.t[b].status))];
    assert Apply(cfg, s.t, ev) == t1;
    assert IndexHolds(t1);
  }

  lemma {:induction false} LeadToProvisioning(cfg: Config, s: State, b: DeployId) returns (steps: seq<Step>, s': State)
    requires Unclaimed(s, b) && IndexHolds(s.t)
    requires StagesLeft(s.t[b].status) > 0 || s.t[b].status == Provisioning
    ensures Reaches(cfg, s, steps, s') && s' == s.(t := s.t[b := s.t[b].(status := Provisioning)]) && IndexHolds(s'.t)
    decreases StagesLeft(s.t[b].status)
  {
    if s.t[b].status == Provisioning {
      steps, s' := [], s;
      ReachesSelf(cfg, s);
      assert s.t[b := s.t[b].(status := Provisioning)] == s.t;
    } else {
      var step := Lifecycle(Transition(b, Onward(s.t[b].status), 0, None));
      OneStageOn(cfg, s, b);
      var m := Next(cfg, s, step);
      hide Enabled, Next, Quiet, Reaches, IndexHolds;
      var rest;
      rest, s' := LeadToProvisioning(cfg, m, b);
      steps := [step] + rest;
      ReachesNext(cfg, s, step, rest, s');
      assert m.t[b := m.t[b].(status := Provisioning)] == s.t[b := s.t[b].(status := Provisioning)];
    }
  }

  lemma FreshNat(used: set<nat>) returns (n: nat)
    ensures n !in used
  {
    n := 0;
    var below: set<nat> := {};
    while n in used
      invariant below <= used && forall i: nat :: i in below <==> i < n
      decreases used - below
    {
      below := below + {n};
      n := n + 1;
    }
  }

  /** A deploy created in an environment of its own. */
  lemma CreatedAlone(cfg: Config, s: State, b: DeployId, e: Env) returns (pick: Option<DeployId>, s': State)
    requires IndexHolds(s.t) && b !in s.t && forall i :: i in s.t ==> s.t[i].env != e
    ensures var step := Lifecycle(Create(b, e, 0, pick));
            Enabled(cfg, s, step) && Quiet(s, step) && Next(cfg, s, step) == s'
    ensures b in s'.t && s'.t[b].container.ip == None && StagesLeft(s'.t[b].status) > 0
    ensures s' == s.(t := s.t[b := s'.t[b]]) && IndexHolds(s'.t)
  {
    pick := FirstPick(cfg, s.t, b, e);
    var t' := Apply(cfg, s.t, Create(b, e, 0, pick));
    NoAddressNoClash(s.t, b, t'[b]);
    hide IndexHolds, Apply, Allowed;
    s' := s.(t := t');
  }

  lemma FirstPick(cfg: Config, t: Table, b: DeployId, e: Env) returns (pick: Option<DeployId>)
    requires b !in t && forall i :: i in t ==> t[i].env != e
    ensures var ev := Create(b, e, 0, pick);
            Allowed(cfg, t, ev) &&
            var t' := Apply(cfg, t, ev);
            b in t' && t' == t[b := t'[b]] && t'[b].container.ip == None && StagesLeft(t'[b].status) > 0
  {
    var t1 := Inserted(t, b, e, 0);
    assert QueuedIn(t1, e) == {b} && InProgress(t1, e) == {};
    pick := if QueueFull(cfg, t1, e) || cfg.maxConcurrent <= 0 then None else Some(b);
  }

  lemma NoAddressNoClash(t: Table, b: DeployId, d: Deploy)
    requires IndexHolds(t) && d.container.ip == None
    ensures IndexHolds(t[b := d])
  {
  }

  lemma FreshEnv(t: Table) returns (e: Env)
    ensures forall i :: i in t ==> t[i].env != e
  {
    var projects := set i | i in t :: t[i].env.project;
    var project := FreshNat(projects);
    assert forall i :: i in t ==> t[i].env.project in projects;
    e := Env(project, "");
  }

  /** From any state a quiet run leads to one in which another deploy waits for
      an address, with nothing else changed. */
  lemma SomeoneWaits(cfg: Config, s: State) returns (steps: seq<Step>, s': State, b: DeployId)
    requires IndexHolds(s.t)
    ensures Reaches(cfg, s, steps, s') && Waiting(s', b) && b !in s.t && b !in s.pending
    ensures IndexHolds(s'.t) && Claimed(s'.t) == Claimed(s.t)
    ensures s' == s.(t := s'.t)
  {
    b := FreshNat(s.t.Keys + s.pending.Keys + s.chosen.Keys);
    hide Enabled, Next, Quiet, Reaches, IndexHolds, Claimed;
    var e := FreshEnv(s.t);
    var pick, m := CreatedAlone(cfg, s, b, e);
    var rest;
    rest, s' := LeadToProvisioning(cfg, m, b);
    steps := [Lifecycle(Create(b, e, 0, pick))] + rest;
    ReachesNext(cfg, s, Lifecycle(Create(b, e, 0, pick)), rest, s');
    SameClaims(s.t, s'.t, b);
  }

  lemma SameClaims(t: Table, t': Table, b: DeployId)
    requires b in t' && t'[b].container.ip == None && t'.Keys == t.Keys + {b} && b !in t
    requires forall i :: i in t ==> t'[i] == t[i]
    ensures Claimed(t') == Claimed(t)
  {
  }

  // Someone who claims the address in the meantime: cleared first.

  /** No lifecycle event gives a row an address. */
  lemma AddressIsOld(cfg: Config, t: Table, ev: Event, j: DeployId)
    requires Allowed(cfg, t, ev) && KeepsAddress(t, ev) && j in Apply(cfg, t, ev) &&
             Apply(cfg, t, ev)[j].container.ip.Some?
    ensures j in t && t[j].container.ip == Apply(cfg, t, ev)[j].container.ip
  {
  }

  lemma AddressIsFreed(cfg: Config, s: State, ip: string) returns (steps: seq<Step>, s': State)
    requires IndexHolds(s.t)
    requires forall j :: j in s.pending && j in s.t && InFilter(s.t[j]) ==> s.t[j].container.ip != Some(ip)
    ensures Reaches(cfg, s, steps, s') && IndexHolds(s'.t) && ip !in Claimed(s'.t) && s' == s.(t := s'.t)
  {
    if ip !in Claimed(s.t) {
      steps, s' := [], s;
      ReachesSelf(cfg, s);
    } else {
      var j :| j in s.t && InFilter(s.t[j]) && s.t[j].container.ip.value == ip;
      var step := Lifecycle(Track(j, s.t[j].container.(ip := None)));
      s' := s.(t := s.t[j := s.t[j].(container := s.t[j].container.(ip := None))]);
      assert IndexHolds(s'.t);
      assert Enabled(cfg, s, step) && Next(cfg, s, step) == s';
      hide IndexHolds;
      steps := [step] + [];
      ReachesSelf(cfg, s');
      ReachesNext(cfg, s, step, [], s');
    }
  }

  /** The claim of `a` is lost, and its address is free: `b` is given it too. */
  lemma SharedAddress(cfg: Config, s: State, a: DeployId, b: DeployId) returns (steps: seq<Step>, s': State)
    requires a in s.pending && Waiting(s, b) && IndexHolds(s.t) && Free(s, s.pending[a])
    ensures Reaches(cfg, s, steps, s') && !Distinct(s')
  {
    var ip := s.pending[a];
    var s1 := ClaimIsCommitted(cfg, s, b, ip);
    var c := FreshNat(s.live.Keys);
    var d := FreshNat(s.live.Keys + {c});
    var s2 := Made(cfg, s1, a, c);
    s' := Made(cfg, s2, b, d);
    assert s'.live[c] == ip == s'.live[d];
    hide Enabled, Next, Reaches;
    ReachesSelf(cfg, s');
    ReachesNext(cfg, s2, MakeContainer(b, d), [], s');
    ReachesNext(cfg, s1, MakeContainer(a, c), [MakeContainer(b, d)] + [], s');
    ReachesNext(cfg, s, ScanAndClaim(b, ip), [MakeContainer(a, c)] + ([MakeContainer(b, d)] + []), s');
    steps := [ScanAndClaim(b, ip)] + ([MakeContainer(a, c)] + ([MakeContainer(b, d)] + []));
  }

  /** A pending claim that neither row nor container holds any more: a quiet run
      gives its address to another deploy too. */
  lemma LostClaimCollides(cfg: Config, s: State, a: DeployId) returns (steps: seq<Step>, s': State)
    requires IndexHolds(s.t) && a in s.pending && s.pending[a] !in s.live.Values
    requires forall j :: j in s.pending && j in s.t && InFilter(s.t[j]) ==> s.t[j].container.ip != Some(s.pending[a])
    ensures Reaches(cfg, s, steps, s') && !Distinct(s')
  {
    hide IndexHolds, Enabled, Next, Reaches;
    var freeing, s1 := AddressIsFreed(cfg, s, s.pending[a]);
    var waiting, s2, b := SomeoneWaits(cfg, s1);
    var sharing;
    sharing, s' := SharedAddress(cfg, s2, a, b);
    ReachesThen(cfg, s1, waiting, s2, sharing, s');
    ReachesThen(cfg, s, freeing, s1, waiting + sharing, s');
    steps := freeing + (waiting + sharing);
  }

  /** From any safe state, an event that loses a pending claim lets a quiet run
      end with two containers, or a container and a claim, on one address. */
  lemma LossLetsAddressesCollide(cfg: Config, s: State, ev: Event, a: DeployId) returns (steps: seq<Step>, s': State)
    requires Safe(s) && Enabled(cfg, s, Lifecycle(ev)) && a in s.pending && LosesClaim(s.t, ev, a)
    ensures Reaches(cfg, Next(cfg, s, Lifecycle(ev)), steps, s') && !Distinct(s')
  {
    var ip := s.pending[a];
    var s1 := Next(cfg, s, Lifecycle(ev));
    forall j | j in s1.pending && j in s1.t && InFilter(s1.t[j])
      ensures s1.t[j].container.ip != Some(ip)
    {
      AddressIsOld(cfg, s.t, ev, j);
      ClaimIsLostIff(cfg, s.t, ev, a, ip);
      assert Holds(s.t, j, s.pending[j]);
    }
    steps, s' := LostClaimCollides(cfg, s1, a);
  }

  /** From any safe state, so does a claim committed too late. */
  lemma LateClaimLetsAddressesCollide(cfg: Config, s: State, id: DeployId) returns (steps: seq<Step>, s': State)
    requires Safe(s) && Enabled(cfg, s, Claim(id)) && ClaimsTooLate(s, id)
    ensures Reaches(cfg, Next(cfg, s, Claim(id)), steps, s') && !Distinct(s')
  {
    LateClaimIff(cfg, s, id);
    var s1 := Next(cfg, s, Claim(id));
    if !Distinct(s1) {
      steps, s' := [], s1;
      ReachesSelf(cfg, s1);
    } else {
      forall j | j in s1.pending && j in s1.t && InFilter(s1.t[j])
        ensures s1.t[j].container.ip != Some(s1.pending[id])
      {
        assert j != id && Holds(s.t, j, s.pending[j]);
      }
      steps, s' := LostClaimCollides(cfg, s1, id);
    }
  }

  /** Even when it comes with its scan, for a deploy that has left the index's view. */
  lemma DeadClaimLetsAddressesCollide(cfg: Config, s: State, id: DeployId, ip: string)
    returns (steps: seq<Step>, s': State)
    requires Safe(s) && Enabled(cfg, s, ScanAndClaim(id, ip)) && LeftView(s.t[id])
    ensures Reaches(cfg, Next(cfg, s, ScanAndClaim(id, ip)), steps, s') && !Distinct(s')
  {
    FreeAddressCommits(s, id, ip);
    var s1 := Next(cfg, s, ScanAndClaim(id, ip));
    forall j | j in s1.pending && j in s1.t && InFilter(s1.t[j])
      ensures s1.t[j].container.ip != Some(ip)
    {
      assert s1.t[j].container.ip.value in Claimed(s.t);
    }
    steps, s' := LostClaimCollides(cfg, s1, id);
  }

  /** In a safe state a step is harmless, whatever quiet steps come next, exactly
      when it is quiet itself. */
  lemma HarmlessIffQuiet(cfg: Config, s: State, step: Step)
    requires Safe(s) && Enabled(cfg, s, step)
    ensures (forall steps, s' :: Reaches(cfg, Next(cfg, s, step), steps, s') ==> Distinct(s')) <==> Quiet(s, step)
  {
    var s1 := Next(cfg, s, step);
    hide Apply, Allowed, LosesClaim, IndexHolds, Enabled, ClaimsTooLate;
    if Quiet(s, step) {
      StepKeepsSafe(cfg, s, step);
      forall steps, s' | Reaches(cfg, s1, steps, s')
        ensures Distinct(s')
      {
        LiveAddressesDistinct(cfg, s1, steps);
      }
    } else if step.Claim? {
      var steps, s' := LateClaimLetsAddressesCollide(cfg, s, step.id);
    } else if step.ScanAndClaim? {
      var steps, s' := DeadClaimLetsAddressesCollide(cfg, s, step.id, step.ip);
    } else {
      var a :| a in s.pending && LosesClaim(s.t, step.ev, a);
      var steps, s' := LossLetsAddressesCollide(cfg, s, step.ev, a);
    }
  }

  /** With two deploys waiting and one address free, five steps are enough: the
      first attempt's claim is lost, and its address is handed out again before
      its container is made. */
  lemma FiveStepsToCollision(cfg: Config, s: State, a: DeployId, b: DeployId, ip: string, ev: Event, c: nat, d: nat)
    requires Safe(s) && a != b && Waiting(s, a) && Waiting(s, b) && Free(s, ip)
    requires c != d && c !in s.live && d !in s.live
    requires Enabled(cfg, s, ScanAndClaim(a, ip)) && Enabled(cfg, Next(cfg, s, ScanAndClaim(a, ip)), Lifecycle(ev))
    requires LosesClaim(WithIp(s.t, a, ip), ev, a) &&
             Waiting(Next(cfg, Next(cfg, s, ScanAndClaim(a, ip)), Lifecycle(ev)), b)
    ensures var steps := [ScanAndClaim(a, ip), Lifecycle(ev), ScanAndClaim(b, ip),
                          MakeContainer(a, c), MakeContainer(b, d)];
            Runs(cfg, s, steps) && !Distinct(After(cfg, s, steps))
  {
    hide Enabled, Next, Runs, After, IndexHolds, Free, ClaimsHold, WithIp, Apply, LosesClaim;
    var s1 := ClaimIsCommitted(cfg, s, a, ip);
    var s2 := AfterLoss(cfg, s, s1, ev, a, ip);
    var s3 := ClaimIsCommitted(cfg, s2, b, ip);
    var s4 := Made(cfg, s3, a, c);
    var s5 := Made(cfg, s4, b, d);
    assert s5.live[c] == ip == s5.live[d];
    ChainIsRun(cfg, [s, s1, s2, s3, s4, s5],
               [ScanAndClaim(a, ip), Lifecycle(ev), ScanAndClaim(b, ip), MakeContainer(a, c), MakeContainer(b, d)]);
  }

  lemma AfterLoss(cfg: Config, s: State, s1: State, ev: Event, a: DeployId, ip: string) returns (s2: State)
    requires IndexHolds(s.t) && Waiting(s, a) && Free(s, ip)
    requires s1 == s.(t := WithIp(s.t, a, ip), pending := s.pending[a := ip], chosen := s.chosen - {a}) &&
             IndexHolds(s1.t)
    requires Enabled(cfg, s1, Lifecycle(ev)) && LosesClaim(s1.t, ev, a)
    ensures s2 == Next(cfg, s1, Lifecycle(ev)) && s2 == s1.(t := s2.t) && IndexHolds(s2.t) && Free(s2, ip)
  {
    hide Apply, Allowed, IndexHolds, Claimed, LosesClaim;
    s2 := Next(cfg, s1, Lifecycle(ev));
    LostAddressIsFree(cfg, s, s1.t, ev, a, ip);
  }

  /** Losing the claim of a provisioning deploy brings no other row into the
      filter, so nobody claims the address after. */
  lemma LostAddressIsFree(cfg: Config, s: State, t1: Table, ev: Event, a: DeployId, ip: string)
    requires IndexHolds(s.t) && Waiting(s, a) && Free(s, ip) && t1 == WithIp(s.t, a, ip) && IndexHolds(t1)
    requires Allowed(cfg, t1, ev) && KeepsAddress(t1, ev) && LosesClaim(t1, ev, a)
    ensures ip !in Claimed(Apply(cfg, t1, ev))
  {
    ClaimIsLostIff(cfg, t1, ev, a, ip);
    var t2 := Apply(cfg, t1, ev);
    forall j | j in t2 && InFilter(t2[j])
      ensures t2[j].container.ip.value != ip
    {
      AddressIsOld(cfg, t1, ev, j);
      NoRowEnters(cfg, t1, ev, a, j);
    }
  }

  lemma NoRowEnters(cfg: Config, t: Table, ev: Event, a: DeployId, j: DeployId)
    requires Allowed(cfg, t, ev) && LosesClaim(t, ev, a) && a in t && t[a].status == Provisioning && j != a
    requires j in t && j in Apply(cfg, t, ev) && InFilter(Apply(cfg, t, ev)[j])
    requires t[j].container.ip == Apply(cfg, t, ev)[j].container.ip
    ensures InFilter(t[j])
  {
    if ev.Transition? {
      var t1 := Moved(t, ev.id, ev.target, ev.now);
      assert ev.pick.Some? ==> ev.pick.value in QueuedIn(t1, t[ev.id].env);
    }
  }

  /** A sweep of a pending claim is enough for a collision, from any safe state:
      the swept attempt's address is handed out again before its container is
      made. */
  lemma SweepLetsAddressesCollide(cfg: Config, s: State, a: DeployId, b: DeployId, ip: string, now: Time, c: nat,
                                  d: nat)
    requires Safe(s) && a != b && Waiting(s, a) && Waiting(s, b) && Free(s, ip) && Stuck(s.t, a, now)
    requires c != d && c !in s.live && d !in s.live
    ensures var steps := [ScanAndClaim(a, ip), Lifecycle(Sweep(now, s.t.Keys - {a})), ScanAndClaim(b, ip),
                          MakeContainer(a, c), MakeContainer(b, d)];
            Runs(cfg, s, steps) && !Distinct(After(cfg, s, steps))
  {
    var sweep := Sweep(now, s.t.Keys - {a});
    var s1 := ClaimIsCommitted(cfg, s, a, ip);
    assert a in StuckIds(s1.t, now, s.t.Keys - {a});
    hide Enabled, Next, Runs, After, IndexHolds, Free, ClaimsHold, Stuck, Apply;
    var s2 := SweptState(cfg, s, s1, a, b, ip, now);
    FiveStepsToCollision(cfg, s, a, b, ip, sweep, c, d);
  }

  lemma Made(cfg: Config, s: State, id: DeployId, c: nat) returns (s': State)
    requires id in s.pending && c !in s.live
    ensures Enabled(cfg, s, MakeContainer(id, c)) && s' == Next(cfg, s, MakeContainer(id, c))
    ensures s' == s.(live := s.live[c := s.pending[id]], pending := s.pending - {id})
  {
    s' := Next(cfg, s, MakeContainer(id, c));
  }

  /** A claim of a free address is committed. */
  lemma ClaimIsCommitted(cfg: Config, s: State, id: DeployId, ip: string) returns (s': State)
    requires IndexHolds(s.t) && Waiting(s, id) && Free(s, ip)
    ensures Enabled(cfg, s, ScanAndClaim(id, ip)) && s' == Next(cfg, s, ScanAndClaim(id, ip))
    ensures s' == s.(t := WithIp(s.t, id, ip), pending := s.pending[id := ip], chosen := s.chosen - {id})
    ensures IndexHolds(s'.t)
  {
    FreeAddressCommits(s, id, ip);
    hide IndexHolds;
    s' := Next(cfg, s, ScanAndClaim(id, ip));
  }

  lemma SweptState(cfg: Config, s: State, s1: State, a: DeployId, b: DeployId, ip: string, now: Time)
    returns (s2: State)
    requires IndexHolds(s.t) && a != b && Waiting(s, a) && Waiting(s, b) && Free(s, ip) && Stuck(s.t, a, now)
    requires s1 == s.(t := WithIp(s.t, a, ip), pending := s.pending[a := ip], chosen := s.chosen - {a})
    ensures var sweep := Lifecycle(Sweep(now, s.t.Keys - {a}));
            Enabled(cfg, s1, sweep) && s2 == Next(cfg, s1, sweep)
    ensures s2.live == s.live && s2.pending == s1.pending && s2.chosen == s1.chosen
    ensures IndexHolds(s2.t) && Waiting(s2, b) && Free(s2, ip)
  {
    var t2 := SweptTable(cfg, s.t, s1.t, a, ip, now);
    hide IndexHolds, Apply;
    s2 := s1.(t := t2);
  }

  lemma SweptTable(cfg: Config, t: Table, t1: Table, a: DeployId, ip: string, now: Time) returns (t2: Table)
    requires IndexHolds(t) && a in t && Stuck(t, a, now) && t1 == WithIp(t, a, ip)
    ensures t2 == Apply(cfg, t1, Sweep(now, t.Keys - {a}))
    ensures IndexHolds(t2) && Claimed(t2) <= Claimed(t) && t2.Keys == t.Keys
    ensures forall j :: j in t && j != a ==> t2[j] == t[j]
  {
    assert StuckIds(t1, now, t.Keys - {a}) == {a};
    t2 := Apply(cfg, t1, Sweep(now, t.Keys - {a}));
    assert forall j :: j in t2 && InFilter(t2[j]) ==> j != a && t2[j] == t[j];
  }

  // ------------------------------------------------- when the claim comes later

  function Row(env: Env, status: Status, promotedAt: Option<Time>, ip: Option<string>): Deploy {
    Deploy(env, status, 0, promotedAt, NO_CONTAINER.(ip := ip))
  }

  const RACER := Env(1, "production")
  const WINNER := Env(2, "production")

  function RaceTable(racerIp: Option<string>, winner: Status, promotedAt: Option<Time>,
                     winnerIp: Option<string>): Table {
    map[0 := Row(RACER, Provisioning, None, racerIp), 1 := Row(WINNER, winner, promotedAt, winnerIp)]
  }

  function RaceStep(k: nat): Step {
    match k
    case 0 => Scan(0, "x")
    case 1 => Scan(1, "x")
    case 2 => Claim(1)
    case 3 => MakeContainer(1, 7)
    case 4 => Lifecycle(Transition(1, Healthy, 1, None))
    case 5 => Lifecycle(Transition(1, Active, 2, None))
    case 6 => Lifecycle(Transition(1, Superseded, 3, None))
    case 7 => Claim(0)
    case _ => MakeContainer(0, 8)
  }

  /** The state after the first `k` steps. */
  function RaceState(k: nat): State {
    var x := Some("x");
    var racer := map[0 := "x"];
    match k
    case 0 => State(RaceTable(None, Provisioning, None, None), map[], map[], map[])
    case 1 => State(RaceTable(None, Provisioning, None, None), map[], map[], racer)
    case 2 => State(RaceTable(None, Provisioning, None, None), map[], map[], map[0 := "x", 1 := "x"])
    case 3 => State(RaceTable(None, Provisioning, None, x), map[], map[1 := "x"], racer)
    case 4 => State(RaceTable(None, Provisioning, None, x), map[7 := "x"], map[], racer)
    case 5 => State(RaceTable(None, Healthy, None, x), map[7 := "x"], map[], racer)
    case 6 => State(RaceTable(None, Active, Some(2), x), map[7 := "x"], map[], racer)
    case 7 => State(RaceTable(None, Superseded, Some(2), x), map[7 := "x"], map[], racer)
    case 8 => State(RaceTable(x, Superseded, Some(2), x), map[7 := "x"], map[0 := "x"], map[])
    case _ => State(RaceTable(x, Superseded, Some(2), x), map[7 := "x", 8 := "x"], map[], map[])
  }

  ghost predicate RaceGoesOn(cfg: Config, k: nat) {
    var s, step := RaceState(k), RaceStep(k);
    Enabled(cfg, s, step) && Next(cfg, s, step) == RaceState(k + 1) &&
    !step.ScanAndClaim? && (step.Lifecycle? ==> !step.ev.Sweep?) && (k != 7 ==> Quiet(s, step))
  }

  lemma RaceIndex(racerIp: Option<string>, winner: Status, promotedAt: Option<Time>, winnerIp: Option<string>)
    requires racerIp.Some? && winnerIp.Some? && racerIp == winnerIp ==> winner == Superseded
    ensures IndexHolds(RaceTable(racerIp, winner, promotedAt, winnerIp))
  {
  }

  lemma RaceScans(cfg: Config)
    ensures RaceGoesOn(cfg, 0) && RaceGoesOn(cfg, 1)
  {
    hide IndexHolds;
  }

  lemma ClaimGoesThrough(cfg: Config, s: State, id: DeployId, t': Table)
    requires Enabled(cfg, s, Claim(id)) && t' == WithIp(s.t, id, s.chosen[id]) && IndexHolds(t')
    ensures Next(cfg, s, Claim(id)) == s.(t := t', pending := s.pending[id := s.chosen[id]], chosen := s.chosen - {id})
  {
    hide IndexHolds, WithIp;
  }

  lemma WinnerClaims(cfg: Config)
    ensures RaceGoesOn(cfg, 2)
  {
    RaceIndex(None, Provisioning, None, Some("x"));
    hide IndexHolds, Claimed;
    assert WithIp(RaceState(2).t, 1, "x") == RaceState(3).t;
    ClaimGoesThrough(cfg, RaceState(2), 1, RaceState(3).t);
    hide Next;
    assert RaceState(2).chosen - {1} == RaceState(3).chosen;
  }

  lemma RacerClaims(cfg: Config)
    ensures RaceGoesOn(cfg, 7)
  {
    RaceIndex(Some("x"), Superseded, Some(2), Some("x"));
    hide IndexHolds, Claimed;
    assert WithIp(RaceState(7).t, 0, "x") == RaceState(8).t;
    ClaimGoesThrough(cfg, RaceState(7), 0, RaceState(8).t);
    hide Next;
    assert RaceState(7).chosen - {0} == RaceState(8).chosen;
  }

  lemma RaceMakes(cfg: Config)
    ensures RaceGoesOn(cfg, 3) && RaceGoesOn(cfg, 8)
  {
    hide IndexHolds, RaceTable;
  }

  lemma RaceTransitions(cfg: Config, winner: Status, target: Status, before: Option<Time>, now: Time)
    requires CanTransition(winner, target) && target in {Healthy, Active, Superseded}
    ensures var t := RaceTable(None, winner, before, Some("x"));
            var ev := Transition(1, target, now, None);
            Allowed(cfg, t, ev) &&
            Apply(cfg, t, ev) == RaceTable(None, target, if target == Active then Some(now) else before, Some("x"))
  {
    var t := RaceTable(None, winner, before, Some("x"));
    assert !NewerActive(t, 1);
    var t1 := Moved(t, 1, target, now);
    assert t1 == RaceTable(None, target, if target == Active then Some(now) else before, Some("x"));
    assert QueuedIn(t1, WINNER) == {};
  }

  lemma LifecycleGoesThrough(cfg: Config, s: State, ev: Event, t': Table)
    requires Allowed(cfg, s.t, ev) && Apply(cfg, s.t, ev) == t' && IndexHolds(t') && !ev.Track?
    ensures Enabled(cfg, s, Lifecycle(ev)) && Next(cfg, s, Lifecycle(ev)) == s.(t := t')
  {
    hide Apply, Allowed, IndexHolds;
  }

  lemma RaceLifecycle(cfg: Config, k: nat)
    requires k in {4, 5, 6}
    ensures RaceGoesOn(cfg, k)
  {
    hide Apply, Allowed, IndexHolds, RaceTable, Next, Enabled;
    var t, ev, t' := RaceState(k).t, RaceStep(k).ev, RaceState(k + 1).t;
    if k == 4 {
      RaceTransitions(cfg, Provisioning, Healthy, None, 1);
      RaceIndex(None, Healthy, None, Some("x"));
    } else if k == 5 {
      RaceTransitions(cfg, Healthy, Active, None, 2);
      RaceIndex(None, Active, Some(2), Some("x"));
    } else {
      RaceTransitions(cfg, Active, Superseded, Some(2), 3);
      RaceIndex(None, Superseded, Some(2), Some("x"));
    }
    LifecycleGoesThrough(cfg, RaceState(k), ev, t');
  }

  lemma RaceIsOn(cfg: Config, k: nat)
    requires k < 9
    ensures RaceGoesOn(cfg, k)
  {
    hide RaceGoesOn;
    RaceScans(cfg);
    RaceMakes(cfg);
    if k == 2 {
      WinnerClaims(cfg);
    } else if k == 7 {
      RacerClaims(cfg);
    } else if k in {4, 5, 6} {
      RaceLifecycle(cfg, k);
    }
  }

  /** Two live containers share an address with nothing swept and every step
      quiet but one claim that comes too late: the deploy that was given the
      address too is superseded, and leaves the index, in between. */
  lemma LateClaimsCollide(cfg: Config) returns (states: seq<State>, steps: seq<Step>)
    ensures |states| == |steps| + 1 && Safe(states[0]) && Runs(cfg, states[0], steps)
    ensures After(cfg, states[0], steps) == states[|steps|] && !Distinct(states[|steps|])
    ensures forall k :: 0 <= k < |steps| ==>
              Enabled(cfg, states[k], steps[k]) && Next(cfg, states[k], steps[k]) == states[k + 1] &&
              !steps[k].ScanAndClaim? && (steps[k].Lifecycle? ==> !steps[k].ev.Sweep?) &&
              (Quiet(states[k], steps[k]) || steps[k] == Claim(0))
  {
    states, steps := seq(10, (k: nat) => RaceState(k)), seq(9, (k: nat) => RaceStep(k));
    RaceEnds();
    assert RaceStep(7) == Claim(0);
    hide Enabled, Next, Runs, After, RaceState, RaceStep, Safe, Distinct, Quiet;
    forall k | 0 <= k < |steps|
      ensures Enabled(cfg, states[k], steps[k]) && Next(cfg, states[k], steps[k]) == states[k + 1] &&
              !steps[k].ScanAndClaim? && (steps[k].Lifecycle? ==> !steps[k].ev.Sweep?) &&
              (Quiet(states[k], steps[k]) || steps[k] == Claim(0))
    {
      RaceIsOn(cfg, k);
      assert states[k] == RaceState(k) && steps[k] == RaceStep(k) && states[k + 1] == RaceState(k + 1);
    }
    ChainIsRun(cfg, states, steps);
  }

  lemma RaceEnds()
    ensures Safe(RaceState(0)) && !Distinct(RaceState(9))
  {
    RaceIndex(None, Provisioning, None, None);
    hide IndexHolds, RaceTable;
    var last := RaceState(9);
    assert last.live[7] == last.live[8];
  }
}
