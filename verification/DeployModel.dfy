/** The deploys table, the status machine and every handler that steps it.

    A handler or transaction is one atomic step on the table. What a step
    cannot decide on its own (which of two equally old rows a query returns, the
    clock, whether a container really stopped) is part of the event. */
module DeployModel {
  import opened Common

  datatype Status =
    | Queued | Building | ArtifactReady | Provisioning | Healthy
    | Active | Stopped | Failed | RolledBack | Superseded

  type DeployId = nat
  type Time = int

  /** An environment belongs to one project. */
  datatype Env = Env(project: nat, name: string)

  datatype Container = Container(ip: Option<string>, port: Option<nat>, vmid: Option<nat>, node: Option<string>)

  const NO_CONTAINER := Container(None, None, None, None)

  datatype Deploy = Deploy(env: Env, status: Status, createdAt: Time, promotedAt: Option<Time>, container: Container)

  type Table = map<DeployId, Deploy>

  datatype Config = Config(maxConcurrent: int, maxQueue: int)

  /** The most containers a project may have running at once. */
  const MAX_RUNNING := 3

  /** A deploy older than this, in seconds, and still in progress is stuck. */
  const STUCK_SECONDS := 1800

  // ---------------------------------------------------------------- statuses

  function Successors(s: Status): set<Status> {
    match s
    case Queued => {Building, Failed}
    case Building => {ArtifactReady, Failed}
    case ArtifactReady => {Provisioning, Failed}
    case Provisioning => {Healthy, Failed}
    case Healthy => {Active, Failed}
    case Active => {Superseded, RolledBack, Stopped}
    case Stopped => {Active, RolledBack}
    case Failed => {Queued, RolledBack}
    case RolledBack => {}
    case Superseded => {Active, Stopped}
  }

  predicate CanTransition(from: Status, to: Status) {
    to in Successors(from)
  }

  /** The states that occupy a concurrency slot. */
  predicate IsInProgress(s: Status) {
    s.Building? || s.ArtifactReady? || s.Provisioning? || s.Healthy?
  }

  /** The states whose arrival frees a slot and wakes the queue. */
  predicate Frees(s: Status) {
    s.Active? || s.Failed? || s.RolledBack? || s.Superseded? || s.Stopped?
  }

  // ----------------------------------------------------------------- queries

  function InProgress(t: Table, e: Env): set<DeployId> {
    set i | i in t && t[i].env == e && IsInProgress(t[i].status)
  }

  function QueuedIn(t: Table, e: Env): set<DeployId> {
    set i | i in t && t[i].env == e && t[i].status == Queued
  }

  function ActiveIn(t: Table, e: Env): set<DeployId> {
    set i | i in t && t[i].env == e && t[i].status == Active
  }

  /** Active or superseded deploys of a project that still have a container. */
  function RunningIn(t: Table, project: nat): set<DeployId> {
    set i | i in t && t[i].env.project == project && t[i].status in {Active, Superseded} && t[i].container.vmid.Some?
  }

  predicate OldestQueued(t: Table, e: Env, id: DeployId) {
    id in QueuedIn(t, e) && forall j :: j in QueuedIn(t, e) ==> t[id].createdAt <= t[j].createdAt
  }

  /** The newest-deploy guard's query: a promoted, active deploy of the same
      environment created after this one. */
  predicate NewerActive(t: Table, id: DeployId)
    requires id in t
  {
    exists j :: j in ActiveIn(t, t[id].env) && t[j].promotedAt.Some? && t[j].createdAt > t[id].createdAt
  }

  /** "order by promoted_at desc nulls last": may `a` be listed no later than `b`? */
  predicate PromotedNoEarlier(a: Option<Time>, b: Option<Time>) {
    b.None? || (a.Some? && a.value >= b.value)
  }

  /** The same, and then "created_at desc". */
  predicate ListedNoLater(a: Deploy, b: Deploy) {
    PromotedNoEarlier(a.promotedAt, b.promotedAt) && (a.promotedAt == b.promotedAt ==> a.createdAt >= b.createdAt)
  }

  /** The deploy holding the project's production URL. */
  predicate IsProduction(t: Table, project: nat, choice: Option<DeployId>) {
    var candidates := set i | i in t && t[i].env.project == project && t[i].status == Active;
    if candidates == {} then choice.None?
    else choice.Some? && choice.value in candidates &&
         forall j :: j in candidates ==> PromotedNoEarlier(t[choice.value].promotedAt, t[j].promotedAt)
  }

  /** Deploys a rollback of `id` may return to. */
  function RollbackCandidates(t: Table, id: DeployId): set<DeployId>
    requires id in t
  {
    set i | i in t && t[i].env == t[id].env && i != id && t[i].status in {Superseded, Stopped} &&
            t[i].container.vmid.Some? && t[i].container.ip.Some?
  }

  predicate RollsBackTo(t: Table, id: DeployId, previous: Option<DeployId>)
    requires id in t
  {
    var candidates := RollbackCandidates(t, id);
    if candidates == {} then previous.None?
    else previous.Some? && previous.value in candidates &&
         forall j :: j in candidates ==> ListedNoLater(t[previous.value], t[j])
  }

  // ---------------------------------------------------------------- updates

  function SetStatus(t: Table, id: DeployId, s: Status): Table
    requires id in t
  {
    t[id := t[id].(status := s)]
  }

  function Activate(t: Table, id: DeployId, now: Time): Table
    requires id in t
  {
    t[id := t[id].(status := Active, promotedAt := Some(now))]
  }

  /** Every active deploy of the environment, except one, becomes superseded. */
  function Supersede(t: Table, e: Env, except: DeployId): Table {
    map i | i in t ::
      if t[i].env == e && t[i].status == Active && i != except then t[i].(status := Superseded) else t[i]
  }

  /** What the queue may promote: nothing when it is full or empty, and one of
      the oldest queued deploys otherwise. */
  predicate ValidPick(cfg: Config, t: Table, e: Env, pick: Option<DeployId>) {
    if |InProgress(t, e)| >= cfg.maxConcurrent || QueuedIn(t, e) == {} then pick.None?
    else pick.Some? && OldestQueued(t, e, pick.value)
  }

  function PromoteNext(t: Table, pick: Option<DeployId>): Table
    requires pick.Some? ==> pick.value in t
  {
    if pick.None? then t else SetStatus(t, pick.value, Building)
  }

  // ------------------------------------------------------- creating deploys

  function Inserted(t: Table, id: DeployId, e: Env, now: Time): Table {
    t[id := Deploy(e, Queued, now, None, NO_CONTAINER)]
  }

  predicate QueueFull(cfg: Config, t: Table, e: Env) {
    |QueuedIn(t, e)| >= cfg.maxQueue
  }

  function Created(cfg: Config, t: Table, id: DeployId, e: Env, now: Time, pick: Option<DeployId>): Table
    requires pick.Some? ==> pick.value in t || pick.value == id
  {
    var t1 := Inserted(t, id, e, now);
    if QueueFull(cfg, t1, e) then SetStatus(t1, id, Failed) else PromoteNext(t1, pick)
  }

  // ------------------------------------------------------------ transitions

  /** The status a transition really ends in: an older deploy that loses the
      promotion race becomes superseded. */
  function Effective(t: Table, id: DeployId, target: Status): Status
    requires id in t
  {
    if target == Active && NewerActive(t, id) then Superseded else target
  }

  predicate TransitionAccepted(t: Table, id: DeployId, target: Status) {
    id in t && CanTransition(t[id].status, target)
  }

  /** The table before the freed slot is handed on. */
  function Moved(t: Table, id: DeployId, target: Status, now: Time): Table
    requires id in t
  {
    if Effective(t, id, target) == Active then Supersede(Activate(t, id, now), t[id].env, id)
    else SetStatus(t, id, Effective(t, id, target))
  }

  // ------------------------------------------------------------------ events

  datatype Event =
    | Create(id: DeployId, env: Env, now: Time, pick: Option<DeployId>)
    | Transition(id: DeployId, target: Status, now: Time, pick: Option<DeployId>)
    | Promote(id: DeployId, now: Time, production: Option<DeployId>, routed: bool)
    | Rollback(id: DeployId, now: Time, previous: Option<DeployId>)
    | Stop(id: DeployId, confirmed: bool)
    | Start(id: DeployId, now: Time, started: bool)
    | Destroy(id: DeployId, tornDown: bool)
    | Sweep(now: Time, skipped: set<DeployId>)
    | Track(id: DeployId, container: Container)

  predicate HasContainer(c: Container) {
    c.ip.Some? && c.ip.value != "" && c.vmid.Some? && c.vmid.value != 0
  }

  predicate HasIdentity(c: Container) {
    c.vmid.Some? && c.vmid.value != 0 && c.node.Some? && c.node.value != ""
  }

  predicate PromoteAccepted(t: Table, ev: Event)
    requires ev.Promote?
  {
    ev.id in t && t[ev.id].status in {Active, Superseded} && HasContainer(t[ev.id].container) &&
    ev.production != Some(ev.id) && ev.routed
  }

  /** A destroy is refused when teardown cannot prove the container is gone: the
      destroy fails, or the row should have a container but lacks its identity. */
  predicate DestroyAccepted(t: Table, id: DeployId, tornDown: bool) {
    id in t && t[id].status != RolledBack &&
    if HasIdentity(t[id].container) then tornDown
    else !(t[id].container.vmid.Some? && t[id].container.vmid.value != 0) &&
         t[id].status !in {Provisioning, Healthy, Active, Superseded, Stopped}
  }

  predicate StopAccepted(t: Table, id: DeployId, confirmed: bool) {
    id in t && t[id].status in {Active, Superseded} && (HasIdentity(t[id].container) ==> confirmed)
  }

  predicate StartAccepted(t: Table, id: DeployId, started: bool) {
    id in t && t[id].status == Stopped && |RunningIn(t, t[id].env.project)| < MAX_RUNNING &&
    HasIdentity(t[id].container) && started
  }

  predicate Stuck(t: Table, id: DeployId, now: Time)
    requires id in t
  {
    IsInProgress(t[id].status) && t[id].createdAt < now - STUCK_SECONDS
  }

  /** The sweep passes over rows that another transaction has locked. */
  function StuckIds(t: Table, now: Time, skipped: set<DeployId>): set<DeployId> {
    set i | i in t && Stuck(t, i, now) && i !in skipped
  }

  /** The given deploys fail and lose their container columns. */
  function FailAll(t: Table, ids: set<DeployId>): Table {
    map i | i in t :: if i in ids then t[i].(status := Failed, container := NO_CONTAINER) else t[i]
  }

  /** Can this event, with these choices, happen in this table? */
  predicate Allowed(cfg: Config, t: Table, ev: Event) {
    match ev
    case Create(id, e, now, pick) =>
      id !in t &&
      var t1 := Inserted(t, id, e, now);
      if QueueFull(cfg, t1, e) then pick.None? else ValidPick(cfg, t1, e, pick)
    case Transition(id, target, now, pick) =>
      if TransitionAccepted(t, id, target) && Frees(Effective(t, id, target))
      then ValidPick(cfg, Moved(t, id, target, now), t[id].env, pick)
      else pick.None?
    case Promote(id, _, production, _) =>
      id in t ==> IsProduction(t, t[id].env.project, production)
    case Rollback(id, _, previous) =>
      id in t ==> RollsBackTo(t, id, previous)
    case Stop(_, _) => true
    case Start(_, _, _) => true
    case Destroy(_, _) => true
    case Sweep(_, _) => true
    case Track(id, _) => id in t
  }

  /** The table after an event. A refused request leaves it as it was. */
  function Apply(cfg: Config, t: Table, ev: Event): Table
    requires Allowed(cfg, t, ev)
  {
    match ev
    case Create(id, e, now, pick) => Created(cfg, t, id, e, now, pick)
    case Transition(id, target, now, pick) =>
      if !TransitionAccepted(t, id, target) then t else PromoteNext(Moved(t, id, target, now), pick)
    case Promote(id, now, _, _) =>
      if !PromoteAccepted(t, ev) then t else Activate(Supersede(t, t[id].env, id), id, now)
    case Rollback(id, now, previous) =>
      if id !in t || t[id].status != Active then t
      else
        var t1 := SetStatus(t, id, Superseded);
        if previous.None? then t1 else Activate(t1, previous.value, now)
    case Stop(id, confirmed) => if StopAccepted(t, id, confirmed) then SetStatus(t, id, Stopped) else t
    case Start(id, now, started) => if StartAccepted(t, id, started) then Activate(t, id, now) else t
    case Destroy(id, tornDown) => if DestroyAccepted(t, id, tornDown) then SetStatus(t, id, RolledBack) else t
    case Sweep(now, skipped) => FailAll(t, StuckIds(t, now, skipped))
    case Track(id, container) => t[id := t[id].(container := container)]
  }

  // -------------------------------------------------------------------- runs

  predicate Feasible(cfg: Config, t: Table, evs: seq<Event>)
    decreases |evs|
  {
    evs == [] || (Allowed(cfg, t, evs[0]) && Feasible(cfg, Apply(cfg, t, evs[0]), evs[1..]))
  }

  function Final(cfg: Config, t: Table, evs: seq<Event>): Table
    requires Feasible(cfg, t, evs)
    decreases |evs|
  {
    if evs == [] then t else Final(cfg, Apply(cfg, t, evs[0]), evs[1..])
  }

  /** Failing one more deploy extends the set. */
  lemma FailOneMore(t: Table, ids: set<DeployId>, i: DeployId)
    requires i in t && i !in ids
    ensures var t1 := FailAll(t, ids);
            i in t1 && t1[i] == t[i] &&
            FailAll(t, ids + {i}) == t1[i := t[i].(status := Failed, container := NO_CONTAINER)]
  {
  }
}
