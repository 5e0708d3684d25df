/** Publishing receipts on a release branch: any number of publishers and the
    source branch take steps in any order. A commit is content addressed, so it
    is represented by what it is the digest of: its parents and its receipt. */
module ReleaseProtocol {
  import opened Common
  import opened Receipts

  datatype Commit = Source(sha: Sha) | Release(parent: Commit, receipt: Receipt, stamp: nat)

  /** How far one call of publish has got, and the locals it holds there. */
  datatype Publisher =
    | Started(receipt: Receipt)
    | Checked(receipt: Receipt)
    | HeadRead(receipt: Receipt, previous: Option<Commit>)
    | Built(receipt: Receipt, previous: Option<Commit>, commit: Commit)
    | Rechecked(receipt: Receipt, previous: Option<Commit>, commit: Commit)
    | Published(receipt: Receipt, previous: Option<Commit>, commit: Commit)
    | Stale(receipt: Receipt)
    | Failed(receipt: Receipt)

  /** The history of the source branch, the release ref and every publisher. */
  datatype System = System(source: seq<Sha>, release: Option<Commit>, publishers: map<nat, Publisher>)

  datatype Move =
    | Push(sha: Sha)
    | Begin(pid: nat, receipt: Receipt)
    | CheckSource(pid: nat)
    | ReadHead(pid: nat)
    | Build(pid: nat, stamp: nat)
    | Recheck(pid: nat)
    | UpdateRef(pid: nat)
    | Crash(pid: nat)

  predicate Ancestor(a: Commit, c: Commit) {
    a == c || (c.Release? && Ancestor(a, c.parent))
  }

  /** The release commits reachable from a ref. */
  function History(ref: Option<Commit>): set<Commit>
    decreases ref
  {
    if ref.None? then {} else CommitHistory(ref.value)
  }

  function CommitHistory(c: Commit): set<Commit> {
    if c.Release? then {c} + CommitHistory(c.parent) else {}
  }

  function ParentOf(receipt: Receipt, previous: Option<Commit>): Commit {
    if previous.Some? then previous.value else Source(receipt.source)
  }

  /** Does the remote accept the update? An existing ref is only moved to a
      descendant; a ref is only created when it does not exist. */
  predicate RefAccepts(release: Option<Commit>, previous: Option<Commit>, commit: Commit) {
    if previous.Some? then release.Some? && Ancestor(release.value, commit) else release.None?
  }

  predicate IsHead(source: seq<Sha>, sha: Sha) {
    source != [] && source[|source| - 1] == sha
  }

  /** One move; a move that does not fit the state changes nothing. The source
      branch only gains commits it never had. */
  function Step(s: System, m: Move): System {
    match m
    case Push(sha) => if sha in s.source then s else s.(source := s.source + [sha])
    case Begin(pid, receipt) =>
      if pid in s.publishers then s else s.(publishers := s.publishers[pid := Started(receipt)])
    case Crash(pid) =>
      if pid in s.publishers && !s.publishers[pid].Published? && !s.publishers[pid].Stale?
      then s.(publishers := s.publishers[pid := Failed(s.publishers[pid].receipt)]) else s
    case CheckSource(pid) =>
      if pid !in s.publishers || !s.publishers[pid].Started? then s
      else
        var r := s.publishers[pid].receipt;
        s.(publishers := s.publishers[pid := if IsHead(s.source, r.source) then Checked(r) else Stale(r)])
    case ReadHead(pid) =>
      if pid !in s.publishers || !s.publishers[pid].Checked? then s
      else s.(publishers := s.publishers[pid := HeadRead(s.publishers[pid].receipt, s.release)])
    case Build(pid, stamp) =>
      if pid !in s.publishers || !s.publishers[pid].HeadRead? then s
      else
        var p := s.publishers[pid];
        s.(publishers := s.publishers[pid :=
          Built(p.receipt, p.previous, Release(ParentOf(p.receipt, p.previous), p.receipt, stamp))])
    case Recheck(pid) =>
      if pid !in s.publishers || !s.publishers[pid].Built? then s
      else
        var p := s.publishers[pid];
        s.(publishers := s.publishers[pid :=
          if IsHead(s.source, p.receipt.source) then Rechecked(p.receipt, p.previous, p.commit) else Stale(p.receipt)])
    case UpdateRef(pid) =>
      if pid !in s.publishers || !s.publishers[pid].Rechecked? then s
      else
        var p := s.publishers[pid];
        if RefAccepts(s.release, p.previous, p.commit)
        then s.(release := Some(p.commit),
                publishers := s.publishers[pid := Published(p.receipt, p.previous, p.commit)])
        else s.(publishers := s.publishers[pid := Failed(p.receipt)])
  }

  function Run(s: System, moves: seq<Move>): System
    decreases |moves|
  {
    if moves == [] then s else Run(Step(s, moves[0]), moves[1..])
  }

  lemma {:induction false} RunAppend(s: System, a: seq<Move>, b: seq<Move>)
    ensures Run(s, a + b) == Run(Run(s, a), b)
    decreases |a|
  {
    if a == [] {
      assert a + b == b;
    } else {
      assert (a + b)[1..] == a[1..] + b;
      RunAppend(Step(s, a[0]), a[1..], b);
    }
  }

  // ------------------------------------------------------------- commit facts

  lemma {:induction false} AncestorHistory(a: Commit, c: Commit)
    requires Ancestor(a, c)
    ensures CommitHistory(a) <= CommitHistory(c)
    decreases c
  {
    if a != c {
      AncestorHistory(a, c.parent);
    }
  }

  lemma {:induction false} AncestorTransitive(a: Commit, b: Commit, c: Commit)
    requires Ancestor(a, b) && Ancestor(b, c)
    ensures Ancestor(a, c)
    decreases c
  {
    if b != c {
      AncestorTransitive(a, b, c.parent);
    }
  }

  function Depth(c: Commit): nat {
    if c.Release? then 1 + Depth(c.parent) else 0
  }

  lemma {:induction false} AncestorDepth(a: Commit, c: Commit)
    requires Ancestor(a, c)
    ensures Depth(a) <= Depth(c) && (Depth(a) == Depth(c) ==> a == c)
    decreases c
  {
    if a != c {
      AncestorDepth(a, c.parent);
    }
  }

  // --------------------------------------------------------- no receipt is lost

  /** Nothing, or an ancestor of what is there. */
  ghost predicate Precedes(a: Option<Commit>, b: Option<Commit>) {
    a.None? || (b.Some? && Ancestor(a.value, b.value))
  }

  /** The commits whose publisher completed the ref update. */
  function Landed(s: System): set<Commit> {
    set pid | pid in s.publishers && s.publishers[pid].Published? :: s.publishers[pid].commit
  }

  /** What each publisher holds fits the ref it read, and the ref's history is
      the one it started from and everything landed since. */
  ghost predicate Consistent(s: System, base: Option<Commit>) {
    History(s.release) == History(base) + Landed(s) &&
    (forall pid :: pid in s.publishers ==> PublisherConsistent(s.release, s.publishers[pid]))
  }

  ghost predicate PublisherConsistent(release: Option<Commit>, p: Publisher) {
    (p.HeadRead? || p.Built? || p.Rechecked? || p.Published? ==> Precedes(p.previous, release)) &&
    (p.Built? || p.Rechecked? || p.Published? ==>
      p.commit.Release? && p.commit.parent == ParentOf(p.receipt, p.previous) && p.commit.receipt == p.receipt)
  }

  /** The ref only moves to descendants, whatever the state. */
  lemma StepMovesForward(s: System, m: Move)
    requires forall pid :: pid in s.publishers ==> PublisherConsistent(s.release, s.publishers[pid])
    ensures Precedes(s.release, Step(s, m).release)
  {
  }

  lemma PublishersStayConsistent(s: System, m: Move)
    requires forall pid :: pid in s.publishers ==> PublisherConsistent(s.release, s.publishers[pid])
    ensures forall pid :: pid in Step(s, m).publishers ==>
              PublisherConsistent(Step(s, m).release, Step(s, m).publishers[pid])
  {
    var s' := Step(s, m);
    StepMovesForward(s, m);
    forall pid | pid in s'.publishers
      ensures PublisherConsistent(s'.release, s'.publishers[pid])
    {
      if pid in s.publishers && s'.publishers[pid] == s.publishers[pid] {
        var p := s.publishers[pid];
        if (p.HeadRead? || p.Built? || p.Rechecked? || p.Published?) && p.previous.Some? && s.release.Some? {
          AncestorTransitive(p.previous.value, s.release.value, s'.release.value);
        }
      }
    }
  }

  /** The update lands exactly when the head is still the one that was read, or
      is already this very commit. */
  lemma LandsIffHeadUnmoved(release: Option<Commit>, p: Publisher)
    requires p.Rechecked? && PublisherConsistent(release, p)
    ensures RefAccepts(release, p.previous, p.commit) <==>
            (release == p.previous || (p.previous.Some? && release == Some(p.commit)))
  {
    if p.previous.Some? && Ancestor(release.value, p.commit) && release.value != p.commit {
      AncestorDepth(p.previous.value, release.value);
      AncestorDepth(release.value, p.commit.parent);
    }
  }

  lemma UpdateExtendsHistory(release: Option<Commit>, p: Publisher)
    requires p.Rechecked? && PublisherConsistent(release, p) && RefAccepts(release, p.previous, p.commit)
    ensures History(Some(p.commit)) == History(release) + {p.commit}
  {
    LandsIffHeadUnmoved(release, p);
    assert CommitHistory(p.commit) == {p.commit} + CommitHistory(p.commit.parent);
  }

  lemma StepKeepsConsistent(s: System, m: Move, base: Option<Commit>)
    requires Consistent(s, base)
    ensures Consistent(Step(s, m), base)
  {
    var s' := Step(s, m);
    PublishersStayConsistent(s, m);
    if m.UpdateRef? && m.pid in s.publishers && s.publishers[m.pid].Rechecked? {
      var p := s.publishers[m.pid];
      if RefAccepts(s.release, p.previous, p.commit) {
        LandedGrows(s, m.pid);
        UpdateExtendsHistory(s.release, p);
      } else {
        LandedUnchanged(s, s', m.pid);
      }
    } else if !m.Push? {
      LandedUnchanged(s, s', m.pid);
    }
  }

  lemma LandedUnchanged(s: System, s': System, pid: nat)
    requires pid in s.publishers ==> !s.publishers[pid].Published? || s' == s
    requires pid in s'.publishers ==> !s'.publishers[pid].Published? || s' == s
    requires forall q :: q != pid ==> (q in s.publishers <==> q in s'.publishers)
    requires forall q :: q != pid && q in s.publishers ==> s'.publishers[q] == s.publishers[q]
    ensures Landed(s') == Landed(s)
  {
    forall c
      ensures c in Landed(s') <==> c in Landed(s)
    {
      if c in Landed(s) {
        var q :| q in s.publishers && s.publishers[q].Published? && s.publishers[q].commit == c;
        assert s'.publishers[q] == s.publishers[q];
      }
    }
  }

  lemma LandedGrows(s: System, pid: nat)
    requires pid in s.publishers && s.publishers[pid].Rechecked?
    requires RefAccepts(s.release, s.publishers[pid].previous, s.publishers[pid].commit)
    ensures Landed(Step(s, UpdateRef(pid))) == Landed(s) + {s.publishers[pid].commit}
  {
    var s' := Step(s, UpdateRef(pid));
    forall c
      ensures c in Landed(s') <==> c in Landed(s) + {s.publishers[pid].commit}
    {
      if c in Landed(s) {
        var q :| q in s.publishers && s.publishers[q].Published? && s.publishers[q].commit == c;
        assert q in s'.publishers && s'.publishers[q] == s.publishers[q];
      }
      if c == s.publishers[pid].commit {
        assert pid in s'.publishers && s'.publishers[pid].Published?;
      }
    }
  }

  /** Over every interleaving the ref only moves to descendants, and its history
      is the initial one and exactly the commits whose publisher completed. */
  lemma {:induction false} NothingIsLost(s: System, moves: seq<Move>, base: Option<Commit>)
    requires Consistent(s, base)
    ensures Consistent(Run(s, moves), base)
    ensures Precedes(s.release, Run(s, moves).release)
    decreases |moves|
  {
    if moves != [] {
      var s1 := Step(s, moves[0]);
      StepMovesForward(s, moves[0]);
      StepKeepsConsistent(s, moves[0], base);
      NothingIsLost(s1, moves[1..], base);
      if s.release.Some? {
        AncestorTransitive(s.release.value, s1.release.value, Run(s1, moves[1..]).release.value);
      }
    }
  }

  // ------------------------------------------------- releases follow the source

  ghost predicate NoRepeats(source: seq<Sha>) {
    forall i, j :: 0 <= i < j < |source| ==> source[i] != source[j]
  }

  /** Where a commit stands in the source branch. */
  function Position(source: seq<Sha>, sha: Sha): int {
    if sha !in source then -1 else IndexOf(source, sha)
  }

  function IndexOf(source: seq<Sha>, sha: Sha): (i: nat)
    requires sha in source
    ensures i < |source| && source[i] == sha
  {
    if source[0] == sha then 0 else 1 + IndexOf(source[1..], sha)
  }

  /** Every receipt of a chain is for a commit of the source branch, and none is
      for an older one than the receipt before it. */
  ghost predicate InSourceOrder(source: seq<Sha>, c: Commit) {
    c.Release? ==>
      c.receipt.source in source && InSourceOrder(source, c.parent) &&
      (c.parent.Release? ==> Position(source, c.parent.receipt.source) <= Position(source, c.receipt.source))
  }

  ghost predicate RefInOrder(source: seq<Sha>, ref: Option<Commit>) {
    ref.Some? ==> InSourceOrder(source, ref.value)
  }

  /** A publisher past its re-check holds a commit that may be published. */
  ghost predicate Ordered(s: System) {
    s.source != [] && NoRepeats(s.source) && RefInOrder(s.source, s.release) &&
    forall pid :: pid in s.publishers ==> PublisherOrdered(s.source, s.publishers[pid])
  }

  ghost predicate PublisherOrdered(source: seq<Sha>, p: Publisher) {
    (p.HeadRead? || p.Built? ==> RefInOrder(source, p.previous)) &&
    (p.Built? ==>
      p.commit.Release? && p.commit == Release(ParentOf(p.receipt, p.previous), p.receipt, p.commit.stamp)) &&
    (p.Rechecked? ==> InSourceOrder(source, p.commit))
  }

  lemma {:induction false} PositionUnique(source: seq<Sha>, i: nat)
    requires NoRepeats(source) && i < |source|
    ensures Position(source, source[i]) == i
  {
    var j := IndexOf(source, source[i]);
    assert source[j] == source[i];
  }

  lemma PositionKept(source: seq<Sha>, sha: Sha, x: Sha)
    requires NoRepeats(source) && sha !in source && x in source
    ensures x in source + [sha] && Position(source + [sha], x) == Position(source, x)
  {
    var longer := source + [sha];
    var i := IndexOf(source, x);
    assert longer[i] == x;
    PositionUnique(source, i);
    PositionUnique(longer, i);
  }

  lemma {:induction false} OrderKept(source: seq<Sha>, sha: Sha, c: Commit)
    requires NoRepeats(source) && sha !in source && InSourceOrder(source, c)
    ensures InSourceOrder(source + [sha], c)
    decreases c
  {
    if c.Release? {
      OrderKept(source, sha, c.parent);
      PositionKept(source, sha, c.receipt.source);
      if c.parent.Release? {
        PositionKept(source, sha, c.parent.receipt.source);
      }
    }
  }

  /** The re-check is what orders releases: at that moment the receipt is for the
      newest source commit, so nothing read before can be newer. */
  lemma RecheckOrders(source: seq<Sha>, p: Publisher)
    requires NoRepeats(source) && p.Built? && PublisherOrdered(source, p) && IsHead(source, p.receipt.source)
    ensures InSourceOrder(source, p.commit)
  {
    PositionUnique(source, |source| - 1);
    assert p.receipt.source in source;
  }

  lemma PushKeepsOrdered(s: System, sha: Sha)
    requires Ordered(s) && sha !in s.source
    ensures Ordered(Step(s, Push(sha)))
  {
    var longer := s.source + [sha];
    if s.release.Some? {
      OrderKept(s.source, sha, s.release.value);
    }
    forall pid | pid in s.publishers
      ensures PublisherOrdered(longer, s.publishers[pid])
    {
      var p := s.publishers[pid];
      if (p.HeadRead? || p.Built?) && p.previous.Some? {
        OrderKept(s.source, sha, p.previous.value);
      }
      if p.Rechecked? {
        OrderKept(s.source, sha, p.commit);
      }
    }
  }

  lemma StepKeepsOrdered(s: System, m: Move)
    requires Ordered(s)
    ensures Ordered(Step(s, m))
  {
    if m.Push? {
      if m.sha !in s.source {
        PushKeepsOrdered(s, m.sha);
      }
    } else if m.Recheck? && m.pid in s.publishers && s.publishers[m.pid].Built? &&
              IsHead(s.source, s.publishers[m.pid].receipt.source)
    {
      RecheckOrders(s.source, s.publishers[m.pid]);
    }
  }

  /** Whatever the interleaving, receipts along the release branch follow the
      source branch. */
  lemma {:induction false} ReleasesFollowSource(s: System, moves: seq<Move>)
    requires Ordered(s)
    ensures Ordered(Run(s, moves))
    decreases |moves|
  {
    if moves != [] {
      StepKeepsOrdered(s, moves[0]);
      ReleasesFollowSource(Step(s, moves[0]), moves[1..]);
    }
  }

  /** The same, read off the chain: of two receipts, the one published earlier
      is for a source commit no newer. */
  lemma {:induction false} EarlierReleaseIsNoNewer(source: seq<Sha>, a: Commit, c: Commit)
    requires InSourceOrder(source, c) && a.Release? && Ancestor(a, c)
    ensures c.Release? && 0 <= Position(source, a.receipt.source) <= Position(source, c.receipt.source)
    decreases c
  {
    if a != c {
      EarlierReleaseIsNoNewer(source, a, c.parent);
    }
  }
}
