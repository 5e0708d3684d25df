/** The publish call itself, talking to a remote that others use between any two
    of its requests. */
module ReleasePublisher {
  import opened Common
  import opened Receipts
  import opened ReleaseProtocol

  datatype Outcome = Done(published: bool) | RequestFailed

  /** Moves of everyone but one publisher. */
  ghost predicate Foreign(moves: seq<Move>, pid: nat) {
    forall k :: 0 <= k < |moves| ==> moves[k].Push? || moves[k].pid != pid
  }

  lemma {:induction false} ForeignRun(s: System, moves: seq<Move>, pid: nat)
    requires Foreign(moves, pid) && pid in s.publishers && s.source != []
    ensures var f := Run(s, moves); pid in f.publishers && f.publishers[pid] == s.publishers[pid] && f.source != []
    decreases |moves|
  {
    if moves != [] {
      ForeignRun(Step(s, moves[0]), moves[1..], pid);
    }
  }

  /** The requests of one call, in order. */
  function Request(pid: nat, stamp: nat, k: nat): Move {
    match k
    case 0 => CheckSource(pid)
    case 1 => ReadHead(pid)
    case 2 => Build(pid, stamp)
    case 3 => Recheck(pid)
    case _ => UpdateRef(pid)
  }

  /** What happens up to its `n`-th request: before the k-th one everyone else
      takes the moves `others[k]`. */
  function Moves(pid: nat, stamp: nat, others: seq<seq<Move>>, n: nat): seq<Move>
    requires n <= |others|
  {
    if n == 0 then [] else Moves(pid, stamp, others, n - 1) + others[n - 1] + [Request(pid, stamp, n - 1)]
  }

  lemma MovesNext(before: seq<Move>, pid: nat, stamp: nat, others: seq<seq<Move>>, n: nat)
    requires n < |others|
    ensures before + Moves(pid, stamp, others, n) + others[n] + [Request(pid, stamp, n)] ==
            before + Moves(pid, stamp, others, n + 1)
    ensures before + Moves(pid, stamp, others, n) + others[n] + [Crash(pid)] ==
            before + (Moves(pid, stamp, others, n) + others[n] + [Crash(pid)])
  {
  }

  ghost predicate AllForeign(others: seq<seq<Move>>, pid: nat) {
    forall k :: 0 <= k < |others| ==> Foreign(others[k], pid)
  }

  /** The remote, with the progress of every publisher that talks to it, and the
      moves that led here from where it started. */
  class Remote {
    var sys: System
    ghost const start: System
    ghost var log: seq<Move>

    ghost predicate Valid()
      reads this
    {
      sys == Run(start, log) && sys.source != []
    }

    constructor (sys: System)
      requires sys.source != []
      ensures Valid() && this.sys == sys && start == sys && log == []
    {
      this.sys, this.start, this.log := sys, sys, [];
    }

    method Take(m: Move)
      requires Valid()
      modifies this
      ensures Valid() && sys == Step(old(sys), m) && log == old(log) + [m]
    {
      RunAppend(start, log, [m]);
      assert Run(sys, [m]) == Step(sys, m) by {
        assert Run(Step(sys, m), []) == Step(sys, m);
        assert [m][1..] == [];
      }
      sys := Step(sys, m);
      log := log + [m];
    }

    /** Others take their moves. */
    method Others(moves: seq<Move>, pid: nat)
      requires Valid() && pid in sys.publishers && Foreign(moves, pid)
      modifies this
      ensures Valid() && log == old(log) + moves
      ensures pid in sys.publishers && sys.publishers[pid] == old(sys).publishers[pid]
    {
      RunAppend(start, log, moves);
      ForeignRun(sys, moves, pid);
      sys := Run(sys, moves);
      log := log + moves;
    }

    /** The request fails, and the call with it. */
    method Abort(pid: nat)
      requires Valid() && pid in sys.publishers && !sys.publishers[pid].Published? && !sys.publishers[pid].Stale?
      modifies this
      ensures Valid() && log == old(log) + [Crash(pid)]
      ensures pid in sys.publishers && sys.publishers[pid] == Failed(old(sys).publishers[pid].receipt)
    {
      Take(Crash(pid));
    }

    /** Reads the source ref, before the release ref is read or again after. */
    method GetSource(pid: nat) returns (head: Sha)
      requires Valid() && pid in sys.publishers && (sys.publishers[pid].Started? || sys.publishers[pid].Built?)
      modifies this
      ensures Valid() && pid in sys.publishers && IsHead(old(sys).source, head)
      ensures var p := old(sys).publishers[pid];
              log == old(log) + [if p.Started? then CheckSource(pid) else Recheck(pid)] &&
              sys.publishers[pid] ==
                if head != p.receipt.source then Stale(p.receipt)
                else if p.Started? then Checked(p.receipt)
                else Rechecked(p.receipt, p.previous, p.commit)
    {
      head := sys.source[|sys.source| - 1];
      Take(if sys.publishers[pid].Started? then CheckSource(pid) else Recheck(pid));
    }

    method GetRelease(pid: nat) returns (ref: Option<Commit>)
      requires Valid() && pid in sys.publishers && sys.publishers[pid].Checked?
      modifies this
      ensures Valid() && log == old(log) + [ReadHead(pid)] && ref == old(sys).release
      ensures pid in sys.publishers && sys.publishers[pid] == HeadRead(old(sys).publishers[pid].receipt, ref)
    {
      ref := sys.release;
      Take(ReadHead(pid));
    }

    method PostCommit(pid: nat, parent: Commit, receipt: Receipt, stamp: nat) returns (commit: Commit)
      requires Valid() && pid in sys.publishers && sys.publishers[pid].HeadRead? &&
               sys.publishers[pid].receipt == receipt
      requires parent == ParentOf(receipt, sys.publishers[pid].previous)
      modifies this
      ensures Valid() && log == old(log) + [Build(pid, stamp)] && commit == Release(parent, receipt, stamp)
      ensures pid in sys.publishers && sys.publishers[pid] == Built(receipt, old(sys).publishers[pid].previous, commit)
    {
      commit := Release(parent, receipt, stamp);
      Take(Build(pid, stamp));
    }

    /** Creates the ref, or moves it without force. */
    method MoveRef(pid: nat, commit: Commit, create: bool) returns (ok: bool)
      requires Valid() && pid in sys.publishers && sys.publishers[pid].Rechecked?
      requires sys.publishers[pid].commit == commit && create == sys.publishers[pid].previous.None?
      modifies this
      ensures Valid() && log == old(log) + [UpdateRef(pid)]
      ensures var p := old(sys).publishers[pid];
              ok == RefAccepts(old(sys).release, p.previous, commit) && pid in sys.publishers &&
              sys.publishers[pid] == if ok then Published(p.receipt, p.previous, commit) else Failed(p.receipt)
    {
      ok := if create then sys.release.None? else sys.release.Some? && Ancestor(sys.release.value, commit);
      Take(UpdateRef(pid));
    }

    /** The first three requests of a call: is the source current, what is the
        head, and the commit that would extend it. */
    method Prepare(pid: nat, receipt: Receipt, stamp: nat, others: seq<seq<Move>>, failsAt: nat)
      returns (outcome: Outcome, previous: Option<Commit>, commit: Commit)
      requires Valid() && pid in sys.publishers && sys.publishers[pid] == Started(receipt)
      requires |others| == 5 && AllForeign(others, pid)
      modifies this
      ensures Valid() && pid in sys.publishers
      ensures match outcome
              case Done(true) =>
                sys.publishers[pid] == Built(receipt, previous, commit) &&
                log == old(log) + Moves(pid, stamp, others, 3) && failsAt >= 3
              case Done(false) =>
                sys.publishers[pid] == Stale(receipt) && log == old(log) + Moves(pid, stamp, others, 1)
              case RequestFailed =>
                sys.publishers[pid] == Failed(receipt) && failsAt < 3 &&
                log == old(log) + (Moves(pid, stamp, others, failsAt) + others[failsAt] + [Crash(pid)])
    {
      hide Run, Step, Foreign, Ancestor;
      previous, commit := None, Source(receipt.source);
      Others(others[0], pid);
      if failsAt == 0 {
        Abort(pid);
        return RequestFailed, previous, commit;
      }
      var head := GetSource(pid);
      assert log == old(log) + Moves(pid, stamp, others, 1);
      if head != receipt.source {
        return Done(false), previous, commit;
      }

      Others(others[1], pid);
      if failsAt == 1 {
        Abort(pid);
        return RequestFailed, previous, commit;
      }
      previous := GetRelease(pid);
      assert log == old(log) + Moves(pid, stamp, others, 2);
      var parent := if previous.Some? then previous.value else Source(receipt.source);

      Others(others[2], pid);
      if failsAt == 2 {
        Abort(pid);
        return RequestFailed, previous, commit;
      }
      commit := PostCommit(pid, parent, receipt, stamp);
      outcome := Done(true);
    }

    /** One call of publish. Before its k-th request everyone else takes the moves
        `others[k]`; the request numbered `failsAt`, if any, errors. */
    method Publish(pid: nat, receipt: Receipt, stamp: nat, others: seq<seq<Move>>, failsAt: nat)
      returns (outcome: Outcome)
      requires Valid() && pid in sys.publishers && sys.publishers[pid] == Started(receipt)
      requires |others| == 5 && AllForeign(others, pid)
      modifies this
      ensures Valid() && pid in sys.publishers && sys.publishers[pid].receipt == receipt
      ensures match outcome
              case Done(true) =>
                sys.publishers[pid].Published? && log == old(log) + Moves(pid, stamp, others, 5) && failsAt >= 5
              case Done(false) =>
                sys.publishers[pid].Stale? &&
                (log == old(log) + Moves(pid, stamp, others, 1) || log == old(log) + Moves(pid, stamp, others, 4))
              case RequestFailed =>
                sys.publishers[pid].Failed? &&
                log == old(log) + if failsAt >= 5 then Moves(pid, stamp, others, 5)
                                  else Moves(pid, stamp, others, failsAt) + others[failsAt] + [Crash(pid)]
    {
      hide Run, Step, Foreign, Ancestor, Moves;
      MovesNext(log, pid, stamp, others, 3);
      MovesNext(log, pid, stamp, others, 4);
      var previous, commit;
      outcome, previous, commit := Prepare(pid, receipt, stamp, others, failsAt);
      if outcome != Done(true) {
        return;
      }

      Others(others[3], pid);
      if failsAt == 3 {
        Abort(pid);
        return RequestFailed;
      }
      var head := GetSource(pid);
      if head != receipt.source {
        return Done(false);
      }

      Others(others[4], pid);
      if failsAt == 4 {
        Abort(pid);
        return RequestFailed;
      }
      var ok := MoveRef(pid, commit, previous.None?);
      return if ok then Done(true) else RequestFailed;
    }
  }

  /** What a successful call leaves behind, from any start in which the protocol
      invariants hold: its receipt is on the branch, on top of the head it read,
      and the branch is still in source order. */
  lemma PublishedForGood(start: System, log: seq<Move>, later: seq<Move>, pid: nat, base: Option<Commit>)
    requires Consistent(start, base) && Ordered(start)
    requires pid in Run(start, log).publishers && Run(start, log).publishers[pid].Published?
    ensures var p := Run(start, log).publishers[pid];
            var final := Run(start, log + later);
            p.commit in History(final.release) && p.commit.Release? && p.commit.receipt == p.receipt &&
            p.commit.parent == ParentOf(p.receipt, p.previous) && RefInOrder(final.source, final.release)
  {
    NothingIsLost(start, log, base);
    var s := Run(start, log);
    assert s.publishers[pid].commit in Landed(s);
    RunAppend(start, log, later);
    NothingIsLost(s, later, base);
    ReleasesFollowSource(start, log + later);
    AncestorHistory(s.release.value, Run(s, later).release.value);
  }
}
