/** What one publisher achieves, told from what it finds. */
module ReleaseLaws {
  import opened Common
  import opened Receipts
  import opened ReleaseProtocol

  lemma {:induction false} RunCons(s: System, m: Move, rest: seq<Move>)
    ensures Run(s, [m] + rest) == Run(Step(s, m), rest)
  {
    assert ([m] + rest)[1..] == rest;
  }

  lemma FiveMoves(s: System, a: Move, b: Move, c: Move, d: Move, e: Move)
    ensures Run(s, [a, b, c, d, e]) == Step(Step(Step(Step(Step(s, a), b), c), d), e)
  {
    hide Step;
    RunCons(s, a, [b, c, d, e]);
    RunCons(Step(s, a), b, [c, d, e]);
    RunCons(Step(Step(s, a), b), c, [d, e]);
    RunCons(Step(Step(Step(s, a), b), c), d, [e]);
    RunCons(Step(Step(Step(Step(s, a), b), c), d), e, []);
    assert [a] + [b, c, d, e] == [a, b, c, d, e] && [b] + [c, d, e] == [b, c, d, e] && [c] + [d, e] == [c, d, e];
    assert [d] + [e] == [d, e] && [e] + [] == [e];
  }

  /** Left alone, a publisher whose receipt is for the newest source commit puts it
      on top of the release branch, or starts the branch on that commit; and one
      whose receipt is for another commit changes nothing. */
  lemma AloneItLands(s: System, pid: nat, stamp: nat)
    requires pid in s.publishers && s.publishers[pid].Started? && s.source != []
    ensures var r := s.publishers[pid].receipt;
            var f := Run(s, [CheckSource(pid), ReadHead(pid), Build(pid, stamp), Recheck(pid), UpdateRef(pid)]);
            f.source == s.source && pid in f.publishers &&
            if s.source[|s.source| - 1] == r.source then
              var commit := Release(if s.release.Some? then s.release.value else Source(r.source), r, stamp);
              f.release == Some(commit) && f.publishers[pid] == Published(r, s.release, commit)
            else f.release == s.release && f.publishers[pid] == Stale(r)
  {
    FiveMoves(s, CheckSource(pid), ReadHead(pid), Build(pid, stamp), Recheck(pid), UpdateRef(pid));
    hide Run;
    var r := s.publishers[pid].receipt;
    var s1 := Step(s, CheckSource(pid));
    if s.source[|s.source| - 1] == r.source {
      var s2 := Step(s1, ReadHead(pid));
      var s3 := Step(s2, Build(pid, stamp));
      var s4 := Step(s3, Recheck(pid));
      var commit := Release(if s.release.Some? then s.release.value else Source(r.source), r, stamp);
      assert s4.publishers[pid] == Rechecked(r, s.release, commit) && s4.release == s.release;
      assert s.release.Some? ==> Ancestor(s.release.value, commit);
    }
  }

  /** The source moving on between the two looks at it makes the publisher give up,
      and the release branch moving on, or coming to be, makes its update fail. */
  lemma LateMovesStop(s: System, pid: nat, sha: Sha)
    requires pid in s.publishers && s.source != []
    ensures s.publishers[pid].Built? && sha !in s.source + [s.publishers[pid].receipt.source] ==>
              var f := Step(Step(s, Push(sha)), Recheck(pid));
              f.publishers[pid] == Stale(s.publishers[pid].receipt) && f.release == s.release &&
              f.source == s.source + [sha]
    ensures s.publishers[pid].Rechecked? && s.publishers[pid].previous == None && s.release.Some? ==>
              Step(s, UpdateRef(pid)) ==
              s.(publishers := s.publishers[pid := ReleaseProtocol.Failed(s.publishers[pid].receipt)])
    ensures !s.publishers[pid].Published? && !s.publishers[pid].Stale? ==>
              Step(s, Crash(pid)) ==
              s.(publishers := s.publishers[pid := ReleaseProtocol.Failed(s.publishers[pid].receipt)])
  {
  }

  /** Nobody's move changes another publisher. */
  lemma OthersStay(s: System, m: Move, pid: nat)
    requires pid in s.publishers && (m.Push? || m.pid != pid)
    ensures pid in Step(s, m).publishers && Step(s, m).publishers[pid] == s.publishers[pid]
  {
  }
}
