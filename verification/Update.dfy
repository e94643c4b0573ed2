/** Replacing the binary, putting it into service, and rolling back (client/update.go, client/updateapply.go). */
module Update {
  import opened Basics
  import opened Disk

  /** The states passed through after the one it started in, and whether it reported success. */
  datatype Trace = Trace(states: seq<Files>, ok: bool)

  function Final(fs: Files, states: seq<Files>): Files {
    if states == [] then fs else Last(states)
  }

  // ---- replaceBinary ---------------------------------------------------------------------

  /** One choice of outcome for every operation; `statMisreports` has os.Stat fail on a file that is there. */
  datatype ReplaceFaults = ReplaceFaults(write: WriteFault, chmod: bool, removeOld: bool, statMisreports: bool,
                                         moveAside: bool, install: bool, putBack: bool, removeStaged: bool)

  function ReplaceTrace(fs: Files, blob: Bytes, f: ReplaceFaults): Trace {
    var written := WriteStates(fs, New, blob, f.write);
    if !f.write.Written? then Trace(written, false)
    else
      var staged := Last(written);
      if !f.chmod then Trace(written + [Remove(staged, New, f.removeStaged)], false)
      else
        var cleared := Remove(staged, Old, f.removeOld);
        var rest := InstallTrace(cleared, f);
        Trace(written + [cleared] + rest.states, rest.ok)
  }

  /** From the moment the previous .old is gone. */
  function InstallTrace(cleared: Files, f: ReplaceFaults): Trace
    requires New in cleared
  {
    if Target in cleared && !f.statMisreports then
      if !f.moveAside then Trace([Remove(cleared, New, f.removeStaged)], false)
      else
        var moved := RenameTo(cleared, Target, Old);
        if f.install then Trace([moved, RenameTo(moved, New, Target)], true)
        else if f.putBack then
          var back := RenameTo(moved, Old, Target);
          Trace([moved, back, Remove(back, New, f.removeStaged)], false)
        else Trace([moved, Remove(moved, New, f.removeStaged)], false)
    else if f.install then Trace([RenameTo(cleared, New, Target)], true)
    else Trace([Remove(cleared, New, f.removeStaged)], false)
  }

  method ReplaceBinary(disk: Disk, blob: Bytes, f: ReplaceFaults) returns (ok: bool)
    requires disk.Valid()
    modifies disk
    ensures disk.Valid()
    ensures ok == ReplaceTrace(old(disk.files), blob, f).ok
    ensures disk.trail == old(disk.trail) + ReplaceTrace(old(disk.files), blob, f).states
  {
    var written := disk.WriteFile(New, blob, f.write);
    if !written {
      return false;
    }
    if !f.chmod {
      disk.Unlink(New, f.removeStaged);
      return false;
    }
    disk.Unlink(Old, f.removeOld);
    ok := Install(disk, f);
  }

  method Install(disk: Disk, f: ReplaceFaults) returns (ok: bool)
    requires disk.Valid() && New in disk.files
    modifies disk
    ensures disk.Valid()
    ensures ok == InstallTrace(old(disk.files), f).ok
    ensures disk.trail == old(disk.trail) + InstallTrace(old(disk.files), f).states
  {
    var movedAside := false;
    if Target in disk.files && !f.statMisreports {
      movedAside := disk.Rename(Target, Old, f.moveAside);
      if !movedAside {
        disk.Unlink(New, f.removeStaged);
        return false;
      }
    }
    ok := disk.Rename(New, Target, f.install);
    if !ok {
      if movedAside {
        var _ := disk.Rename(Old, Target, f.putBack);
      }
      disk.Unlink(New, f.removeStaged);
    }
  }

  // ---- rollback ----------------------------------------------------------------------------

  datatype RollbackFaults = RollbackFaults(statMisreports: bool, removeFailed: bool, moveAside: bool, restore: bool)

  function RollbackTrace(fs: Files, f: RollbackFaults): Trace {
    if Old !in fs || f.statMisreports then Trace([], false)
    else
      var cleared := Remove(fs, Failed, f.removeFailed);
      if Target !in cleared || !f.moveAside then Trace([cleared], false)
      else
        var moved := RenameTo(cleared, Target, Failed);
        if f.restore then Trace([cleared, moved, RenameTo(moved, Old, Target)], true)
        else Trace([cleared, moved], false)
  }

  method Rollback(disk: Disk, f: RollbackFaults) returns (ok: bool)
    requires disk.Valid()
    modifies disk
    ensures disk.Valid()
    ensures ok == RollbackTrace(old(disk.files), f).ok
    ensures disk.trail == old(disk.trail) + RollbackTrace(old(disk.files), f).states
  {
    if Old !in disk.files || f.statMisreports {
      return false;
    }
    disk.Unlink(Failed, f.removeFailed);
    var moved := disk.Rename(Target, Failed, f.moveAside);
    if !moved {
      return false;
    }
    ok := disk.Rename(Old, Target, f.restore);
  }

  // ---- restartAndVerify --------------------------------------------------------------------

  const VERIFY_TIMEOUT: int := 180 * SECOND
  const VERIFY_POLL: int := 3 * SECOND

  /** When the i-th poll starts, counting from the first: each takes its own time and a fixed sleep. */
  function PollStart(took: nat -> nat, i: nat): nat {
    if i == 0 then 0 else PollStart(took, i - 1) + took(i - 1) + VERIFY_POLL
  }

  ghost predicate AnswersInTime(answers: nat -> bool, took: nat -> nat) {
    exists i: nat :: PollStart(took, i) < VERIFY_TIMEOUT && answers(i)
  }

  lemma {:induction false} PollsAreSpaced(took: nat -> nat, i: nat, j: nat)
    requires i <= j
    ensures PollStart(took, i) + (j - i) * VERIFY_POLL <= PollStart(took, j)
  {
    if i == j {
    } else {
      PollsAreSpaced(took, i, j - 1);
    }
  }

  /** At most sixty polls, and the verdict is right: true exactly when an agent answers before the deadline. */
  method WaitForAgent(answers: nat -> bool, took: nat -> nat) returns (answered: bool, polls: nat)
    ensures answered <==> AnswersInTime(answers, took)
    ensures polls <= 60
  {
    var elapsed := 0;
    polls := 0;
    while elapsed < VERIFY_TIMEOUT
      invariant elapsed == PollStart(took, polls) && polls * VERIFY_POLL <= elapsed
      invariant polls > 0 ==> (polls - 1) * VERIFY_POLL <= PollStart(took, polls - 1) < VERIFY_TIMEOUT
      invariant forall i: nat :: i < polls ==> !answers(i)
      decreases VERIFY_TIMEOUT - elapsed
    {
      if answers(polls) {
        return true, polls + 1;
      }
      elapsed := elapsed + took(polls) + VERIFY_POLL;
      polls := polls + 1;
    }
    answered := false;
    forall i: nat | PollStart(took, i) < VERIFY_TIMEOUT
      ensures i < polls
    {
      if polls <= i {
        PollsAreSpaced(took, polls, i);
      }
    }
  }

  datatype Outcome =
    | Answering                  // nil
    | NotStartedRestored         // "would not start, previous one restored"
    | NotStartedNotRestored      // "would not start ... could not be restored"
    | SilentNotRestored          // "never answered and the previous one could not be restored"
    | RolledBackNotStarted       // "rolled back, but the service would not start"
    | SilentRestored             // "never answered; the previous one was restored"

  /** What the service manager and the agent do; a failing stop is only logged. */
  datatype Service = Service(starts: bool, answers: nat -> bool, took: nat -> nat, startsAgain: bool)

  ghost function RestartTrace(fs: Files, s: Service, f: RollbackFaults): (seq<Files>, Outcome) {
    var back := RollbackTrace(fs, f);
    if !s.starts then (back.states, if back.ok then NotStartedRestored else NotStartedNotRestored)
    else if AnswersInTime(s.answers, s.took) then ([], Answering)
    else if !back.ok then (back.states, SilentNotRestored)
    else (back.states, if s.startsAgain then SilentRestored else RolledBackNotStarted)
  }

  method RestartAndVerify(disk: Disk, s: Service, f: RollbackFaults) returns (r: Outcome)
    requires disk.Valid()
    modifies disk
    ensures disk.Valid()
    ensures var (states, outcome) := RestartTrace(old(disk.files), s, f);
            r == outcome && disk.trail == old(disk.trail) + states
  {
    if !s.starts {
      var restored := Rollback(disk, f);
      return if restored then NotStartedRestored else NotStartedNotRestored;
    }
    var answered, _ := WaitForAgent(s.answers, s.took);
    if answered {
      return Answering;
    }
    var restored := Rollback(disk, f);
    if !restored {
      return SilentNotRestored;
    }
    if !s.startsAgain {
      return RolledBackNotStarted;
    }
    r := SilentRestored;
  }

  // ---- Conservation ---------------------------------------------------------------------------

  predicate HoldsAt(fs: Files, p: Path, build: Bytes) {
    p in fs && fs[p] == Whole(build)
  }

  predicate Survives(fs: Files, build: Bytes) {
    HoldsAt(fs, Target, build) || HoldsAt(fs, Old, build)
  }

  predicate TargetIsWhole(fs: Files) {
    Target in fs ==> fs[Target].Whole?
  }

  ghost predicate Conserved(states: seq<Files>, build: Bytes) {
    forall i :: 0 <= i < |states| ==> Survives(states[i], build) && TargetIsWhole(states[i])
  }

  /** Whatever fails and wherever the process stops, the build at the target survives a replacement whole. */
  lemma ReplaceConserves(fs: Files, blob: Bytes, f: ReplaceFaults, build: Bytes)
    requires HoldsAt(fs, Target, build) && !f.statMisreports
    ensures Conserved(ReplaceTrace(fs, blob, f).states, build)
    ensures var t := ReplaceTrace(fs, blob, f);
            var end := Final(fs, t.states);
            && (t.ok ==> HoldsAt(end, Target, blob) && HoldsAt(end, Old, build) && New !in end)
            && (!t.ok && f.putBack ==> HoldsAt(end, Target, build))
            && (!t.ok && f.write.Written? && f.removeStaged ==> New !in end)
  {}

  /** It must be at the target, though: a build left only at .old survives every replacement exactly when it
      is also at the target. */
  lemma ReplaceConservesExactlyFromTheTarget(fs: Files, blob: Bytes, build: Bytes)
    requires Survives(fs, build) && TargetIsWhole(fs)
    ensures HoldsAt(fs, Target, build) <==>
            (forall f: ReplaceFaults :: !f.statMisreports ==> Conserved(ReplaceTrace(fs, blob, f).states, build))
  {
    if HoldsAt(fs, Target, build) {
      forall f: ReplaceFaults | !f.statMisreports
        ensures Conserved(ReplaceTrace(fs, blob, f).states, build)
      {
        ReplaceConserves(fs, blob, f, build);
      }
    } else {
      var f := ReplaceFaults(Written, true, true, false, true, false, false, true);
      var cleared := fs[New := Whole(blob)] - {Old};
      assert ReplaceTrace(fs, blob, f).states[2] == cleared;
      assert !Survives(cleared, build);
    }
  }

  /** A stop between the two renames leaves the build only at .old, where the next update's first act deletes it. */
  lemma StopThenUpdateLosesTheBuild(blob: Bytes, build: Bytes)
    ensures var start: Files := map[Target := Whole(build)];
            var f := ReplaceFaults(Written, true, true, false, true, true, true, true);
            exists i :: 0 <= i < |ReplaceTrace(start, blob, f).states|
                        && Survives(ReplaceTrace(start, blob, f).states[i], build)
                        && !Survives(Remove(ReplaceTrace(start, blob, f).states[i], Old, true), build)
  {
    var start: Files := map[Target := Whole(build)];
    var f := ReplaceFaults(Written, true, true, false, true, true, true, true);
    var states := ReplaceTrace(start, blob, f).states;
    assert |states| == 5 && Target !in states[3] && HoldsAt(states[3], Old, build);
  }

  /** Were os.Stat to fail on a binary that is there, the install would overwrite it. */
  lemma MisreportingStatLosesTheBuild(blob: Bytes, build: Bytes)
    requires blob != build
    ensures var f := ReplaceFaults(Written, true, true, true, true, true, true, true);
            !Conserved(ReplaceTrace(map[Target := Whole(build)], blob, f).states, build)
  {
    var start: Files := map[Target := Whole(build)];
    var f := ReplaceFaults(Written, true, true, true, true, true, true, true);
    assert !Survives(ReplaceTrace(start, blob, f).states[3], build);
  }

  /** Rolling back conserves the build kept at .old, and ends with it at the target and the new one set aside. */
  lemma RollbackConserves(fs: Files, f: RollbackFaults, build: Bytes)
    requires HoldsAt(fs, Old, build) && TargetIsWhole(fs)
    ensures Conserved(RollbackTrace(fs, f).states, build)
    ensures var t := RollbackTrace(fs, f);
            if t.ok then HoldsAt(Final(fs, t.states), Target, build) && Target in fs && Failed in Final(fs, t.states)
                         && Final(fs, t.states)[Failed] == fs[Target]
            else HoldsAt(Final(fs, t.states), Old, build)
  {}

  predicate RolledBack(fs: Files, former: Bytes, latest: Bytes) {
    HoldsAt(fs, Target, former) && HoldsAt(fs, Failed, latest)
  }

  /** The three ends of a restart that follows a replacement of `former` by `latest`. */
  lemma RestartEndsInOneOfThreeStates(fs: Files, s: Service, f: RollbackFaults, latest: Bytes, former: Bytes)
    requires HoldsAt(fs, Target, latest) && HoldsAt(fs, Old, former)
    ensures var (states, r) := RestartTrace(fs, s, f);
            && Conserved(states, former)
            && (match r
                case Answering => HoldsAt(Final(fs, states), Target, latest) && AnswersInTime(s.answers, s.took)
                case NotStartedRestored => RolledBack(Final(fs, states), former, latest)
                case RolledBackNotStarted => RolledBack(Final(fs, states), former, latest)
                case SilentRestored => RolledBack(Final(fs, states), former, latest)
                case NotStartedNotRestored => HoldsAt(Final(fs, states), Old, former)
                case SilentNotRestored => HoldsAt(Final(fs, states), Old, former))
  {
    RollbackConserves(fs, f, former);
  }

  /** A replacement succeeds exactly when the new build is written and made executable, the old one, if there is
      one to be seen, moves aside, and the new one takes its place; then it stands there whole. */
  lemma ReplaceSucceedsExactly(fs: Files, blob: Bytes, f: ReplaceFaults)
    ensures var t := ReplaceTrace(fs, blob, f);
            && (t.ok <==> && f.write.Written? && f.chmod && f.install
                          && (Target in fs && !f.statMisreports ==> f.moveAside))
            && (t.ok ==> HoldsAt(Final(fs, t.states), Target, blob) && New !in Final(fs, t.states))
            && (t.ok && Target in fs && !f.statMisreports ==>
                  Old in Final(fs, t.states) && Final(fs, t.states)[Old] == fs[Target])
            && (!t.ok && f.write.Written? && f.removeStaged ==> New !in Final(fs, t.states))
            && (!t.ok && !(f.write.Written? && f.chmod) ==>
                  Final(fs, t.states) - {New} == fs - {New})
  {
    var t := ReplaceTrace(fs, blob, f);
    if !(f.write.Written? && f.chmod) {
      assert Final(fs, t.states) - {New} == fs - {New};
    }
  }

  /** A rollback succeeds exactly when there is an old build to be seen, the new one is there and moves aside, and
      the old one takes its place. */
  lemma RollbackSucceedsExactly(fs: Files, f: RollbackFaults)
    ensures RollbackTrace(fs, f).ok
            <==> Old in fs && !f.statMisreports && Target in fs && f.moveAside && f.restore
    ensures Old !in fs || f.statMisreports ==> RollbackTrace(fs, f).states == []
    ensures Old in fs && !f.statMisreports && f.removeFailed ==>
              RollbackTrace(fs, f).states != [] && RollbackTrace(fs, f).states[0] == fs - {Failed}
  {}

  /** Which outcome a restart has. An update is kept, untouched, exactly when the service starts and some poll
      begun in time is answered; and it is undone exactly when one of these fails and the rollback can be done. */
  lemma RestartOutcomesExactly(fs: Files, s: Service, f: RollbackFaults)
    ensures var (states, r) := RestartTrace(fs, s, f);
            var undone := Old in fs && !f.statMisreports && Target in fs && f.moveAside && f.restore;
            && (r == Answering <==> s.starts && exists i: nat :: PollStart(s.took, i) < VERIFY_TIMEOUT && s.answers(i))
            && (r == Answering ==> states == [])
            && (r != Answering ==> states == RollbackTrace(fs, f).states)
            && (r == NotStartedRestored <==> !s.starts && undone)
            && (r == NotStartedNotRestored <==> !s.starts && !undone)
            && (r == SilentNotRestored <==> s.starts && !AnswersInTime(s.answers, s.took) && !undone)
            && (r == SilentRestored <==> s.starts && !AnswersInTime(s.answers, s.took) && undone && s.startsAgain)
            && (r == RolledBackNotStarted
                <==> s.starts && !AnswersInTime(s.answers, s.took) && undone && !s.startsAgain)
  {
    RollbackSucceedsExactly(fs, f);
  }

  /** Polls begin three seconds apart and the time each one took: an agent that answers the first is always in
      time, and of instantaneous polls exactly the first sixty count. */
  lemma PollsInTime(answers: nat -> bool, took: nat -> nat)
    ensures answers(0) ==> AnswersInTime(answers, took)
    ensures (forall i :: took(i) == 0) ==>
              (AnswersInTime(answers, took) <==> exists i: nat :: i < 60 && answers(i))
    ensures forall i: nat :: PollStart(took, i + 1) == PollStart(took, i) + took(i) + 3 * SECOND
  {
    assert PollStart(took, 0) < VERIFY_TIMEOUT;
    if forall i :: took(i) == 0 {
      forall i: nat
        ensures PollStart(took, i) == i * 3 * SECOND
      {
        InstantPolls(took, i);
      }
      if i: nat :| i < 60 && answers(i) {
        assert PollStart(took, i) < VERIFY_TIMEOUT;
      }
    }
  }

  lemma {:induction false} InstantPolls(took: nat -> nat, i: nat)
    requires forall j :: took(j) == 0
    ensures PollStart(took, i) == i * 3 * SECOND
  {
    if i == 0 {
    } else {
      InstantPolls(took, i - 1);
    }
  }

  /** An update never loses the working build: not during the replacement, not during the restart that
      follows a successful one, not in any rollback. */
  lemma UpdateConserves(fs: Files, blob: Bytes, rf: ReplaceFaults, s: Service, f: RollbackFaults, build: Bytes)
    requires HoldsAt(fs, Target, build) && !rf.statMisreports
    ensures var t := ReplaceTrace(fs, blob, rf);
            && Conserved(t.states, build)
            && (t.ok ==> Conserved(RestartTrace(Final(fs, t.states), s, f).0, build))
  {
    ReplaceConserves(fs, blob, rf, build);
    var t := ReplaceTrace(fs, blob, rf);
    if t.ok {
      RestartEndsInOneOfThreeStates(Final(fs, t.states), s, f, blob, build);
    }
  }
}
