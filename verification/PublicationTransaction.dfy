/**
 The commit of several prepared publications with rollback (scripts/e2e_scheduler/publication_transaction.py:107-353).

 Each publication has its own places on disk, which no other publication touches: the target, the backup, the stage,
 the recovery copy, and the names that rollback moves files aside to. A place holds a content or nothing. Every file
 operation may fail; `Faults` says which operations on a publication's places do.
 */
module PublicationTransaction {
  import opened Outcomes

  type Content = int

  /** What is on disk when the transaction begins, and whether the checks of paths, links and kinds pass. */
  datatype Publication = Publication(
    target: Option<Content>, stage: Option<Content>, backup: Option<Content>, pathsPass: bool)

  /** The places of one publication, and what its `_SwapState` records. */
  datatype Slot = Slot(
    target: Option<Content>, backup: Option<Content>, stage: Option<Content>, recovery: Option<Content>,
    discarded: Option<Content>, stale: Option<Content>, had: bool, installed: bool, recorded: bool)

  /** `_remove_path_strict` and `_remove_path`: the place is empty afterwards, or something is left. */
  datatype Removal = Gone | Left(residue: Content)

  /** A copy that fails may leave a part that could not be cleaned up. */
  datatype Copying = Copied | NotCopied(residue: Option<Content>)

  datatype Faults = Faults(
    backupFails: bool, installFails: bool, copy: Copying, removeBackup: Removal, removeRecovery: Removal,
    firstMoveFails: bool, secondMoveFails: bool, restoreFails: bool, preserveFails: bool, removeDiscarded: Removal,
    moveStaleFails: bool, removeStale: Removal, removeStage: Removal)

  datatype Outcome = Refused | Committed(warnings: nat) | RolledBack | RollbackFailed

  function Removed(place: Option<Content>, removal: Removal): Option<Content> {
    if place.None? || removal.Gone? then None else Some(removal.residue)
  }

  function Begin(p: Publication): Slot {
    Slot(p.target, p.backup, p.stage, None, None, None, false, false, false)
  }

  /** The checks of `_validate_prepared` on one publication. */
  predicate Prepared(p: Publication) { p.pathsPass && p.stage.Some? && p.backup.None? }

  // ---------------------------------------------------------------------------
  // When a commit fails, and when rolling it back fails
  // ---------------------------------------------------------------------------

  predicate BackupFails(p: Publication, f: Faults) { p.target.Some? && f.backupFails }

  predicate SwapFails(p: Publication, f: Faults) { BackupFails(p, f) || f.installFails }

  predicate CopyFails(p: Publication, f: Faults) { p.target.Some? && f.copy.NotCopied? }

  predicate RemovalFails(p: Publication, f: Faults) { p.target.Some? && f.removeBackup.Left? }

  /** Some operation before the point of no return fails. */
  predicate CommitFails(p: Publication, f: Faults) { SwapFails(p, f) || CopyFails(p, f) || RemovalFails(p, f) }

  /** The first publication from i on with such a failure. */
  function FirstFrom(ps: seq<Publication>, faults: seq<Faults>, fails: (Publication, Faults) -> bool, i: nat): (n: nat)
    requires |faults| == |ps| && i <= |ps|
    ensures i <= n <= |ps| && (n < |ps| ==> fails(ps[n], faults[n]))
    ensures forall k :: i <= k < n ==> !fails(ps[k], faults[k])
    decreases |ps| - i
  {
    if i == |ps| || fails(ps[i], faults[i]) then i else FirstFrom(ps, faults, fails, i + 1)
  }

  function First(ps: seq<Publication>, faults: seq<Faults>, fails: (Publication, Faults) -> bool): (n: nat)
    requires |faults| == |ps|
    ensures n <= |ps| && (n < |ps| ==> fails(ps[n], faults[n]))
    ensures forall k :: 0 <= k < n ==> !fails(ps[k], faults[k])
  {
    FirstFrom(ps, faults, fails, 0)
  }

  /** The new content cannot be moved out of the target, or not removed. */
  predicate NewStays(f: Faults) { (f.firstMoveFails && f.secondMoveFails) || f.removeDiscarded.Left? }

  /** The previous content cannot be moved back. */
  predicate OldStays(p: Publication, f: Faults) { p.target.Some? && f.restoreFails }

  /** The backup, which is not needed beside a recovery copy, cannot be moved aside and removed. */
  predicate BackupStays(p: Publication, f: Faults) { p.target.Some? && (f.moveStaleFails || f.removeStale.Left?) }

  /** Of the first n publications the new content or the previous one stays where it is. */
  predicate SomeStays(ps: seq<Publication>, faults: seq<Faults>, n: nat)
    requires |faults| == |ps| && n <= |ps|
  {
    exists i :: 0 <= i < n && (NewStays(faults[i]) || OldStays(ps[i], faults[i]))
  }

  /** Rolling back fails: of the publications swapped so far the new content or the previous one stays where it is, or
      a backup beside a recovery copy. */
  predicate UndoFails(ps: seq<Publication>, faults: seq<Faults>)
    requires |faults| == |ps|
  {
    var swap, copy := First(ps, faults, SwapFails), First(ps, faults, CopyFails);
    var removal := First(ps, faults, RemovalFails);
    if swap < |ps| then
      SomeStays(ps, faults, swap) || (!faults[swap].backupFails && OldStays(ps[swap], faults[swap]))
    else
      var from, to := if copy < |ps| then 0 else removal, if copy < |ps| then copy else |ps|;
      || ((copy < |ps| || removal < |ps|) && SomeStays(ps, faults, |ps|))
      || exists i :: from <= i < to && BackupStays(ps[i], faults[i])
  }

  /** How many of the first n recovery copies cannot be removed after the commit. */
  function Warnings(ps: seq<Publication>, faults: seq<Faults>, n: nat): nat
    requires |faults| == |ps| && n <= |ps|
  {
    if n == 0 then 0
    else
      Warnings(ps, faults, n - 1) + if ps[n - 1].target.Some? && faults[n - 1].removeRecovery.Left? then 1 else 0
  }

  /** How a transaction ends. */
  function OutcomeOf(ps: seq<Publication>, faults: seq<Faults>): Outcome
    requires |faults| == |ps|
  {
    if exists p :: p in ps && !Prepared(p) then Refused
    else if forall i :: 0 <= i < |ps| ==> !CommitFails(ps[i], faults[i]) then Committed(Warnings(ps, faults, |ps|))
    else if UndoFails(ps, faults) then RollbackFailed
    else RolledBack
  }

  // ---------------------------------------------------------------------------
  // The places after each phase
  // ---------------------------------------------------------------------------

  function Swapped(p: Publication): Slot {
    Slot(p.stage, p.target, None, None, None, None, p.target.Some?, true, false)
  }

  /** The swap got as far as it could. */
  function AfterSwap(p: Publication, f: Faults): Slot {
    if BackupFails(p, f) then Begin(p)
    else if f.installFails then Begin(p).(target := None, backup := p.target, had := p.target.Some?)
    else Swapped(p)
  }

  function WithRecovery(p: Publication): Slot {
    Swapped(p).(recovery := p.target, recorded := p.target.Some?)
  }

  function AfterCopy(p: Publication, f: Faults): Slot {
    if CopyFails(p, f) then Swapped(p).(recovery := f.copy.residue) else WithRecovery(p)
  }

  function AfterRemoval(p: Publication, f: Faults): Slot {
    WithRecovery(p).(backup := Removed(p.target, f.removeBackup))
  }

  /** Installed, with nothing left but a recovery copy that could not be removed. */
  function Settled(p: Publication, f: Faults): Slot {
    Slot(p.stage, None, None, Removed(p.target, f.removeRecovery), None, None, p.target.Some?, true, p.target.Some?)
  }

  /** Every publication up to the n-th has gone through the phase, the others are as before it. */
  ghost predicate PhaseAt(ps: seq<Publication>, faults: seq<Faults>, slots: seq<Slot>, n: int,
                          after: (Publication, Faults) -> Slot, before: Publication -> Slot)
    requires |faults| == |ps|
  {
    && |slots| == |ps|
    && forall i :: 0 <= i < |ps| ==> slots[i] == if i <= n then after(ps[i], faults[i]) else before(ps[i])
  }

  // ---------------------------------------------------------------------------
  // What holds between the phases
  // ---------------------------------------------------------------------------

  /** A publication whose swap has begun. Without a recorded recovery copy its backup is intact. */
  ghost predicate InFlight(p: Publication, s: Slot) {
    && s.had == p.target.Some?
    && (if s.installed then s.target == p.stage && s.stage.None? else s.target.None? && s.stage == p.stage)
    && s.discarded.None? && s.stale.None?
    && (if s.recorded then s.had && s.recovery == p.target else s.backup == p.target)
  }

  ghost predicate Swapping(ps: seq<Publication>, slots: seq<Slot>, entered: nat) {
    && |slots| == |ps| && entered <= |ps|
    && (forall i :: 0 <= i < entered ==> InFlight(ps[i], slots[i]))
    && (forall i :: entered <= i < |ps| ==> slots[i] == Begin(ps[i]))
  }

  /** The target is as it was, and nothing is left aside. */
  predicate Restored(p: Publication, s: Slot) {
    s.target == p.target && s.backup.None? && s.discarded.None? && s.stale.None?
  }

  /** The previous content of the target is still in the target, the backup or the recovery copy. */
  predicate PreviousKept(p: Publication, s: Slot) {
    p.target.Some? ==> s.target == p.target || s.backup == p.target || s.recovery == p.target
  }

  // ---------------------------------------------------------------------------
  // The swap
  // ---------------------------------------------------------------------------

  method SwapOne(p: Publication, f: Faults) returns (s: Slot, entered: bool, failed: bool)
    requires Prepared(p)
    ensures s == AfterSwap(p, f) && failed == SwapFails(p, f) && entered == !BackupFails(p, f)
  {
    s := Begin(p);
    var hadPrevious := s.target.Some?;
    if hadPrevious {
      if f.backupFails {
        return s, false, true;
      }
      s := s.(target := None, backup := s.target);
    }
    s := s.(had := hadPrevious);
    if f.installFails {
      return s, true, true;
    }
    s := s.(target := s.stage, stage := None, installed := true);
    return s, true, false;
  }

  /** The swaps stop at the first that fails; `entered` counts those that have begun. */
  method SwapAll(ps: seq<Publication>, faults: seq<Faults>) returns (slots: seq<Slot>, entered: nat, failed: bool)
    requires |faults| == |ps| && forall p :: p in ps ==> Prepared(p)
    ensures var n := First(ps, faults, SwapFails);
      && PhaseAt(ps, faults, slots, n, AfterSwap, Begin) && (failed <==> n < |ps|)
      && entered == if failed && !BackupFails(ps[n], faults[n]) then n + 1 else n
    ensures !failed ==> forall i :: 0 <= i < |ps| ==> slots[i] == Swapped(ps[i])
  {
    slots := seq(|ps|, i requires 0 <= i < |ps| => Begin(ps[i]));
    entered := 0;
    for i := 0 to |ps|
      invariant PhaseAt(ps, faults, slots, i - 1, AfterSwap, Begin) && entered == i
      invariant forall k :: 0 <= k < i ==> !SwapFails(ps[k], faults[k])
    {
      assert ps[i] in ps;
      var s, begun, wrong := SwapOne(ps[i], faults[i]);
      slots := slots[i := s];
      if wrong {
        return slots, if begun then i + 1 else i, true;
      }
      entered := i + 1;
    }
    failed := false;
  }

  // ---------------------------------------------------------------------------
  // Recovery copies, and the end of the backups
  // ---------------------------------------------------------------------------

  /** Copies are made up to the first that fails, whatever it leaves; no backup is touched. */
  method CreateRecoveries(ps: seq<Publication>, before: seq<Slot>, faults: seq<Faults>)
    returns (slots: seq<Slot>, failed: bool)
    requires |faults| == |ps| == |before| && forall i :: 0 <= i < |ps| ==> before[i] == Swapped(ps[i])
    ensures var n := First(ps, faults, CopyFails);
      PhaseAt(ps, faults, slots, n, AfterCopy, Swapped) && (failed <==> n < |ps|)
    ensures !failed ==> forall i :: 0 <= i < |ps| ==> slots[i] == WithRecovery(ps[i])
  {
    slots := before;
    for i := 0 to |ps|
      invariant PhaseAt(ps, faults, slots, i - 1, AfterCopy, Swapped)
      invariant forall k :: 0 <= k < i ==> !CopyFails(ps[k], faults[k])
    {
      var s := slots[i];
      if !s.had {
        continue;
      }
      if faults[i].copy.NotCopied? {
        slots := slots[i := s.(recovery := faults[i].copy.residue)];
        return slots, true;
      }
      slots := slots[i := s.(recovery := s.backup, recorded := true)];
    }
    failed := false;
  }

  /** Backups are removed up to the first that cannot be; every recovery copy stays. */
  method RemoveBackups(ps: seq<Publication>, before: seq<Slot>, faults: seq<Faults>)
    returns (slots: seq<Slot>, failed: bool)
    requires |faults| == |ps| == |before| && forall i :: 0 <= i < |ps| ==> before[i] == WithRecovery(ps[i])
    ensures var n := First(ps, faults, RemovalFails);
      PhaseAt(ps, faults, slots, n, AfterRemoval, WithRecovery) && (failed <==> n < |ps|)
    ensures !failed ==> forall i :: 0 <= i < |ps| ==> slots[i] == WithRecovery(ps[i]).(backup := None)
  {
    slots := before;
    for i := 0 to |ps|
      invariant PhaseAt(ps, faults, slots, i - 1, AfterRemoval, WithRecovery)
      invariant forall k :: 0 <= k < i ==> !RemovalFails(ps[k], faults[k])
    {
      var s := slots[i];
      if s.had {
        slots := slots[i := s.(backup := Removed(s.backup, faults[i].removeBackup))];
        if slots[i].backup.Some? {
          return slots, true;
        }
      }
    }
    failed := false;
  }

  // ---------------------------------------------------------------------------
  // Rollback
  // ---------------------------------------------------------------------------

  /** Some operation of the rollback of one publication fails. */
  predicate RollbackFails(s: Slot, f: Faults) {
    || (s.installed && ((f.firstMoveFails && f.secondMoveFails) || f.removeDiscarded.Left?))
    || (s.had && f.restoreFails)
    || (s.recorded && s.backup.Some? && (f.moveStaleFails || f.removeStale.Left?))
  }

  /** Rolls one publication back (the source also removes a recovery copy that is still there after it was moved to
      the target, which it never is): it is restored unless one of these operations fails, and its previous content is
      kept in any case. */
  method RollbackOne(p: Publication, before: Slot, f: Faults) returns (s: Slot, failed: bool)
    requires Prepared(p) && InFlight(p, before)
    ensures failed <==> RollbackFails(before, f)
    ensures !failed ==> Restored(p, s)
    ensures !failed ==> s.recovery == if before.recorded then None else before.recovery
    ensures PreviousKept(p, s) && s.stage == before.stage
  {
    s := before;
    if s.installed && s.target.Some? {
      if f.firstMoveFails && f.secondMoveFails {
        return s, true;
      }
      s := s.(target := None, discarded := s.target);
    }
    if s.had {
      if f.restoreFails {
        if s.discarded.Some? && !f.preserveFails {
          s := s.(target := s.discarded, discarded := None);
        }
        return s, true;
      }
      if s.recorded {
        s := s.(target := s.recovery, recovery := None);
      } else {
        s := s.(target := s.backup, backup := None);
      }
    }
    s := s.(discarded := Removed(s.discarded, f.removeDiscarded));
    if s.discarded.Some? {
      return s, true;
    }
    if s.backup.Some? && s.target.Some? {
      if f.moveStaleFails {
        return s, true;
      }
      s := s.(stale := Removed(s.backup, f.removeStale), backup := None);
      if s.stale.Some? {
        return s, true;
      }
    }
    return s, false;
  }

  /** The publications whose swap has begun, last first. */
  method Rollback(ps: seq<Publication>, before: seq<Slot>, entered: nat, faults: seq<Faults>)
    returns (slots: seq<Slot>, failed: bool)
    requires |faults| == |ps| && (forall p :: p in ps ==> Prepared(p)) && Swapping(ps, before, entered)
    ensures |slots| == |ps| && forall i :: 0 <= i < |ps| ==> slots[i].stage == before[i].stage
    ensures forall i :: 0 <= i < |ps| ==> PreviousKept(ps[i], slots[i])
    ensures !failed ==> forall i :: 0 <= i < |ps| ==> Restored(ps[i], slots[i])
    ensures !failed ==> forall i :: 0 <= i < |ps| ==>
      slots[i].recovery == if before[i].recorded then None else before[i].recovery
    ensures failed <==> exists i :: 0 <= i < entered && RollbackFails(before[i], faults[i])
  {
    slots, failed := before, false;
    var i := entered;
    while i > 0
      invariant 0 <= i <= entered && |slots| == |ps|
      invariant forall k :: 0 <= k < i || entered <= k < |ps| ==> slots[k] == before[k]
      invariant forall k :: i <= k < entered ==> PreviousKept(ps[k], slots[k]) && slots[k].stage == before[k].stage
      invariant !failed ==> forall k :: i <= k < entered ==> Restored(ps[k], slots[k])
      invariant !failed ==> forall k :: i <= k < entered ==>
        slots[k].recovery == if before[k].recorded then None else before[k].recovery
      invariant failed <==> exists k :: i <= k < entered && RollbackFails(before[k], faults[k])
    {
      i := i - 1;
      assert ps[i] in ps;
      var s, wrong := RollbackOne(ps[i], slots[i], faults[i]);
      slots := slots[i := s];
      failed := failed || wrong;
    }
    forall k | entered <= k < |ps| ensures Restored(ps[k], slots[k]) && PreviousKept(ps[k], slots[k]) {
      assert ps[k] in ps;
    }
  }

  /** What is left of the stages is removed, as far as that succeeds. */
  method DiscardUncommitted(before: seq<Slot>, faults: seq<Faults>) returns (slots: seq<Slot>)
    requires |faults| == |before|
    ensures |slots| == |before|
    ensures forall i :: 0 <= i < |before| ==>
      slots[i] == before[i].(stage := Removed(before[i].stage, faults[i].removeStage))
  {
    slots := before;
    for i := 0 to |before|
      invariant |slots| == |before|
      invariant forall k :: 0 <= k < i ==>
        slots[k] == before[k].(stage := Removed(before[k].stage, faults[k].removeStage))
      invariant forall k :: i <= k < |before| ==> slots[k] == before[k]
    {
      slots := slots[i := slots[i].(stage := Removed(slots[i].stage, faults[i].removeStage))];
    }
  }

  /** Removes the recovery copies; one that cannot be removed is only a warning. */
  method CleanUp(ps: seq<Publication>, before: seq<Slot>, faults: seq<Faults>)
    returns (slots: seq<Slot>, warnings: nat)
    requires |faults| == |ps| == |before|
    requires forall i :: 0 <= i < |ps| ==> before[i] == WithRecovery(ps[i]).(backup := None)
    ensures |slots| == |ps| && forall i :: 0 <= i < |ps| ==> slots[i] == Settled(ps[i], faults[i])
    ensures warnings == Warnings(ps, faults, |ps|)
  {
    slots, warnings := before, 0;
    for i := 0 to |ps|
      invariant |slots| == |ps| && warnings == Warnings(ps, faults, i)
      invariant forall k :: 0 <= k < i ==> slots[k] == Settled(ps[k], faults[k])
      invariant forall k :: i <= k < |ps| ==> slots[k] == before[k]
    {
      if slots[i].recorded {
        slots := slots[i := slots[i].(recovery := Removed(slots[i].recovery, faults[i].removeRecovery))];
        if slots[i].recovery.Some? {
          warnings := warnings + 1;
        }
      }
    }
  }

  // ---------------------------------------------------------------------------
  // The transaction
  // ---------------------------------------------------------------------------

  /** What a failed copy leaves of the i-th recovery copy. */
  function Residue(ps: seq<Publication>, faults: seq<Faults>, i: nat): Option<Content>
    requires |faults| == |ps| && i < |ps|
  {
    if First(ps, faults, SwapFails) == |ps| && i == First(ps, faults, CopyFails) && faults[i].copy.NotCopied?
    then faults[i].copy.residue
    else None
  }

  /** The state in which a failed commit is rolled back. */
  ghost predicate Interrupted(ps: seq<Publication>, faults: seq<Faults>, slots: seq<Slot>, entered: nat)
    requires |faults| == |ps|
  {
    var swap, copy := First(ps, faults, SwapFails), First(ps, faults, CopyFails);
    var removal := First(ps, faults, RemovalFails);
    if swap < |ps| then
      && PhaseAt(ps, faults, slots, swap, AfterSwap, Begin)
      && entered == if BackupFails(ps[swap], faults[swap]) then swap else swap + 1
    else
      && entered == |ps|
      && if copy < |ps| then PhaseAt(ps, faults, slots, copy, AfterCopy, Swapped)
         else removal < |ps| && PhaseAt(ps, faults, slots, removal, AfterRemoval, WithRecovery)
  }

  lemma InterruptedIsInFlight(ps: seq<Publication>, faults: seq<Faults>, slots: seq<Slot>, entered: nat)
    requires |faults| == |ps| && (forall p :: p in ps ==> Prepared(p)) && Interrupted(ps, faults, slots, entered)
    ensures Swapping(ps, slots, entered)
  {
    forall i | 0 <= i < entered ensures InFlight(ps[i], slots[i]) {
      assert Prepared(ps[i]);
    }
  }

  lemma LeftWhenInterrupted(ps: seq<Publication>, faults: seq<Faults>, slots: seq<Slot>, entered: nat, i: nat)
    requires |faults| == |ps| && Interrupted(ps, faults, slots, entered) && i < |ps|
    ensures slots[i].stage == if i < First(ps, faults, SwapFails) then None else ps[i].stage
    ensures (if slots[i].recorded then None else slots[i].recovery) == Residue(ps, faults, i)
  {
  }

  /** Some publication's rollback fails exactly under the condition on what was prepared and what goes wrong. */
  lemma UndoFailsExactly(ps: seq<Publication>, faults: seq<Faults>, slots: seq<Slot>, entered: nat)
    requires |faults| == |ps| && (forall p :: p in ps ==> Prepared(p)) && Interrupted(ps, faults, slots, entered)
    ensures entered <= |ps| == |slots|
    ensures (exists i :: 0 <= i < entered && RollbackFails(slots[i], faults[i])) <==> UndoFails(ps, faults)
  {
    var swap, copy := First(ps, faults, SwapFails), First(ps, faults, CopyFails);
    var removal := First(ps, faults, RemovalFails);
    forall i | 0 <= i < entered
      ensures RollbackFails(slots[i], faults[i])
        <==> (|| ((swap == |ps| || i < swap) && NewStays(faults[i]))
              || OldStays(ps[i], faults[i])
              || (swap == |ps| && (if copy < |ps| then i < copy else removal <= i) && BackupStays(ps[i], faults[i])))
    {
      assert Prepared(ps[i]);
    }
  }

  method UndoAll(ps: seq<Publication>, before: seq<Slot>, entered: nat, faults: seq<Faults>)
    returns (slots: seq<Slot>, outcome: Outcome)
    requires |faults| == |ps| && (forall p :: p in ps ==> Prepared(p)) && Interrupted(ps, faults, before, entered)
    ensures |slots| == |ps| && outcome == if UndoFails(ps, faults) then RollbackFailed else RolledBack
    ensures outcome == RolledBack ==> forall i :: 0 <= i < |ps| ==>
      Restored(ps[i], slots[i]) && slots[i].recovery == Residue(ps, faults, i)
    ensures forall i :: 0 <= i < |ps| ==> PreviousKept(ps[i], slots[i])
    ensures forall i :: 0 <= i < |ps| ==>
      slots[i].stage == if i < First(ps, faults, SwapFails) then None else Removed(ps[i].stage, faults[i].removeStage)
  {
    InterruptedIsInFlight(ps, faults, before, entered);
    forall i: nat | i < |ps|
      ensures before[i].stage == if i < First(ps, faults, SwapFails) then None else ps[i].stage
      ensures (if before[i].recorded then None else before[i].recovery) == Residue(ps, faults, i)
    {
      LeftWhenInterrupted(ps, faults, before, entered, i);
    }
    UndoFailsExactly(ps, faults, before, entered);
    var rolled, failed := Rollback(ps, before, entered, faults);
    slots := DiscardUncommitted(rolled, faults);
    forall i | 0 <= i < |ps|
      ensures PreviousKept(ps[i], slots[i]) && (!failed ==> Restored(ps[i], slots[i]))
    {
      assert PreviousKept(ps[i], rolled[i]);
    }
    outcome := if failed then RollbackFailed else RolledBack;
  }

  /** All phases up to the point of no return. */
  method InstallAll(ps: seq<Publication>, faults: seq<Faults>) returns (slots: seq<Slot>, entered: nat, failed: bool)
    requires |faults| == |ps| && forall p :: p in ps ==> Prepared(p)
    ensures failed <==> exists i :: 0 <= i < |ps| && CommitFails(ps[i], faults[i])
    ensures failed ==> Interrupted(ps, faults, slots, entered)
    ensures !failed ==>
      |slots| == |ps| && forall i :: 0 <= i < |ps| ==> slots[i] == WithRecovery(ps[i]).(backup := None)
  {
    slots, entered, failed := SwapAll(ps, faults);
    if failed {
      return;
    }
    slots, failed := CreateRecoveries(ps, slots, faults);
    if failed {
      return;
    }
    slots, failed := RemoveBackups(ps, slots, faults);
  }

  /** Commits all publications or none: every target is installed exactly when they were all prepared and no
      operation failed; otherwise every target is as it was, unless rolling back failed, and even then no previous
      content is lost. No stage is left, except where removing it failed. */
  method CommitPublications(ps: seq<Publication>, faults: seq<Faults>) returns (slots: seq<Slot>, outcome: Outcome)
    requires |faults| == |ps|
    ensures |slots| == |ps| && outcome == OutcomeOf(ps, faults)
    ensures outcome == Refused ==> forall i :: 0 <= i < |ps| ==> slots[i] == Begin(ps[i])
    ensures outcome.Committed? ==> forall i :: 0 <= i < |ps| ==> slots[i] == Settled(ps[i], faults[i])
    ensures outcome == RolledBack ==> forall i :: 0 <= i < |ps| ==>
      Restored(ps[i], slots[i]) && slots[i].recovery == Residue(ps, faults, i)
    ensures !outcome.Committed? ==> forall i :: 0 <= i < |ps| ==> PreviousKept(ps[i], slots[i])
    ensures outcome == RolledBack || outcome == RollbackFailed ==> forall i :: 0 <= i < |ps| ==>
      slots[i].stage == if i < First(ps, faults, SwapFails) then None else Removed(ps[i].stage, faults[i].removeStage)
  {
    slots := seq(|ps|, i requires 0 <= i < |ps| => Begin(ps[i]));
    if exists p :: p in ps && !Prepared(p) {
      return slots, Refused;
    }
    var entered, failed;
    slots, entered, failed := InstallAll(ps, faults);
    if failed {
      slots, outcome := UndoAll(ps, slots, entered, faults);
      return;
    }
    var warnings: nat;
    slots, warnings := CleanUp(ps, slots, faults);
    outcome := Committed(warnings);
  }

  lemma {:induction false} WarningsCount(ps: seq<Publication>, faults: seq<Faults>, n: nat)
    requires |faults| == |ps| && n <= |ps|
    ensures Warnings(ps, faults, n) == |set i: nat | i < n && ps[i].target.Some? && faults[i].removeRecovery.Left?|
  {
    var now := set i: nat | i < n && ps[i].target.Some? && faults[i].removeRecovery.Left?;
    if n == 0 {
      assert now == {};
    } else {
      WarningsCount(ps, faults, n - 1);
      var before := set i: nat | i < n - 1 && ps[i].target.Some? && faults[i].removeRecovery.Left?;
      assert now == before + if ps[n - 1].target.Some? && faults[n - 1].removeRecovery.Left? then {n - 1} else {};
    }
  }

  // ---------------------------------------------------------------------------
  // When a commit works, told by the operations
  // ---------------------------------------------------------------------------

  /** A transaction is refused exactly when some publication is not prepared, and commits exactly when all are and every
      operation works: installing each stage, and setting aside, copying and removing each previous content. It warns of
      every recovery copy that stays. */
  lemma CommitsExactly(ps: seq<Publication>, faults: seq<Faults>)
    requires |faults| == |ps|
    ensures var outcome := OutcomeOf(ps, faults);
      && (outcome == Refused <==> !AllPrepared(ps))
      && (outcome.Committed? <==>
            && AllPrepared(ps) && (forall i :: 0 <= i < |ps| ==> !faults[i].installFails)
            && (forall i :: 0 <= i < |ps| && ps[i].target.Some? ==>
                  !faults[i].backupFails && faults[i].copy.Copied? && faults[i].removeBackup.Gone?))
      && (outcome.Committed? ==>
            outcome.warnings == |set i: nat | i < |ps| && ps[i].target.Some? && faults[i].removeRecovery.Left?|)
  {
    WarningsCount(ps, faults, |ps|);
  }

  /** What a commit leaves of a publication: the stage in the target, and of all other places only a recovery copy that
      could not be removed. */
  lemma SettledExactly(p: Publication, f: Faults)
    ensures var s := Settled(p, f);
      && s.target == p.stage && s.stage.None? && s.backup.None? && s.discarded.None? && s.stale.None?
      && s.recovery == (if p.target.Some? && f.removeRecovery.Left? then Some(f.removeRecovery.residue) else None)
  {
  }

  // ---------------------------------------------------------------------------
  // When rolling back fails, told by the operations
  // ---------------------------------------------------------------------------

  ghost predicate AllPrepared(ps: seq<Publication>) {
    forall p :: p in ps ==> p.pathsPass && p.stage.Some? && p.backup.None?
  }

  /** The swap of this publication works: it can set aside what is there and install its stage. */
  ghost predicate Swaps(p: Publication, f: Faults) { !f.installFails && (p.target.Some? ==> !f.backupFails) }

  /** What was installed can be moved away, in one of two attempts, and removed. */
  ghost predicate Removes(f: Faults) { (!f.firstMoveFails || !f.secondMoveFails) && f.removeDiscarded.Gone? }

  lemma FirstIs(ps: seq<Publication>, faults: seq<Faults>, fails: (Publication, Faults) -> bool, n: nat)
    requires |faults| == |ps| && n <= |ps| && (n < |ps| ==> fails(ps[n], faults[n]))
    requires forall k :: 0 <= k < n ==> !fails(ps[k], faults[k])
    ensures First(ps, faults, fails) == n
  {
  }

  /** When the n-th swap is the first to fail, rolling back works exactly when everything installed before it can be
      removed and every previous content that was set aside can be moved back. */
  lemma FailedSwap(ps: seq<Publication>, faults: seq<Faults>, n: nat)
    requires |faults| == |ps| && AllPrepared(ps) && n < |ps|
    requires !Swaps(ps[n], faults[n]) && forall k :: 0 <= k < n ==> Swaps(ps[k], faults[k])
    ensures OutcomeOf(ps, faults) in {RolledBack, RollbackFailed}
    ensures OutcomeOf(ps, faults) == RolledBack
      <==> (&& (forall i :: 0 <= i < n ==> Removes(faults[i]) && (ps[i].target.Some? ==> !faults[i].restoreFails))
            && (ps[n].target.Some? && !faults[n].backupFails ==> !faults[n].restoreFails))
  {
    FirstIs(ps, faults, SwapFails, n);
    assert CommitFails(ps[n], faults[n]);
    assert forall i :: 0 <= i < n ==> (NewStays(faults[i]) <==> !Removes(faults[i]));
  }

  /** When all swaps work and the n-th recovery copy is the first to fail, every publication is rolled back; those whose
      recovery copy was made also need their backup moved aside and removed. */
  lemma FailedCopy(ps: seq<Publication>, faults: seq<Faults>, n: nat)
    requires |faults| == |ps| && AllPrepared(ps) && n < |ps| && forall k :: 0 <= k < |ps| ==> Swaps(ps[k], faults[k])
    requires ps[n].target.Some? && !faults[n].copy.Copied?
    requires forall k :: 0 <= k < n && ps[k].target.Some? ==> faults[k].copy.Copied?
    ensures OutcomeOf(ps, faults) in {RolledBack, RollbackFailed}
    ensures OutcomeOf(ps, faults) == RolledBack
      <==> (forall i :: 0 <= i < |ps| ==>
              && Removes(faults[i]) && (ps[i].target.Some? ==> !faults[i].restoreFails)
              && (ps[i].target.Some? && i < n ==> !faults[i].moveStaleFails && faults[i].removeStale.Gone?))
  {
    FirstIs(ps, faults, SwapFails, |ps|);
    FirstIs(ps, faults, CopyFails, n);
    assert CommitFails(ps[n], faults[n]);
    assert forall i :: 0 <= i < |ps| ==> (NewStays(faults[i]) <==> !Removes(faults[i]));
  }

  /** When all copies work too and the n-th backup is the first that cannot be removed, the backups from it on have to
      be moved aside and removed. */
  lemma FailedRemoval(ps: seq<Publication>, faults: seq<Faults>, n: nat)
    requires |faults| == |ps| && AllPrepared(ps) && n < |ps| && forall k :: 0 <= k < |ps| ==> Swaps(ps[k], faults[k])
    requires forall k :: 0 <= k < |ps| && ps[k].target.Some? ==> faults[k].copy.Copied?
    requires ps[n].target.Some? && !faults[n].removeBackup.Gone?
    requires forall k :: 0 <= k < n && ps[k].target.Some? ==> faults[k].removeBackup.Gone?
    ensures OutcomeOf(ps, faults) in {RolledBack, RollbackFailed}
    ensures OutcomeOf(ps, faults) == RolledBack
      <==> (forall i :: 0 <= i < |ps| ==>
              && Removes(faults[i]) && (ps[i].target.Some? ==> !faults[i].restoreFails)
              && (ps[i].target.Some? && i >= n ==> !faults[i].moveStaleFails && faults[i].removeStale.Gone?))
  {
    FirstIs(ps, faults, SwapFails, |ps|);
    FirstIs(ps, faults, CopyFails, |ps|);
    FirstIs(ps, faults, RemovalFails, n);
    assert CommitFails(ps[n], faults[n]);
    assert forall i :: 0 <= i < |ps| ==> (NewStays(faults[i]) <==> !Removes(faults[i]));
  }
}
