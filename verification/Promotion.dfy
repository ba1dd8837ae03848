/**
 Replacing N cached artifacts by freshly pulled ones (pkg/oci/promote.go): each existing
 artifact is renamed to a backup, the staged file is renamed into its place, any failure
 undoes everything in reverse order, and the backups go last.
 */
module Promotion {
  import opened FileSystem
  import opened Paths
  import opened Wrappers

  /** The three places one artifact may occupy. */
  datatype Item = Item(staged: Path, final: Path, backup: Path)

  datatype Replacement = Replacement(final: Path, backup: Path, replaced: bool)

  datatype Step = StagedMissing | InspectStaged | MakeDirectory | InspectExisting | BackUp | Promote

  datatype Outcome =
    | Promoted
    | CleanupFailed(leftover: seq<Path>)
    | Aborted(step: Step, index: nat, stuck: seq<Path>)

  function Removals(paths: seq<Path>): (calls: seq<FsCall>)
    ensures |calls| == |paths| && forall i :: 0 <= i < |paths| ==> calls[i] == Removing(paths[i])
  {
    seq(|paths|, i requires 0 <= i < |paths| => Removing(paths[i]))
  }

  /** The call whose failure a step stands for. */
  function StepCall(step: Step, it: Item): FsCall {
    match step
    case StagedMissing => Inspecting(it.staged)
    case InspectStaged => Inspecting(it.staged)
    case MakeDirectory => MakingDirectories(it.final.Dir())
    case InspectExisting => Inspecting(it.final)
    case BackUp => Renaming(it.final, it.backup)
    case Promote => Renaming(it.staged, it.final)
  }

  predicate IsPlace(it: Item, p: Path) { p == it.staged || p == it.final || p == it.backup }

  /** No two items share a place, no place is used twice. */
  ghost predicate Separate(plan: seq<Item>) {
    && (forall i, p, j :: 0 <= i < |plan| && 0 <= j < |plan| && IsPlace(plan[i], p) && IsPlace(plan[j], p) ==> i == j)
    && (forall i :: 0 <= i < |plan| ==>
          plan[i].staged != plan[i].final && plan[i].final != plan[i].backup && plan[i].staged != plan[i].backup)
  }

  ghost predicate SomePlace(plan: seq<Item>, p: Path) {
    exists i :: 0 <= i < |plan| && IsPlace(plan[i], p)
  }

  /** The final and backup paths contain no other entry and no other place; the backup names are free. */
  ghost predicate Ready(before: Entries, plan: seq<Item>) {
    && Separate(plan)
    && (forall i :: 0 <= i < |plan| ==> plan[i].backup !in before)
    && (forall i, q :: 0 <= i < |plan| && (q in before || SomePlace(plan, q)) ==>
          (plan[i].final.Contains(q) ==> q == plan[i].final) && (plan[i].backup.Contains(q) ==> q == plan[i].backup))
  }

  // ----- What may be said about one item, relative to the entries before the call

  ghost predicate Untouched(before: Entries, now: Entries, it: Item) {
    && Lookup(now, it.final) == Lookup(before, it.final)
    && Lookup(now, it.staged) == Lookup(before, it.staged)
    && it.backup !in now
  }

  /** The original, if there was one, is at the backup. */
  ghost predicate BackedUp(before: Entries, now: Entries, it: Item) {
    Lookup(now, it.backup) == Lookup(before, it.final)
  }

  ghost predicate Installed(before: Entries, now: Entries, it: Item) {
    && it.staged in before
    && it.staged !in now
    && Lookup(now, it.final) == Lookup(before, it.staged)
  }

  ghost predicate Restored(before: Entries, now: Entries, it: Item) {
    Lookup(now, it.final) == Lookup(before, it.final) && it.backup !in now
  }

  /** An artifact that existed is intact at its final path or at its backup. */
  ghost predicate Kept(before: Entries, now: Entries, it: Item) {
    it.final in before ==>
      Lookup(now, it.final) == Lookup(before, it.final) || Lookup(now, it.backup) == Lookup(before, it.final)
  }

  /** Nothing outside the places of the plan has changed. */
  ghost predicate Framed(before: Entries, now: Entries, plan: seq<Item>) {
    forall p :: !SomePlace(plan, p) ==> Lookup(now, p) == Lookup(before, p)
  }

  ghost predicate AllKept(before: Entries, now: Entries, plan: seq<Item>) {
    forall i :: 0 <= i < |plan| ==> Kept(before, now, plan[i])
  }

  ghost predicate AllInstalled(before: Entries, now: Entries, plan: seq<Item>) {
    forall i :: 0 <= i < |plan| ==> Installed(before, now, plan[i])
  }

  /** No state of the run has lost an original before every artifact was promoted. */
  ghost predicate Safe(before: Entries, now: Entries, plan: seq<Item>) {
    Framed(before, now, plan) && (AllKept(before, now, plan) || AllInstalled(before, now, plan))
  }

  ghost predicate SafeSince(before: Entries, history: seq<Entries>, start: nat, plan: seq<Item>) {
    start <= |history| && forall k :: start <= k < |history| ==> Safe(before, history[k], plan)
  }

  /** The first n items are swapped in with their originals at the backups; the others are untouched. */
  ghost predicate Halfway(before: Entries, now: Entries, plan: seq<Item>, n: nat) {
    && Framed(before, now, plan)
    && (forall i :: 0 <= i < |plan| && i < n ==> Installed(before, now, plan[i]) && BackedUp(before, now, plan[i]))
    && (forall i :: n <= i < |plan| ==> Untouched(before, now, plan[i]))
  }

  /** now and next agree except at the places of one item. */
  ghost predicate OnlyItem(now: Entries, next: Entries, it: Item) {
    forall p :: !IsPlace(it, p) ==> Lookup(now, p) == Lookup(next, p)
  }

  lemma OthersUnchanged(now: Entries, next: Entries, plan: seq<Item>, k: nat)
    requires Separate(plan) && k < |plan| && OnlyItem(now, next, plan[k])
    ensures forall i :: 0 <= i < |plan| && i != k ==>
              && Lookup(now, plan[i].staged) == Lookup(next, plan[i].staged)
              && Lookup(now, plan[i].final) == Lookup(next, plan[i].final)
              && Lookup(now, plan[i].backup) == Lookup(next, plan[i].backup)
    ensures forall p :: !SomePlace(plan, p) ==> Lookup(now, p) == Lookup(next, p)
  {
    forall i | 0 <= i < |plan| && i != k
      ensures && Lookup(now, plan[i].staged) == Lookup(next, plan[i].staged)
              && Lookup(now, plan[i].final) == Lookup(next, plan[i].final)
              && Lookup(now, plan[i].backup) == Lookup(next, plan[i].backup)
    {
      var it := plan[i];
      assert IsPlace(it, it.staged) && IsPlace(it, it.final) && IsPlace(it, it.backup);
    }
  }

  lemma MovedLookup(now: Entries, from: Path, to: Path)
    requires from in now && from != to
    ensures forall p :: Lookup(Moved(now, from, to), p)
                     == if p == to then Lookup(now, from) else if p == from then None else Lookup(now, p)
  {
  }

  /** Removing a final or backup path removes that entry alone. */
  lemma RemoveLookup(before: Entries, now: Entries, plan: seq<Item>, k: nat, place: Path)
    requires Ready(before, plan) && Framed(before, now, plan) && k < |plan|
    requires place == plan[k].final || place == plan[k].backup
    ensures forall p :: Lookup(Without(now, place), p) == if p == place then None else Lookup(now, p)
  {
    forall p | p in now && place.Contains(p)
      ensures p == place
    {
      if !SomePlace(plan, p) {
        assert Lookup(now, p) == Lookup(before, p);
      }
    }
    assert place.Contains(place);
  }

  // ----- Rollback

  ghost predicate Matches(replacements: seq<Replacement>, before: Entries, plan: seq<Item>) {
    && |replacements| <= |plan|
    && forall i :: 0 <= i < |replacements| ==>
         replacements[i] == Replacement(plan[i].final, plan[i].backup, plan[i].final in before)
  }

  /** What the reverse loop has achieved for item i when it has come down to n. */
  ghost predicate Undone(before: Entries, now: Entries, it: Item, stuck: seq<Path>) {
    if it.final in stuck then Kept(before, now, it) else Restored(before, now, it)
  }

  /** After a change at item k alone, every item is still kept. */
  lemma StillSafe(before: Entries, now: Entries, next: Entries, plan: seq<Item>, k: nat)
    requires Separate(plan) && k < |plan| && OnlyItem(now, next, plan[k])
    requires Framed(before, now, plan)
    requires AllKept(before, now, plan) && Kept(before, next, plan[k])
    ensures Framed(before, next, plan) && AllKept(before, next, plan) && Safe(before, next, plan)
  {
    OthersUnchanged(now, next, plan, k);
    forall i | 0 <= i < |plan| ensures Kept(before, next, plan[i]) {
      assert Kept(before, now, plan[i]);
    }
  }

  method UndoReplacement(fs: FileSystem, r: Replacement, ghost before: Entries, ghost plan: seq<Item>, ghost k: nat)
    returns (failed: bool)
    requires Ready(before, plan) && k < |plan|
    requires r == Replacement(plan[k].final, plan[k].backup, plan[k].final in before)
    requires Framed(before, fs.entries, plan) && AllKept(before, fs.entries, plan)
    requires BackedUp(before, fs.entries, plan[k])
    modifies fs
    ensures OnlyItem(old(fs.entries), fs.entries, plan[k])
    ensures Framed(before, fs.entries, plan)
    ensures Lookup(fs.entries, plan[k].staged) == Lookup(old(fs.entries), plan[k].staged)
    ensures if failed then Kept(before, fs.entries, plan[k]) else Restored(before, fs.entries, plan[k])
    ensures fs.faults >= old(fs.faults) + if failed then 1 else 0
    ensures old(fs.failures) <= fs.failures
    ensures old(fs.history) <= fs.history && SafeSince(before, fs.history, |old(fs.history)|, plan)
  {
    ghost var it := plan[k];
    ghost var start := fs.entries;
    assert Separate(plan) && it.staged != it.final && it.final != it.backup && it.staged != it.backup;
    var err := fs.RemoveAll(r.final);
    if err.Some? && err.value != NotExist {
      return true;
    }
    RemoveLookup(before, start, plan, k, r.final);
    ghost var cleared := fs.entries;
    StillSafe(before, start, cleared, plan, k);
    if r.replaced {
      assert it.backup in start;
      assert Lookup(cleared, it.backup) == Lookup(start, it.backup);
      err := fs.Rename(r.backup, r.final);
      if err.Some? && err.value != NotExist {
        return true;
      }
      MovedLookup(cleared, r.backup, r.final);
      StillSafe(before, cleared, fs.entries, plan, k);
    }
    return false;
  }

  /** Undoes the replacements last to first; `stuck` lists the final paths that could not be restored. */
  method RollbackPulledArtifacts(
      fs: FileSystem, replacements: seq<Replacement>, ghost before: Entries, ghost plan: seq<Item>)
    returns (stuck: seq<Path>)
    requires Ready(before, plan) && Matches(replacements, before, plan)
    requires Framed(before, fs.entries, plan)
    requires forall i :: 0 <= i < |replacements| ==> BackedUp(before, fs.entries, plan[i])
    requires forall i :: |replacements| <= i < |plan| ==> Untouched(before, fs.entries, plan[i])
    modifies fs
    ensures Framed(before, fs.entries, plan)
    ensures forall i :: 0 <= i < |plan| ==> Undone(before, fs.entries, plan[i], stuck)
    ensures forall i :: 0 <= i < |plan| ==> Lookup(fs.entries, plan[i].staged) == Lookup(old(fs.entries), plan[i].staged)
    ensures forall p :: p in stuck ==> exists i :: 0 <= i < |replacements| && plan[i].final == p
    ensures fs.faults >= old(fs.faults) && |stuck| <= fs.faults - old(fs.faults)
    ensures old(fs.failures) <= fs.failures
    ensures old(fs.history) <= fs.history && SafeSince(before, fs.history, |old(fs.history)|, plan)
  {
    stuck := [];
    var i := |replacements|;
    assert forall k :: i <= k < |plan| ==> Untouched(before, fs.entries, plan[k]) && Restored(before, fs.entries, plan[k]);
    while i > 0
      invariant 0 <= i <= |replacements|
      invariant Framed(before, fs.entries, plan)
      invariant forall k :: 0 <= k < i ==> BackedUp(before, fs.entries, plan[k])
      invariant forall k :: i <= k < |plan| ==> Undone(before, fs.entries, plan[k], stuck)
      invariant forall k :: 0 <= k < |plan| ==> Lookup(fs.entries, plan[k].staged) == Lookup(old(fs.entries), plan[k].staged)
      invariant forall p :: p in stuck ==> exists k :: i <= k < |replacements| && plan[k].final == p
      invariant fs.faults >= old(fs.faults) && |stuck| <= fs.faults - old(fs.faults)
      invariant old(fs.failures) <= fs.failures
      invariant old(fs.history) <= fs.history && SafeSince(before, fs.history, |old(fs.history)|, plan)
    {
      i := i - 1;
      ghost var now, tried := fs.entries, stuck;
      KeptMidway(before, now, plan, i + 1, stuck);
      var failed := UndoReplacement(fs, replacements[i], before, plan, i);
      if failed {
        stuck := stuck + [replacements[i].final];
      }
      OthersUnchanged(now, fs.entries, plan, i);
      UndoneCarried(before, now, fs.entries, plan, i, tried, stuck);
    }
  }

  lemma KeptMidway(before: Entries, now: Entries, plan: seq<Item>, n: nat, stuck: seq<Path>)
    requires n <= |plan|
    requires forall k :: 0 <= k < n ==> BackedUp(before, now, plan[k])
    requires forall k :: n <= k < |plan| ==> Undone(before, now, plan[k], stuck)
    ensures AllKept(before, now, plan)
  {
  }

  lemma UndoneCarried(before: Entries, now: Entries, next: Entries, plan: seq<Item>, k: nat, tried: seq<Path>, stuck: seq<Path>)
    requires Separate(plan) && k < |plan| && OnlyItem(now, next, plan[k])
    requires forall i :: k < i < |plan| ==> Undone(before, now, plan[i], tried)
    requires forall p :: p in tried ==> exists i :: k < i < |plan| && plan[i].final == p
    requires || (stuck == tried && Restored(before, next, plan[k]))
             || (stuck == tried + [plan[k].final] && Kept(before, next, plan[k]))
    ensures forall i :: k <= i < |plan| ==> Undone(before, next, plan[i], stuck)
  {
    OthersUnchanged(now, next, plan, k);
    forall i | k <= i < |plan|
      ensures Undone(before, next, plan[i], stuck)
    {
      if i > k {
        assert Undone(before, now, plan[i], tried);
        assert IsPlace(plan[i], plan[i].final) && IsPlace(plan[k], plan[k].final);
        assert plan[i].final != plan[k].final;
        assert plan[i].final in stuck <==> plan[i].final in tried;
      } else {
        if plan[k].final in tried {
          var j :| k < j < |plan| && plan[j].final == plan[k].final;
          assert IsPlace(plan[j], plan[k].final) && IsPlace(plan[k], plan[k].final);
          assert false;
        }
      }
    }
  }

  // ----- Promotion

  /** Everything is in place: the staged files moved to the final paths and no backup is left but the listed ones. */
  ghost predicate Replaced(before: Entries, now: Entries, plan: seq<Item>, leftover: seq<Path>) {
    && AllInstalled(before, now, plan)
    && (forall i :: 0 <= i < |plan| ==>
          if plan[i].backup in leftover then plan[i].final in before && BackedUp(before, now, plan[i])
          else plan[i].backup !in now)
    && (forall p :: p in leftover ==> exists i :: 0 <= i < |plan| && plan[i].backup == p)
  }

  /** Undone up to the listed final paths; exactly the staged files before the failing one have been moved away. */
  ghost predicate RolledBack(before: Entries, now: Entries, plan: seq<Item>, index: nat, stuck: seq<Path>) {
    && index < |plan|
    && (forall i :: 0 <= i < |plan| ==> Undone(before, now, plan[i], stuck))
    && (forall i :: 0 <= i < index ==> plan[i].staged in before && plan[i].staged !in now)
    && (forall i :: index <= i < |plan| ==> Lookup(now, plan[i].staged) == Lookup(before, plan[i].staged))
    && (forall p :: p in stuck ==> exists i :: 0 <= i <= index && plan[i].final == p)
  }

  /** The first staged file that does not exist. */
  ghost predicate FirstMissing(before: Entries, plan: seq<Item>, index: nat) {
    && index < |plan| && plan[index].staged !in before
    && forall i :: 0 <= i < index ==> plan[i].staged in before
  }

  /** After an abort whose rollback reports nothing, only staged files that were already moved are gone. */
  lemma CleanAbortRestores(before: Entries, now: Entries, plan: seq<Item>, index: nat, p: Path)
    requires Ready(before, plan) && Framed(before, now, plan) && RolledBack(before, now, plan, index, [])
    requires forall i :: 0 <= i < index ==> p != plan[i].staged
    ensures Lookup(now, p) == Lookup(before, p)
  {
    if SomePlace(plan, p) {
      var i :| 0 <= i < |plan| && IsPlace(plan[i], p);
      assert Undone(before, now, plan[i], []);
    }
  }

  method Abort(fs: FileSystem, step: Step, replacements: seq<Replacement>, ghost before: Entries, ghost plan: seq<Item>, index: nat)
    returns (r: Outcome)
    requires Ready(before, plan) && Matches(replacements, before, plan)
    requires Framed(before, fs.entries, plan)
    requires index < |plan| && index <= |replacements| <= index + 1
    requires forall i :: 0 <= i < |replacements| ==> BackedUp(before, fs.entries, plan[i])
    requires forall i :: |replacements| <= i < |plan| ==> Untouched(before, fs.entries, plan[i])
    requires forall i :: 0 <= i < index ==> plan[i].staged in before && plan[i].staged !in fs.entries
    requires Lookup(fs.entries, plan[index].staged) == Lookup(before, plan[index].staged)
    modifies fs
    ensures r.Aborted? && r.step == step && r.index == index
    ensures Framed(before, fs.entries, plan) && RolledBack(before, fs.entries, plan, index, r.stuck)
    ensures fs.faults >= old(fs.faults) && |r.stuck| <= fs.faults - old(fs.faults)
    ensures old(fs.failures) <= fs.failures
    ensures old(fs.history) <= fs.history && SafeSince(before, fs.history, |old(fs.history)|, plan)
  {
    var stuck := RollbackPulledArtifacts(fs, replacements, before, plan);
    r := Aborted(step, index, stuck);
  }

  /** The state between moving item k's original to its backup and moving the staged file in. */
  ghost predicate Opened(before: Entries, now: Entries, plan: seq<Item>, k: nat) {
    && k < |plan|
    && Framed(before, now, plan)
    && (forall i :: 0 <= i < k ==> Installed(before, now, plan[i]) && BackedUp(before, now, plan[i]))
    && (forall i :: k < i < |plan| ==> Untouched(before, now, plan[i]))
    && BackedUp(before, now, plan[k])
    && plan[k].final !in now
    && Lookup(now, plan[k].staged) == Lookup(before, plan[k].staged)
  }

  lemma OpenedStep(before: Entries, now: Entries, next: Entries, plan: seq<Item>, k: nat)
    requires Separate(plan) && k < |plan| && OnlyItem(now, next, plan[k])
    requires Halfway(before, now, plan, k)
    requires BackedUp(before, next, plan[k]) && plan[k].final !in next
    requires Lookup(next, plan[k].staged) == Lookup(before, plan[k].staged)
    ensures Opened(before, next, plan, k) && Safe(before, next, plan)
  {
    OthersUnchanged(now, next, plan, k);
    forall i | 0 <= i < |plan|
      ensures i < k ==> Installed(before, next, plan[i]) && BackedUp(before, next, plan[i])
      ensures i > k ==> Untouched(before, next, plan[i])
    {
      if i < k { assert Installed(before, now, plan[i]) && BackedUp(before, now, plan[i]); }
      if i > k { assert Untouched(before, now, plan[i]); }
    }
  }

  lemma ClosedStep(before: Entries, now: Entries, next: Entries, plan: seq<Item>, k: nat)
    requires Separate(plan) && Opened(before, now, plan, k) && OnlyItem(now, next, plan[k])
    requires Installed(before, next, plan[k]) && BackedUp(before, next, plan[k])
    ensures Halfway(before, next, plan, k + 1) && Safe(before, next, plan)
  {
    OthersUnchanged(now, next, plan, k);
    forall i | 0 <= i < |plan|
      ensures i <= k ==> Installed(before, next, plan[i]) && BackedUp(before, next, plan[i])
      ensures i > k ==> Untouched(before, next, plan[i])
    {
      if i < k { assert Installed(before, now, plan[i]) && BackedUp(before, now, plan[i]); }
      if i > k { assert Untouched(before, now, plan[i]); }
    }
  }

  /** Moves the existing artifact, if there is one, out of the way. */
  method OpenSlot(fs: FileSystem, it: Item, ghost before: Entries, ghost plan: seq<Item>, ghost k: nat)
    returns (failed: Option<Step>, r: Replacement)
    requires Ready(before, plan) && k < |plan| && plan[k] == it
    requires Halfway(before, fs.entries, plan, k)
    modifies fs`entries, fs`faults, fs`history, fs`failures
    ensures fs.faults >= old(fs.faults) && (failed.Some? ==> fs.faults > old(fs.faults) && failed != Some(StagedMissing))
    ensures failed.Some? ==> fs.entries == old(fs.entries)
    ensures fs.failures == old(fs.failures) + if failed.Some? then [StepCall(failed.value, it)] else []
    ensures failed.None? ==> Opened(before, fs.entries, plan, k) && r == Replacement(it.final, it.backup, it.final in before)
    ensures old(fs.history) <= fs.history && SafeSince(before, fs.history, |old(fs.history)|, plan)
  {
    ghost var now := fs.entries;
    assert it.staged != it.final && it.final != it.backup && it.staged != it.backup;
    assert Untouched(before, now, it);
    r := Replacement(it.final, it.backup, false);
    var existing := fs.Inspect(it.final);
    if existing.Ok? {
      var err := fs.Rename(it.final, it.backup);
      assert it.final in now;
      if err.Some? {
        return Some(BackUp), r;
      }
      MovedLookup(now, it.final, it.backup);
      r := Replacement(it.final, it.backup, true);
    } else if existing.error != NotExist {
      return Some(InspectExisting), r;
    }
    OpenedStep(before, now, fs.entries, plan, k);
    return None, r;
  }

  /** One pass of the promotion loop; `slot` is what has to be undone for this item. */
  method InstallOne(fs: FileSystem, it: Item, ghost before: Entries, ghost plan: seq<Item>, ghost k: nat)
    returns (failed: Option<Step>, slot: Option<Replacement>)
    requires Ready(before, plan) && k < |plan| && plan[k] == it
    requires Halfway(before, fs.entries, plan, k)
    modifies fs`entries, fs`faults, fs`history, fs`failures
    ensures fs.faults >= old(fs.faults)
    ensures slot.Some? ==> slot.value == Replacement(it.final, it.backup, it.final in before)
    ensures failed.None? ==> slot.Some? && it.staged in before && Halfway(before, fs.entries, plan, k + 1)
    ensures failed.Some? && slot.None? ==> fs.entries == old(fs.entries)
    ensures failed.Some? && slot.Some? ==> Opened(before, fs.entries, plan, k)
    ensures failed == Some(StagedMissing) ==> it.staged !in before && slot.None?
    ensures failed.Some? && failed != Some(StagedMissing) ==> fs.faults > old(fs.faults)
    ensures fs.failures == old(fs.failures)
                           + if failed.Some? && failed != Some(StagedMissing) then [StepCall(failed.value, it)] else []
    ensures old(fs.history) <= fs.history && SafeSince(before, fs.history, |old(fs.history)|, plan)
  {
    assert it.staged != it.final && it.final != it.backup && it.staged != it.backup;
    assert Untouched(before, fs.entries, it);
    var staged := fs.Inspect(it.staged);
    if staged.Err? {
      return Some(if staged.error == NotExist then StagedMissing else InspectStaged), None;
    }
    var err := fs.MakeDirectories(it.final.Dir());
    if err.Some? {
      return Some(MakeDirectory), None;
    }
    var opening, replacement := OpenSlot(fs, it, before, plan, k);
    if opening.Some? {
      return opening, None;
    }
    ghost var between := fs.entries;
    assert Lookup(between, it.staged) == Lookup(before, it.staged) == Some(staged.value);
    err := fs.Rename(it.staged, it.final);
    if err.Some? {
      return Some(Promote), Some(replacement);
    }
    MovedLookup(between, it.staged, it.final);
    ClosedStep(before, between, fs.entries, plan, k);
    return None, Some(replacement);
  }

  /**
   Either every artifact is replaced (backups may be left if their removal failed), or the call
   reports which restorations failed and has undone all others.  Without faults only a missing
   staged file stops it.  Every state passed through is safe.
   */
  method PromotePulledArtifacts(fs: FileSystem, plan: seq<Item>) returns (r: Outcome)
    requires Ready(fs.entries, plan)
    modifies fs
    ensures Framed(old(fs.entries), fs.entries, plan)
    ensures r.Promoted? ==> Replaced(old(fs.entries), fs.entries, plan, [])
    ensures r.CleanupFailed? ==> r.leftover != [] && Replaced(old(fs.entries), fs.entries, plan, r.leftover)
    ensures r.CleanupFailed? ==> fs.failures == old(fs.failures) + Removals(r.leftover) && |r.leftover| <= fs.faults - old(fs.faults)
    ensures r.Promoted? ==> fs.failures == old(fs.failures)
    ensures r.Aborted? ==> RolledBack(old(fs.entries), fs.entries, plan, r.index, r.stuck)
    ensures r.Aborted? ==> |r.stuck| <= fs.faults - old(fs.faults)
    ensures r.Aborted? && r.step == StagedMissing ==> FirstMissing(old(fs.entries), plan, r.index)
    ensures r.Aborted? && r.step != StagedMissing ==>
              && fs.faults > old(fs.faults) + |r.stuck|
              && |fs.failures| > |old(fs.failures)| && fs.failures[|old(fs.failures)|] == StepCall(r.step, plan[r.index])
    ensures fs.faults >= old(fs.faults) && old(fs.failures) <= fs.failures
    ensures fs.faults == old(fs.faults) ==>
              || r.Promoted?
              || (r.Aborted? && r.step == StagedMissing && r.stuck == [] && FirstMissing(old(fs.entries), plan, r.index))
    ensures old(fs.history) <= fs.history && SafeSince(old(fs.entries), fs.history, |old(fs.history)|, plan)
  {
    ghost var before := fs.entries;
    var replacements: seq<Replacement> := [];
    for k := 0 to |plan|
      invariant |replacements| == k && Matches(replacements, before, plan)
      invariant Halfway(before, fs.entries, plan, k)
      invariant forall i :: 0 <= i < k ==> plan[i].staged in before
      invariant fs.faults >= old(fs.faults) && fs.failures == old(fs.failures)
      invariant old(fs.history) <= fs.history && SafeSince(before, fs.history, |old(fs.history)|, plan)
    {
      assert Untouched(before, fs.entries, plan[k]);
      var failed, slot := InstallOne(fs, plan[k], before, plan, k);
      if slot.Some? {
        replacements := replacements + [slot.value];
      }
      if failed.Some? {
        r := Abort(fs, failed.value, replacements, before, plan, k);
        return;
      }
    }
    var leftover := RemoveBackups(fs, replacements, before, plan);
    r := if leftover == [] then Promoted else CleanupFailed(leftover);
  }

  method RemoveBackups(fs: FileSystem, replacements: seq<Replacement>, ghost before: Entries, ghost plan: seq<Item>)
    returns (leftover: seq<Path>)
    requires Ready(before, plan) && |replacements| == |plan| && Matches(replacements, before, plan)
    requires Halfway(before, fs.entries, plan, |plan|)
    modifies fs
    ensures Framed(before, fs.entries, plan) && Replaced(before, fs.entries, plan, leftover)
    ensures fs.faults >= old(fs.faults) && |leftover| <= fs.faults - old(fs.faults)
    ensures fs.failures == old(fs.failures) + Removals(leftover)
    ensures old(fs.history) <= fs.history && SafeSince(before, fs.history, |old(fs.history)|, plan)
  {
    leftover := [];
    for k := 0 to |replacements|
      invariant Framed(before, fs.entries, plan)
      invariant AllInstalled(before, fs.entries, plan)
      invariant forall i :: k <= i < |plan| ==> BackedUp(before, fs.entries, plan[i])
      invariant forall i :: 0 <= i < k ==> Cleaned(before, fs.entries, plan[i], leftover)
      invariant forall p :: p in leftover ==> exists i :: 0 <= i < k && plan[i].backup == p
      invariant fs.faults >= old(fs.faults) && |leftover| <= fs.faults - old(fs.faults)
      invariant fs.failures == old(fs.failures) + Removals(leftover)
      invariant old(fs.history) <= fs.history && SafeSince(before, fs.history, |old(fs.history)|, plan)
    {
      var removed := RemoveBackup(fs, replacements[k], before, plan, k, leftover);
      if !removed {
        leftover := leftover + [replacements[k].backup];
      }
    }
  }

  method RemoveBackup(
      fs: FileSystem, r: Replacement, ghost before: Entries, ghost plan: seq<Item>, ghost k: nat, ghost leftover: seq<Path>)
    returns (removed: bool)
    requires Ready(before, plan) && k < |plan|
    requires r == Replacement(plan[k].final, plan[k].backup, plan[k].final in before)
    requires Framed(before, fs.entries, plan) && AllInstalled(before, fs.entries, plan)
    requires forall i :: k <= i < |plan| ==> BackedUp(before, fs.entries, plan[i])
    requires forall i :: 0 <= i < k ==> Cleaned(before, fs.entries, plan[i], leftover)
    requires forall p :: p in leftover ==> exists i :: 0 <= i < k && plan[i].backup == p
    modifies fs
    ensures Framed(before, fs.entries, plan) && AllInstalled(before, fs.entries, plan) && Safe(before, fs.entries, plan)
    ensures forall i :: k < i < |plan| ==> BackedUp(before, fs.entries, plan[i])
    ensures forall i :: 0 <= i <= k ==>
              Cleaned(before, fs.entries, plan[i], leftover + if removed then [] else [plan[k].backup])
    ensures fs.faults == old(fs.faults) + if removed then 0 else 1
    ensures fs.failures == old(fs.failures) + if removed then [] else [Removing(plan[k].backup)]
    ensures old(fs.history) <= fs.history && SafeSince(before, fs.history, |old(fs.history)|, plan)
  {
    ghost var now := fs.entries;
    removed := true;
    if r.replaced {
      var err := fs.RemoveAll(r.backup);
      removed := err.None?;
      if removed {
        RemoveLookup(before, now, plan, k, plan[k].backup);
      }
    }
    CleanedStep(before, now, fs.entries, plan, k, leftover, leftover + if removed then [] else [plan[k].backup]);
  }

  ghost predicate Cleaned(before: Entries, now: Entries, it: Item, leftover: seq<Path>) {
    if it.backup in leftover then it.final in before && BackedUp(before, now, it) else it.backup !in now
  }

  lemma CleanedStep(before: Entries, now: Entries, next: Entries, plan: seq<Item>, k: nat, tried: seq<Path>, leftover: seq<Path>)
    requires Separate(plan) && k < |plan|
    requires Framed(before, now, plan) && AllInstalled(before, now, plan)
    requires forall p :: Lookup(next, p) == Lookup(now, p) || (p == plan[k].backup && p !in next)
    requires forall i :: k <= i < |plan| ==> BackedUp(before, now, plan[i])
    requires forall i :: 0 <= i < k ==> Cleaned(before, now, plan[i], tried)
    requires forall p :: p in tried ==> exists i :: 0 <= i < k && plan[i].backup == p
    requires || (leftover == tried && plan[k].backup !in next)
             || (leftover == tried + [plan[k].backup] && next == now && plan[k].final in before)
    ensures Framed(before, next, plan) && AllInstalled(before, next, plan) && Safe(before, next, plan)
    ensures forall i :: k < i < |plan| ==> BackedUp(before, next, plan[i])
    ensures forall i :: 0 <= i <= k ==> Cleaned(before, next, plan[i], leftover)
  {
    assert OnlyItem(now, next, plan[k]);
    OthersUnchanged(now, next, plan, k);
    forall i | 0 <= i < |plan|
      ensures Installed(before, next, plan[i])
      ensures i > k ==> BackedUp(before, next, plan[i])
      ensures i <= k ==> Cleaned(before, next, plan[i], leftover)
    {
      var it := plan[i];
      assert Installed(before, now, it);
      assert it.staged != it.final && it.final != it.backup && it.staged != it.backup;
      if i < k {
        assert Cleaned(before, now, it, tried);
        assert IsPlace(it, it.backup) && IsPlace(plan[k], plan[k].backup);
        assert it.backup != plan[k].backup;
      }
      if i == k && plan[k].backup in tried {
        var j :| 0 <= j < k && plan[j].backup == plan[k].backup;
        assert IsPlace(plan[j], plan[k].backup) && IsPlace(plan[k], plan[k].backup);
        assert false;
      }
    }
  }
}
