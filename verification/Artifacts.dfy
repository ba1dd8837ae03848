/**
 Pulling an image into the artifact cache (pkg/oci/artifacts.go): layout, manifest check,
 download into a staging directory, promotion, and inspection of the result.

 The registry is foreign.  Both times the reference is resolved it stands for the same
 manifest, and a successful copy writes each layer's blob under its title in the staging
 directory; a failing copy may leave anything there.
 */
module Artifacts {
  import opened ArtifactLayout
  import opened FileSystem
  import opened Manifest
  import opened Paths
  import opened Promotion
  import opened Sequences
  import opened Wrappers

  // ----- The plan of a promotion

  const BACKUP_MARK := ".dev-alchemy-oci-backup-"

  function Decimal(n: nat): string {
    if n < 10 then [Digit(n)] else Decimal(n / 10) + [Digit(n % 10)]
  }

  function Digit(d: nat): (c: char)
    requires d < 10
    ensures '0' <= c <= '9'
  {
    '0' + d as char
  }

  lemma {:induction false} DecimalDigits(n: nat)
    ensures forall c :: c in Decimal(n) ==> '0' <= c <= '9'
  {
    if n >= 10 {
      DecimalDigits(n / 10);
    }
  }

  function Number(s: string): int {
    if s == "" then 0 else 10 * Number(s[..|s| - 1]) + (s[|s| - 1] as int - '0' as int)
  }

  /** The digits denote the number, so different clock readings give different names. */
  lemma {:induction false} DecimalDenotes(n: nat)
    ensures Number(Decimal(n)) == n && Decimal(n) != ""
  {
    if n < 10 {
      assert [Digit(n)][..0] == "";
    } else {
      DecimalDenotes(n / 10);
      assert (Decimal(n / 10) + [Digit(n % 10)])[..|Decimal(n / 10)|] == Decimal(n / 10);
    }
  }

  /** The backup name of a path, given the clock's reading in nanoseconds. */
  function BackupPath(p: Path, stamp: nat): Path {
    var suffix := BACKUP_MARK + Decimal(stamp);
    if p.segs == [] then p.Child([suffix])
    else Path(p.volume, p.segs[..|p.segs| - 1] + [p.segs[|p.segs| - 1] + suffix])
  }

  function StagedPath(stagingRoot: Path, name: string): Path {
    Path(stagingRoot.volume, Reduce(true, Split(name), stagingRoot.segs))
  }

  function PlanOf(stagingRoot: Path, files: seq<ArtifactFile>, stamps: seq<nat>): (plan: seq<Item>)
    requires |stamps| == |files|
    ensures |plan| == |files|
    ensures forall i :: 0 <= i < |files| ==>
              plan[i] == Item(StagedPath(stagingRoot, files[i].name), files[i].path, BackupPath(files[i].path, stamps[i]))
  {
    seq(|files|, i requires 0 <= i < |files| =>
      Item(StagedPath(stagingRoot, files[i].name), files[i].path, BackupPath(files[i].path, stamps[i])))
  }

  /** Equal backup names come from equal paths: the digits after the mark cannot hide another mark. */
  lemma SameBackupName(a: string, b: string, m: nat, n: nat)
    requires a + (BACKUP_MARK + Decimal(m)) == b + (BACKUP_MARK + Decimal(n))
    ensures a == b
  {
    var x, y := Decimal(m), Decimal(n);
    DecimalDigits(m);
    DecimalDigits(n);
    var whole := a + (BACKUP_MARK + x);
    var k := |BACKUP_MARK|;
    assert whole[|whole| - |x| - 1] == BACKUP_MARK[k - 1] == '-';
    assert whole[|whole| - |y| - 1] == BACKUP_MARK[k - 1] by {
      assert whole == b + (BACKUP_MARK + y);
    }
    LastMark(whole, x, y);
    assert a == whole[..|a|] && b == whole[..|b|];
  }

  lemma LastMark(whole: string, x: string, y: string)
    requires |x| < |whole| && |y| < |whole|
    requires whole[|whole| - |x|..] == x && whole[|whole| - |y|..] == y
    requires whole[|whole| - |x| - 1] == '-' && whole[|whole| - |y| - 1] == '-'
    requires '-' !in x && '-' !in y
    ensures |x| == |y|
  {
    if |x| < |y| {
      MarkInTail(whole, x, y);
      assert false;
    }
    if |y| < |x| {
      MarkInTail(whole, y, x);
      assert false;
    }
  }

  lemma MarkInTail(whole: string, x: string, y: string)
    requires |x| < |y| <= |whole|
    requires whole[|whole| - |y|..] == y && whole[|whole| - |x| - 1] == '-'
    ensures '-' in y
  {
    assert y[|y| - |x| - 1] == whole[|whole| - |x| - 1];
  }

  /** Two ancestors of one path are comparable. */
  lemma Comparable(a: Path, b: Path, q: Path)
    requires a.Contains(q) && b.Contains(q)
    ensures a.Contains(b) || b.Contains(a)
  {
    var short, long := if |a.segs| <= |b.segs| then a.segs else b.segs, if |a.segs| <= |b.segs| then b.segs else a.segs;
    assert short == q.segs[..|short|] && long == q.segs[..|long|];
  }

  /** A path above a backup path, other than the backup itself, is above the original too. */
  lemma AboveBackup(a: Path, p: Path, stamp: nat)
    requires a.Contains(BackupPath(p, stamp)) && a != BackupPath(p, stamp)
    ensures a.Contains(p)
  {
    var b := BackupPath(p, stamp);
    assert |a.segs| < |b.segs|;
    var n := |b.segs| - 1;
    assert b.segs[..n] == p.segs[..n];
    assert a.segs == b.segs[..n][..|a.segs|];
  }

  lemma SameBackupPath(p: Path, q: Path, m: nat, n: nat)
    requires BackupPath(p, m) == BackupPath(q, n)
    ensures p == q || (p.segs == []) != (q.segs == [])
  {
    if p.segs != [] && q.segs != [] {
      var k := |p.segs| - 1;
      var a, b := BackupPath(p, m).segs, BackupPath(q, n).segs;
      assert a[k] == p.segs[k] + (BACKUP_MARK + Decimal(m)) && b[k] == q.segs[k] + (BACKUP_MARK + Decimal(n));
      SameBackupName(p.segs[k], q.segs[k], m, n);
      assert a[..k] == p.segs[..k] && b[..k] == q.segs[..k];
      assert p.segs == p.segs[..k] + [p.segs[k]] && q.segs == q.segs[..k] + [q.segs[k]];
    }
  }

  /**
   What the environment provides: different artifacts are separate trees, nothing lies below
   them, the backup names and the staging directory are new.  A path may be expected twice.
   */
  ghost predicate Undisturbed(before: Entries, stagingRoot: Path, paths: seq<Path>, stamps: seq<nat>) {
    && |stamps| == |paths|
    && (forall i, j :: 0 <= i < |paths| && 0 <= j < |paths| && paths[i] != paths[j] ==> !paths[i].Contains(paths[j]))
    && (forall i, q :: 0 <= i < |paths| && q in before && paths[i].Contains(q) ==> q == paths[i])
    && (forall i :: 0 <= i < |paths| ==> paths[i].segs != [])
    && (forall i, q :: 0 <= i < |paths| && q in before ==> !BackupPath(paths[i], stamps[i]).Contains(q))
    && (forall i, j :: 0 <= i < |paths| && 0 <= j < |paths| ==> !BackupPath(paths[i], stamps[i]).Contains(paths[j]))
    && (forall i :: 0 <= i < |paths| ==> !BackupPath(paths[i], stamps[i]).Contains(stagingRoot))
    && (forall i :: 0 <= i < |paths| ==> !paths[i].Contains(stagingRoot) && !stagingRoot.Contains(paths[i]))
  }

  /** The same for an accepted manifest, which names no path twice. */
  ghost predicate Prepared(before: Entries, stagingRoot: Path, paths: seq<Path>, stamps: seq<nat>) {
    Undisturbed(before, stagingRoot, paths, stamps) && Distinct(paths)
  }

  lemma AcceptedDistinct(layout: Layout, paths: seq<Path>, layers: seq<Layer>)
    requires LayoutOf(layout, paths) && SameFiles(layers, layout.files)
    ensures Distinct(paths)
  {
    forall i, j | 0 <= i < j < |paths| ensures paths[i] != paths[j] {
      NamesIdentifyPaths(layout, paths, i, j);
      assert Names(layout.files)[i] != Names(layout.files)[j];
    }
  }

  lemma AcceptedPrepared(before: Entries, stagingRoot: Path, layout: Layout, paths: seq<Path>, stamps: seq<nat>, layers: seq<Layer>)
    requires LayoutOf(layout, paths) && SameFiles(layers, layout.files)
    requires Undisturbed(before, stagingRoot, paths, stamps)
    ensures Prepared(before, stagingRoot, paths, stamps)
  {
    AcceptedDistinct(layout, paths, layers);
  }

  lemma StagedBelow(layout: Layout, paths: seq<Path>, stagingRoot: Path, i: nat)
    requires LayoutOf(layout, paths) && i < |paths|
    ensures StagedPath(stagingRoot, layout.files[i].name).segs == stagingRoot.segs + Split(layout.files[i].name)
    ensures stagingRoot.Contains(StagedPath(stagingRoot, layout.files[i].name))
  {
    assert FileOf(layout.root, layout.files[i], paths[i]);
    ReducePlain(true, Split(layout.files[i].name), stagingRoot.segs);
  }

  lemma BackupsApart(before: Entries, stagingRoot: Path, paths: seq<Path>, stamps: seq<nat>, i: nat, j: nat)
    requires Prepared(before, stagingRoot, paths, stamps) && i < |paths| && j < |paths|
    ensures BackupPath(paths[i], stamps[i]).Contains(BackupPath(paths[j], stamps[j])) ==> i == j
    ensures !paths[i].Contains(BackupPath(paths[j], stamps[j]))
    ensures !stagingRoot.Contains(BackupPath(paths[j], stamps[j]))
  {
    var b := BackupPath(paths[j], stamps[j]);
    var a := BackupPath(paths[i], stamps[i]);
    assert !b.Contains(paths[i]) && !b.Contains(stagingRoot) && !a.Contains(paths[j]);
    if paths[i].Contains(b) {
      AboveBackup(paths[i], paths[j], stamps[j]);
    }
    if stagingRoot.Contains(b) {
      AboveBackup(stagingRoot, paths[j], stamps[j]);
    }
    if a.Contains(b) && i != j {
      if a == b {
        SameBackupPath(paths[i], paths[j], stamps[i], stamps[j]);
      } else {
        AboveBackup(a, paths[j], stamps[j]);
      }
    }
  }

  /** Adding files below the staging directory keeps the conditions on everything else. */
  ghost predicate OnlyStaged(before: Entries, now: Entries, stagingRoot: Path) {
    forall p :: !stagingRoot.Contains(p) ==> Lookup(now, p) == Lookup(before, p)
  }

  lemma PlanReady(before: Entries, now: Entries, stagingRoot: Path, layout: Layout, paths: seq<Path>, stamps: seq<nat>)
    requires LayoutOf(layout, paths)
    requires Prepared(before, stagingRoot, paths, stamps) && OnlyStaged(before, now, stagingRoot)
    ensures Ready(now, PlanOf(stagingRoot, layout.files, stamps))
  {
    var plan := PlanOf(stagingRoot, layout.files, stamps);
    forall i, j | 0 <= i < |plan| && 0 <= j < |plan|
      ensures PlacesApart(plan, i, j)
    {
      ItemsApart(before, stagingRoot, layout, paths, stamps, i, j);
    }
    ApartSeparate(plan);
    forall i, q | 0 <= i < |plan| && q in now
      ensures plan[i].final.Contains(q) ==> q == plan[i].final
      ensures !plan[i].backup.Contains(q)
    {
      ItemPlaces(layout, paths, stagingRoot, stamps, i);
      EntryApart(before, now, stagingRoot, paths, stamps, i, q);
    }
    ApartReady(now, plan);
  }

  lemma ApartReady(now: Entries, plan: seq<Item>)
    requires Separate(plan)
    requires forall i, j :: 0 <= i < |plan| && 0 <= j < |plan| ==> PlacesApart(plan, i, j)
    requires forall i, q :: 0 <= i < |plan| && q in now ==>
               (plan[i].final.Contains(q) ==> q == plan[i].final) && !plan[i].backup.Contains(q)
    ensures Ready(now, plan)
  {
    forall i | 0 <= i < |plan|
      ensures plan[i].backup !in now
    {
      assert plan[i].backup.Contains(plan[i].backup);
    }
    forall i, q | 0 <= i < |plan| && SomePlace(plan, q)
      ensures plan[i].final.Contains(q) ==> q == plan[i].final
      ensures plan[i].backup.Contains(q) ==> q == plan[i].backup
    {
      var j :| 0 <= j < |plan| && IsPlace(plan[j], q);
      assert PlacesApart(plan, i, j);
    }
  }

  lemma ItemPlaces(layout: Layout, paths: seq<Path>, stagingRoot: Path, stamps: seq<nat>, i: nat)
    requires LayoutOf(layout, paths) && |stamps| == |paths| && i < |paths|
    ensures PlanOf(stagingRoot, layout.files, stamps)[i].final == paths[i]
    ensures PlanOf(stagingRoot, layout.files, stamps)[i].backup == BackupPath(paths[i], stamps[i])
  {
    assert FileOf(layout.root, layout.files[i], paths[i]);
  }

  lemma ApartSeparate(plan: seq<Item>)
    requires forall i, j :: 0 <= i < |plan| && 0 <= j < |plan| ==> PlacesApart(plan, i, j)
    ensures Separate(plan)
  {
    forall i, p, j | 0 <= i < |plan| && 0 <= j < |plan| && IsPlace(plan[i], p) && IsPlace(plan[j], p)
      ensures i == j
    {
      assert PlacesApart(plan, i, j) && PlacesApart(plan, j, i);
      assert p.Contains(p);
    }
    forall i | 0 <= i < |plan|
      ensures plan[i].staged != plan[i].final && plan[i].final != plan[i].backup && plan[i].staged != plan[i].backup
    {
      assert PlacesApart(plan, i, i);
      assert plan[i].staged.Contains(plan[i].staged) && plan[i].backup.Contains(plan[i].backup);
    }
  }

  /** Only an item's own final or backup path contains it among all places; staged paths of different items differ. */
  ghost predicate PlacesApart(plan: seq<Item>, i: nat, j: nat)
    requires i < |plan| && j < |plan|
  {
    && (plan[i].final.Contains(plan[j].final) ==> i == j)
    && !plan[i].final.Contains(plan[j].staged) && !plan[i].final.Contains(plan[j].backup)
    && (plan[i].backup.Contains(plan[j].backup) ==> i == j)
    && !plan[i].backup.Contains(plan[j].staged) && !plan[i].backup.Contains(plan[j].final)
    && (plan[i].staged == plan[j].staged ==> i == j)
  }

  lemma ItemsApart(before: Entries, stagingRoot: Path, layout: Layout, paths: seq<Path>, stamps: seq<nat>, i: nat, j: nat)
    requires LayoutOf(layout, paths) && Prepared(before, stagingRoot, paths, stamps)
    requires i < |paths| && j < |paths|
    ensures PlacesApart(PlanOf(stagingRoot, layout.files, stamps), i, j)
  {
    var plan := PlanOf(stagingRoot, layout.files, stamps);
    assert FileOf(layout.root, layout.files[i], paths[i]) && FileOf(layout.root, layout.files[j], paths[j]);
    StagedBelow(layout, paths, stagingRoot, i);
    StagedBelow(layout, paths, stagingRoot, j);
    BackupsApart(before, stagingRoot, paths, stamps, i, j);
    BackupsApart(before, stagingRoot, paths, stamps, j, i);
    if plan[i].final.Contains(plan[j].staged) {
      Comparable(plan[i].final, stagingRoot, plan[j].staged);
    }
    if plan[i].backup.Contains(plan[j].staged) {
      Comparable(plan[i].backup, stagingRoot, plan[j].staged);
    }
    if plan[i].staged == plan[j].staged {
      StagedNamesDiffer(layout, paths, stagingRoot, i, j);
    }
  }

  lemma StagedNamesDiffer(layout: Layout, paths: seq<Path>, stagingRoot: Path, i: nat, j: nat)
    requires LayoutOf(layout, paths) && i < |paths| && j < |paths|
    requires StagedPath(stagingRoot, layout.files[i].name) == StagedPath(stagingRoot, layout.files[j].name)
    ensures paths[i] == paths[j]
  {
    var a, b := layout.files[i].name, layout.files[j].name;
    StagedBelow(layout, paths, stagingRoot, i);
    StagedBelow(layout, paths, stagingRoot, j);
    assert Split(a) == (stagingRoot.segs + Split(a))[|stagingRoot.segs|..];
    assert Split(b) == (stagingRoot.segs + Split(b))[|stagingRoot.segs|..];
    SplitJoins(a);
    SplitJoins(b);
    NamesIdentifyPaths(layout, paths, i, j);
  }

  lemma EntryApart(before: Entries, now: Entries, stagingRoot: Path, paths: seq<Path>, stamps: seq<nat>, i: nat, q: Path)
    requires Prepared(before, stagingRoot, paths, stamps) && OnlyStaged(before, now, stagingRoot)
    requires i < |paths| && q in now
    ensures paths[i].Contains(q) ==> q == paths[i]
    ensures !BackupPath(paths[i], stamps[i]).Contains(q)
  {
    if stagingRoot.Contains(q) {
      if paths[i].Contains(q) {
        Comparable(paths[i], stagingRoot, q);
        assert false;
      }
      if BackupPath(paths[i], stamps[i]).Contains(q) {
        Comparable(BackupPath(paths[i], stamps[i]), stagingRoot, q);
        BackupsApart(before, stagingRoot, paths, stamps, i, i);
        assert false;
      }
    } else {
      assert Lookup(now, q) == Lookup(before, q);
    }
  }

  // ----- Pull

  datatype PullError =
    | LayoutFailed(error: LayoutError)
    | ReferenceFailed
    | ManifestRejected(rejection: ManifestError)
    | StagingFailed
    | CopyFailed
    | PromotionFailed(outcome: Outcome)
    | InspectFailed

  /** Every layer is named below the staging directory, and no two layers share a name. */
  ghost predicate Placeable(layers: seq<Layer>) {
    Distinct(Titles(layers)) && forall k :: 0 <= k < |layers| ==> AllPlain(Split(Title(layers[k])))
  }

  lemma AcceptedPlaceable(layout: Layout, paths: seq<Path>, layers: seq<Layer>)
    requires LayoutOf(layout, paths) && SameFiles(layers, layout.files)
    ensures Placeable(layers)
  {
    ChecksMeanSameFiles(layers, layout.files);
    ChecksImplyDistinct(layers, layout.files);
    forall k | 0 <= k < |layers| ensures AllPlain(Split(Title(layers[k]))) {
      var i := Counterpart(layers, layout.files, k);
      assert FileOf(layout.root, layout.files[i], paths[i]);
    }
  }

  lemma StagedApart(stagingRoot: Path, a: string, b: string)
    requires AllPlain(Split(a)) && AllPlain(Split(b)) && a != b
    ensures StagedPath(stagingRoot, a) != StagedPath(stagingRoot, b)
    ensures stagingRoot.Contains(StagedPath(stagingRoot, a))
  {
    ReducePlain(true, Split(a), stagingRoot.segs);
    ReducePlain(true, Split(b), stagingRoot.segs);
    SplitJoins(a);
    SplitJoins(b);
    assert Split(a) == (stagingRoot.segs + Split(a))[|stagingRoot.segs|..];
    assert Split(b) == (stagingRoot.segs + Split(b))[|stagingRoot.segs|..];
  }

  lemma EarlierElsewhere(layers: seq<Layer>, n: nat, stagingRoot: Path)
    requires Placeable(layers) && n < |layers|
    ensures stagingRoot.Contains(StagedPath(stagingRoot, Title(layers[n])))
    ensures forall k :: 0 <= k < n ==>
              StagedPath(stagingRoot, Title(layers[k])) != StagedPath(stagingRoot, Title(layers[n]))
  {
    ReducePlain(true, Split(Title(layers[n])), stagingRoot.segs);
    forall k | 0 <= k < n
      ensures StagedPath(stagingRoot, Title(layers[k])) != StagedPath(stagingRoot, Title(layers[n]))
    {
      assert Titles(layers)[k] != Titles(layers)[n];
      StagedApart(stagingRoot, Title(layers[k]), Title(layers[n]));
    }
  }

  /** The assumed effect of the registry copy. */
  method CopyArtifact(fs: FileSystem, layers: seq<Layer>, stagingRoot: Path) returns (ok: bool)
    requires Placeable(layers)
    modifies fs`entries, fs`faults, fs`history, fs`failures
    ensures fs.faults >= old(fs.faults) && (fs.faults == old(fs.faults) ==> ok)
    ensures OnlyStaged(old(fs.entries), fs.entries, stagingRoot)
    ensures ok ==> StagedAll(fs.entries, layers, stagingRoot)
    ensures old(fs.failures) <= fs.failures && (ok ==> fs.failures == old(fs.failures))
    ensures old(fs.history) <= fs.history
    ensures forall k :: |old(fs.history)| <= k < |fs.history| ==> OnlyStaged(old(fs.entries), fs.history[k], stagingRoot)
  {
    for n := 0 to |layers|
      invariant fs.faults >= old(fs.faults) && fs.failures == old(fs.failures)
      invariant OnlyStaged(old(fs.entries), fs.entries, stagingRoot)
      invariant forall k :: 0 <= k < n ==>
                  Lookup(fs.entries, StagedPath(stagingRoot, Title(layers[k]))) == Some(layers[k].blob)
      invariant old(fs.history) <= fs.history
      invariant forall k :: |old(fs.history)| <= k < |fs.history| ==> OnlyStaged(old(fs.entries), fs.history[k], stagingRoot)
    {
      ghost var now := fs.entries;
      var place := StagedPath(stagingRoot, Title(layers[n]));
      EarlierElsewhere(layers, n, stagingRoot);
      var err := fs.Write(place, layers[n].blob);
      if err.Some? {
        return false;
      }
    }
    return true;
  }

  /** Each expected path holds the blob of the layer whose title is that file's name. */
  ghost predicate Pulled(now: Entries, layers: seq<Layer>, files: seq<ArtifactFile>) {
    forall i :: 0 <= i < |files| ==> HoldsLayer(now, layers, files[i])
  }

  ghost predicate HoldsLayer(now: Entries, layers: seq<Layer>, file: ArtifactFile) {
    exists k :: 0 <= k < |layers| && Title(layers[k]) == file.name && layers[k].mediaType == file.mediaType
             && Lookup(now, file.path) == Some(layers[k].blob)
  }

  /** Nothing outside the staging directory, the artifacts and the listed leftovers differs. */
  ghost predicate UnchangedBeyond(before: Entries, now: Entries, stagingRoot: Path, paths: seq<Path>, leftover: seq<Path>) {
    forall p :: !stagingRoot.Contains(p) && p !in paths && p !in leftover ==> Lookup(now, p) == Lookup(before, p)
  }

  lemma StagedLayer(layout: Layout, paths: seq<Path>, layers: seq<Layer>, i: nat) returns (k: nat)
    requires LayoutOf(layout, paths) && SameFiles(layers, layout.files) && i < |paths|
    ensures k < |layers| && Title(layers[k]) == layout.files[i].name && layers[k].mediaType == layout.files[i].mediaType
  {
    assert FileKinds(layout.files)[i] in multiset(FileKinds(layout.files));
    assert FileKinds(layout.files)[i] in LayerKinds(layers);
    k :| 0 <= k < |layers| && LayerKinds(layers)[k] == FileKinds(layout.files)[i];
  }

  lemma ReplacedIsPulled(
      staged: Entries, now: Entries, stagingRoot: Path,
      layout: Layout, paths: seq<Path>, stamps: seq<nat>, layers: seq<Layer>)
    requires LayoutOf(layout, paths) && SameFiles(layers, layout.files) && |stamps| == |paths|
    requires StagedAll(staged, layers, stagingRoot)
    requires AllInstalled(staged, now, PlanOf(stagingRoot, layout.files, stamps))
    ensures Pulled(now, layers, layout.files)
  {
    var plan := PlanOf(stagingRoot, layout.files, stamps);
    forall i | 0 <= i < |layout.files|
      ensures HoldsLayer(now, layers, layout.files[i])
    {
      var k := StagedLayer(layout, paths, layers, i);
      assert Installed(staged, now, plan[i]);
      assert Lookup(now, layout.files[i].path) == Some(layers[k].blob);
    }
  }

  lemma ReplacedElsewhereUnchanged(
      before: Entries, staged: Entries, now: Entries, stagingRoot: Path,
      layout: Layout, paths: seq<Path>, stamps: seq<nat>, leftover: seq<Path>)
    requires LayoutOf(layout, paths)
    requires Prepared(before, stagingRoot, paths, stamps) && OnlyStaged(before, staged, stagingRoot)
    requires Framed(staged, now, PlanOf(stagingRoot, layout.files, stamps))
    requires Replaced(staged, now, PlanOf(stagingRoot, layout.files, stamps), leftover)
    ensures UnchangedBeyond(before, now, stagingRoot, paths, leftover)
  {
    var plan := PlanOf(stagingRoot, layout.files, stamps);
    PlanReady(before, staged, stagingRoot, layout, paths, stamps);
    forall p | !stagingRoot.Contains(p) && p !in paths && p !in leftover
      ensures Lookup(now, p) == Lookup(before, p)
    {
      assert Lookup(staged, p) == Lookup(before, p);
      if SomePlace(plan, p) {
        var i :| 0 <= i < |plan| && IsPlace(plan[i], p);
        ItemPlaces(layout, paths, stagingRoot, stamps, i);
        StagedBelow(layout, paths, stagingRoot, i);
        assert p == plan[i].backup;
      }
    }
  }

  /** A rollback that reports nothing has put everything outside the staging directory back. */
  lemma RolledBackUnchanged(
      before: Entries, staged: Entries, now: Entries, stagingRoot: Path,
      layout: Layout, paths: seq<Path>, stamps: seq<nat>, index: nat)
    requires LayoutOf(layout, paths)
    requires Prepared(before, stagingRoot, paths, stamps) && OnlyStaged(before, staged, stagingRoot)
    requires Framed(staged, now, PlanOf(stagingRoot, layout.files, stamps))
    requires RolledBack(staged, now, PlanOf(stagingRoot, layout.files, stamps), index, [])
    ensures OnlyStaged(before, now, stagingRoot)
  {
    var plan := PlanOf(stagingRoot, layout.files, stamps);
    forall p | !stagingRoot.Contains(p)
      ensures Lookup(now, p) == Lookup(before, p)
    {
      assert Lookup(staged, p) == Lookup(before, p);
      if SomePlace(plan, p) {
        var i :| 0 <= i < |plan| && IsPlace(plan[i], p);
        StagedBelow(layout, paths, stagingRoot, i);
        assert Undone(staged, now, plan[i], []);
        BackupFree(before, staged, stagingRoot, layout, paths, stamps, i);
        RestoredPlace(staged, now, plan[i], p);
      }
    }
  }

  lemma BackupFree(
      before: Entries, staged: Entries, stagingRoot: Path, layout: Layout, paths: seq<Path>, stamps: seq<nat>, i: nat)
    requires LayoutOf(layout, paths) && i < |paths|
    requires Prepared(before, stagingRoot, paths, stamps) && OnlyStaged(before, staged, stagingRoot)
    ensures PlanOf(stagingRoot, layout.files, stamps)[i].backup !in staged
  {
    PlanReady(before, staged, stagingRoot, layout, paths, stamps);
  }

  lemma RestoredPlace(staged: Entries, now: Entries, it: Item, p: Path)
    requires Restored(staged, now, it) && it.backup !in staged
    requires IsPlace(it, p) && p != it.staged
    ensures Lookup(now, p) == Lookup(staged, p)
  {
  }

  /** An artifact that existed is intact at its path or at its backup. */
  ghost predicate OriginalsKept(before: Entries, now: Entries, paths: seq<Path>, stamps: seq<nat>)
    requires |stamps| == |paths|
  {
    forall i :: 0 <= i < |paths| && paths[i] in before ==>
      || Lookup(now, paths[i]) == Lookup(before, paths[i])
      || Lookup(now, BackupPath(paths[i], stamps[i])) == Lookup(before, paths[i])
  }

  function Backups(paths: seq<Path>, stamps: seq<nat>): (backups: seq<Path>)
    requires |stamps| == |paths|
    ensures |backups| == |paths|
    ensures forall i :: 0 <= i < |paths| ==> backups[i] == BackupPath(paths[i], stamps[i])
  {
    seq(|paths|, i requires 0 <= i < |paths| => BackupPath(paths[i], stamps[i]))
  }

  /**
   What every state on the way keeps: nothing but staging, artifacts and backups changes, and
   either each original is still there or everything has been pulled.
   */
  ghost predicate CacheSafe(
      before: Entries, now: Entries, stagingRoot: Path, paths: seq<Path>, stamps: seq<nat>,
      layers: seq<Layer>, files: seq<ArtifactFile>)
    requires |stamps| == |paths|
  {
    && UnchangedBeyond(before, now, stagingRoot, paths, Backups(paths, stamps))
    && (OriginalsKept(before, now, paths, stamps) || Pulled(now, layers, files))
  }

  ghost predicate CacheSafeSince(
      before: Entries, history: seq<Entries>, start: nat, stagingRoot: Path, paths: seq<Path>, stamps: seq<nat>,
      layers: seq<Layer>, files: seq<ArtifactFile>)
    requires |stamps| == |paths|
  {
    && start <= |history|
    && forall k :: start <= k < |history| ==> CacheSafe(before, history[k], stagingRoot, paths, stamps, layers, files)
  }

  /** The listed paths are backups that hold the originals. */
  ghost predicate LeftoverBackups(before: Entries, now: Entries, paths: seq<Path>, stamps: seq<nat>, leftover: seq<Path>)
    requires |stamps| == |paths|
  {
    && leftover != []
    && forall p :: p in leftover ==>
         exists i :: 0 <= i < |paths| && p == BackupPath(paths[i], stamps[i])
                  && paths[i] in before && Lookup(now, p) == Lookup(before, paths[i])
  }

  /** Every artifact that is not listed is as it was, without a backup. */
  ghost predicate RestoredBut(before: Entries, now: Entries, paths: seq<Path>, stamps: seq<nat>, stuck: seq<Path>)
    requires |stamps| == |paths|
  {
    && (forall p :: p in stuck ==> p in paths)
    && forall i :: 0 <= i < |paths| && paths[i] !in stuck ==>
         Lookup(now, paths[i]) == Lookup(before, paths[i]) && BackupPath(paths[i], stamps[i]) !in now
  }

  /** Nothing is left in the staging directory, unless its removal was tried and failed. */
  ghost predicate StagingGone(earlier: seq<FsCall>, failures: seq<FsCall>, now: Entries, stagingRoot: Path) {
    && earlier <= failures
    && (Removing(stagingRoot) in failures[|earlier|..] || forall q :: q in now ==> !stagingRoot.Contains(q))
  }

  lemma LastTried(earlier: seq<FsCall>, tried: seq<FsCall>, call: FsCall)
    requires earlier <= tried
    ensures call in (tried + [call])[|earlier|..]
  {
    assert (tried + [call])[|earlier|..][|tried| - |earlier|] == call;
  }

  /** Each backup reported as left over was tried to be removed, each artifact reported as stuck had a failing operation of its own. */
  ghost predicate Tried(earlier: seq<FsCall>, failures: seq<FsCall>, faults: int, r: Result<seq<ArtifactFile>, PullError>) {
    && earlier <= failures
    && (r.Err? && r.error.PromotionFailed? ==>
          match r.error.outcome {
            case Promoted => true
            case CleanupFailed(leftover) => earlier + Removals(leftover) <= failures && |leftover| <= faults
            case Aborted(_, _, stuck) => |stuck| < faults
          })
  }

  /** What each result of Pull says about the cache. */
  ghost predicate PullEffect(
      before: Entries, now: Entries, stagingRoot: Path, paths: seq<Path>, stamps: seq<nat>,
      layout: Layout, layers: seq<Layer>, r: Result<seq<ArtifactFile>, PullError>)
    requires |stamps| == |paths|
  {
    match r
    case Ok(files) =>
      && LayoutOf(layout, paths) && SameFiles(layers, layout.files)
      && Pulled(now, layers, layout.files)
      && UnchangedBeyond(before, now, stagingRoot, paths, [])
      && Measured(now, layout.files, files)
    case Err(InspectFailed) =>
      Pulled(now, layers, layout.files) && UnchangedBeyond(before, now, stagingRoot, paths, [])
    case Err(PromotionFailed(outcome)) =>
      OutcomeEffect(before, now, stagingRoot, paths, stamps, layout, layers, outcome)
    case Err(_) =>
      OnlyStaged(before, now, stagingRoot)
  }

  /** What an outcome other than complete success leaves in the cache. */
  ghost predicate OutcomeEffect(
      before: Entries, now: Entries, stagingRoot: Path, paths: seq<Path>, stamps: seq<nat>,
      layout: Layout, layers: seq<Layer>, outcome: Outcome)
    requires |stamps| == |paths|
  {
    match outcome
    case Promoted => false
    case CleanupFailed(leftover) =>
      && Pulled(now, layers, layout.files)
      && UnchangedBeyond(before, now, stagingRoot, paths, leftover)
      && LeftoverBackups(before, now, paths, stamps, leftover)
    case Aborted(_, _, stuck) =>
      && OriginalsKept(before, now, paths, stamps)
      && UnchangedBeyond(before, now, stagingRoot, paths, Backups(paths, stamps))
      && RestoredBut(before, now, paths, stamps, stuck)
      && (stuck == [] ==> OnlyStaged(before, now, stagingRoot))
  }

  /** The listed files with the sizes found at their paths. */
  ghost predicate Measured(now: Entries, files: seq<ArtifactFile>, listed: seq<ArtifactFile>) {
    && |listed| == |files|
    && forall i :: 0 <= i < |files| ==>
         files[i].path in now && listed[i] == files[i].(size := |now[files[i].path]|)
  }

  lemma OriginalsKeptByUndo(
      before: Entries, staged: Entries, now: Entries, stagingRoot: Path,
      layout: Layout, paths: seq<Path>, stamps: seq<nat>, index: nat, stuck: seq<Path>)
    requires LayoutOf(layout, paths)
    requires Prepared(before, stagingRoot, paths, stamps) && OnlyStaged(before, staged, stagingRoot)
    requires RolledBack(staged, now, PlanOf(stagingRoot, layout.files, stamps), index, stuck)
    ensures OriginalsKept(before, now, paths, stamps)
  {
    var plan := PlanOf(stagingRoot, layout.files, stamps);
    forall i | 0 <= i < |paths| && paths[i] in before
      ensures || Lookup(now, paths[i]) == Lookup(before, paths[i])
              || Lookup(now, BackupPath(paths[i], stamps[i])) == Lookup(before, paths[i])
    {
      ItemPlaces(layout, paths, stagingRoot, stamps, i);
      assert Lookup(staged, paths[i]) == Lookup(before, paths[i]);
      assert Undone(staged, now, plan[i], stuck);
    }
  }

  lemma FramedBeyond(
      before: Entries, staged: Entries, now: Entries, stagingRoot: Path, layout: Layout, paths: seq<Path>, stamps: seq<nat>)
    requires LayoutOf(layout, paths)
    requires |stamps| == |paths| && OnlyStaged(before, staged, stagingRoot)
    requires Framed(staged, now, PlanOf(stagingRoot, layout.files, stamps))
    ensures UnchangedBeyond(before, now, stagingRoot, paths, Backups(paths, stamps))
  {
    var plan := PlanOf(stagingRoot, layout.files, stamps);
    forall p | !stagingRoot.Contains(p) && p !in paths && p !in Backups(paths, stamps)
      ensures Lookup(now, p) == Lookup(before, p)
    {
      assert Lookup(staged, p) == Lookup(before, p);
      if SomePlace(plan, p) {
        var i :| 0 <= i < |plan| && IsPlace(plan[i], p);
        PlaceKnown(stagingRoot, layout, paths, stamps, i, p);
      }
    }
  }

  lemma PlaceKnown(stagingRoot: Path, layout: Layout, paths: seq<Path>, stamps: seq<nat>, i: nat, p: Path)
    requires LayoutOf(layout, paths) && |stamps| == |paths| && i < |paths|
    requires IsPlace(PlanOf(stagingRoot, layout.files, stamps)[i], p)
    ensures stagingRoot.Contains(p) || p in paths || p in Backups(paths, stamps)
  {
    ItemPlaces(layout, paths, stagingRoot, stamps, i);
    StagedBelow(layout, paths, stagingRoot, i);
    assert Backups(paths, stamps)[i] == BackupPath(paths[i], stamps[i]);
  }

  lemma SafeIsCacheSafe(
      before: Entries, staged: Entries, now: Entries, stagingRoot: Path,
      layout: Layout, paths: seq<Path>, stamps: seq<nat>, layers: seq<Layer>)
    requires LayoutOf(layout, paths) && SameFiles(layers, layout.files)
    requires Prepared(before, stagingRoot, paths, stamps) && OnlyStaged(before, staged, stagingRoot)
    requires StagedAll(staged, layers, stagingRoot)
    requires Safe(staged, now, PlanOf(stagingRoot, layout.files, stamps))
    ensures CacheSafe(before, now, stagingRoot, paths, stamps, layers, layout.files)
  {
    var plan := PlanOf(stagingRoot, layout.files, stamps);
    FramedBeyond(before, staged, now, stagingRoot, layout, paths, stamps);
    if AllInstalled(staged, now, plan) {
      ReplacedIsPulled(staged, now, stagingRoot, layout, paths, stamps, layers);
    } else {
      forall i | 0 <= i < |paths| && paths[i] in before
        ensures || Lookup(now, paths[i]) == Lookup(before, paths[i])
                || Lookup(now, BackupPath(paths[i], stamps[i])) == Lookup(before, paths[i])
      {
        ItemPlaces(layout, paths, stagingRoot, stamps, i);
        assert Lookup(staged, paths[i]) == Lookup(before, paths[i]);
        assert Kept(staged, now, plan[i]);
      }
    }
  }

  lemma StagedIsCacheSafe(
      before: Entries, now: Entries, stagingRoot: Path, paths: seq<Path>, stamps: seq<nat>,
      layers: seq<Layer>, files: seq<ArtifactFile>)
    requires Undisturbed(before, stagingRoot, paths, stamps) && OnlyStaged(before, now, stagingRoot)
    ensures CacheSafe(before, now, stagingRoot, paths, stamps, layers, files)
  {
  }

  lemma LeftoverAreBackups(
      before: Entries, staged: Entries, now: Entries, stagingRoot: Path,
      layout: Layout, paths: seq<Path>, stamps: seq<nat>, leftover: seq<Path>)
    requires LayoutOf(layout, paths) && leftover != []
    requires Prepared(before, stagingRoot, paths, stamps) && OnlyStaged(before, staged, stagingRoot)
    requires Replaced(staged, now, PlanOf(stagingRoot, layout.files, stamps), leftover)
    ensures LeftoverBackups(before, now, paths, stamps, leftover)
  {
    var plan := PlanOf(stagingRoot, layout.files, stamps);
    forall p | p in leftover
      ensures exists i :: 0 <= i < |paths| && p == BackupPath(paths[i], stamps[i])
                       && paths[i] in before && Lookup(now, p) == Lookup(before, paths[i])
    {
      var i :| 0 <= i < |plan| && plan[i].backup == p;
      ItemPlaces(layout, paths, stagingRoot, stamps, i);
      assert Lookup(staged, paths[i]) == Lookup(before, paths[i]);
    }
  }

  lemma UndoneIsRestored(
      before: Entries, staged: Entries, now: Entries, stagingRoot: Path,
      layout: Layout, paths: seq<Path>, stamps: seq<nat>, index: nat, stuck: seq<Path>)
    requires LayoutOf(layout, paths)
    requires Prepared(before, stagingRoot, paths, stamps) && OnlyStaged(before, staged, stagingRoot)
    requires RolledBack(staged, now, PlanOf(stagingRoot, layout.files, stamps), index, stuck)
    ensures RestoredBut(before, now, paths, stamps, stuck)
  {
    var plan := PlanOf(stagingRoot, layout.files, stamps);
    forall p | p in stuck ensures p in paths {
      var i :| 0 <= i <= index && plan[i].final == p;
      ItemPlaces(layout, paths, stagingRoot, stamps, i);
    }
    forall i | 0 <= i < |paths| && paths[i] !in stuck
      ensures Lookup(now, paths[i]) == Lookup(before, paths[i]) && BackupPath(paths[i], stamps[i]) !in now
    {
      ItemPlaces(layout, paths, stagingRoot, stamps, i);
      assert Lookup(staged, paths[i]) == Lookup(before, paths[i]);
      assert Undone(staged, now, plan[i], stuck);
    }
  }

  /** The state a pull ends in is one of the safe ones, and stays so without the staging directory. */
  lemma EffectIsCacheSafe(
      before: Entries, now: Entries, stagingRoot: Path, paths: seq<Path>, stamps: seq<nat>,
      layout: Layout, layers: seq<Layer>, r: Result<seq<ArtifactFile>, PullError>)
    requires Undisturbed(before, stagingRoot, paths, stamps)
    requires PullEffect(before, now, stagingRoot, paths, stamps, layout, layers, r)
    ensures CacheSafe(before, now, stagingRoot, paths, stamps, layers, layout.files)
  {
    match r
    case Ok(_) =>
    case Err(InspectFailed) =>
    case Err(PromotionFailed(outcome)) =>
      if outcome.CleanupFailed? {
        forall p | p in outcome.leftover ensures p in Backups(paths, stamps) {
          var i :| 0 <= i < |paths| && p == BackupPath(paths[i], stamps[i]);
          assert Backups(paths, stamps)[i] == p;
        }
      }
    case Err(_) =>
      StagedIsCacheSafe(before, now, stagingRoot, paths, stamps, layers, layout.files);
  }

  /** Removing the staging directory afterwards disturbs none of this. */
  lemma EffectOutlivesStaging(
      before: Entries, now: Entries, next: Entries, stagingRoot: Path, paths: seq<Path>, stamps: seq<nat>,
      layout: Layout, layers: seq<Layer>, r: Result<seq<ArtifactFile>, PullError>)
    requires Prepared(before, stagingRoot, paths, stamps)
    requires PullEffect(before, now, stagingRoot, paths, stamps, layout, layers, r)
    requires OnlyStaged(now, next, stagingRoot)
    requires r.Ok? || r.error.InspectFailed? || r.error.PromotionFailed? ==> LayoutOf(layout, paths)
    ensures PullEffect(before, next, stagingRoot, paths, stamps, layout, layers, r)
  {
    forall i | 0 <= i < |paths|
      ensures Lookup(next, paths[i]) == Lookup(now, paths[i])
      ensures Lookup(next, BackupPath(paths[i], stamps[i])) == Lookup(now, BackupPath(paths[i], stamps[i]))
    {
      BackupsApart(before, stagingRoot, paths, stamps, i, i);
    }
    if LayoutOf(layout, paths) {
      forall i | 0 <= i < |layout.files|
        ensures layout.files[i].path == paths[i]
        ensures HoldsLayer(now, layers, layout.files[i]) ==> HoldsLayer(next, layers, layout.files[i])
      {
        assert FileOf(layout.root, layout.files[i], paths[i]);
        if HoldsLayer(now, layers, layout.files[i]) {
          var k :| 0 <= k < |layers| && Title(layers[k]) == layout.files[i].name
                && layers[k].mediaType == layout.files[i].mediaType
                && Lookup(now, layout.files[i].path) == Some(layers[k].blob);
          assert Lookup(next, layout.files[i].path) == Some(layers[k].blob);
        }
      }
    }
  }

  /** Reads back the size of every promoted artifact. */
  method InspectPulled(fs: FileSystem, files: seq<ArtifactFile>) returns (r: Result<seq<ArtifactFile>, PullError>)
    modifies fs`faults, fs`failures
    ensures fs.faults >= old(fs.faults) && old(fs.failures) <= fs.failures
    ensures r.Ok? ==> Measured(fs.entries, files, r.value)
    ensures r.Err? ==> r.error == InspectFailed
    ensures fs.faults == old(fs.faults) && (forall i :: 0 <= i < |files| ==> files[i].path in fs.entries) ==> r.Ok?
  {
    var pulled := files;
    for i := 0 to |files|
      invariant fs.faults >= old(fs.faults) && old(fs.failures) <= fs.failures
      invariant |pulled| == |files|
      invariant forall k :: i <= k < |files| ==> pulled[k] == files[k]
      invariant forall k :: 0 <= k < i ==>
                  files[k].path in fs.entries && pulled[k] == files[k].(size := |fs.entries[files[k].path]|)
    {
      var info := fs.Inspect(pulled[i].path);
      if info.Err? {
        return Err(InspectFailed);
      }
      pulled := pulled[i := pulled[i].(size := |info.value|)];
    }
    return Ok(pulled);
  }

  /** The promotion part, once the layers are staged. */
  method PromoteStaged(
      fs: FileSystem, layout: Layout, ghost layers: seq<Layer>, ghost before: Entries, ghost paths: seq<Path>,
      stagingRoot: Path, stamps: seq<nat>)
    returns (failure: Option<Outcome>)
    requires LayoutOf(layout, paths) && SameFiles(layers, layout.files)
    requires Prepared(before, stagingRoot, paths, stamps) && OnlyStaged(before, fs.entries, stagingRoot)
    requires StagedAll(fs.entries, layers, stagingRoot)
    modifies fs
    ensures fs.faults >= old(fs.faults) && (fs.faults == old(fs.faults) ==> failure.None?)
    ensures failure.None? ==>
              Pulled(fs.entries, layers, layout.files) && UnchangedBeyond(before, fs.entries, stagingRoot, paths, [])
    ensures failure.Some? ==> OutcomeEffect(before, fs.entries, stagingRoot, paths, stamps, layout, layers, failure.value)
    ensures old(fs.failures) <= fs.failures
    ensures failure.Some? && failure.value.CleanupFailed? ==>
              fs.failures == old(fs.failures) + Removals(failure.value.leftover) && |failure.value.leftover| <= fs.faults - old(fs.faults)
    ensures failure.Some? && failure.value.Aborted? ==> |failure.value.stuck| < fs.faults - old(fs.faults)
    ensures old(fs.history) <= fs.history
    ensures CacheSafeSince(before, fs.history, |old(fs.history)|, stagingRoot, paths, stamps, layers, layout.files)
  {
    ghost var staged := fs.entries;
    PlanReady(before, staged, stagingRoot, layout, paths, stamps);
    var plan := PlanOf(stagingRoot, layout.files, stamps);
    var outcome := PromotePulledArtifacts(fs, plan);
    forall k | |old(fs.history)| <= k < |fs.history|
      ensures CacheSafe(before, fs.history[k], stagingRoot, paths, stamps, layers, layout.files)
    {
      assert Safe(staged, fs.history[k], plan);
      SafeIsCacheSafe(before, staged, fs.history[k], stagingRoot, layout, paths, stamps, layers);
    }
    if outcome.Aborted? {
      AbortEffect(before, staged, fs.entries, stagingRoot, layout, paths, stamps, layers, outcome);
      NothingMissing(staged, stagingRoot, layout, paths, stamps, layers, outcome.index);
      return Some(outcome);
    }
    ghost var leftover := if outcome.Promoted? then [] else outcome.leftover;
    ReplacedIsPulled(staged, fs.entries, stagingRoot, layout, paths, stamps, layers);
    ReplacedElsewhereUnchanged(before, staged, fs.entries, stagingRoot, layout, paths, stamps, leftover);
    if outcome.Promoted? {
      return None;
    }
    LeftoverAreBackups(before, staged, fs.entries, stagingRoot, layout, paths, stamps, leftover);
    return Some(outcome);
  }

  ghost predicate StagedAll(now: Entries, layers: seq<Layer>, stagingRoot: Path) {
    forall k :: 0 <= k < |layers| ==> Lookup(now, StagedPath(stagingRoot, Title(layers[k]))) == Some(layers[k].blob)
  }

  lemma NothingMissing(
      staged: Entries, stagingRoot: Path, layout: Layout, paths: seq<Path>, stamps: seq<nat>, layers: seq<Layer>, i: nat)
    requires LayoutOf(layout, paths) && SameFiles(layers, layout.files) && |stamps| == |paths|
    requires StagedAll(staged, layers, stagingRoot)
    ensures !FirstMissing(staged, PlanOf(stagingRoot, layout.files, stamps), i)
  {
    if i < |paths| {
      var k := StagedLayer(layout, paths, layers, i);
      assert Lookup(staged, StagedPath(stagingRoot, Title(layers[k]))).Some?;
    }
  }

  lemma AbortEffect(
      before: Entries, staged: Entries, now: Entries, stagingRoot: Path,
      layout: Layout, paths: seq<Path>, stamps: seq<nat>, layers: seq<Layer>, outcome: Outcome)
    requires LayoutOf(layout, paths) && outcome.Aborted?
    requires Prepared(before, stagingRoot, paths, stamps) && OnlyStaged(before, staged, stagingRoot)
    requires Framed(staged, now, PlanOf(stagingRoot, layout.files, stamps))
    requires RolledBack(staged, now, PlanOf(stagingRoot, layout.files, stamps), outcome.index, outcome.stuck)
    ensures OutcomeEffect(before, now, stagingRoot, paths, stamps, layout, layers, outcome)
  {
    OriginalsKeptByUndo(before, staged, now, stagingRoot, layout, paths, stamps, outcome.index, outcome.stuck);
    FramedBeyond(before, staged, now, stagingRoot, layout, paths, stamps);
    UndoneIsRestored(before, staged, now, stagingRoot, layout, paths, stamps, outcome.index, outcome.stuck);
    if outcome.stuck == [] {
      RolledBackUnchanged(before, staged, now, stagingRoot, layout, paths, stamps, outcome.index);
    }
  }

  method StageLayers(
      fs: FileSystem, layers: seq<Layer>, ghost before: Entries, ghost paths: seq<Path>, stagingRoot: Path, ghost stamps: seq<nat>,
      ghost files: seq<ArtifactFile>)
    returns (copied: bool)
    requires Placeable(layers) && before == fs.entries
    requires Undisturbed(before, stagingRoot, paths, stamps)
    modifies fs`entries, fs`faults, fs`history, fs`failures
    ensures fs.faults >= old(fs.faults) && (fs.faults == old(fs.faults) ==> copied)
    ensures OnlyStaged(before, fs.entries, stagingRoot)
    ensures copied ==> StagedAll(fs.entries, layers, stagingRoot)
    ensures old(fs.failures) <= fs.failures && (copied ==> fs.failures == old(fs.failures))
    ensures old(fs.history) <= fs.history
    ensures CacheSafeSince(before, fs.history, |old(fs.history)|, stagingRoot, paths, stamps, layers, files)
  {
    copied := CopyArtifact(fs, layers, stagingRoot);
    forall k | |old(fs.history)| <= k < |fs.history|
      ensures CacheSafe(before, fs.history[k], stagingRoot, paths, stamps, layers, files)
    {
      StagedIsCacheSafe(before, fs.history[k], stagingRoot, paths, stamps, layers, files);
    }
  }

  lemma SafeContinued(
      before: Entries, first: seq<Entries>, second: seq<Entries>, third: seq<Entries>, stagingRoot: Path,
      paths: seq<Path>, stamps: seq<nat>, layers: seq<Layer>, files: seq<ArtifactFile>)
    requires |stamps| == |paths| && first <= second <= third
    requires CacheSafeSince(before, second, |first|, stagingRoot, paths, stamps, layers, files)
    requires CacheSafeSince(before, third, |second|, stagingRoot, paths, stamps, layers, files)
    ensures CacheSafeSince(before, third, |first|, stagingRoot, paths, stamps, layers, files)
  {
    forall k | |first| <= k < |third| ensures CacheSafe(before, third[k], stagingRoot, paths, stamps, layers, files) {
      if k < |second| {
        assert third[k] == second[k];
      }
    }
  }

  method StageAndPromote(
      fs: FileSystem, layout: Layout, layers: seq<Layer>, ghost paths: seq<Path>, stagingRoot: Path, stamps: seq<nat>)
    returns (r: Result<seq<ArtifactFile>, PullError>)
    requires LayoutOf(layout, paths) && SameFiles(layers, layout.files)
    requires Undisturbed(fs.entries, stagingRoot, paths, stamps)
    modifies fs
    ensures PullEffect(old(fs.entries), fs.entries, stagingRoot, paths, stamps, layout, layers, r)
    ensures fs.faults >= old(fs.faults) && (fs.faults == old(fs.faults) ==> r.Ok?)
    ensures Tried(old(fs.failures), fs.failures, fs.faults - old(fs.faults), r)
    ensures old(fs.history) <= fs.history
    ensures CacheSafeSince(old(fs.entries), fs.history, |old(fs.history)|, stagingRoot, paths, stamps, layers, layout.files)
  {
    ghost var before := fs.entries;
    AcceptedPlaceable(layout, paths, layers);
    AcceptedPrepared(before, stagingRoot, layout, paths, stamps, layers);
    var copied := StageLayers(fs, layers, before, paths, stagingRoot, stamps, layout.files);
    if !copied {
      return Err(CopyFailed);
    }
    ghost var staged := fs.history;
    var failure := PromoteStaged(fs, layout, layers, before, paths, stagingRoot, stamps);
    SafeContinued(before, old(fs.history), staged, fs.history, stagingRoot, paths, stamps, layers, layout.files);
    if failure.Some? {
      return Err(PromotionFailed(failure.value));
    }
    r := InspectAccepted(fs, layout, layers);
  }

  method InspectAccepted(fs: FileSystem, layout: Layout, ghost layers: seq<Layer>)
    returns (r: Result<seq<ArtifactFile>, PullError>)
    requires Pulled(fs.entries, layers, layout.files)
    modifies fs`faults, fs`failures
    ensures fs.faults >= old(fs.faults) && (fs.faults == old(fs.faults) ==> r.Ok?)
    ensures old(fs.failures) <= fs.failures
    ensures if r.Ok? then Measured(fs.entries, layout.files, r.value) else r.error == InspectFailed
  {
    forall i | 0 <= i < |layout.files| ensures layout.files[i].path in fs.entries {
      assert HoldsLayer(fs.entries, layers, layout.files[i]);
    }
    r := InspectPulled(fs, layout.files);
  }

  /** Whatever happens, the staging directory is removed in the end; whether that fails is ignored. */
  method PullAndCleanUp(
      fs: FileSystem, layout: Layout, layers: seq<Layer>, ghost paths: seq<Path>, stagingRoot: Path, stamps: seq<nat>)
    returns (r: Result<seq<ArtifactFile>, PullError>)
    requires LayoutOf(layout, paths) && SameFiles(layers, layout.files)
    requires Undisturbed(fs.entries, stagingRoot, paths, stamps)
    modifies fs
    ensures PullEffect(old(fs.entries), fs.entries, stagingRoot, paths, stamps, layout, layers, r)
    ensures fs.faults >= old(fs.faults)
    ensures fs.faults == old(fs.faults) ==> r.Ok? && forall q :: q in fs.entries ==> !stagingRoot.Contains(q)
    ensures Tried(old(fs.failures), fs.failures, fs.faults - old(fs.faults), r)
    ensures StagingGone(old(fs.failures), fs.failures, fs.entries, stagingRoot)
    ensures old(fs.history) <= fs.history
    ensures CacheSafeSince(old(fs.entries), fs.history, |old(fs.history)|, stagingRoot, paths, stamps, layers, layout.files)
  {
    ghost var before := fs.entries;
    r := StageAndPromote(fs, layout, layers, paths, stagingRoot, stamps);
    ghost var now := fs.entries;
    ghost var tried := fs.failures;
    var err := fs.RemoveAll(stagingRoot);
    if err.Some? {
      LastTried(old(fs.failures), tried, Removing(stagingRoot));
    }
    AcceptedPrepared(before, stagingRoot, layout, paths, stamps, layers);
    EffectOutlivesStaging(before, now, fs.entries, stagingRoot, paths, stamps, layout, layers, r);
    EffectIsCacheSafe(before, fs.entries, stagingRoot, paths, stamps, layout, layers, r);
  }

  /** Creates the artifact root and the staging directory first. */
  method PullInto(
      fs: FileSystem, layout: Layout, layers: seq<Layer>, ghost paths: seq<Path>, stagingRoot: Path, stamps: seq<nat>)
    returns (r: Result<seq<ArtifactFile>, PullError>)
    requires LayoutOf(layout, paths) && SameFiles(layers, layout.files)
    requires Undisturbed(fs.entries, stagingRoot, paths, stamps)
    requires forall q :: q in fs.entries ==> !stagingRoot.Contains(q)
    modifies fs
    ensures PullEffect(old(fs.entries), fs.entries, stagingRoot, paths, stamps, layout, layers, r)
    ensures fs.faults >= old(fs.faults)
    ensures fs.faults == old(fs.faults) ==> r.Ok? && forall q :: q in fs.entries ==> !stagingRoot.Contains(q)
    ensures Tried(old(fs.failures), fs.failures, fs.faults - old(fs.faults), r)
    ensures StagingGone(old(fs.failures), fs.failures, fs.entries, stagingRoot)
    ensures old(fs.history) <= fs.history
    ensures CacheSafeSince(old(fs.entries), fs.history, |old(fs.history)|, stagingRoot, paths, stamps, layers, layout.files)
  {
    var err := fs.MakeDirectories(layout.root);
    if err.Some? {
      return Err(StagingFailed);
    }
    err := fs.MakeDirectories(stagingRoot);
    if err.Some? {
      return Err(StagingFailed);
    }
    r := PullAndCleanUp(fs, layout, layers, paths, stagingRoot, stamps);
  }

  /**
   `remote` is the manifest the reference stands for, or nothing when the reference cannot be
   parsed or resolved; `stagingRoot` is the directory the operating system makes up;
   `stamps` are the clock readings used in backup names.
   */
  method Pull(
      fs: FileSystem, vm: Target, cacheDir: Option<Path>, paths: seq<Path>, remote: Option<ImageManifest>,
      confirm: Confirmation, stagingRoot: Path, stamps: seq<nat>)
    returns (r: Result<seq<ArtifactFile>, PullError>, ghost layout: Layout)
    requires cacheDir.Some? ==> cacheDir.value.Valid()
    requires forall i :: 0 <= i < |paths| ==> paths[i].Valid()
    requires Undisturbed(fs.entries, stagingRoot, paths, stamps)
    requires forall q :: q in fs.entries ==> !stagingRoot.Contains(q)
    modifies fs
    ensures PullEffect(old(fs.entries), fs.entries, stagingRoot, paths, stamps, layout,
                       if remote.Some? then remote.value.layers else [], r)
    ensures old(fs.history) <= fs.history
    ensures CacheSafeSince(old(fs.entries), fs.history, |old(fs.history)|, stagingRoot, paths, stamps,
                           if remote.Some? then remote.value.layers else [], layout.files)
    ensures r.Ok? ==> remote.Some? && Acceptable(remote.value, vm, layout.files, confirm)
    ensures !Distinct(paths) ==> r.Err? && fs.entries == old(fs.entries) && fs.history == old(fs.history)
    ensures !LayoutFails(cacheDir, paths) ==> LayoutOf(layout, paths)
    ensures fs.faults == old(fs.faults) ==> forall q :: q in fs.entries ==> !stagingRoot.Contains(q)
    ensures StagingGone(old(fs.failures), fs.failures, fs.entries, stagingRoot)
    ensures Tried(old(fs.failures), fs.failures, fs.faults - old(fs.faults), r)
    ensures fs.faults == old(fs.faults) ==>
              (r.Ok? <==> !LayoutFails(cacheDir, paths) && remote.Some? && Acceptable(remote.value, vm, layout.files, confirm))
    ensures fs.faults == old(fs.faults) && r.Err? ==>
              if LayoutFails(cacheDir, paths) then r.error.LayoutFailed?
              else if remote.None? then r.error == ReferenceFailed
              else r.error.ManifestRejected?
  {
    var resolved;
    resolved, layout := ResolveAndCheck(vm, cacheDir, paths, remote, confirm);
    if resolved.Err? {
      return Err(resolved.error), layout;
    }
    r := PullInto(fs, resolved.value, remote.value.layers, paths, stagingRoot, stamps);
  }

  /** What is decided before anything is written. */
  method ResolveAndCheck(
      vm: Target, cacheDir: Option<Path>, paths: seq<Path>, remote: Option<ImageManifest>, confirm: Confirmation)
    returns (r: Result<Layout, PullError>, ghost layout: Layout)
    requires cacheDir.Some? ==> cacheDir.value.Valid()
    requires forall i :: 0 <= i < |paths| ==> paths[i].Valid()
    ensures !LayoutFails(cacheDir, paths) ==> LayoutOf(layout, paths)
    ensures r.Ok? <==> !LayoutFails(cacheDir, paths) && remote.Some? && Acceptable(remote.value, vm, layout.files, confirm)
    ensures r.Ok? ==> r.value == layout && SameFiles(remote.value.layers, layout.files) && Distinct(paths)
    ensures r.Err? ==>
              if LayoutFails(cacheDir, paths) then r.error.LayoutFailed?
              else if remote.None? then r.error == ReferenceFailed
              else r.error.ManifestRejected?
  {
    layout := Layout(Path("", []), []);
    var resolved := ResolveArtifactLayout(cacheDir, paths);
    if resolved.Err? {
      return Err(LayoutFailed(resolved.error)), layout;
    }
    layout := resolved.value;
    if remote.None? {
      return Err(ReferenceFailed), layout;
    }
    var rejection := ValidateRemoteManifest(remote.value, vm, resolved.value.files, confirm);
    if rejection.Some? {
      return Err(ManifestRejected(rejection.value)), layout;
    }
    AcceptedDistinct(layout, paths, remote.value.layers);
    return Ok(resolved.value), layout;
  }

  /** The result determines the contents: for one manifest, two successful pulls leave the same blobs at the same paths. */
  lemma PulledContentsUnique(now: Entries, later: Entries, layers: seq<Layer>, files: seq<ArtifactFile>, i: nat)
    requires SameFiles(layers, files) && Pulled(now, layers, files) && Pulled(later, layers, files)
    requires i < |files|
    ensures Lookup(now, files[i].path) == Lookup(later, files[i].path)
  {
    assert HoldsLayer(now, layers, files[i]) && HoldsLayer(later, layers, files[i]);
    var a :| 0 <= a < |layers| && Title(layers[a]) == files[i].name && Lookup(now, files[i].path) == Some(layers[a].blob);
    var b :| 0 <= b < |layers| && Title(layers[b]) == files[i].name && Lookup(later, files[i].path) == Some(layers[b].blob);
    ChecksMeanSameFiles(layers, files);
    ChecksImplyDistinct(layers, files);
    assert Titles(layers)[a] == Titles(layers)[b];
    assert a == b;
  }
}
