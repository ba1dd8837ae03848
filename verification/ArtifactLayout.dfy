/**
 Where the artifacts of a VM live and what they are called in an image (pkg/oci/layout.go).
 Paths arrive resolved to absolute clean form; Paths.DirBeforeResolving says when the directory
 of the first one may be taken after that.
 */
module ArtifactLayout {
  import opened GoStrings
  import opened Paths
  import opened Wrappers

  datatype LayoutError =
    | NoPaths
    | NoCommonRoot
    | OutsideRoot(path: Path)

  datatype ArtifactFile = ArtifactFile(name: string, path: Path, mediaType: string, size: nat)

  datatype Layout = Layout(root: Path, files: seq<ArtifactFile>)

  const MEDIA_TYPE_ARTIFACT := "application/vnd.dev-alchemy.vm-build.artifact.v1"
  const MEDIA_TYPE_QCOW2 := "application/vnd.dev-alchemy.vm-build.qcow2.v1"
  const MEDIA_TYPE_VAGRANT_BOX := "application/vnd.dev-alchemy.vm-build.vagrant-box.v1"

  function Extension(name: string): string
    decreases |name|
  {
    ExtensionFrom(name, |name|)
  }

  function ExtensionFrom(name: string, end: nat): string
    requires end <= |name|
  {
    if end == 0 then "" else if name[end - 1] == '.' then name[end - 1..] else ExtensionFrom(name, end - 1)
  }

  function MediaTypeForPath(path: Path): string {
    var ext := if path.segs == [] then "" else ToLower(Extension(path.segs[|path.segs| - 1]));
    if ext == ".qcow2" then MEDIA_TYPE_QCOW2
    else if ext == ".box" then MEDIA_TYPE_VAGRANT_BOX
    else MEDIA_TYPE_ARTIFACT
  }

  /** s ends with the extension, in any case. */
  ghost predicate EndsWith(s: string, ext: string) {
    |ext| <= |s| && forall i :: 0 <= i < |ext| ==> LowerChar(s[|s| - |ext| + i]) == ext[i]
  }

  lemma {:induction false} ExtensionFromLast(name: string, end: nat, dot: nat)
    requires dot < end <= |name| && name[dot] == '.' && '.' !in name[dot + 1..end]
    ensures ExtensionFrom(name, end) == name[dot..]
  {
    if dot + 1 < end {
      assert name[dot + 1..end][end - 1 - (dot + 1)] == name[end - 1];
      assert name[dot + 1..end - 1] == name[dot + 1..end][..end - 1 - (dot + 1)];
      ExtensionFromLast(name, end - 1, dot);
    }
  }

  lemma {:induction false} ExtensionIsEnd(name: string, end: nat)
    requires end <= |name|
    ensures var ext := ExtensionFrom(name, end); |ext| <= |name| && name[|name| - |ext|..] == ext
  {
    if end > 0 && name[end - 1] != '.' {
      ExtensionIsEnd(name, end - 1);
    }
  }

  /** An extension that starts with its only dot is what the name ends with. */
  lemma ExtensionEnds(name: string, ext: string)
    requires ext != "" && ext[0] == '.' && '.' !in ext[1..]
    ensures ToLower(Extension(name)) == ext <==> EndsWith(name, ext)
  {
    var found := Extension(name);
    ExtensionIsEnd(name, |name|);
    if ToLower(found) == ext {
      forall i | 0 <= i < |ext| ensures LowerChar(name[|name| - |ext| + i]) == ext[i] {
        assert found[i] == name[|name| - |ext| + i] && ToLower(found)[i] == ext[i];
      }
    }
    if EndsWith(name, ext) {
      var dot := |name| - |ext|;
      assert LowerChar(name[dot + 0]) == ext[0];
      var tail := name[dot + 1..];
      forall k | 0 <= k < |tail| ensures tail[k] != '.' {
        assert LowerChar(name[dot + (k + 1)]) == ext[k + 1] && ext[k + 1] == ext[1..][k];
      }
      assert name[dot + 1..|name|] == tail;
      ExtensionFromLast(name, |name|, dot);
      assert ToLower(found) == ext;
    }
  }

  /** Disk images and Vagrant boxes have types of their own, everything else is an artifact. */
  lemma MediaTypesByName(path: Path, last: string)
    requires path.segs != [] && path.segs[|path.segs| - 1] == last
    ensures MediaTypeForPath(path) ==
            if EndsWith(last, ".qcow2") then "application/vnd.dev-alchemy.vm-build.qcow2.v1"
            else if EndsWith(last, ".box") then "application/vnd.dev-alchemy.vm-build.vagrant-box.v1"
            else "application/vnd.dev-alchemy.vm-build.artifact.v1"
  {
    ExtensionEnds(last, ".qcow2");
    ExtensionEnds(last, ".box");
  }

  function PathWithin(root: Path, path: Path): bool {
    var rel := Rel(root, path);
    rel.Some? && (rel.value == "." || !Rises(rel.value))
  }

  /** The string test of pathWithin decides containment. */
  lemma PathWithinContains(root: Path, path: Path)
    requires root.Valid() && path.Valid()
    ensures PathWithin(root, path) <==> root.Contains(path)
  {
    if root.volume == path.volume {
      RelRises(root, path);
    }
  }

  /** r is the deepest directory that contains the directory of the first path and every later path. */
  ghost predicate DeepestCommon(r: Path, paths: seq<Path>)
    requires paths != []
  {
    && CommonAncestor(r, paths)
    && forall c: Path :: CommonAncestor(c, paths) ==> c.Contains(r)
  }

  ghost predicate CommonAncestor(c: Path, paths: seq<Path>)
    requires paths != []
  {
    c.Contains(paths[0].Dir()) && forall i :: 1 <= i < |paths| ==> c.Contains(paths[i])
  }

  method CommonArtifactParent(paths: seq<Path>) returns (r: Result<Path, LayoutError>)
    requires forall i :: 0 <= i < |paths| ==> paths[i].Valid()
    ensures r == Err(NoPaths) <==> paths == []
    ensures r == Err(NoCommonRoot) <==> exists i :: 0 < i < |paths| && paths[i].volume != paths[0].volume
    ensures r.Ok? ==> paths != [] && r.value.Valid() && DeepestCommon(r.value, paths)
    ensures r.Err? ==> !r.error.OutsideRoot?
  {
    if paths == [] {
      return Err(NoPaths);
    }
    var root := paths[0].Dir();
    for k := 1 to |paths|
      invariant root.Valid() && root.volume == paths[0].volume
      invariant forall i :: 0 <= i < k ==> paths[i].volume == paths[0].volume
      invariant DeepestCommon(root, paths[..k])
    {
      var wider := Widen(root, paths[k]);
      if wider.None? {
        return Err(NoCommonRoot);
      }
      DeepestExtends(root, wider.value, paths[..k], paths[k]);
      assert paths[..k + 1] == paths[..k] + [paths[k]];
      root := wider.value;
    }
    assert paths[..|paths|] == paths;
    return Ok(root);
  }

  /** Goes up from start until path is within reach; between volumes there is no such directory. */
  method Widen(start: Path, path: Path) returns (r: Option<Path>)
    requires start.Valid() && path.Valid()
    ensures r.None? <==> start.volume != path.volume
    ensures r.Some? ==> r.value.Valid() && r.value.Contains(start) && r.value.Contains(path)
    ensures r.Some? ==> forall c: Path :: c.Contains(start) && c.Contains(path) ==> c.Contains(r.value)
  {
    var root := start;
    PathWithinContains(root, path);
    while !PathWithin(root, path)
      invariant root.Valid() && root.Contains(start)
      invariant PathWithin(root, path) <==> root.Contains(path)
      invariant forall c: Path :: c.Contains(start) && c.Contains(path) ==> c.Contains(root)
      decreases |root.segs|
    {
      var next := root.Dir();
      if next == root {
        return None;
      }
      NothingBetween(root, next, start, path);
      root := next;
      PathWithinContains(root, path);
    }
    return Some(root);
  }

  lemma NothingBetween(root: Path, next: Path, start: Path, path: Path)
    requires next == root.Dir() && next != root && root.Contains(start) && !root.Contains(path)
    ensures next.Contains(start)
    ensures forall c: Path :: c.Contains(start) && c.Contains(path) && c.Contains(root) ==> c.Contains(next)
  {
    forall c: Path | c.Contains(start) && c.Contains(path) && c.Contains(root)
      ensures c.Contains(next)
    {
      assert |c.segs| == |root.segs| ==> c == root;
    }
  }

  lemma DeepestExtends(root: Path, wider: Path, paths: seq<Path>, path: Path)
    requires paths != [] && DeepestCommon(root, paths)
    requires wider.Contains(root) && wider.Contains(path)
    requires forall c: Path :: c.Contains(root) && c.Contains(path) ==> c.Contains(wider)
    ensures DeepestCommon(wider, paths + [path])
  {
    var all := paths + [path];
    assert CommonAncestor(wider, all) by {
      forall i | 1 <= i < |all| ensures wider.Contains(all[i]) {
        if i < |paths| { assert root.Contains(paths[i]); }
      }
    }
    forall c: Path | CommonAncestor(c, all)
      ensures c.Contains(wider)
    {
      assert c.Contains(all[|paths|]);
      forall i | 1 <= i < |paths| ensures c.Contains(paths[i]) {
        assert c.Contains(all[i]);
      }
      assert CommonAncestor(c, paths);
    }
  }

  ghost predicate InCache(cacheDir: Option<Path>, paths: seq<Path>) {
    cacheDir.Some? && forall p :: p in paths ==> cacheDir.value.Contains(p)
  }

  function ArtifactRootCandidate(cacheDir: Option<Path>, paths: seq<Path>): Option<Path> {
    if cacheDir.Some? && forall p :: p in paths ==> PathWithin(cacheDir.value, p) then cacheDir else None
  }

  method ArtifactRoot(cacheDir: Option<Path>, paths: seq<Path>) returns (r: Result<Path, LayoutError>)
    requires cacheDir.Some? ==> cacheDir.value.Valid()
    requires forall i :: 0 <= i < |paths| ==> paths[i].Valid()
    ensures cacheDir.Some? && (forall p :: p in paths ==> cacheDir.value.Contains(p)) ==> r == Ok(cacheDir.value)
    ensures cacheDir.None? || (exists p :: p in paths && !cacheDir.value.Contains(p)) ==>
              (r.Ok? ==> paths != [] && DeepestCommon(r.value, paths))
    ensures r.Ok? ==> r.value.Valid()
    ensures r.Ok? ==> forall p :: p in paths ==> r.value.Contains(p)
    ensures r.Err? ==> r.error == if paths == [] then NoPaths else NoCommonRoot
    ensures r == Err(NoCommonRoot) <==> !InCache(cacheDir, paths) && exists i :: 0 < i < |paths| && paths[i].volume != paths[0].volume
    ensures r == Err(NoPaths) <==> !InCache(cacheDir, paths) && paths == []
  {
    var candidate := ArtifactRootCandidate(cacheDir, paths);
    forall p | cacheDir.Some? && p in paths ensures PathWithin(cacheDir.value, p) <==> cacheDir.value.Contains(p) {
      PathWithinContains(cacheDir.value, p);
    }
    if candidate.Some? {
      return Ok(candidate.value);
    }
    r := CommonArtifactParent(paths);
    if r.Ok? {
      forall p | p in paths ensures r.value.Contains(p) {
        var i :| 0 <= i < |paths| && paths[i] == p;
        assert i == 0 ==> p.Dir().Contains(p);
      }
    }
  }

  function RelativeArtifactName(root: Path, path: Path): Result<string, LayoutError> {
    var rel := Rel(root, path);
    if rel.None? || rel.value == "." || rel.value == "" || Rises(rel.value) then Err(OutsideRoot(path))
    else Ok(rel.value)
  }

  /**
   A path has a name exactly when it lies strictly below the root.  The name is not empty,
   never rises, and names the path when followed from the root.
   */
  lemma RelativeNameFollows(root: Path, path: Path)
    requires root.Valid() && path.Valid()
    ensures RelativeArtifactName(root, path).Ok? <==> root.Contains(path) && root != path
    ensures RelativeArtifactName(root, path).Ok? ==>
              var name := RelativeArtifactName(root, path).value;
              && name != "" && !Rises(name) && !Rooted(name)
              && AllPlain(Split(name))
              && root.Child(Split(name)) == path
  {
    if root.volume == path.volume {
      RelRises(root, path);
      if root.Contains(path) && root != path {
        var below := StepsBelow(root, path);
        NameOfPlain(below);
      }
    }
  }

  lemma StepsBelow(root: Path, path: Path) returns (below: seq<string>)
    requires path.Valid() && root.Contains(path) && root != path
    ensures below == path.segs[|root.segs|..] && below != [] && AllPlain(below)
    ensures root.segs + below == path.segs && root.Child(below) == path
    ensures path.segs != root.segs
  {
    below := path.segs[|root.segs|..];
    forall i | 0 <= i < |below| ensures Plain(below[i]) {
      assert below[i] == path.segs[|root.segs| + i];
    }
    assert path.segs == root.segs + below;
  }

  lemma NameOfPlain(below: seq<string>)
    requires below != [] && AllPlain(below)
    ensures var name := Join(below); name != "" && name != "." && !Rooted(name) && !Rises(name) && Split(name) == below
  {
    JoinSplits(below);
    JoinStart(below);
    JoinNotDot(below);
    JoinRises(below);
  }

  lemma JoinNotDot(below: seq<string>)
    requires below != [] && AllPlain(below)
    ensures Join(below) != "."
  {
    JoinSplits(below);
    SplitSlashless(".");
    assert Plain(below[0]);
  }

  /** A file's name leads from the root to its path. */
  ghost predicate FileOf(root: Path, file: ArtifactFile, path: Path) {
    && file.path == path
    && file.mediaType == MediaTypeForPath(path)
    && file.name != "" && !Rises(file.name) && !Rooted(file.name)
    && AllPlain(Split(file.name)) && root.Child(Split(file.name)) == path
  }

  ghost predicate LayoutOf(layout: Layout, paths: seq<Path>) {
    && layout.root.Valid()
    && |layout.files| == |paths|
    && (forall i :: 0 <= i < |paths| ==> FileOf(layout.root, layout.files[i], paths[i]))
  }

  /** A path would itself be the root: the cache directory, or a path that contains all the others and the first one's directory. */
  ghost predicate PathIsRoot(cacheDir: Option<Path>, paths: seq<Path>)
    requires paths != []
  {
    if InCache(cacheDir, paths) then cacheDir.value in paths else exists p :: p in paths && CommonAncestor(p, paths)
  }

  ghost predicate LayoutFails(cacheDir: Option<Path>, paths: seq<Path>) {
    || paths == []
    || (exists i :: 0 < i < |paths| && paths[i].volume != paths[0].volume)
    || PathIsRoot(cacheDir, paths)
  }

  lemma RootAmongPaths(root: Path, paths: seq<Path>)
    requires paths != [] && DeepestCommon(root, paths) && forall p :: p in paths ==> root.Contains(p)
    ensures root in paths <==> exists p :: p in paths && CommonAncestor(p, paths)
  {
    if p :| p in paths && CommonAncestor(p, paths) {
      assert p.Contains(root) && root.Contains(p);
      SamePath(p, root);
    }
  }

  lemma SamePath(p: Path, q: Path)
    requires p.Contains(q) && q.Contains(p)
    ensures p == q
  {
    assert |p.segs| == |q.segs|;
  }

  lemma AncestorSharesVolume(p: Path, paths: seq<Path>)
    requires paths != [] && CommonAncestor(p, paths)
    ensures forall i :: 0 < i < |paths| ==> paths[i].volume == paths[0].volume
  {
  }

  /** Containing a path means sharing its volume. */
  lemma CacheSharesVolume(cacheDir: Option<Path>, paths: seq<Path>)
    requires InCache(cacheDir, paths) && paths != []
    ensures forall i :: 0 < i < |paths| ==> paths[i].volume == paths[0].volume
  {
    forall i | 0 <= i < |paths| ensures paths[i].volume == cacheDir.value.volume {
      assert paths[i] in paths;
    }
  }

  /** The layout lists every expected path in order; it fails exactly without paths, across volumes, or when a path is itself the root. */
  method ResolveArtifactLayout(cacheDir: Option<Path>, paths: seq<Path>) returns (r: Result<Layout, LayoutError>)
    requires cacheDir.Some? ==> cacheDir.value.Valid()
    requires forall i :: 0 <= i < |paths| ==> paths[i].Valid()
    ensures r.Ok? ==> LayoutOf(r.value, paths)
    ensures r == Err(NoPaths) <==> paths == []
    ensures r == Err(NoCommonRoot) <==> exists i :: 0 < i < |paths| && paths[i].volume != paths[0].volume
    ensures r.Err? && r.error.OutsideRoot? <==> paths != [] && PathIsRoot(cacheDir, paths)
    ensures r.Err? && r.error.OutsideRoot? ==>
              r.error.path in paths && forall p :: p in paths ==> r.error.path.Contains(p)
    ensures paths != [] && cacheDir.Some? && (forall p :: p in paths ==> cacheDir.value.Contains(p)) && cacheDir.value !in paths ==>
              r.Ok? && r.value.root == cacheDir.value
  {
    if paths == [] {
      return Err(NoPaths);
    }
    if InCache(cacheDir, paths) {
      CacheSharesVolume(cacheDir, paths);
    } else if p :| p in paths && CommonAncestor(p, paths) {
      AncestorSharesVolume(p, paths);
    }
    var found := ArtifactRoot(cacheDir, paths);
    if found.Err? {
      return Err(found.error);
    }
    var root := found.value;
    if !InCache(cacheDir, paths) {
      RootAmongPaths(root, paths);
    }
    var named := NameFiles(root, paths);
    if named.Err? {
      return Err(named.error);
    }
    return Ok(Layout(root, named.value));
  }

  method NameFiles(root: Path, paths: seq<Path>) returns (r: Result<seq<ArtifactFile>, LayoutError>)
    requires root.Valid()
    requires forall i :: 0 <= i < |paths| ==> paths[i].Valid() && root.Contains(paths[i])
    ensures r.Ok? ==> |r.value| == |paths| && forall i :: 0 <= i < |paths| ==> FileOf(root, r.value[i], paths[i])
    ensures r.Err? ==> r.error == OutsideRoot(root) && root in paths
    ensures root !in paths ==> r.Ok?
  {
    var files: seq<ArtifactFile> := [];
    for k := 0 to |paths|
      invariant |files| == k
      invariant forall i :: 0 <= i < k ==> FileOf(root, files[i], paths[i])
    {
      RelativeNameFollows(root, paths[k]);
      var name := RelativeArtifactName(root, paths[k]);
      if name.Err? {
        assert root == paths[k];
        return Err(name.error);
      }
      files := files + [ArtifactFile(name.value, paths[k], MediaTypeForPath(paths[k]), 0)];
    }
    return Ok(files);
  }

  /** Two files of a layout share their name exactly when they share their path. */
  lemma NamesIdentifyPaths(layout: Layout, paths: seq<Path>, i: nat, j: nat)
    requires LayoutOf(layout, paths) && i < |paths| && j < |paths|
    ensures layout.files[i].name == layout.files[j].name <==> paths[i] == paths[j]
  {
    assert FileOf(layout.root, layout.files[i], paths[i]) && FileOf(layout.root, layout.files[j], paths[j]);
    var a, b := layout.files[i].name, layout.files[j].name;
    SplitJoins(a);
    SplitJoins(b);
    if paths[i] == paths[j] {
      assert layout.root.segs + Split(a) == layout.root.segs + Split(b);
      assert Split(a) == paths[i].segs[|layout.root.segs|..] == Split(b);
    }
  }
}
