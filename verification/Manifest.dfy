/** Which image manifests may be pulled for a VM (pkg/oci/manifest.go). */
module Manifest {
  import opened ArtifactLayout
  import opened GoStrings
  import opened Sequences
  import opened Wrappers

  const ARTIFACT_TYPE := "application/vnd.dev-alchemy.vm-build.v1"

  const ANNOTATION_TITLE := "org.opencontainers.image.title"
  const ANNOTATION_VM_OS := "dev.alchemy.vm.os"
  const ANNOTATION_VM_TYPE := "dev.alchemy.vm.type"
  const ANNOTATION_VM_ARCH := "dev.alchemy.vm.arch"
  const ANNOTATION_VM_HOST_OS := "dev.alchemy.vm.host_os"
  const ANNOTATION_VM_ENGINE := "dev.alchemy.vm.virtualization_engine"

  const HOST_OS_LINUX := "debian"
  const HOST_OS_DARWIN := "darwin"
  const HOST_OS_WINDOWS := "windows"

  datatype Layer = Layer(annotations: map<string, string>, mediaType: string, blob: string)

  datatype ImageManifest = ImageManifest(
    artifactType: string, annotations: Option<map<string, string>>, layers: seq<Layer>)

  datatype Target = Target(os: string, ubuntuType: string, arch: string, hostOs: string, engine: string)

  datatype ManifestError =
    | MissingTitle
    | DuplicateLayer(name: string)
    | UnexpectedLayer(name: string)
    | WrongMediaType(name: string)
    | LayerCount
    | MissingLayer(name: string)
    | WrongArtifactType
    | TargetMismatch
    | ConfirmationFailed
    | Cancelled

  /** A missing key of a Go map reads as the empty string. */
  function Annotation(annotations: map<string, string>, key: string): string {
    if key in annotations then annotations[key] else ""
  }

  function Title(layer: Layer): string { Annotation(layer.annotations, ANNOTATION_TITLE) }

  // ----- Layers

  function Titles(layers: seq<Layer>): (names: seq<string>)
    ensures |names| == |layers| && forall i :: 0 <= i < |layers| ==> names[i] == Title(layers[i])
  {
    seq(|layers|, i requires 0 <= i < |layers| => Title(layers[i]))
  }

  function Names(files: seq<ArtifactFile>): (names: seq<string>)
    ensures |names| == |files| && forall i :: 0 <= i < |files| ==> names[i] == files[i].name
  {
    seq(|files|, i requires 0 <= i < |files| => files[i].name)
  }

  function LayerKinds(layers: seq<Layer>): (kinds: seq<(string, string)>)
    ensures |kinds| == |layers| && forall i :: 0 <= i < |layers| ==> kinds[i] == (Title(layers[i]), layers[i].mediaType)
  {
    seq(|layers|, i requires 0 <= i < |layers| => (Title(layers[i]), layers[i].mediaType))
  }

  function FileKinds(files: seq<ArtifactFile>): (kinds: seq<(string, string)>)
    ensures |kinds| == |files| && forall i :: 0 <= i < |files| ==> kinds[i] == (files[i].name, files[i].mediaType)
  {
    seq(|files|, i requires 0 <= i < |files| => (files[i].name, files[i].mediaType))
  }

  /** The layers are the expected files in some order: same titles and media types, each once. */
  ghost predicate SameFiles(layers: seq<Layer>, expected: seq<ArtifactFile>) {
    && Distinct(Names(expected))
    && "" !in Titles(layers)
    && multiset(LayerKinds(layers)) == multiset(FileKinds(expected))
  }

  /** The checks as the code makes them: against the last expected file of a name, then by counting. */
  ghost predicate PassesChecks(layers: seq<Layer>, expected: seq<ArtifactFile>) {
    && (forall k :: 0 <= k < |layers| ==> LayerPasses(layers, expected, k))
    && |layers| == |expected|
    && (forall name :: name in Names(expected) ==> name in Titles(layers))
  }

  ghost predicate LayerPasses(layers: seq<Layer>, expected: seq<ArtifactFile>, k: nat)
    requires k < |layers|
  {
    && Title(layers[k]) != ""
    && Title(layers[k]) !in Titles(layers[..k])
    && Title(layers[k]) in ByName(expected)
    && layers[k].mediaType == ByName(expected)[Title(layers[k])].mediaType
  }

  function ByName(files: seq<ArtifactFile>): map<string, ArtifactFile> {
    if files == [] then map[]
    else
      var last := files[|files| - 1];
      ByName(files[..|files| - 1])[last.name := last]
  }

  lemma {:induction false} ByNameFinds(files: seq<ArtifactFile>)
    ensures forall name :: name in ByName(files) <==> name in Names(files)
    ensures forall name :: name in ByName(files) ==> ByName(files)[name].name == name && ByName(files)[name] in files
  {
    if files != [] {
      var n := |files| - 1;
      ByNameFinds(files[..n]);
      assert files == files[..n] + [files[n]];
      assert Names(files) == Names(files[..n]) + [files[n].name];
    }
  }

  method IndexByName(expected: seq<ArtifactFile>) returns (expectedByName: map<string, ArtifactFile>)
    ensures expectedByName == ByName(expected)
  {
    expectedByName := map[];
    for k := 0 to |expected|
      invariant expectedByName == ByName(expected[..k])
    {
      assert expected[..k + 1][..k] == expected[..k];
      expectedByName := expectedByName[expected[k].name := expected[k]];
    }
    assert expected[..|expected|] == expected;
  }

  /** What an error says about the layers is true of them. */
  ghost predicate LayersShow(layers: seq<Layer>, expected: seq<ArtifactFile>, err: ManifestError) {
    match err
    case MissingTitle => "" in Titles(layers)
    case DuplicateLayer(name) => multiset(Titles(layers))[name] >= 2
    case UnexpectedLayer(name) => name in Titles(layers) && name !in Names(expected)
    case WrongMediaType(name) =>
      name in ByName(expected)
      && exists k :: 0 <= k < |layers| && Title(layers[k]) == name && layers[k].mediaType != ByName(expected)[name].mediaType
    case LayerCount => |layers| != |expected|
    case MissingLayer(name) => name in Names(expected) && name !in Titles(layers)
    case _ => false
  }

  lemma TitleAgain(layers: seq<Layer>, k: nat)
    requires k < |layers| && Title(layers[k]) in Titles(layers[..k])
    ensures multiset(Titles(layers))[Title(layers[k])] >= 2
  {
    var i :| 0 <= i < k && Titles(layers[..k])[i] == Title(layers[k]);
    assert Titles(layers)[i] == Titles(layers)[k];
    TwiceCounted(Titles(layers), i, k);
  }

  method CheckLayers(layers: seq<Layer>, expected: seq<ArtifactFile>) returns (err: Option<ManifestError>, seen: set<string>)
    ensures err.None? <==> forall k :: 0 <= k < |layers| ==> LayerPasses(layers, expected, k)
    ensures err.None? ==> forall name :: name in seen <==> name in Titles(layers)
    ensures err.Some? ==> LayersShow(layers, expected, err.value)
  {
    var expectedByName := IndexByName(expected);
    seen := {};
    for k := 0 to |layers|
      invariant forall name :: name in seen <==> name in Titles(layers[..k])
      invariant forall i :: 0 <= i < k ==> LayerPasses(layers, expected, i)
    {
      var name := Title(layers[k]);
      assert Titles(layers)[k] == name;
      if name in Titles(layers[..k]) {
        TitleAgain(layers, k);
      }
      ByNameFinds(expected);
      assert LayerPasses(layers, expected, k) <==>
        (name != "" && name !in seen && name in expectedByName && layers[k].mediaType == expectedByName[name].mediaType);
      if name == "" {
        return Some(MissingTitle), seen;
      }
      if name in seen {
        return Some(DuplicateLayer(name)), seen;
      }
      if name !in expectedByName {
        return Some(UnexpectedLayer(name)), seen;
      }
      if layers[k].mediaType != expectedByName[name].mediaType {
        return Some(WrongMediaType(name)), seen;
      }
      seen := seen + {name};
      assert Titles(layers[..k + 1]) == Titles(layers[..k]) + [name];
    }
    assert layers[..|layers|] == layers;
    return None, seen;
  }

  /** Accepts exactly when the layers are the expected files in some order. */
  method ValidateManifestLayers(layers: seq<Layer>, expected: seq<ArtifactFile>) returns (err: Option<ManifestError>)
    ensures err.None? <==> SameFiles(layers, expected)
    ensures err.Some? ==> LayersShow(layers, expected, err.value)
  {
    ChecksMeanSameFiles(layers, expected);
    var bad, seen := CheckLayers(layers, expected);
    if bad.Some? {
      return bad;
    }
    if |layers| != |expected| {
      return Some(LayerCount);
    }
    for k := 0 to |expected|
      invariant forall i :: 0 <= i < k ==> Names(expected)[i] in Titles(layers)
    {
      assert Names(expected)[k] == expected[k].name;
      if expected[k].name !in seen {
        return Some(MissingLayer(expected[k].name));
      }
    }
    return None;
  }

  // ----- The checks decide whether the layers are the expected files

  function Elements<T>(s: seq<T>): set<T> { set x | x in s }

  lemma {:induction false} ElementsBound<T>(s: seq<T>)
    ensures |Elements(s)| <= |s|
    ensures |Elements(s)| == |s| <==> Distinct(s)
  {
    if s == [] {
      assert Elements(s) == {};
    } else {
      var n := |s| - 1;
      var front, last := s[..n], s[n];
      ElementsBound(front);
      assert s == front + [last];
      if last in front {
        assert Elements(s) == Elements(front);
        var i :| 0 <= i < n && front[i] == last;
        assert s[i] == s[n];
      } else {
        assert Elements(s) == Elements(front) + {last};
        assert Distinct(front) ==> Distinct(s);
        assert Distinct(s) ==> Distinct(front) by {
          forall i, j | Distinct(s) && 0 <= i < j < n ensures front[i] != front[j] {
            assert s[i] != s[j];
          }
        }
      }
    }
  }

  lemma {:induction false} DistinctOnce<T>(s: seq<T>, x: T)
    requires Distinct(s)
    ensures multiset(s)[x] == if x in s then 1 else 0
  {
    if s != [] {
      var n := |s| - 1;
      assert s == s[..n] + [s[n]];
      assert Distinct(s[..n]) by {
        forall i, j | 0 <= i < j < n ensures s[..n][i] != s[..n][j] { assert s[i] != s[j]; }
      }
      DistinctOnce(s[..n], x);
      assert s[n] !in s[..n];
    }
  }

  lemma {:induction false} TwiceCounted<T>(s: seq<T>, i: nat, j: nat)
    requires i < j < |s| && s[i] == s[j]
    ensures multiset(s)[s[i]] >= 2
  {
    assert s == s[..j] + s[j..];
    assert s[i] in s[..j] && s[j] in s[j..];
  }

  lemma ChecksMeanSameFiles(layers: seq<Layer>, expected: seq<ArtifactFile>)
    ensures PassesChecks(layers, expected) <==> SameFiles(layers, expected)
  {
    if PassesChecks(layers, expected) {
      ChecksImplySameFiles(layers, expected);
    }
    if SameFiles(layers, expected) {
      SameFilesPass(layers, expected);
    }
  }

  /** By counting: distinct titles, all among the names and as many as the files, leave no room for a repeated name. */
  lemma ChecksImplyDistinct(layers: seq<Layer>, expected: seq<ArtifactFile>)
    requires PassesChecks(layers, expected)
    ensures Distinct(Titles(layers)) && Distinct(Names(expected))
    ensures Elements(Titles(layers)) == Elements(Names(expected))
  {
    var titles, names := Titles(layers), Names(expected);
    ByNameFinds(expected);
    forall i, j | 0 <= i < j < |titles|
      ensures titles[i] != titles[j]
    {
      assert LayerPasses(layers, expected, j);
      assert titles[i] == Titles(layers[..j])[i];
    }
    forall t | t in titles ensures t in names {
      var k :| 0 <= k < |titles| && titles[k] == t;
      assert LayerPasses(layers, expected, k);
    }
    ElementsBound(titles);
    ElementsBound(names);
    assert Elements(titles) == Elements(names);
  }

  lemma ChecksImplySameFiles(layers: seq<Layer>, expected: seq<ArtifactFile>)
    requires PassesChecks(layers, expected)
    ensures SameFiles(layers, expected)
  {
    var a, b := LayerKinds(layers), FileKinds(expected);
    ChecksImplyDistinct(layers, expected);
    KindsDistinct(a, Titles(layers));
    KindsDistinct(b, Names(expected));
    forall k | 0 <= k < |layers|
      ensures a[k] in b && Titles(layers)[k] != ""
    {
      var i := FileOfLayer(layers, expected, k);
      assert b[i] == a[k];
    }
    forall i | 0 <= i < |expected|
      ensures b[i] in a
    {
      var k := LayerOfFile(layers, expected, i);
      assert a[k] == b[i];
    }
    DistinctSameCounts(a, b);
  }

  lemma FileOfLayer(layers: seq<Layer>, expected: seq<ArtifactFile>, k: nat) returns (i: nat)
    requires PassesChecks(layers, expected) && k < |layers|
    ensures i < |expected| && FileKinds(expected)[i] == LayerKinds(layers)[k] && Title(layers[k]) != ""
  {
    ByNameFinds(expected);
    assert LayerPasses(layers, expected, k);
    var file := ByName(expected)[Title(layers[k])];
    i :| 0 <= i < |expected| && expected[i] == file;
  }

  lemma LayerOfFile(layers: seq<Layer>, expected: seq<ArtifactFile>, i: nat) returns (k: nat)
    requires PassesChecks(layers, expected) && Distinct(Names(expected)) && i < |expected|
    ensures k < |layers| && LayerKinds(layers)[k] == FileKinds(expected)[i]
  {
    assert Names(expected)[i] in Titles(layers);
    k :| 0 <= k < |layers| && Titles(layers)[k] == expected[i].name;
    var j := FileOfLayer(layers, expected, k);
    assert Names(expected)[j] == Names(expected)[i];
  }

  lemma DistinctSameCounts<T>(a: seq<T>, b: seq<T>)
    requires Distinct(a) && Distinct(b)
    requires forall x :: x in a <==> x in b
    ensures multiset(a) == multiset(b)
  {
    forall x ensures multiset(a)[x] == multiset(b)[x] {
      DistinctOnce(a, x);
      DistinctOnce(b, x);
    }
  }

  lemma KindsDistinct(kinds: seq<(string, string)>, names: seq<string>)
    requires |kinds| == |names| && forall i :: 0 <= i < |kinds| ==> kinds[i].0 == names[i]
    requires Distinct(names)
    ensures Distinct(kinds)
  {
    forall i, j | 0 <= i < j < |kinds| ensures kinds[i] != kinds[j] {
      assert names[i] != names[j];
    }
  }

  lemma SameFilesPass(layers: seq<Layer>, expected: seq<ArtifactFile>)
    requires SameFiles(layers, expected)
    ensures PassesChecks(layers, expected)
  {
    var a, b := LayerKinds(layers), FileKinds(expected);
    assert |multiset(a)| == |multiset(b)|;
    forall k | 0 <= k < |layers|
      ensures LayerPasses(layers, expected, k)
    {
      TitleMatches(layers, expected, k);
      TitleNew(layers, expected, k);
    }
    forall name | name in Names(expected)
      ensures name in Titles(layers)
    {
      var i :| 0 <= i < |expected| && Names(expected)[i] == name;
      assert b[i] in multiset(b);
      assert b[i] in a;
      var k :| 0 <= k < |a| && a[k] == b[i];
      assert Titles(layers)[k] == name;
    }
  }

  lemma TitleMatches(layers: seq<Layer>, expected: seq<ArtifactFile>, k: nat)
    requires SameFiles(layers, expected) && k < |layers|
    ensures Title(layers[k]) != "" && Title(layers[k]) in ByName(expected)
    ensures layers[k].mediaType == ByName(expected)[Title(layers[k])].mediaType
  {
    ByNameFinds(expected);
    var i := Counterpart(layers, expected, k);
    assert Titles(layers)[k] != "";
    assert expected[i].name == Names(expected)[i];
    var file := ByName(expected)[expected[i].name];
    var j :| 0 <= j < |expected| && expected[j] == file;
    assert Names(expected)[j] == Names(expected)[i];
  }

  lemma TitleNew(layers: seq<Layer>, expected: seq<ArtifactFile>, k: nat)
    requires SameFiles(layers, expected) && k < |layers|
    ensures Title(layers[k]) !in Titles(layers[..k])
  {
    if Title(layers[k]) in Titles(layers[..k]) {
      var a, b := LayerKinds(layers), FileKinds(expected);
      var m :| 0 <= m < k && Titles(layers[..k])[m] == Title(layers[k]);
      var i := Counterpart(layers, expected, k);
      var n := Counterpart(layers, expected, m);
      assert Names(expected)[n] == Names(expected)[i];
      KindsDistinct(b, Names(expected));
      TwiceCounted(a, m, k);
      DistinctOnce(b, a[k]);
      assert false;
    }
  }

  lemma Counterpart(layers: seq<Layer>, expected: seq<ArtifactFile>, k: nat) returns (i: nat)
    requires k < |layers| && multiset(LayerKinds(layers)) == multiset(FileKinds(expected))
    ensures i < |expected| && FileKinds(expected)[i] == LayerKinds(layers)[k]
  {
    assert LayerKinds(layers)[k] in multiset(LayerKinds(layers));
    assert LayerKinds(layers)[k] in FileKinds(expected);
    i :| 0 <= i < |expected| && FileKinds(expected)[i] == LayerKinds(layers)[k];
  }

  // ----- Target annotations

  function TargetChecks(vm: Target): seq<(string, string)> {
    [(ANNOTATION_VM_OS, vm.os), (ANNOTATION_VM_TYPE, vm.ubuntuType), (ANNOTATION_VM_ARCH, vm.arch),
     (ANNOTATION_VM_HOST_OS, vm.hostOs), (ANNOTATION_VM_ENGINE, vm.engine)]
  }

  ghost predicate SameGuest(annotations: map<string, string>, vm: Target) {
    && Annotation(annotations, ANNOTATION_VM_OS) == vm.os
    && Annotation(annotations, ANNOTATION_VM_TYPE) == vm.ubuntuType
    && Annotation(annotations, ANNOTATION_VM_ARCH) == vm.arch
  }

  ghost predicate SameTarget(annotations: map<string, string>, vm: Target) {
    && SameGuest(annotations, vm)
    && Annotation(annotations, ANNOTATION_VM_HOST_OS) == vm.hostOs
    && Annotation(annotations, ANNOTATION_VM_ENGINE) == vm.engine
  }

  method ValidateManifestTarget(manifest: ImageManifest, vm: Target) returns (ok: bool)
    ensures ok <==> manifest.annotations.Some? && SameTarget(manifest.annotations.value, vm)
  {
    if manifest.annotations.None? {
      return false;
    }
    var checks := TargetChecks(vm);
    for k := 0 to |checks|
      invariant forall i :: 0 <= i < k ==> Annotation(manifest.annotations.value, checks[i].0) == checks[i].1
    {
      if Annotation(manifest.annotations.value, checks[k].0) != checks[k].1 {
        return false;
      }
    }
    assert checks[0] == (ANNOTATION_VM_OS, vm.os) && checks[1] == (ANNOTATION_VM_TYPE, vm.ubuntuType)
        && checks[2] == (ANNOTATION_VM_ARCH, vm.arch) && checks[3] == (ANNOTATION_VM_HOST_OS, vm.hostOs)
        && checks[4] == (ANNOTATION_VM_ENGINE, vm.engine);
    return true;
  }

  predicate IsForeignArtifactGuestOS(os: string) {
    ToLower(os) == "ubuntu" || "windows" <= ToLower(os)
  }

  function NormalizeArtifactHostOS(value: string): Option<string> {
    var lower := ToLower(value);
    if lower == "linux" || lower == HOST_OS_LINUX then Some(HOST_OS_LINUX)
    else if lower == "macos" || lower == HOST_OS_DARWIN then Some(HOST_OS_DARWIN)
    else if lower == HOST_OS_WINDOWS then Some(HOST_OS_WINDOWS)
    else None
  }

  predicate IsDarwinLinuxHostPair(source: string, target: string) {
    (source == HOST_OS_DARWIN && target == HOST_OS_LINUX) || (source == HOST_OS_LINUX && target == HOST_OS_DARWIN)
  }

  /** The same guest, built on the other of the two supported hosts with a named engine. */
  ghost predicate BuiltOnOtherHost(annotations: map<string, string>, vm: Target) {
    && IsForeignArtifactGuestOS(vm.os)
    && SameGuest(annotations, vm)
    && Annotation(annotations, ANNOTATION_VM_ENGINE) != ""
    && vm.hostOs in {HOST_OS_LINUX, HOST_OS_DARWIN}
    && NormalizeArtifactHostOS(Annotation(annotations, ANNOTATION_VM_HOST_OS))
         == Some(if vm.hostOs == HOST_OS_LINUX then HOST_OS_DARWIN else HOST_OS_LINUX)
  }

  /** a spells b, a word in lower case, in any case. */
  ghost predicate Spells(a: string, b: string) {
    |a| == |b| && forall i :: 0 <= i < |a| ==> LowerChar(a[i]) == b[i]
  }

  lemma SpellsLower(a: string, b: string)
    ensures Spells(a, b) <==> ToLower(a) == b
  {
    if ToLower(a) == b {
      forall i | 0 <= i < |a| ensures LowerChar(a[i]) == b[i] { assert ToLower(a)[i] == b[i]; }
    }
  }

  /** Ubuntu and every Windows may come from another host. */
  lemma ForeignGuests(os: string)
    ensures IsForeignArtifactGuestOS(os) <==> Spells(os, "ubuntu") || (|os| >= 7 && Spells(os[..7], "windows"))
  {
    SpellsLower(os, "ubuntu");
    if |os| >= 7 {
      SpellsLower(os[..7], "windows");
      assert ToLower(os)[..7] == ToLower(os[..7]);
    }
  }

  /** The guests and hosts the tool knows. */
  lemma KnownGuests()
    ensures IsForeignArtifactGuestOS("ubuntu") && IsForeignArtifactGuestOS("windows11") && IsForeignArtifactGuestOS("Windows")
    ensures !IsForeignArtifactGuestOS("macos") && !IsForeignArtifactGuestOS("ubuntu22")
  {
    ForeignGuests("ubuntu");
    ForeignGuests("windows11");
    assert "windows11"[..7] == "windows";
    ForeignGuests("Windows");
    assert "Windows"[..7] == "Windows";
    ForeignGuests("macos");
    ForeignGuests("ubuntu22");
    assert "ubuntu22"[..7] == "ubuntu2";
    assert LowerChar("ubuntu2"[0]) == 'u';
  }

  /** Both comparisons in the annotations' own words. */
  lemma SameTargetSpelled(annotations: map<string, string>, vm: Target)
    ensures SameTarget(annotations, vm) <==>
              && Annotation(annotations, "dev.alchemy.vm.os") == vm.os
              && Annotation(annotations, "dev.alchemy.vm.type") == vm.ubuntuType
              && Annotation(annotations, "dev.alchemy.vm.arch") == vm.arch
              && Annotation(annotations, "dev.alchemy.vm.host_os") == vm.hostOs
              && Annotation(annotations, "dev.alchemy.vm.virtualization_engine") == vm.engine
  {
  }

  lemma OtherHostSpelled(annotations: map<string, string>, vm: Target)
    ensures BuiltOnOtherHost(annotations, vm) <==>
              var source := Annotation(annotations, "dev.alchemy.vm.host_os");
              && (Spells(vm.os, "ubuntu") || (|vm.os| >= 7 && Spells(vm.os[..7], "windows")))
              && Annotation(annotations, "dev.alchemy.vm.os") == vm.os
              && Annotation(annotations, "dev.alchemy.vm.type") == vm.ubuntuType
              && Annotation(annotations, "dev.alchemy.vm.arch") == vm.arch
              && Annotation(annotations, "dev.alchemy.vm.virtualization_engine") != ""
              && ((vm.hostOs == "debian" && (Spells(source, "macos") || Spells(source, "darwin")))
                  || (vm.hostOs == "darwin" && (Spells(source, "linux") || Spells(source, "debian"))))
  {
    var source := Annotation(annotations, "dev.alchemy.vm.host_os");
    ForeignGuests(vm.os);
    HostsSpelled(source);
  }

  lemma HostsSpelled(source: string)
    ensures NormalizeArtifactHostOS(source) == Some("debian") <==> Spells(source, "linux") || Spells(source, "debian")
    ensures NormalizeArtifactHostOS(source) == Some("darwin") <==> Spells(source, "macos") || Spells(source, "darwin")
  {
    SpellsLower(source, "linux");
    SpellsLower(source, "debian");
    SpellsLower(source, "macos");
    SpellsLower(source, "darwin");
  }

  lemma OtherHostDiffers(annotations: map<string, string>, vm: Target)
    requires BuiltOnOtherHost(annotations, vm)
    ensures Annotation(annotations, ANNOTATION_VM_HOST_OS) != vm.hostOs
  {
    assert ToLower(HOST_OS_LINUX) == HOST_OS_LINUX;
    assert ToLower(HOST_OS_DARWIN) == HOST_OS_DARWIN;
  }

  method CompatibleForeignArtifact(manifest: ImageManifest, vm: Target) returns (ok: bool)
    ensures ok <==> manifest.annotations.Some? && BuiltOnOtherHost(manifest.annotations.value, vm)
  {
    if manifest.annotations.None? || !IsForeignArtifactGuestOS(vm.os) {
      return false;
    }
    var annotations := manifest.annotations.value;
    if BuiltOnOtherHost(annotations, vm) {
      OtherHostDiffers(annotations, vm);
    }
    var checks := TargetChecks(vm);
    assert checks[0] == (ANNOTATION_VM_OS, vm.os) && checks[1] == (ANNOTATION_VM_TYPE, vm.ubuntuType)
        && checks[2] == (ANNOTATION_VM_ARCH, vm.arch) && checks[3] == (ANNOTATION_VM_HOST_OS, vm.hostOs)
        && checks[4] == (ANNOTATION_VM_ENGINE, vm.engine);
    var foreignTargetMismatch := false;
    for k := 0 to |checks|
      invariant forall i :: 0 <= i < k && i < 3 ==> Annotation(annotations, checks[i].0) == checks[i].1
      invariant foreignTargetMismatch <==> exists i :: 3 <= i < k && Annotation(annotations, checks[i].0) != checks[i].1
    {
      if Annotation(annotations, checks[k].0) != checks[k].1 {
        if checks[k].0 == ANNOTATION_VM_HOST_OS || checks[k].0 == ANNOTATION_VM_ENGINE {
          foreignTargetMismatch := true;
        } else {
          return false;
        }
      }
    }
    if !foreignTargetMismatch {
      assert Annotation(annotations, checks[3].0) == checks[3].1;
      return false;
    }
    var sourceHostOS := NormalizeArtifactHostOS(Annotation(annotations, ANNOTATION_VM_HOST_OS));
    if sourceHostOS.None? || !IsDarwinLinuxHostPair(sourceHostOS.value, vm.hostOs) {
      return false;
    }
    return Annotation(annotations, ANNOTATION_VM_ENGINE) != "";
  }

  /** What asking the user gives: no one to ask, a failure, or an answer. */
  datatype Confirmation = Unavailable | Fails | Answers(yes: bool)

  /** Accepted exactly when the layers fit and the target is this VM, or the other host's build and the user agrees. */
  method ValidateManifestForPull(manifest: ImageManifest, vm: Target, expected: seq<ArtifactFile>, confirm: Confirmation)
    returns (err: Option<ManifestError>)
    ensures err.None? <==>
              && manifest.annotations.Some?
              && SameFiles(manifest.layers, expected)
              && (SameTarget(manifest.annotations.value, vm)
                  || (BuiltOnOtherHost(manifest.annotations.value, vm) && confirm == Answers(true)))
    ensures err.Some? ==> PullRefusal(manifest, vm, expected, confirm, err.value)
  {
    var sameTarget := ValidateManifestTarget(manifest, vm);
    if sameTarget {
      err := ValidateManifestLayers(manifest.layers, expected);
      return;
    }
    var foreign := CompatibleForeignArtifact(manifest, vm);
    if !foreign {
      return Some(TargetMismatch);
    }
    err := ValidateManifestLayers(manifest.layers, expected);
    if err.Some? {
      return;
    }
    match confirm
    case Unavailable => return Some(TargetMismatch);
    case Fails => return Some(ConfirmationFailed);
    case Answers(yes) => return if yes then None else Some(Cancelled);
  }

  /** Why a manifest is refused: the wrong target, the answer of the user, or its layers. */
  ghost predicate PullRefusal(
      manifest: ImageManifest, vm: Target, expected: seq<ArtifactFile>, confirm: Confirmation, err: ManifestError)
  {
    var foreign := manifest.annotations.Some? && !SameTarget(manifest.annotations.value, vm)
                   && BuiltOnOtherHost(manifest.annotations.value, vm);
    match err
    case Cancelled => foreign && SameFiles(manifest.layers, expected) && confirm == Answers(false)
    case ConfirmationFailed => foreign && SameFiles(manifest.layers, expected) && confirm == Fails
    case TargetMismatch =>
      if foreign then SameFiles(manifest.layers, expected) && confirm == Unavailable
      else manifest.annotations.None? || !SameTarget(manifest.annotations.value, vm)
    case _ =>
      && manifest.annotations.Some? && (foreign || SameTarget(manifest.annotations.value, vm))
      && LayersShow(manifest.layers, expected, err)
  }

  /** The manifest the reference stands for must also be one of this tool's images. */
  method ValidateRemoteManifest(manifest: ImageManifest, vm: Target, expected: seq<ArtifactFile>, confirm: Confirmation)
    returns (err: Option<ManifestError>)
    ensures err.None? <==> Acceptable(manifest, vm, expected, confirm)
    ensures err == Some(WrongArtifactType) <==> manifest.artifactType != "application/vnd.dev-alchemy.vm-build.v1"
    ensures err.Some? && err != Some(WrongArtifactType) ==> PullRefusal(manifest, vm, expected, confirm, err.value)
  {
    if manifest.artifactType != ARTIFACT_TYPE {
      return Some(WrongArtifactType);
    }
    err := ValidateManifestForPull(manifest, vm, expected, confirm);
  }

  ghost predicate Acceptable(manifest: ImageManifest, vm: Target, expected: seq<ArtifactFile>, confirm: Confirmation) {
    && manifest.artifactType == ARTIFACT_TYPE
    && manifest.annotations.Some?
    && SameFiles(manifest.layers, expected)
    && (SameTarget(manifest.annotations.value, vm)
        || (BuiltOnOtherHost(manifest.annotations.value, vm) && confirm == Answers(true)))
  }

  /** Repeated expected names make every manifest unacceptable. */
  lemma RepeatedNamesRejected(layers: seq<Layer>, expected: seq<ArtifactFile>, i: nat, j: nat)
    requires i < j < |expected| && expected[i].name == expected[j].name
    ensures !PassesChecks(layers, expected)
  {
    assert Names(expected)[i] == Names(expected)[j];
    if PassesChecks(layers, expected) {
      ChecksImplyDistinct(layers, expected);
      assert false;
    }
  }
}
