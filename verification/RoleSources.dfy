/**
 Where configured Ansible role and playbook sources resolve to (pkg/provision/role_sources.go).
 Strings are sequences of characters.

 Running git, inspecting directories and expanding the user's home directory are foreign: a
 source arrives with the outcome of each as a parameter.  The hash is a given function.
 */
module RoleSources {
  import opened GoStrings
  import opened Paths
  import opened Wrappers

  const DEFAULT_SUBDIRECTORY := "."

  datatype SourceError = InvalidSource | UnusableName | NameTaken(name: string) | PrepareFailed | EscapesSource | NotADirectory

  // ----- Subdirectories stay inside their source

  function Subdirectory(configured: string): string {
    var trimmed := TrimText(configured);
    if trimmed == "" then DEFAULT_SUBDIRECTORY else trimmed
  }

  function SubdirectoryPath(sourceRoot: string, configured: string): Result<string, SourceError> {
    var clean := Clean(Subdirectory(configured));
    if Rooted(clean) || Rises(clean) then Err(EscapesSource)
    else Ok(JoinPath(sourceRoot, clean))
  }

  /** Follows the segments one by one from a directory at the given depth below the source; false as soon as a step leaves the source. */
  predicate StaysInside(steps: seq<string>, depth: nat)
    decreases |steps|
  {
    if steps == [] then true
    else if steps[0] == "" || steps[0] == "." then StaysInside(steps[1..], depth)
    else if steps[0] == ".." then depth > 0 && StaysInside(steps[1..], depth - 1)
    else StaysInside(steps[1..], depth + 1)
  }

  lemma {:induction false} WalkReduces(steps: seq<string>, out: seq<string>)
    requires AllPlain(out)
    requires forall i :: 0 <= i < |steps| ==> Slashless(steps[i])
    ensures StaysInside(steps, |out|) ==> AllPlain(Reduce(false, steps, out))
    ensures !StaysInside(steps, |out|) ==> Reduce(false, steps, out) != [] && Reduce(false, steps, out)[0] == ".."
    decreases |steps|
  {
    if steps != [] {
      var next := Push(false, out, steps[0]);
      assert Slashless(steps[0]);
      assert forall i :: 0 <= i < |steps[1..]| ==> steps[1..][i] == steps[i + 1];
      if steps[0] == ".." && out == [] {
        StuckAbove(steps[1..], next);
      } else {
        if out != [] { assert Plain(out[|out| - 1]); }
        WalkReduces(steps[1..], next);
      }
    }
  }

  lemma {:induction false} StuckAbove(steps: seq<string>, out: seq<string>)
    requires out != [] && out[0] == ".."
    ensures Reduce(false, steps, out) != [] && Reduce(false, steps, out)[0] == ".."
    decreases |steps|
  {
    if steps != [] {
      StuckAbove(steps[1..], Push(false, out, steps[0]));
    }
  }

  lemma CleanRises(s: string)
    requires !Rooted(s)
    ensures Rises(Clean(s)) <==> Segments(s) != [] && Segments(s)[0] == ".."
  {
    SegmentsReduced(s);
    var segs := Segments(s);
    if segs != [] {
      forall i | 0 <= i < |segs| ensures Slashless(segs[i]) {
        assert segs[i] == ".." || Plain(segs[i]);
      }
      JoinRises(segs);
    }
  }

  /** Accepted exactly when the configured path is relative and no prefix of its walk leaves the source. */
  lemma AcceptedWhenInside(sourceRoot: string, configured: string)
    ensures SubdirectoryPath(sourceRoot, configured).Ok?
       <==> !Rooted(Subdirectory(configured)) && StaysInside(Split(Subdirectory(configured)), 0)
  {
    var sub := Subdirectory(configured);
    CleanIdempotent(sub);
    if !Rooted(sub) {
      SplitJoins(sub);
      WalkReduces(Split(sub), []);
      CleanRises(sub);
      if StaysInside(Split(sub), 0) && Segments(sub) != [] {
        assert Plain(Segments(sub)[0]);
      }
    }
  }

  /** White space around a configured path does not matter, and a blank one means the source itself. */
  lemma SubdirectoryTrimmed(sourceRoot: string, configured: string)
    requires sourceRoot != ""
    ensures SubdirectoryPath(sourceRoot, configured) == SubdirectoryPath(sourceRoot, TrimText(configured))
    ensures TrimText(configured) == "" ==>
              SubdirectoryPath(sourceRoot, configured).Ok?
              && Segments(SubdirectoryPath(sourceRoot, configured).value) == Segments(sourceRoot)
  {
    TrimTwice(configured, IsSpace);
    if TrimText(configured) == "" {
      SplitSlashless(".");
      AcceptedWhenInside(sourceRoot, configured);
      AcceptedLiesUnder(sourceRoot, configured);
      assert Segments(".") == [];
    }
  }

  /** p is root itself or lexically below it. */
  ghost predicate LiesUnder(root: string, p: string) {
    Rooted(p) == Rooted(root) && Segments(root) <= Segments(p) && AllPlain(Segments(p)[|Segments(root)|..])
  }

  lemma JoinPathSegments(root: string, sub: string)
    requires root != "" && sub != ""
    ensures Rooted(JoinPath(root, sub)) == Rooted(root)
    ensures Segments(JoinPath(root, sub)) == Reduce(Rooted(root), Split(sub), Segments(root))
  {
    CleanIdempotent(root + "/" + sub);
    SplitConcat(root, sub);
    assert root + "/" + sub == root + ("/" + sub);
    ReduceConcat(Rooted(root), Split(root), Split(sub), []);
  }

  /** An accepted subdirectory lies under its source: its segments are the source's followed by the plain segments of the walk. */
  lemma AcceptedLiesUnder(sourceRoot: string, configured: string)
    requires sourceRoot != "" && SubdirectoryPath(sourceRoot, configured).Ok?
    ensures LiesUnder(sourceRoot, SubdirectoryPath(sourceRoot, configured).value)
    ensures Segments(SubdirectoryPath(sourceRoot, configured).value)
         == Segments(sourceRoot) + Segments(Subdirectory(configured))
  {
    var sub := Subdirectory(configured);
    var below := Segments(sub);
    AcceptedWhenInside(sourceRoot, configured);
    SplitJoins(sub);
    WalkReduces(Split(sub), []);
    assert AllPlain(below);
    JoinPathSegments(sourceRoot, Clean(sub));
    RenderSplits(false, below);
    if below == [] {
      assert Reduce(Rooted(sourceRoot), ["."], Segments(sourceRoot)) == Segments(sourceRoot);
      assert Segments(sourceRoot) + below == Segments(sourceRoot);
    } else {
      assert Parts(false, below) == below;
      ReducePlain(Rooted(sourceRoot), below, Segments(sourceRoot));
    }
    assert (Segments(sourceRoot) + below)[|Segments(sourceRoot)|..] == below;
  }

  // ----- Cache directory names

  predicate Separator(c: char) { c == '.' || c == '-' || c == '_' }

  /** unicode.IsLetter or unicode.IsDigit; beyond ASCII the tables are a parameter. */
  predicate LetterOrDigit(c: char, beyondAscii: char -> bool) {
    'a' <= c <= 'z' || 'A' <= c <= 'Z' || '0' <= c <= '9' || (c >= '\U{80}' && beyondAscii(c))
  }

  predicate Allowed(c: char, beyondAscii: char -> bool) { LetterOrDigit(c, beyondAscii) || Separator(c) }

  /** A cache name is one plain path segment without separators at its edges. */
  ghost predicate CacheName(name: string, beyondAscii: char -> bool) {
    && name != ""
    && (forall c :: c in name ==> Allowed(c, beyondAscii))
    && !Separator(name[0]) && !Separator(name[|name| - 1])
  }

  lemma CacheNamePlain(name: string, beyondAscii: char -> bool)
    requires CacheName(name, beyondAscii)
    ensures Plain(name)
  {
    assert '/' in name ==> Allowed('/', beyondAscii);
  }

  /** What follows the leading characters that are not allowed. */
  function SkipOthers(s: string, beyondAscii: char -> bool): (rest: string)
    ensures |rest| <= |s| && (rest != "" ==> Allowed(rest[0], beyondAscii))
  {
    if s == "" || Allowed(s[0], beyondAscii) then s else SkipOthers(s[1..], beyondAscii)
  }

  /** Every run of characters that are not allowed becomes one hyphen. */
  function Hyphenated(s: string, beyondAscii: char -> bool): string
    decreases |s|
  {
    if s == "" then ""
    else if Allowed(s[0], beyondAscii) then [s[0]] + Hyphenated(s[1..], beyondAscii)
    else "-" + Hyphenated(SkipOthers(s[1..], beyondAscii), beyondAscii)
  }

  function Sanitized(value: string, beyondAscii: char -> bool): string {
    Trim(Hyphenated(ToLower(TrimText(value)), beyondAscii), Separator)
  }

  lemma {:induction false} HyphenatedAllowed(s: string, beyondAscii: char -> bool)
    ensures forall c :: c in Hyphenated(s, beyondAscii) ==> Allowed(c, beyondAscii)
    ensures (forall c :: c in s ==> Allowed(c, beyondAscii)) ==> Hyphenated(s, beyondAscii) == s
    decreases |s|
  {
    if s != "" {
      assert s == [s[0]] + s[1..];
      if Allowed(s[0], beyondAscii) {
        HyphenatedAllowed(s[1..], beyondAscii);
      } else {
        HyphenatedAllowed(SkipOthers(s[1..], beyondAscii), beyondAscii);
      }
    }
  }

  /** A sanitized name is empty or a usable cache name. */
  lemma SanitizedUsable(value: string, beyondAscii: char -> bool)
    ensures Sanitized(value, beyondAscii) == "" || CacheName(Sanitized(value, beyondAscii), beyondAscii)
  {
    var built := Hyphenated(ToLower(TrimText(value)), beyondAscii);
    HyphenatedAllowed(ToLower(TrimText(value)), beyondAscii);
    var i, j := TrimCuts(built, Separator);
  }

  /** A usable name in lower case is kept. */
  lemma CleanNameKept(name: string, beyondAscii: char -> bool)
    requires CacheName(name, beyondAscii) && ToLower(name) == name && TrimText(name) == name
    ensures Sanitized(name, beyondAscii) == name
  {
    HyphenatedAllowed(name, beyondAscii);
  }

  /** Sanitizing twice changes nothing, as long as no white space counts as a letter. */
  lemma SanitizedTwice(value: string, beyondAscii: char -> bool)
    requires forall c: char :: beyondAscii(c) ==> !IsSpace(c)
    ensures Sanitized(Sanitized(value, beyondAscii), beyondAscii) == Sanitized(value, beyondAscii)
  {
    var name := Sanitized(value, beyondAscii);
    SanitizedUsable(value, beyondAscii);
    if name == "" {
      assert Hyphenated("", beyondAscii) == "";
    } else {
      assert name[0] in name && name[|name| - 1] in name;
      SanitizedLower(value, beyondAscii);
      CleanNameKept(name, beyondAscii);
    }
  }

  lemma {:induction false} HyphenatedFrom(s: string, beyondAscii: char -> bool)
    ensures forall c :: c in Hyphenated(s, beyondAscii) ==> c == '-' || c in s
    decreases |s|
  {
    if s != "" {
      if Allowed(s[0], beyondAscii) {
        HyphenatedFrom(s[1..], beyondAscii);
      } else {
        var rest := SkipOthers(s[1..], beyondAscii);
        HyphenatedFrom(rest, beyondAscii);
        SkippedFrom(s[1..], beyondAscii);
      }
    }
  }

  lemma {:induction false} SkippedFrom(s: string, beyondAscii: char -> bool)
    ensures forall c :: c in SkipOthers(s, beyondAscii) ==> c in s
  {
    if s != "" && !Allowed(s[0], beyondAscii) {
      SkippedFrom(s[1..], beyondAscii);
    }
  }

  lemma SanitizedLower(value: string, beyondAscii: char -> bool)
    ensures ToLower(Sanitized(value, beyondAscii)) == Sanitized(value, beyondAscii)
  {
    var lowered := ToLower(TrimText(value));
    var built := Hyphenated(lowered, beyondAscii);
    HyphenatedFrom(lowered, beyondAscii);
    var i, j := TrimCuts(built, Separator);
    var name := Sanitized(value, beyondAscii);
    forall k | 0 <= k < |name| ensures LowerChar(name[k]) == name[k] {
      assert name[k] == built[i + k] && built[i + k] in built;
      if name[k] != '-' {
        var m :| 0 <= m < |lowered| && lowered[m] == name[k];
        assert lowered[m] == LowerChar(TrimText(value)[m]);
      }
    }
  }

  /** What happens to each ASCII character between two letters. */
  lemma AsciiSanitized(c: char, beyondAscii: char -> bool)
    requires c < '\U{80}'
    ensures Sanitized("x" + [c] + "y", beyondAscii) ==
            if 'A' <= c <= 'Z' then "x" + [(c as int + 32) as char] + "y"
            else if 'a' <= c <= 'z' || '0' <= c <= '9' || c == '.' || c == '_' || c == '-' then "x" + [c] + "y"
            else "x-y"
  {
    var value := "x" + [c] + "y";
    var d := LowerChar(c);
    assert TrimText(value) == value;
    assert ToLower(value) == ['x', d, 'y'];
    var lowered := ['x', d, 'y'];
    assert lowered[1..] == [d, 'y'] && [d, 'y'][1..] == ['y'] && ['y'][1..] == [];
    assert Hyphenated(['y'], beyondAscii) == ['y'];
    if Allowed(d, beyondAscii) {
      assert Hyphenated([d, 'y'], beyondAscii) == [d, 'y'];
    } else {
      assert SkipOthers(['y'], beyondAscii) == ['y'];
      assert Hyphenated([d, 'y'], beyondAscii) == ['-', 'y'];
    }
  }

  method SanitizeCacheName(value: string, beyondAscii: char -> bool) returns (name: string)
    ensures name == Sanitized(value, beyondAscii)
    ensures name == "" || CacheName(name, beyondAscii)
    ensures CacheName(value, beyondAscii) && ToLower(value) == value && TrimText(value) == value ==> name == value
  {
    var built := Hyphenate(ToLower(TrimText(value)), beyondAscii);
    name := Trim(built, Separator);
    SanitizedUsable(value, beyondAscii);
    if CacheName(value, beyondAscii) && ToLower(value) == value && TrimText(value) == value {
      CleanNameKept(value, beyondAscii);
    }
  }

  /** What is still to be written for the rest of the value, inside a run that already has its hyphen or not. */
  function Ahead(rest: string, previousSeparator: bool, beyondAscii: char -> bool): string {
    Hyphenated(if previousSeparator then SkipOthers(rest, beyondAscii) else rest, beyondAscii)
  }

  lemma HyphenStep(built: string, rest: string, previousSeparator: bool, beyondAscii: char -> bool)
    requires rest != ""
    ensures
      var written := built + Ahead(rest, previousSeparator, beyondAscii);
      if Allowed(rest[0], beyondAscii) then written == built + [rest[0]] + Ahead(rest[1..], false, beyondAscii)
      else if !previousSeparator then written == built + ['-'] + Ahead(rest[1..], true, beyondAscii)
      else written == built + Ahead(rest[1..], true, beyondAscii)
  {
  }

  method Hyphenate(lowered: string, beyondAscii: char -> bool) returns (built: string)
    ensures built == Hyphenated(lowered, beyondAscii)
  {
    built := "";
    var previousSeparator := false;
    for k := 0 to |lowered|
      invariant built + Ahead(lowered[k..], previousSeparator, beyondAscii) == Hyphenated(lowered, beyondAscii)
    {
      var c := lowered[k];
      HyphenStep(built, lowered[k..], previousSeparator, beyondAscii);
      assert lowered[k..][1..] == lowered[k + 1..];
      if Allowed(c, beyondAscii) {
        built := built + [c];
        previousSeparator := false;
      } else if !previousSeparator {
        built := built + ['-'];
        previousSeparator := true;
      }
    }
    assert lowered[|lowered|..] == "" && built + "" == built;
  }

  datatype Source = Source(
    name: string,
    url: string,
    ref: string,
    rolesPath: string,
    prepares: bool,        // the clone, fetch or checkout succeeds
    isDirectory: bool)     // the resulting path is a directory

  predicate HexDigits(s: string) {
    |s| == 12 && forall c :: c in s ==> '0' <= c <= '9' || 'a' <= c <= 'f'
  }

  /** strings.TrimRight(s, "/"). */
  function TrimSlashes(s: string): (t: string)
    ensures t == "" || t[|t| - 1] != '/'
  {
    if s != "" && s[|s| - 1] == '/' then TrimSlashes(s[..|s| - 1]) else s
  }

  /** filepath.Base of a string without a slash at its end. */
  function Base(s: string): string {
    if s == "" then "." else Split(s)[|Split(s)| - 1]
  }

  function TrimSuffix(s: string, suffix: string): string {
    if |suffix| <= |s| && s[|s| - |suffix|..] == suffix then s[..|s| - |suffix|] else s
  }

  /** The last segment of the URL, without ".git", as a cache name; "source" when nothing of it is left. */
  function UrlName(url: string, beyondAscii: char -> bool): (name: string)
    ensures name != ""
  {
    var last := TrimSuffix(Base(TrimSlashes(TrimText(url))), ".git");
    var name := Sanitized(if last == "." || last == "/" || last == "" then "source" else last, beyondAscii);
    if name == "" then "source" else name
  }

  lemma {:induction false} SlashesTrimmed(s: string, slashes: string)
    requires s == "" || s[|s| - 1] != '/'
    requires forall i :: 0 <= i < |slashes| ==> slashes[i] == '/'
    ensures TrimSlashes(s + slashes) == s
    decreases |slashes|
  {
    if slashes == "" {
      assert s + slashes == s;
    } else {
      var n := |slashes| - 1;
      assert (s + slashes)[..|s + slashes| - 1] == s + slashes[..n];
      SlashesTrimmed(s, slashes[..n]);
    }
  }

  /** The name of an unnamed source comes from what stands between the last slash and ".git" or the end of its URL. */
  lemma UrlNamedByLastSegment(url: string, front: string, stem: string, git: bool, slashes: string, beyondAscii: char -> bool)
    requires TrimText(url) == front + "/" + (stem + if git then ".git" else "") + slashes
    requires Slashless(stem) && stem != "" && stem != "."
    requires !git ==> !(|stem| >= 4 && stem[|stem| - 4..] == ".git")
    requires forall i :: 0 <= i < |slashes| ==> slashes[i] == '/'
    ensures UrlName(url, beyondAscii) ==
            if Sanitized(stem, beyondAscii) == "" then "source" else Sanitized(stem, beyondAscii)
  {
    var seg := stem + if git then ".git" else "";
    StemOf(stem, git);
    LastSegment(front, seg, slashes);
  }

  lemma LastSegment(front: string, seg: string, slashes: string)
    requires Slashless(seg) && seg != ""
    requires forall i :: 0 <= i < |slashes| ==> slashes[i] == '/'
    ensures Base(TrimSlashes(front + "/" + seg + slashes)) == seg
  {
    var whole := front + "/" + seg;
    assert whole[|whole| - 1] == seg[|seg| - 1] && seg[|seg| - 1] in seg;
    SlashesTrimmed(whole, slashes);
    SplitConcat(front, seg);
    SplitSlashless(seg);
  }

  lemma StemOf(stem: string, git: bool)
    requires Slashless(stem) && stem != ""
    requires !git ==> !(|stem| >= 4 && stem[|stem| - 4..] == ".git")
    ensures TrimSuffix(stem + if git then ".git" else "", ".git") == stem
    ensures Slashless(stem + if git then ".git" else "") && stem != "/"
  {
    assert stem + "" == stem;
    assert stem[0] in stem;
  }

  function HashInput(source: Source): string {
    TrimText(source.url) + "\0" + TrimText(source.ref) + "\0" + TrimText(source.rolesPath)
  }

  predicate NulFree(s: string) { '\0' !in s }

  lemma CutAtNul(a: string, b: string, x: string, y: string)
    requires NulFree(a) && NulFree(b) && a + "\0" + x == b + "\0" + y
    ensures a == b && x == y
  {
    var whole := a + "\0" + x;
    assert whole[|a|] == '\0' && whole[|b|] == '\0';
    assert forall i :: 0 <= i < |a| ==> whole[i] == a[i] && a[i] in a;
    assert forall i :: 0 <= i < |b| ==> whole[i] == b[i] && b[i] in b;
    assert |a| == |b|;
    assert a == whole[..|a|] && b == whole[..|b|];
    assert x == whole[|a| + 1..] && y == whole[|b| + 1..];
  }

  /** The hash input tells URL, ref and subdirectory apart: no two combinations are hashed alike. */
  lemma HashInputsDiffer(s: Source, t: Source)
    requires NulFree(TrimText(s.url)) && NulFree(TrimText(t.url)) && NulFree(TrimText(s.ref)) && NulFree(TrimText(t.ref))
    requires HashInput(s) == HashInput(t)
    ensures TrimText(s.url) == TrimText(t.url) && TrimText(s.ref) == TrimText(t.ref)
    ensures TrimText(s.rolesPath) == TrimText(t.rolesPath)
  {
    var x, y := TrimText(s.ref) + "\0" + TrimText(s.rolesPath), TrimText(t.ref) + "\0" + TrimText(t.rolesPath);
    assert HashInput(s) == TrimText(s.url) + "\0" + x && HashInput(t) == TrimText(t.url) + "\0" + y;
    CutAtNul(TrimText(s.url), TrimText(t.url), x, y);
    CutAtNul(TrimText(s.ref), TrimText(t.ref), TrimText(s.rolesPath), TrimText(t.rolesPath));
  }

  /** The directory name of a source, if it has a usable one; `digest` gives the first twelve hex digits of the hash. */
  function CacheNameOf(source: Source, beyondAscii: char -> bool, digest: string -> string): Option<string> {
    var name := TrimText(source.name);
    if name == "" then Some(UrlName(source.url, beyondAscii) + "-" + digest(HashInput(source)))
    else if Sanitized(name, beyondAscii) == "" then None
    else Some(Sanitized(name, beyondAscii))
  }

  /** Every name given is a cache name; there is none exactly for a configured name of which nothing is left. */
  method GitSourceCacheName(source: Source, beyondAscii: char -> bool, digest: string -> string)
    returns (r: Result<string, SourceError>)
    requires forall s :: HexDigits(digest(s))
    ensures r == (if CacheNameOf(source, beyondAscii, digest).Some? then Ok(CacheNameOf(source, beyondAscii, digest).value)
                  else Err(UnusableName))
    ensures r.Ok? ==> CacheName(r.value, beyondAscii)
    ensures r.Err? <==> TrimText(source.name) != "" && Sanitized(TrimText(source.name), beyondAscii) == ""
    ensures TrimText(source.name) == "" ==>
              r.Ok? && |r.value| >= 14 && r.value[|r.value| - 12..] == digest(HashInput(source))
  {
    var name := TrimText(source.name);
    if name != "" {
      var sanitized := SanitizeCacheName(name, beyondAscii);
      return if sanitized == "" then Err(UnusableName) else Ok(sanitized);
    }
    var sourceURL := TrimSlashes(TrimText(source.url));
    var baseName := TrimSuffix(Base(sourceURL), ".git");
    if baseName == "." || baseName == "/" || baseName == "" {
      baseName := "source";
    }
    baseName := SanitizeCacheName(baseName, beyondAscii);
    if baseName == "" {
      baseName := "source";
    }
    var hash := digest(HashInput(source));
    DigestName(baseName, hash, beyondAscii);
    return Ok(baseName + "-" + hash);
  }

  lemma DigestName(baseName: string, digest: string, beyondAscii: char -> bool)
    requires baseName == "source" || CacheName(baseName, beyondAscii)
    requires HexDigits(digest)
    ensures CacheName(baseName + "-" + digest, beyondAscii)
    ensures |baseName + "-" + digest| >= 14
    ensures (baseName + "-" + digest)[|baseName| + 1..] == digest
  {
    var full := baseName + "-" + digest;
    assert full[|full| - 1] == digest[11] && digest[11] in digest;
    forall c | c in full ensures Allowed(c, beyondAscii) {
      assert c in baseName || c == '-' || c in digest;
    }
  }

  // ----- Resolving the git sources of one configuration

  datatype Checkout = Checkout(directory: string, path: string)

  /** The checkout is a direct child of the cache root, and the resolved path lies under it. */
  ghost predicate WellPlaced(cacheRoot: string, c: Checkout) {
    && Rooted(c.directory) == Rooted(cacheRoot)
    && |Segments(c.directory)| == |Segments(cacheRoot)| + 1
    && Segments(cacheRoot) <= Segments(c.directory)
    && Plain(Segments(c.directory)[|Segments(cacheRoot)|])
    && LiesUnder(c.directory, c.path)
  }

  lemma CheckoutChild(cacheRoot: string, name: string)
    requires cacheRoot != "" && Plain(name)
    ensures Rooted(JoinPath(cacheRoot, name)) == Rooted(cacheRoot)
    ensures Segments(JoinPath(cacheRoot, name)) == Segments(cacheRoot) + [name]
    ensures JoinPath(cacheRoot, name) != ""
  {
    JoinPathSegments(cacheRoot, name);
    SplitSlashless(name);
    assert AllPlain([name]);
    ReducePlain(Rooted(cacheRoot), [name], Segments(cacheRoot));
    assert Segments("") == [] by {
      assert Reduce(false, [""], []) == [];
    }
  }

  /** The cache names taken in one run. */
  class UsedNames {
    var names: set<string>

    constructor ()
      ensures names == {}
    {
      names := {};
    }
  }

  /** The configured subdirectory stays inside the checkout. */
  ghost predicate Inside(configured: string) {
    !Rooted(Subdirectory(configured)) && StaysInside(Split(Subdirectory(configured)), 0)
  }

  method ResolveGitSource(
      source: Source, cacheRoot: string, used: UsedNames, beyondAscii: char -> bool, digest: string -> string)
    returns (r: Result<Checkout, SourceError>, ghost name: string)
    requires cacheRoot != "" && forall s :: HexDigits(digest(s))
    modifies used
    ensures old(used.names) <= used.names <= old(used.names) + {name}
    ensures r.Ok? ==> Plain(name) && name !in old(used.names) && name in used.names
    ensures r.Ok? ==> Segments(r.value.directory) == Segments(cacheRoot) + [name]
    ensures r.Ok? ==> WellPlaced(cacheRoot, r.value)
    ensures r.Err? && r.error.NameTaken? ==> r.error.name in old(used.names) && used.names == old(used.names)
    ensures var named := CacheNameOf(source, beyondAscii, digest);
            && (r.Ok? <==> TrimText(source.url) != "" && named.Some? && named.value !in old(used.names)
                           && source.prepares && Inside(source.rolesPath) && source.isDirectory)
            && (r.Ok? ==> named == Some(name))
    ensures r == Err(EscapesSource) ==> !Inside(source.rolesPath)
  {
    name := "";
    if TrimText(source.url) == "" {
      return Err(InvalidSource), name;
    }
    var named := GitSourceCacheName(source, beyondAscii, digest);
    if named.Err? {
      return Err(named.error), name;
    }
    var cacheName := named.value;
    name := cacheName;
    CacheNamePlain(cacheName, beyondAscii);
    if cacheName in used.names {
      return Err(NameTaken(cacheName)), name;
    }
    used.names := used.names + {cacheName};
    var directory := JoinPath(cacheRoot, cacheName);
    CheckoutChild(cacheRoot, cacheName);
    if !source.prepares {
      return Err(PrepareFailed), name;
    }
    var path := SubdirectoryPath(directory, source.rolesPath);
    AcceptedWhenInside(directory, source.rolesPath);
    if path.Err? {
      return Err(path.error), name;
    }
    AcceptedLiesUnder(directory, source.rolesPath);
    if !source.isDirectory {
      return Err(NotADirectory), name;
    }
    return Ok(Checkout(directory, path.value)), name;
  }

  /** In one run every resolved path lies under its checkout, and the checkouts are distinct direct children of the cache root. */
  method ResolveGitSources(sources: seq<Source>, cacheRoot: string, beyondAscii: char -> bool, digest: string -> string)
    returns (r: Result<seq<Checkout>, SourceError>)
    requires cacheRoot != "" && forall s :: HexDigits(digest(s))
    ensures r.Ok? ==> |r.value| == |sources|
    ensures r.Ok? ==> forall i :: 0 <= i < |r.value| ==> WellPlaced(cacheRoot, r.value[i])
    ensures r.Ok? ==> forall i, j :: 0 <= i < j < |r.value| ==> Segments(r.value[i].directory) != Segments(r.value[j].directory)
  {
    var used := new UsedNames();
    var checkouts: seq<Checkout> := [];
    ghost var names: seq<string> := [];
    for k := 0 to |sources|
      invariant |checkouts| == |names| == k
      invariant forall i :: 0 <= i < k ==> names[i] in used.names
      invariant forall i :: 0 <= i < k ==> Segments(checkouts[i].directory) == Segments(cacheRoot) + [names[i]]
      invariant forall i :: 0 <= i < k ==> WellPlaced(cacheRoot, checkouts[i])
      invariant forall i, j :: 0 <= i < j < k ==> names[i] != names[j]
    {
      ghost var name;
      var resolved;
      resolved, name := ResolveGitSource(sources[k], cacheRoot, used, beyondAscii, digest);
      if resolved.Err? {
        return Err(resolved.error);
      }
      checkouts := checkouts + [resolved.value];
      names := names + [name];
    }
    forall i, j | 0 <= i < j < |checkouts|
      ensures Segments(checkouts[i].directory) != Segments(checkouts[j].directory)
    {
      assert (Segments(cacheRoot) + [names[i]])[|Segments(cacheRoot)|] == names[i];
      assert (Segments(cacheRoot) + [names[j]])[|Segments(cacheRoot)|] == names[j];
    }
    return Ok(checkouts);
  }
}
