/**
 Lexical paths as Go's path/filepath treats them on a slash-separated system.

 A string is cut at slashes into segments; cleaning drops empty and "." segments and lets
 ".." cancel the segment before it.  An absolute clean path is a volume (empty outside
 Windows) and the segments below its root.
 */
module Paths {
  import opened Wrappers

  // ----- Cutting and joining at slashes

  function Split(s: string): (parts: seq<string>)
    ensures |parts| >= 1
  {
    if s == "" then [""] else Prepend(s[0], Split(s[1..]))
  }

  function Prepend(c: char, parts: seq<string>): (r: seq<string>)
    requires |parts| >= 1
    ensures |r| >= 1
  {
    if c == '/' then [""] + parts else [[c] + parts[0]] + parts[1..]
  }

  function Join(parts: seq<string>): string {
    if parts == [] then ""
    else if |parts| == 1 then parts[0]
    else parts[0] + "/" + Join(parts[1..])
  }

  predicate Slashless(s: string) { '/' !in s }

  lemma {:induction false} SplitJoins(s: string)
    ensures Join(Split(s)) == s
    ensures forall i :: 0 <= i < |Split(s)| ==> Slashless(Split(s)[i])
  {
    if s != "" {
      SplitJoins(s[1..]);
      PrependJoins(s[0], Split(s[1..]));
      assert s == [s[0]] + s[1..];
    }
  }

  lemma PrependJoins(c: char, parts: seq<string>)
    requires |parts| >= 1 && forall i :: 0 <= i < |parts| ==> Slashless(parts[i])
    ensures Join(Prepend(c, parts)) == [c] + Join(parts)
    ensures forall i :: 0 <= i < |Prepend(c, parts)| ==> Slashless(Prepend(c, parts)[i])
  {
    if c == '/' {
      assert ([""] + parts)[1..] == parts;
      assert "" + "/" + Join(parts) == [c] + Join(parts);
    } else {
      assert Prepend(c, parts)[1..] == parts[1..];
      if |parts| > 1 {
        assert [c] + parts[0] + "/" + Join(parts[1..]) == [c] + (parts[0] + "/" + Join(parts[1..]));
      }
    }
  }

  lemma {:induction false} SplitPrefix(a: string, s: string)
    requires Slashless(a)
    ensures Split(a + "/" + s) == [a] + Split(s)
  {
    if a == "" {
      assert a + "/" + s == "/" + s;
    } else {
      assert Slashless(a[1..]);
      SplitPrefix(a[1..], s);
      assert (a + "/" + s)[1..] == a[1..] + "/" + s;
      assert a == [a[0]] + a[1..];
    }
  }

  lemma {:induction false} SplitSlashless(a: string)
    requires Slashless(a)
    ensures Split(a) == [a]
  {
    if a != "" {
      SplitSlashless(a[1..]);
      assert a == [a[0]] + a[1..];
    }
  }

  lemma {:induction false} JoinSplits(parts: seq<string>)
    requires parts != []
    requires forall i :: 0 <= i < |parts| ==> Slashless(parts[i])
    ensures Split(Join(parts)) == parts
  {
    if |parts| == 1 {
      SplitSlashless(parts[0]);
    } else {
      JoinSplits(parts[1..]);
      SplitPrefix(parts[0], Join(parts[1..]));
    }
  }

  lemma {:induction false} SplitConcat(a: string, b: string)
    ensures Split(a + "/" + b) == Split(a) + Split(b)
  {
    if a == "" {
      assert a + "/" + b == "/" + b;
    } else {
      SplitConcat(a[1..], b);
      PrependConcat(a[0], Split(a[1..]), Split(b));
      assert (a + "/" + b)[1..] == a[1..] + "/" + b;
    }
  }

  lemma PrependConcat(c: char, x: seq<string>, y: seq<string>)
    requires |x| >= 1
    ensures Prepend(c, x + y) == Prepend(c, x) + y
  {
    assert (x + y)[0] == x[0] && (x + y)[1..] == x[1..] + y;
  }

  // ----- Cleaning

  predicate Plain(seg: string) {
    seg != "" && seg != "." && seg != ".." && Slashless(seg)
  }

  predicate AllPlain(segs: seq<string>) {
    forall i :: 0 <= i < |segs| ==> Plain(segs[i])
  }

  function Push(rooted: bool, out: seq<string>, seg: string): seq<string> {
    if seg == "" || seg == "." then out
    else if seg == ".." then
      if out != [] && out[|out| - 1] != ".." then out[..|out| - 1]
      else if rooted then out
      else out + [".."]
    else out + [seg]
  }

  function Reduce(rooted: bool, parts: seq<string>, out: seq<string>): seq<string>
    decreases |parts|
  {
    if parts == [] then out else Reduce(rooted, parts[1..], Push(rooted, out, parts[0]))
  }

  predicate Rooted(s: string) { s != "" && s[0] == '/' }

  function Segments(s: string): seq<string> {
    Reduce(Rooted(s), Split(s), [])
  }

  function Render(rooted: bool, segs: seq<string>): string {
    if rooted then "/" + Join(segs)
    else if segs == [] then "."
    else Join(segs)
  }

  function Clean(s: string): string { Render(Rooted(s), Segments(s)) }

  function JoinPath(a: string, b: string): string {
    if a == "" then (if b == "" then "" else Clean(b))
    else if b == "" then Clean(a)
    else Clean(a + "/" + b)
  }

  lemma {:induction false} ReduceConcat(rooted: bool, a: seq<string>, b: seq<string>, out: seq<string>)
    ensures Reduce(rooted, a + b, out) == Reduce(rooted, b, Reduce(rooted, a, out))
    decreases |a|
  {
    if a == [] {
      assert a + b == b;
    } else {
      assert (a + b)[1..] == a[1..] + b;
      ReduceConcat(rooted, a[1..], b, Push(rooted, out, a[0]));
    }
  }

  lemma {:induction false} ReducePlain(rooted: bool, parts: seq<string>, out: seq<string>)
    requires AllPlain(parts)
    ensures Reduce(rooted, parts, out) == out + parts
    decreases |parts|
  {
    if parts != [] {
      assert Plain(parts[0]);
      assert forall i :: 0 <= i < |parts[1..]| ==> parts[1..][i] == parts[i + 1];
      ReducePlain(rooted, parts[1..], out + [parts[0]]);
      assert out + [parts[0]] + parts[1..] == out + parts;
    }
  }

  /** Reduced segments: some number of ".." (none when rooted), then plain segments. */
  ghost predicate Reduced(rooted: bool, segs: seq<string>) {
    && (forall i :: 0 <= i < |segs| ==> segs[i] == ".." || Plain(segs[i]))
    && (forall i :: 0 < i < |segs| && segs[i] == ".." ==> segs[i - 1] == "..")
    && (rooted && segs != [] ==> segs[0] != "..")
  }

  lemma {:induction false} ReduceReduced(rooted: bool, parts: seq<string>, out: seq<string>)
    requires Reduced(rooted, out)
    requires forall i :: 0 <= i < |parts| ==> Slashless(parts[i])
    ensures Reduced(rooted, Reduce(rooted, parts, out))
    decreases |parts|
  {
    if parts != [] {
      assert Slashless(parts[0]);
      var next := Push(rooted, out, parts[0]);
      assert Reduced(rooted, next) by {
        if rooted && parts[0] == ".." && out != [] { RootedHasNoDots(out, |out| - 1); }
      }
      assert forall i :: 0 <= i < |parts[1..]| ==> parts[1..][i] == parts[i + 1];
      ReduceReduced(rooted, parts[1..], next);
    }
  }

  lemma {:induction false} RootedHasNoDots(segs: seq<string>, i: nat)
    requires Reduced(true, segs) && i < |segs|
    ensures segs[i] != ".." && Plain(segs[i])
  {
    if segs[i] == ".." && i > 0 {
      RootedHasNoDots(segs, i - 1);
    }
  }

  lemma SegmentsReduced(s: string)
    ensures Reduced(Rooted(s), Segments(s))
  {
    SplitJoins(s);
    ReduceReduced(Rooted(s), Split(s), []);
  }

  lemma {:induction false} ReduceFixed(rooted: bool, segs: seq<string>, out: seq<string>)
    requires Reduced(rooted, out + segs)
    ensures Reduce(rooted, segs, out) == out + segs
    decreases |segs|
  {
    if segs == [] {
      assert out + segs == out;
    } else {
      var all := out + segs;
      var seg := segs[0];
      assert all[|out|] == seg;
      if seg == ".." {
        if rooted { RootedHasNoDots(all, |out|); }
        assert out != [] ==> all[|out| - 1] == "..";
      }
      assert Push(rooted, out, seg) == out + [seg];
      assert out + [seg] + segs[1..] == all;
      ReduceFixed(rooted, segs[1..], out + [seg]);
    }
  }

  /** What splitting a rendered path gives back. */
  function Parts(rooted: bool, segs: seq<string>): seq<string> {
    (if rooted then [""] else []) + (if segs != [] then segs else if rooted then [""] else ["."])
  }

  lemma RenderSplits(rooted: bool, segs: seq<string>)
    requires forall i :: 0 <= i < |segs| ==> Slashless(segs[i]) && segs[i] != ""
    ensures Rooted(Render(rooted, segs)) == rooted
    ensures Split(Render(rooted, segs)) == Parts(rooted, segs)
  {
    var tail := Join(segs);
    if segs == [] {
      SplitSlashless(".");
      SplitSlashless("");
    } else {
      JoinSplits(segs);
      JoinStart(segs);
    }
    if rooted {
      assert "/" + tail == "" + "/" + tail;
      SplitPrefix("", tail);
    }
  }

  lemma RenderParses(rooted: bool, segs: seq<string>)
    requires Reduced(rooted, segs)
    ensures Rooted(Render(rooted, segs)) == rooted
    ensures Segments(Render(rooted, segs)) == segs
  {
    forall i | 0 <= i < |segs| ensures Slashless(segs[i]) && segs[i] != "" {
      assert segs[i] == ".." || Plain(segs[i]);
    }
    RenderSplits(rooted, segs);
    var parts := Parts(rooted, segs);
    var core := if segs != [] then segs else if rooted then [""] else ["."];
    if rooted {
      assert parts[1..] == core;
    } else {
      assert parts == core;
    }
    assert Reduce(rooted, parts, []) == Reduce(rooted, core, []);
    if segs == [] {
      assert core[1..] == [];
    } else {
      ReduceFixed(rooted, segs, []);
      assert [] + segs == segs;
    }
  }

  lemma JoinStart(segs: seq<string>)
    requires segs != [] && segs[0] != "" && Slashless(segs[0])
    ensures Join(segs) != "" && !Rooted(Join(segs))
  {
    assert segs[0][0] in segs[0];
  }

  /** Cleaning twice changes nothing, and a cleaned path denotes the same segments. */
  lemma CleanIdempotent(s: string)
    ensures Clean(Clean(s)) == Clean(s)
    ensures Rooted(Clean(s)) == Rooted(s) && Segments(Clean(s)) == Segments(s)
  {
    SegmentsReduced(s);
    RenderParses(Rooted(s), Segments(s));
  }

  // ----- Absolute clean paths

  datatype Path = Path(volume: string, segs: seq<string>) {
    predicate Valid() { AllPlain(segs) }

    /** The containing directory; a root is its own. */
    function Dir(): Path {
      if segs == [] then this else Path(volume, segs[..|segs| - 1])
    }

    /** This path is q or lies above it. */
    predicate Contains(q: Path) { volume == q.volume && segs <= q.segs }

    function Child(below: seq<string>): Path { Path(volume, segs + below) }
  }

  /** filepath.Abs of a cleaned string, for a current directory without a volume. */
  function Resolve(cwd: Path, s: string): Path {
    if Rooted(s) then Path("", Segments(s))
    else Path("", Reduce(true, Split(s), cwd.segs))
  }

  lemma ResolveValid(cwd: Path, s: string)
    requires cwd.Valid()
    ensures Resolve(cwd, s).Valid()
  {
    SplitJoins(s);
    ReduceReduced(true, Split(s), if Rooted(s) then [] else cwd.segs);
    var segs := Resolve(cwd, s).segs;
    forall i | 0 <= i < |segs| ensures Plain(segs[i]) { RootedHasNoDots(segs, i); }
  }

  // ----- Taking the directory before resolving

  function Front<T>(s: seq<T>): seq<T> { if s == [] then [] else s[..|s| - 1] }

  /** filepath.Dir. */
  function DirString(s: string): string { Render(Rooted(s), Front(Segments(s))) }

  /** Reducing relative segments first and then from a directory is reducing from that directory. */
  lemma {:induction false} ReduceTwice(parts: seq<string>, out: seq<string>, base: seq<string>)
    requires Reduced(false, out) && forall i :: 0 <= i < |parts| ==> Slashless(parts[i])
    ensures Reduce(true, Reduce(false, parts, out), base) == Reduce(true, parts, Reduce(true, out, base))
    decreases |parts|
  {
    if parts != [] {
      var next := Push(false, out, parts[0]);
      assert Slashless(parts[0]);
      assert forall i :: 0 <= i < |parts[1..]| ==> parts[1..][i] == parts[i + 1];
      PushReduced(out, parts[0]);
      PushTwice(out, parts[0], base);
      ReduceTwice(parts[1..], next, base);
    }
  }

  lemma PushReduced(out: seq<string>, seg: string)
    requires Reduced(false, out) && Slashless(seg)
    ensures Reduced(false, Push(false, out, seg))
  {
  }

  lemma PushTwice(out: seq<string>, seg: string, base: seq<string>)
    requires Reduced(false, out)
    ensures Reduce(true, Push(false, out, seg), base) == Push(true, Reduce(true, out, base), seg)
  {
    if seg == ".." && out != [] && out[|out| - 1] != ".." {
      var front, last := out[..|out| - 1], out[|out| - 1];
      assert out == front + [last] && Plain(last);
      ReduceConcat(true, front, [last], base);
      ReduceOne(last, Reduce(true, front, base));
      var inner := Reduce(true, front, base);
      assert (inner + [last])[..|inner|] == inner;
    } else if seg != "" && seg != "." {
      ReduceConcat(true, out, [seg], base);
      ReduceOne(seg, Reduce(true, out, base));
    }
  }

  lemma ReduceOne(seg: string, out: seq<string>)
    ensures Reduce(true, [seg], out) == Push(true, out, seg)
  {
    assert [seg][1..] == [];
  }

  /** Going up from a directory ends at the root. */
  lemma {:induction false} ReduceUps(ups: seq<string>, base: seq<string>)
    requires AllPlain(base) && forall i :: 0 <= i < |ups| ==> ups[i] == ".."
    ensures Reduce(true, ups, base) == base[..if |ups| <= |base| then |base| - |ups| else 0]
    decreases |ups|
  {
    if ups != [] {
      assert base != [] ==> Plain(base[|base| - 1]);
      var next := Push(true, base, "..");
      assert forall i :: 0 <= i < |ups[1..]| ==> ups[1..][i] == ups[i + 1];
      ReduceUps(ups[1..], next);
    }
  }

  lemma {:induction false} UpsBelow(segs: seq<string>, i: nat)
    requires Reduced(false, segs) && segs != [] && segs[|segs| - 1] == ".." && i < |segs|
    ensures segs[i] == ".."
    decreases |segs| - i
  {
    if i < |segs| - 1 {
      UpsBelow(segs, i + 1);
    }
  }

  lemma ResolveSegments(cwd: Path, s: string)
    requires !Rooted(s)
    ensures Resolve(cwd, s).segs == Reduce(true, Segments(s), cwd.segs)
  {
    SplitJoins(s);
    ReduceTwice(Split(s), [], cwd.segs);
  }

  lemma DirStringSegments(s: string)
    ensures Rooted(DirString(s)) == Rooted(s) && Segments(DirString(s)) == Front(Segments(s))
  {
    SegmentsReduced(s);
    RenderParses(Rooted(s), Front(Segments(s)));
  }

  lemma DirIsFront(p: Path)
    ensures p.Dir() == Path(p.volume, Front(p.segs))
  {
  }

  /** Steps from the current directory to the root needed to make no difference between the two orders. */
  predicate NearRoot(cwd: Path, s: string) { |cwd.segs| <= |Front(Segments(s))| }

  /**
   Taking the directory of a path before or after resolving it gives the same, unless the path
   is relative and consists of nothing but steps up, and the current directory is not so close to the root
   that both arrive there.
   */
  lemma DirBeforeResolving(cwd: Path, s: string)
    requires cwd.Valid()
    ensures Resolve(cwd, DirString(s)) == Resolve(cwd, s).Dir()
       <==> Rooted(s) || (Segments(s) != [] && Segments(s)[|Segments(s)| - 1] != "..") || NearRoot(cwd, s)
  {
    var segs := Segments(s);
    SegmentsReduced(s);
    DirStringSegments(s);
    if !Rooted(s) {
      ResolveSegments(cwd, s);
      ResolveSegments(cwd, DirString(s));
      DirIsFront(Resolve(cwd, s));
      if segs == [] || segs[|segs| - 1] == ".." {
        UpsOnly(segs, cwd.segs);
      } else {
        PlainLast(segs, cwd.segs);
      }
    }
  }

  lemma UpsOnly(segs: seq<string>, base: seq<string>)
    requires Reduced(false, segs) && (segs == [] || segs[|segs| - 1] == "..") && AllPlain(base)
    ensures var whole, front := Reduce(true, segs, base), Reduce(true, Front(segs), base);
            front == Front(whole) <==> |base| <= |Front(segs)|
  {
    forall i | 0 <= i < |segs| ensures segs[i] == ".." { UpsBelow(segs, i); }
    ReduceUps(segs, base);
    ReduceUps(Front(segs), base);
    var n := |base|;
    var a, b := if |segs| <= n then n - |segs| else 0, if |Front(segs)| <= n then n - |Front(segs)| else 0;
    assert |Front(base[..a])| == if a == 0 then 0 else a - 1;
    assert b == 0 ==> base[..b] == [] && base[..a] == [];
  }

  lemma PlainLast(segs: seq<string>, base: seq<string>)
    requires Reduced(false, segs) && segs != [] && segs[|segs| - 1] != ".."
    ensures Reduce(true, Front(segs), base) == Front(Reduce(true, segs, base))
    ensures Reduce(true, segs, base) != []
  {
    var last := segs[|segs| - 1];
    assert segs == Front(segs) + [last] && Plain(last);
    ReduceConcat(true, Front(segs), [last], base);
    ReduceOne(last, Reduce(true, Front(segs), base));
  }

  // ----- Relative names

  function CommonLength(a: seq<string>, b: seq<string>): (n: nat)
    ensures n <= |a| && n <= |b| && a[..n] == b[..n]
    ensures n < |a| && n < |b| ==> a[n] != b[n]
  {
    if a != [] && b != [] && a[0] == b[0] then
      var n := CommonLength(a[1..], b[1..]);
      assert a[..n + 1] == [a[0]] + a[1..][..n] && b[..n + 1] == [b[0]] + b[1..][..n];
      n + 1
    else 0
  }

  function Ups(n: nat): (u: seq<string>)
    ensures |u| == n && forall i :: 0 <= i < n ==> u[i] == ".."
  {
    seq(n, _ => "..")
  }

  /** filepath.Rel followed by ToSlash; there is no relative path between volumes. */
  function Rel(base: Path, target: Path): Option<string> {
    if base.volume != target.volume then None
    else
      var n := CommonLength(base.segs, target.segs);
      var steps := Ups(|base.segs| - n) + target.segs[n..];
      Some(if steps == [] then "." else Join(steps))
  }

  predicate StartsWith(s: string, prefix: string) { prefix <= s }

  /** The test both callers of Rel apply to its result. */
  predicate Rises(rel: string) { StartsWith(rel, "../") || rel == ".." }

  lemma JoinRises(steps: seq<string>)
    requires steps != []
    requires forall i :: 0 <= i < |steps| ==> Slashless(steps[i])
    ensures Rises(Join(steps)) <==> steps[0] == ".."
  {
    JoinSplits(steps);
    if Rises(Join(steps)) {
      RisesSplit(Join(steps));
    }
    if steps[0] == ".." && |steps| > 1 {
      DotsRise(Join(steps[1..]));
    }
  }

  lemma RisesSplit(s: string)
    requires Rises(s)
    ensures Split(s)[0] == ".."
  {
    if s == ".." {
      SplitSlashless("..");
    } else {
      SplitPrefix("..", s[3..]);
      assert s == ".." + "/" + s[3..];
    }
  }

  lemma DotsRise(rest: string)
    ensures Rises(".." + "/" + rest)
  {
    assert (".." + "/" + rest)[..3] == "../";
  }

  lemma {:induction false} PrefixCommonLength(a: seq<string>, b: seq<string>)
    ensures a <= b <==> CommonLength(a, b) == |a|
  {
    if a != [] && b != [] && a[0] == b[0] {
      PrefixCommonLength(a[1..], b[1..]);
      assert a <= b <==> a[1..] <= b[1..] by {
        assert a == [a[0]] + a[1..] && b == [b[0]] + b[1..];
      }
    }
  }

  /** The relative path stays inside exactly when the base contains the target. */
  lemma RelRises(base: Path, target: Path)
    requires base.Valid() && target.Valid() && base.volume == target.volume
    ensures Rel(base, target).Some?
    ensures Rises(Rel(base, target).value) <==> !base.Contains(target)
    ensures base.Contains(target) ==>
              Rel(base, target).value ==
              if target.segs == base.segs then "." else Join(target.segs[|base.segs|..])
  {
    PrefixCommonLength(base.segs, target.segs);
    var n := CommonLength(base.segs, target.segs);
    var steps := Ups(|base.segs| - n) + target.segs[n..];
    forall i | 0 <= i < |steps|
      ensures Slashless(steps[i])
      ensures i == 0 ==> (steps[0] == ".." <==> n < |base.segs|)
    {
      assert i >= |base.segs| - n ==> steps[i] == target.segs[n..][i - (|base.segs| - n)];
      assert i >= |base.segs| - n ==> Plain(target.segs[n + i - (|base.segs| - n)]);
    }
    if steps != [] {
      JoinRises(steps);
    }
    assert n == |base.segs| ==> steps == target.segs[n..];
    assert base.segs == base.segs[..|base.segs|];
  }
}
