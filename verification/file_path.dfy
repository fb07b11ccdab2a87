/** Go's lexical path handling on a '/'-separated file system (`path/filepath`
    on Linux): `Clean`, `Join` and `Rel`. Nothing here touches a file system. */
module FilePath {
  import opened Wrappers
  import opened Strings

  // Error messages; the values Go formats into them are left out.
  const ErrNotRelative: string := "Rel: can't make targpath relative to basepath"

  /** A component that lexical cleaning keeps as it is. */
  predicate Plain(c: string) {
    c != "" && c != "." && c != ".." && '/' !in c
  }

  /** The components of a cleaned path: none empty, none ".", none holding a
      '/', and ".." only as a leading run of a relative path. */
  predicate IsCleanComps(rooted: bool, comps: seq<string>) {
    && (forall i :: 0 <= i < |comps| ==> comps[i] != "" && comps[i] != "." && '/' !in comps[i])
    && (forall i :: 0 <= i < |comps| && comps[i] == ".." ==> !rooted && forall k :: 0 <= k < i ==> comps[k] == "..")
  }

  /** One step of cleaning: skip "" and ".", let ".." cancel the previous
      component (or stay, at the start of a relative path), keep the rest. */
  function Step(rooted: bool, acc: seq<string>, c: string): (r: seq<string>)
    requires IsCleanComps(rooted, acc) && '/' !in c
    ensures IsCleanComps(rooted, r)
  {
    if c == "" || c == "." then acc
    else if c == ".." then
      if |acc| > 0 && acc[|acc| - 1] != ".." then acc[..|acc| - 1]
      else if rooted then acc
      else acc + [".."]
    else acc + [c]
  }

  /** Cleaning folded over a sequence of components. */
  function Normalize(rooted: bool, acc: seq<string>, parts: seq<string>): (r: seq<string>)
    requires IsCleanComps(rooted, acc)
    requires forall i :: 0 <= i < |parts| ==> '/' !in parts[i]
    ensures IsCleanComps(rooted, r)
    decreases |parts|
  {
    if |parts| == 0 then acc else Normalize(rooted, Step(rooted, acc, parts[0]), parts[1..])
  }

  /** The text of a cleaned path. */
  function Render(rooted: bool, comps: seq<string>): string {
    if |comps| == 0 then (if rooted then "/" else ".")
    else (if rooted then "/" else "") + Join(comps, "/")
  }

  lemma CharInMeansContains(p: string, c: char)
    ensures c in p <==> Contains(p, [c])
  {
    if c in p {
      var j :| 0 <= j < |p| && p[j] == c;
      assert p[j..j + 1] == [c];
      assert OccursAt(p, [c], j);
    } else {
      IndexOfCharAbsent(p, c);
    }
  }

  lemma SplitPiecesNoSlash(s: string)
    ensures forall i :: 0 <= i < |Split(s, "/")| ==> '/' !in Split(s, "/")[i]
  {
    SplitPiecesFree(s, "/");
    forall i | 0 <= i < |Split(s, "/")|
      ensures '/' !in Split(s, "/")[i]
    {
      CharInMeansContains(Split(s, "/")[i], '/');
    }
  }

  lemma {:induction false} JoinSnoc(parts: seq<string>, sep: string)
    requires |parts| >= 2
    ensures Join(parts, sep) == Join(parts[..|parts| - 1], sep) + sep + parts[|parts| - 1]
  {
    if |parts| > 2 {
      JoinSnoc(parts[1..], sep);
      assert parts[1..][..|parts| - 2] == parts[..|parts| - 1][1..];
    }
  }

  lemma RenderSuffix(rooted: bool, comps: seq<string>)
    requires IsCleanComps(rooted, comps)
    ensures var r := Render(rooted, comps); r != "" && (HasSuffix(r, "/") ==> r == "/")
  {
    if |comps| >= 1 {
      var last := comps[|comps| - 1];
      var r := Render(rooted, comps);
      RenderEndsWithLast(rooted, comps);
      assert last != "" && '/' !in last;
      assert r[|r| - 1] == last[|last| - 1];
      assert r[|r| - 1] != '/';
      assert r[|r| - 1..] == [r[|r| - 1]];
    }
  }

  /** A rendered path with components ends with its last component. */
  lemma RenderEndsWithLast(rooted: bool, comps: seq<string>)
    requires |comps| >= 1
    ensures var r := Render(rooted, comps); var last := comps[|comps| - 1];
      |last| <= |r| && r[|r| - |last|..] == last
  {
    var last := comps[|comps| - 1];
    var lead := if rooted then "/" else "";
    var front := if |comps| >= 2 then lead + Join(comps[..|comps| - 1], "/") + "/" else lead;
    if |comps| >= 2 {
      JoinSnoc(comps, "/");
    }
    assert Render(rooted, comps) == front + last;
    SuffixOfConcat(front, last);
  }

  lemma SuffixOfConcat(a: string, b: string)
    ensures (a + b)[|a + b| - |b|..] == b
  {
    assert |a + b| - |b| == |a|;
  }

  /** Go's `filepath.Clean`: the shortest lexically equivalent path. */
  function Clean(path: string): (r: string)
    ensures r != ""
    ensures HasSuffix(r, "/") ==> r == "/"
    ensures |path| > 0 && path[0] == '/' ==> r[0] == '/'
  {
    if path == "" then "."
    else
      var rooted := path[0] == '/';
      SplitPiecesNoSlash(path);
      var comps := Normalize(rooted, [], Split(path, "/"));
      RenderSuffix(rooted, comps);
      Render(rooted, comps)
  }

  /** Go's `filepath.Join`: leading empty elements are dropped, the rest are
      joined with '/' and cleaned; all-empty input gives "". */
  function JoinPath(elems: seq<string>): (r: string)
    ensures (exists i :: 0 <= i < |elems| && elems[i] != "") ==> r != "" && Clean(r) == r
    ensures (forall i :: 0 <= i < |elems| ==> elems[i] == "") ==> r == ""
  {
    if |elems| == 0 then ""
    else if elems[0] != "" then
      CleanIdempotent(Join(elems, "/"));
      Clean(Join(elems, "/"))
    else
      assert forall i :: 1 <= i < |elems| ==> elems[1..][i - 1] == elems[i];
      JoinPath(elems[1..])
  }

  /** The `j`-th element as Go's `Rel` scans it: past the end it reads "". */
  function Comp(parts: seq<string>, j: nat): string {
    if j < |parts| then parts[j] else ""
  }

  /** The first index at which the two scans differ. */
  function FirstDiff(sb: seq<string>, st: seq<string>, j: nat): (r: Option<nat>)
    ensures r.Some? ==> j <= r.value && Comp(sb, r.value) != Comp(st, r.value)
    ensures r.Some? ==> forall k :: j <= k < r.value ==> Comp(sb, k) == Comp(st, k)
    ensures r.None? ==> forall k :: j <= k ==> Comp(sb, k) == Comp(st, k)
    decreases |sb| + |st| - j
  {
    if j >= |sb| && j >= |st| then None
    else if Comp(sb, j) != Comp(st, j) then Some(j)
    else FirstDiff(sb, st, j + 1)
  }

  /** `n` parent steps: "..", "../..", ... */
  function Parents(n: nat): string
    requires n >= 1
  {
    if n == 1 then ".." else ".." + "/" + Parents(n - 1)
  }

  /** Go's `filepath.Rel`: a path that, joined to `basepath`, names `targpath`.
      Go scans both cleaned paths element by element until they differ; that
      scan could only run forever if no element differed, and `ScansDiffer`
      shows that cleaned, distinct paths always differ somewhere. */
  function Rel(basepath: string, targpath: string): Result<string>
  {
    var base0 := Clean(basepath);
    var targ := Clean(targpath);
    if targ == base0 then Ok(".")
    else
      var base := if base0 == "." then "" else base0;
      var baseSlashed := |base| > 0 && base[0] == '/';
      var targSlashed := |targ| > 0 && targ[0] == '/';
      if baseSlashed != targSlashed then Err(ErrNotRelative)
      else
        var sb := Split(base, "/");
        var st := Split(targ, "/");
        ScansDiffer(base, targ);
        var j := FirstDiff(sb, st, 0).value;
        if Comp(sb, j) == ".." then Err(ErrNotRelative)
        else
          var baseRest := if j < |sb| then Join(sb[j..], "/") else "";
          var targRest := if j < |st| then Join(st[j..], "/") else "";
          if baseRest != "" then
            Ok(Parents(|sb| - j) + (if targRest != "" then "/" + targRest else ""))
          else Ok(targRest)
  }

  // ---------------------------------------------------------------------
  // Facts about cleaning

  lemma SplitSlash()
    ensures Split("/", "/") == ["", ""]
  {
    JoinSplitChar(["", ""], '/');
    assert Join(["", ""], "/") == "/";
  }

  lemma SplitDot()
    ensures Split(".", "/") == ["."]
  {
    IndexOfCharAbsent(".", '/');
  }

  /** Splitting a rendered non-empty path gives back its components (after a
      leading "" for a rooted path). */
  lemma SplitRender(rooted: bool, comps: seq<string>)
    requires IsCleanComps(rooted, comps) && |comps| >= 1
    ensures Split(Render(rooted, comps), "/") == (if rooted then [""] else []) + comps
  {
    var parts := (if rooted then [""] else []) + comps;
    if rooted {
      assert parts[1..] == comps;
      assert Join(parts, "/") == "" + "/" + Join(comps, "/");
    } else {
      assert parts == comps;
    }
    assert Join(parts, "/") == Render(rooted, comps);
    JoinSplitChar(parts, '/');
  }

  /** Cleaning leaves already-clean components alone. */
  lemma {:induction false} NormalizeCleanIdentity(rooted: bool, acc: seq<string>, comps: seq<string>)
    requires IsCleanComps(rooted, acc + comps)
    requires forall i :: 0 <= i < |comps| ==> '/' !in comps[i]
    ensures IsCleanComps(rooted, acc) && Normalize(rooted, acc, comps) == acc + comps
    decreases |comps|
  {
    assert forall i :: 0 <= i < |acc| ==> acc[i] == (acc + comps)[i];
    if |comps| > 0 {
      var c := comps[0];
      assert c == (acc + comps)[|acc|];
      if c == ".." {
        assert forall k :: 0 <= k < |acc| ==> acc[k] == "..";
      }
      assert Step(rooted, acc, c) == acc + [c];
      assert acc + [c] + comps[1..] == acc + comps;
      NormalizeCleanIdentity(rooted, acc + [c], comps[1..]);
    }
  }

  lemma NormalizeLeadingEmpty(rooted: bool, comps: seq<string>)
    requires IsCleanComps(rooted, comps)
    ensures Normalize(rooted, [], [""] + comps) == comps
  {
    assert ([""] + comps)[1..] == comps;
    NormalizeCleanIdentity(rooted, [], comps);
  }

  lemma JoinFirst(parts: seq<string>, sep: string)
    requires |parts| >= 1 && parts[0] != ""
    ensures Join(parts, sep)[0] == parts[0][0]
  {
    if |parts| >= 2 {
      assert Join(parts, sep) == parts[0] + sep + Join(parts[1..], sep);
    }
  }

  lemma CleanRoot()
    ensures Clean("/") == "/"
  {
    SplitSlash();
    assert Normalize(true, [], ["", ""]) == [];
  }

  lemma CleanDot()
    ensures Clean(".") == "."
  {
    SplitDot();
    assert Normalize(false, [], ["."]) == [];
  }

  lemma CleanRendered(rooted: bool, comps: seq<string>)
    requires IsCleanComps(rooted, comps) && |comps| >= 1
    ensures Clean(Render(rooted, comps)) == Render(rooted, comps)
  {
    var c := Render(rooted, comps);
    SplitRender(rooted, comps);
    if rooted {
      assert c[0] == '/';
      NormalizeLeadingEmpty(rooted, comps);
    } else {
      JoinFirst(comps, "/");
      assert comps[0][0] in comps[0];
      assert c[0] != '/';
      NormalizeCleanIdentity(rooted, [], comps);
      assert [] + comps == comps;
    }
  }

  /** Cleaning is idempotent. */
  lemma CleanIdempotent(path: string)
    ensures Clean(Clean(path)) == Clean(path)
  {
    if path != "" {
      var rooted := path[0] == '/';
      SplitPiecesNoSlash(path);
      var comps := Normalize(rooted, [], Split(path, "/"));
      if |comps| == 0 {
        if rooted { CleanRoot(); } else { CleanDot(); }
      } else {
        CleanRendered(rooted, comps);
      }
    } else {
      CleanDot();
    }
  }

  // ---------------------------------------------------------------------
  // Distinct cleaned paths differ at some element

  lemma {:induction false} SplitLastEmpty(s: string)
    requires |Split(s, "/")| >= 2 && Split(s, "/")[|Split(s, "/")| - 1] == ""
    ensures HasSuffix(s, "/")
  {
    var parts := Split(s, "/");
    SplitJoin(s, "/");
    JoinSnoc(parts, "/");
  }

  lemma {:induction false} SplitEqualJoin(sb: seq<string>, st: seq<string>)
    requires |sb| == |st|
    requires forall k :: 0 <= k ==> Comp(sb, k) == Comp(st, k)
    ensures sb == st
  {
    forall k | 0 <= k < |sb|
      ensures sb[k] == st[k]
    {
      assert Comp(sb, k) == Comp(st, k);
    }
  }

  /** When the base's scan ends first and the two agree throughout, the
      target is "/" and the base is empty. */
  lemma {:induction false} ShorterScan(base: string, targ: string)
    requires targ != "" && (HasSuffix(targ, "/") ==> targ == "/")
    requires |Split(base, "/")| < |Split(targ, "/")|
    requires forall k :: 0 <= k ==> Comp(Split(base, "/"), k) == Comp(Split(targ, "/"), k)
    ensures targ == "/" && base == ""
  {
    var sb := Split(base, "/");
    var st := Split(targ, "/");
    assert Comp(sb, |st| - 1) == Comp(st, |st| - 1);
    SplitLastEmpty(targ);
    SplitSlash();
    assert Comp(sb, 0) == Comp(st, 0);
    assert sb == [""];
    SplitJoin(base, "/");
  }

  lemma EqualScans(base: string, targ: string)
    requires |Split(base, "/")| == |Split(targ, "/")|
    requires forall k :: 0 <= k ==> Comp(Split(base, "/"), k) == Comp(Split(targ, "/"), k)
    ensures base == targ
  {
    SplitEqualJoin(Split(base, "/"), Split(targ, "/"));
    SplitJoin(base, "/");
    SplitJoin(targ, "/");
  }

  /** Two different paths in the shape `Rel` compares always differ at some
      element of their scans. */
  lemma ScansDiffer(base: string, targ: string)
    requires base != targ && targ != ""
    requires HasSuffix(base, "/") ==> base == "/"
    requires HasSuffix(targ, "/") ==> targ == "/"
    requires (|base| > 0 && base[0] == '/') == (targ[0] == '/')
    ensures FirstDiff(Split(base, "/"), Split(targ, "/"), 0).Some?
  {
    var sb := Split(base, "/");
    var st := Split(targ, "/");
    if FirstDiff(sb, st, 0).None? {
      if |sb| == |st| {
        EqualScans(base, targ);
      } else if |sb| < |st| {
        ShorterScan(base, targ);
      } else {
        ShorterScan(targ, base);
      }
    }
  }

  // ---------------------------------------------------------------------
  // A path below a base

  /** The cleaned components of a non-empty path. */
  function Components(path: string): (r: seq<string>)
    requires path != ""
    ensures IsCleanComps(path[0] == '/', r)
  {
    SplitPiecesNoSlash(path);
    Normalize(path[0] == '/', [], Split(path, "/"))
  }

  lemma {:induction false} JoinAppend(x: seq<string>, y: seq<string>, sep: string)
    requires |x| >= 1 && |y| >= 1
    ensures Join(x + y, sep) == Join(x, sep) + sep + Join(y, sep)
    decreases |x|
  {
    if |x| == 1 {
      assert (x + y)[1..] == y;
    } else {
      JoinAppend(x[1..], y, sep);
      assert (x + y)[1..] == x[1..] + y;
    }
  }

  /** Splitting at a '/' placed between two strings splits each of them. */
  lemma SplitAppend(a: string, b: string)
    ensures Split(a + "/" + b, "/") == Split(a, "/") + Split(b, "/")
  {
    var pa := Split(a, "/");
    var pb := Split(b, "/");
    SplitJoin(a, "/");
    SplitJoin(b, "/");
    JoinAppend(pa, pb, "/");
    SplitPiecesNoSlash(a);
    SplitPiecesNoSlash(b);
    var parts := pa + pb;
    forall k | 0 <= k < |parts|
      ensures '/' !in parts[k]
    {
      if k >= |pa| {
        assert parts[k] == pb[k - |pa|];
      }
    }
    JoinSplitChar(parts, '/');
  }

  lemma {:induction false} NormalizeAppend(rooted: bool, acc: seq<string>, x: seq<string>, y: seq<string>)
    requires IsCleanComps(rooted, acc)
    requires forall i :: 0 <= i < |x| ==> '/' !in x[i]
    requires forall i :: 0 <= i < |y| ==> '/' !in y[i]
    ensures forall i :: 0 <= i < |x + y| ==> '/' !in (x + y)[i]
    ensures Normalize(rooted, acc, x + y) == Normalize(rooted, Normalize(rooted, acc, x), y)
    decreases |x|
  {
    assert forall i :: 0 <= i < |x + y| ==> (x + y)[i] == if i < |x| then x[i] else y[i - |x|];
    if |x| == 0 {
      assert x + y == y;
    } else {
      assert (x + y)[1..] == x[1..] + y;
      NormalizeAppend(rooted, Step(rooted, acc, x[0]), x[1..], y);
    }
  }

  /** Cleaning `a/tail` continues from the cleaned components of `a`. */
  lemma CleanBelow(a: string, tail: string)
    requires a != ""
    ensures Clean(a) == Render(a[0] == '/', Components(a))
    ensures forall i :: 0 <= i < |Split(tail, "/")| ==> '/' !in Split(tail, "/")[i]
    ensures Clean(a + "/" + tail) == Render(a[0] == '/', Normalize(a[0] == '/', Components(a), Split(tail, "/")))
  {
    var s := a + "/" + tail;
    assert s[0] == a[0];
    SplitAppend(a, tail);
    SplitPiecesNoSlash(a);
    SplitPiecesNoSlash(tail);
    NormalizeAppend(a[0] == '/', [], Split(a, "/"), Split(tail, "/"));
  }

  lemma {:induction false} FirstDiffExtension(sb: seq<string>, n: seq<string>, j: nat)
    requires |n| >= 1 && n[0] != "" && j <= |sb|
    ensures FirstDiff(sb, sb + n, j) == Some(|sb|)
    decreases |sb| - j
  {
    if j < |sb| {
      assert Comp(sb, j) == Comp(sb + n, j);
      FirstDiffExtension(sb, n, j + 1);
    } else {
      assert Comp(sb + n, j) == n[0];
    }
  }

  lemma ConcatAssoc(x: seq<string>, y: seq<string>, z: seq<string>)
    ensures x + (y + z) == (x + y) + z
  {
  }

  /** `Rel` of two cleaned paths whose scans agree up to the end of the base. */
  lemma RelOfScans(base: string, targ: string, sb: seq<string>, n: seq<string>)
    requires Clean(base) == base && Clean(targ) == targ && base != targ && base != "."
    requires |base| > 0 && |targ| > 0 && base[0] == targ[0]
    requires Split(base, "/") == sb && Split(targ, "/") == sb + n
    requires |n| >= 1 && n[0] != ""
    ensures Rel(base, targ) == Ok(Join(n, "/"))
  {
    FirstDiffExtension(sb, n, 0);
    assert Comp(sb, |sb|) == "";
    assert (sb + n)[|sb|..] == n;
  }

  /** Relative to a cleaned path, a cleaned path that extends it by some
      components is named by those components alone. */
  lemma RelExtension(rooted: bool, b: seq<string>, n: seq<string>)
    requires IsCleanComps(rooted, b + n) && |b| >= 1 && |n| >= 1
    ensures IsCleanComps(rooted, b)
    ensures Rel(Render(rooted, b), Render(rooted, b + n)) == Ok(Join(n, "/"))
  {
    assert forall i :: 0 <= i < |b| ==> b[i] == (b + n)[i];
    assert n[0] == (b + n)[|b|];
    var base := Render(rooted, b);
    var targ := Render(rooted, b + n);
    CleanRendered(rooted, b);
    CleanRendered(rooted, b + n);
    SplitRender(rooted, b);
    SplitRender(rooted, b + n);
    var pre: seq<string> := if rooted then [""] else [];
    var sb := pre + b;
    ConcatAssoc(pre, b, n);
    assert |Split(targ, "/")| != |Split(base, "/")|;
    SplitDot();
    assert base != ".";
    if !rooted {
      JoinFirst(b, "/");
      JoinFirst(b + n, "/");
    }
    assert base[0] == targ[0];
    RelOfScans(base, targ, sb, n);
  }

  /** The non-empty pieces, in order. */
  function NonEmpty(parts: seq<string>): (r: seq<string>)
    ensures forall i :: 0 <= i < |r| ==> r[i] != ""
  {
    if |parts| == 0 then []
    else (if parts[0] == "" then [] else [parts[0]]) + NonEmpty(parts[1..])
  }

  lemma {:induction false} NonEmptyKeeps(parts: seq<string>)
    requires forall i :: 0 <= i < |parts| ==> parts[i] != ""
    ensures NonEmpty(parts) == parts
    decreases |parts|
  {
    if |parts| > 0 {
      NonEmptyKeeps(parts[1..]);
      assert parts == [parts[0]] + parts[1..];
    }
  }

  /** Cleaning drops empty pieces and keeps plain ones. */
  lemma {:induction false} NormalizePlainOrEmpty(rooted: bool, acc: seq<string>, parts: seq<string>)
    requires IsCleanComps(rooted, acc)
    requires forall i :: 0 <= i < |parts| ==> parts[i] == "" || Plain(parts[i])
    ensures forall i :: 0 <= i < |parts| ==> '/' !in parts[i]
    ensures Normalize(rooted, acc, parts) == acc + NonEmpty(parts)
    decreases |parts|
  {
    if |parts| > 0 {
      var c := parts[0];
      var tail := parts[1..];
      assert forall i :: 0 <= i < |tail| ==> tail[i] == parts[i + 1];
      var next := Step(rooted, acc, c);
      NormalizePlainOrEmpty(rooted, next, tail);
      NormalizeUnfold(rooted, acc, parts);
      StepPlainOrEmpty(rooted, acc, c);
      var head := if c == "" then [] else [c];
      assert NonEmpty(parts) == head + NonEmpty(tail);
      ConcatAssoc(acc, head, NonEmpty(tail));
    }
  }

  /** One unfolding of `Normalize`. */
  lemma NormalizeUnfold(rooted: bool, acc: seq<string>, parts: seq<string>)
    requires IsCleanComps(rooted, acc) && |parts| > 0
    requires forall i :: 0 <= i < |parts| ==> '/' !in parts[i]
    ensures Normalize(rooted, acc, parts) == Normalize(rooted, Step(rooted, acc, parts[0]), parts[1..])
  {
  }

  /** A cleaning step skips an empty piece and appends a plain one. */
  lemma StepPlainOrEmpty(rooted: bool, acc: seq<string>, c: string)
    requires IsCleanComps(rooted, acc) && (c == "" || Plain(c))
    ensures Step(rooted, acc, c) == (if c == "" then acc else acc + [c])
  {
  }
}
