/** Where the mirror puts a file (src/data/storage_utils.cpp:27-33, 196-209, 272-288). */
module Storage {
  import opened Basics

  /** `src` is the root or stands below it (:198-205). */
  predicate UnderRoot(src: string, root: string) {
    && |src| >= |root|
    && src[..|root|] == root
    && (|src| == |root| || src[|root|] == '/')
  }

  /** FindNvmeRootForPath: the first candidate that holds the path, or nothing. */
  function FindRoot(roots: seq<string>, src: string): (r: Option<string>)
    ensures r.Some? ==> r.value in roots && UnderRoot(src, r.value)
    ensures r.None? ==> forall root :: root in roots ==> !UnderRoot(src, root)
  {
    if roots == [] then None
    else if UnderRoot(src, roots[0]) then Some(roots[0])
    else FindRoot(roots[1..], src)
  }

  /** What follows the last slash. */
  function Basename(path: string): (r: string)
    ensures '/' !in r
    ensures |r| <= |path| && path[|path| - |r|..] == r && (|r| < |path| ==> path[|path| - |r| - 1] == '/')
  {
    if path == [] || path[|path| - 1] == '/' then []
    else Basename(path[..|path| - 1]) + [path[|path| - 1]]
  }

  /** The path below the root, without the slash between. */
  function Relative(src: string, root: string): string
    requires UnderRoot(src, root)
  {
    if |src| > |root| then src[|root| + 1..] else []
  }

  function Below(rel: string): string {
    if rel == [] then [] else "/" + rel
  }

  /** MirrorDestinationPathToRoot; empty when the path is below no root or there is no backup. */
  function Destination(roots: seq<string>, src: string, backup: string): string {
    var root := FindRoot(roots, src);
    if root.None? || root.value == [] || backup == [] then []
    else backup + "/" + Basename(root.value) + Below(Relative(src, root.value))
  }

  /** The root found is the first candidate that holds the path. */
  lemma {:induction false} FirstRootIsFound(roots: seq<string>, src: string, i: nat)
    requires i < |roots| && UnderRoot(src, roots[i]) && forall j :: 0 <= j < i ==> !UnderRoot(src, roots[j])
    ensures FindRoot(roots, src) == Some(roots[i])
  {
    if i > 0 { FirstRootIsFound(roots[1..], src, i - 1); }
  }

  lemma BelowIsRelative(top: string, rel: string)
    ensures UnderRoot(top + Below(rel), top) && Relative(top + Below(rel), top) == rel
  {
  }

  /** A copy lands in the backup, in a directory with the name of the disk, at the path it has on that disk; there is
      no destination exactly when the path is on no disk with a name or there is no backup. */
  lemma DestinationIsInBackup(roots: seq<string>, src: string, backup: string)
    ensures var dst, root := Destination(roots, src, backup), FindRoot(roots, src);
      && (dst == [] <==> root.None? || root.value == [] || backup == [])
      && (dst != [] ==>
            var top := backup + "/" + Basename(root.value);
            && UnderRoot(dst, backup) && UnderRoot(dst, top)
            && Relative(dst, top) == Relative(src, root.value))
  {
    var dst, root := Destination(roots, src, backup), FindRoot(roots, src);
    if root.Some? && root.value != [] && backup != [] {
      var slash: string := "/";
      var name, rest := Basename(root.value), Below(Relative(src, root.value));
      BelowIsRelative(backup + slash + name, Relative(src, root.value));
      StartsWithBackup(backup, slash, name, rest);
    }
  }

  lemma StartsWithBackup(backup: string, slash: string, name: string, rest: string)
    requires slash == "/"
    ensures UnderRoot(backup + slash + name + rest, backup)
  {
    var dst := backup + slash + name + rest;
    assert dst[..|backup|] == backup && dst[|backup|] == '/';
  }

  lemma {:induction false} FirstPartIsUnique(a: string, x: string, b: string, y: string)
    requires '/' !in a && '/' !in b
    requires x == [] || x[0] == '/'
    requires y == [] || y[0] == '/'
    requires a + x == b + y
    ensures a == b && x == y
  {
    var s := a + x;
    assert a == [] ==> s == x;
    assert b == [] ==> s == y;
    assert a != [] ==> s[0] == a[0];
    assert b != [] ==> s[0] == b[0];
    if a != [] && b != [] {
      assert s[1..] == a[1..] + x == b[1..] + y;
      FirstPartIsUnique(a[1..], x, b[1..], y);
      assert a == [a[0]] + a[1..] && b == [b[0]] + b[1..];
    }
  }

  /** Candidates are told apart by their last component. */
  ghost predicate DistinctNames(roots: seq<string>) {
    forall r, q :: r in roots && q in roots && Basename(r) == Basename(q) ==> r == q
  }

  /** Two paths below the candidates get the same destination exactly when they are below the same root with the
      same relative path. */
  lemma DestinationsAgreeIff(roots: seq<string>, src: string, other: string, backup: string)
    requires DistinctNames(roots) && [] !in roots && backup != []
    requires FindRoot(roots, src).Some? && FindRoot(roots, other).Some?
    ensures Destination(roots, src, backup) == Destination(roots, other, backup) <==>
      (FindRoot(roots, src) == FindRoot(roots, other)
       && Relative(src, FindRoot(roots, src).value) == Relative(other, FindRoot(roots, other).value))
  {
    var r, q := FindRoot(roots, src).value, FindRoot(roots, other).value;
    var a, b := Basename(r), Basename(q);
    var x, y := Below(Relative(src, r)), Below(Relative(other, q));
    var top := backup + "/";
    Assoc(top, a, x);
    Assoc(top, b, y);
    if Destination(roots, src, backup) == Destination(roots, other, backup) {
      var d := top + (a + x);
      assert a + x == d[|top|..] == b + y;
      FirstPartIsUnique(a, x, b, y);
      assert Relative(src, r) == (if x == [] then [] else x[1..]);
      assert Relative(other, q) == (if y == [] then [] else y[1..]);
    }
  }

  /** So no two files strictly below the disks are copied to the same place. */
  lemma FilesKeepApart(roots: seq<string>, src: string, other: string, backup: string)
    requires DistinctNames(roots) && [] !in roots && backup != []
    requires FindRoot(roots, src).Some? && |src| > |FindRoot(roots, src).value| + 1
    requires FindRoot(roots, other).Some? && |other| > |FindRoot(roots, other).value| + 1
    requires src != other
    ensures Destination(roots, src, backup) != Destination(roots, other, backup)
  {
    DestinationsAgreeIff(roots, src, other, backup);
    SourceIsRebuilt(src, FindRoot(roots, src).value);
    SourceIsRebuilt(other, FindRoot(roots, other).value);
  }

  lemma SourceIsRebuilt(src: string, root: string)
    requires UnderRoot(src, root) && |src| > |root|
    ensures src == root + "/" + Relative(src, root)
  {
    assert src[..|root|] + [src[|root|]] + src[|root| + 1..] == src;
  }
}
