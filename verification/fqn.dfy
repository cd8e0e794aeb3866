/** `FQN`: a fully qualified name cut at its dots into the simple name, the
    package name and the directory path of the generated file. */
module Fqn {
  import opened Text

  function Segments(fqn: string): (r: seq<string>)
    ensures |r| >= 1
  {
    Split(fqn, ".")
  }

  /** `name`: the last dot-separated segment. */
  function Name(fqn: string): (r: string)
    ensures !Contains(r, ".")
    ensures EndsWith(fqn, r)
  {
    var ns := Segments(fqn);
    SplitPieces(fqn, ".");
    JoinLast(ns, ".");
    assert ns[|ns| - 1] in ns;
    ns[|ns| - 1]
  }

  /** `packageName`: every segment but the last, joined with dots. */
  function PackageName(fqn: string): string
  {
    var ns := Segments(fqn);
    Join(ns[..|ns| - 1], ".")
  }

  /** `path`: the same segments joined with slashes. */
  function Path(fqn: string): string
  {
    var ns := Segments(fqn);
    Join(ns[..|ns| - 1], "/")
  }

  /** A dotted name is its package, a dot, and its simple name. */
  lemma PackageAndName(fqn: string)
    requires Contains(fqn, ".")
    ensures PackageName(fqn) + "." + Name(fqn) == fqn
  {
    var ns := Segments(fqn);
    SplitPieces(fqn, ".");
    assert |ns| >= 2;
    JoinLast(ns, ".");
    assert Join(ns, ".") == fqn;
    assert PackageName(fqn) == Join(ns[..|ns| - 1], ".");
    assert Name(fqn) == ns[|ns| - 1];
  }

  /** A name without dots has no package and no path. */
  lemma NoPackage(fqn: string)
    requires !Contains(fqn, ".")
    ensures Name(fqn) == fqn
    ensures PackageName(fqn) == "" && Path(fqn) == ""
  {
    SplitFirstPiece(fqn, ".");
  }

  /** The path is the package name with every dot turned into a slash. */
  lemma PathIsPackageWithSlashes(fqn: string)
    ensures Path(fqn) == Replace(PackageName(fqn), ".", "/")
  {
    var ns := Segments(fqn);
    var pkg := ns[..|ns| - 1];
    assert PackageName(fqn) == Join(pkg, ".") && Path(fqn) == Join(pkg, "/");
    if |pkg| >= 1 {
      SplitPieces(fqn, ".");
      assert forall i :: 0 <= i < |pkg| ==> pkg[i] in ns && !Contains(pkg[i], ".");
      SplitJoin(pkg, ".");
      assert Replace(Join(pkg, "."), ".", "/") == Join(Split(Join(pkg, "."), "."), "/");
    } else {
      assert PackageName(fqn) == "";
      SplitFirstPiece("", ".");
    }
  }
}
