/** Directory trees as the publisher without a working copy sees them: paths relative to the
    root, each a file with its bytes or a directory (cmd/filees-client/nwc.go). */
module NwcTree {
  import Paths

  type Path = seq<string>
  datatype Node = File(bytes: string) | Dir
  type Tree = map<Path, Node>

  /** What any real tree satisfies: nothing exists without its parent directory. */
  predicate Closed(t: Tree) {
    Paths.Closed(t, Dir)
  }

  /** `q` lies strictly below `p`. */
  predicate Below(p: Path, q: Path) {
    |p| < |q| && q[..|p|] == p
  }

  lemma {:induction false} AncestorIsDir(t: Tree, p: Path, q: Path)
    requires Closed(t) && q in t && |p| > 0 && Below(p, q)
    ensures p in t && t[p] == Dir
  {
    var up := Paths.Parent(q);
    if |up| > |p| {
      assert Below(p, up);
      AncestorIsDir(t, p, up);
    } else {
      assert up == p;
    }
  }
}
