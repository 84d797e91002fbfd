/**
 * The filesystem as the organiser sees it: a finite map from absolute paths to
 * the kind of entry found there, together with the three primitives that
 * change it (`Path.mkdir(parents=True, exist_ok=True)`, `Path.replace` and
 * `shutil.rmtree`).
 */
module FileSystems {
  import opened PurePaths

  /** What `lstat` reports for an entry. */
  datatype Kind =
    | File        // a regular file
    | Dir         // a directory
    | Special     // present, but neither a regular file nor a directory
    | BrokenLink  // a symbolic link whose target is missing

  type Tree = map<Path, Kind>

  /** Every ancestor of an entry is a directory entry. */
  ghost predicate WellFormed(t: Tree) {
    forall p, i {:trigger IsDir(t, p[..i])} :: p in t && 0 <= i < |p| ==> IsDir(t, p[..i])
  }

  /** `Path.exists()`: it follows symbolic links, so a broken link does not exist. */
  predicate Exists(t: Tree, p: Path) {
    p in t && t[p] != BrokenLink
  }

  /** `Path.is_dir()` */
  predicate IsDir(t: Tree, p: Path) {
    p in t && t[p] == Dir
  }

  /** `Path.is_file()` */
  predicate IsFile(t: Tree, p: Path) {
    p in t && t[p] == File
  }

  /** `p` itself and all its ancestors, the root included. */
  function Ancestors(p: Path): (s: set<Path>)
    ensures forall q :: q in s <==> IsPrefix(q, p)
  {
    set i | 0 <= i <= |p| :: p[..i]
  }

  // ---------------------------------------------------------------------------
  // mkdir(parents=True, exist_ok=True)
  // ---------------------------------------------------------------------------

  /**
   * `mkdir(parents=True, exist_ok=True)` on `p` succeeds exactly when no
   * ancestor-or-self of `p` is present as something other than a directory.
   */
  predicate CanMakeDirs(t: Tree, p: Path) {
    forall i :: 0 <= i <= |p| ==> p[..i] !in t || t[p[..i]] == Dir
  }

  /** The tree once every missing ancestor-or-self of `p` has been created. */
  function WithParents(t: Tree, p: Path): (r: Tree)
    ensures forall q :: q in r <==> q in t || IsPrefix(q, p)
    ensures forall q :: q in t ==> r[q] == t[q]
  {
    map q | q in t.Keys + Ancestors(p) :: if q in t then t[q] else Dir
  }

  lemma WithParentsWellFormed(t: Tree, p: Path)
    requires WellFormed(t) && CanMakeDirs(t, p)
    ensures WellFormed(WithParents(t, p))
    ensures IsDir(WithParents(t, p), p)
  {
    var r := WithParents(t, p);
    forall q, i | q in r && 0 <= i < |q| ensures IsDir(r, q[..i]) {
      if q in t {
        assert IsDir(t, q[..i]);
      } else {
        assert q == p[..|q|] && q[..i] == p[..i];
      }
    }
    assert p[..|p|] == p;
  }

  // ---------------------------------------------------------------------------
  // os.replace(src, dst)
  // ---------------------------------------------------------------------------

  /**
   * The conditions the tree imposes on a rename: the source is present and is
   * not a directory, the target is not a directory, and the target's parent is
   * a directory.
   */
  predicate CanReplace(t: Tree, src: Path, dst: Path) {
    && src in t && t[src] != Dir
    && (dst !in t || t[dst] != Dir)
    && |dst| > 0 && IsDir(t, Parent(dst))
  }

  /** The tree after renaming `src` to `dst`; whatever was at `dst` is replaced. */
  function Replaced(t: Tree, src: Path, dst: Path): Tree
    requires src in t
  {
    (t - {src})[dst := t[src]]
  }

  lemma ReplacedWellFormed(t: Tree, src: Path, dst: Path)
    requires WellFormed(t) && CanReplace(t, src, dst)
    ensures WellFormed(Replaced(t, src, dst))
  {
    var r := Replaced(t, src, dst);
    forall q, i | q in r && 0 <= i < |q| ensures IsDir(r, q[..i]) {
      var parent := Parent(dst);
      if q == dst && i == |parent| {
        assert q[..i] == parent;
      } else if q == dst {
        assert q[..i] == parent[..i] && IsDir(t, parent[..i]);
      } else {
        assert IsDir(t, q[..i]);
      }
    }
  }

  // ---------------------------------------------------------------------------
  // shutil.rmtree(p)
  // ---------------------------------------------------------------------------

  /** The tree once `p` and everything below it is gone. */
  function WithoutTree(t: Tree, p: Path): (r: Tree)
    ensures forall q :: q in r <==> q in t && !IsPrefix(p, q)
    ensures forall q :: q in r ==> r[q] == t[q]
  {
    map q | q in t && !IsPrefix(p, q) :: t[q]
  }

  lemma WithoutTreeWellFormed(t: Tree, p: Path)
    requires WellFormed(t)
    ensures WellFormed(WithoutTree(t, p))
  {
    var r := WithoutTree(t, p);
    forall q, i | q in r && 0 <= i < |q| ensures IsDir(r, q[..i]) {
      assert IsDir(t, q[..i]);
    }
  }

  /**
   * The mutable filesystem the executors work on. The primitives take, where
   * the operating system may refuse them for reasons the tree does not record
   * (permissions, a full device, an injected error), a `permitted` verdict.
   */
  class FileSystem {
    var entries: Tree

    ghost predicate Valid()
      reads this
    {
      WellFormed(entries)
    }

    constructor (initial: Tree)
      requires WellFormed(initial)
      ensures Valid() && entries == initial
    {
      entries := initial;
    }

    /** `Path(p).mkdir(parents=True, exist_ok=True)`; `ok` is false when it raises. */
    method MakeDirs(p: Path) returns (ok: bool)
      requires Valid()
      modifies this
      ensures Valid()
      ensures ok == CanMakeDirs(old(entries), p)
      ensures entries == if ok then WithParents(old(entries), p) else old(entries)
    {
      ok := CanMakeDirs(entries, p);
      if ok {
        WithParentsWellFormed(entries, p);
        entries := WithParents(entries, p);
      }
    }

    /** `Path(src).replace(dst)`; `ok` is false when it raises. */
    method Replace(src: Path, dst: Path, permitted: bool) returns (ok: bool)
      requires Valid()
      modifies this
      ensures Valid()
      ensures ok == (permitted && CanReplace(old(entries), src, dst))
      ensures entries == if ok then Replaced(old(entries), src, dst) else old(entries)
    {
      ok := permitted && CanReplace(entries, src, dst);
      if ok {
        ReplacedWellFormed(entries, src, dst);
        entries := Replaced(entries, src, dst);
      }
    }

    /**
     * `shutil.rmtree(p)`; `ok` is false when it raises, which it does for a
     * missing path and for anything that is not a directory.
     */
    method RemoveTree(p: Path, permitted: bool) returns (ok: bool)
      requires Valid()
      modifies this
      ensures Valid()
      ensures ok == (permitted && IsDir(old(entries), p))
      ensures entries == if ok then WithoutTree(old(entries), p) else old(entries)
    {
      ok := permitted && IsDir(entries, p);
      if ok {
        WithoutTreeWellFormed(entries, p);
        entries := WithoutTree(entries, p);
      }
    }
  }
}
