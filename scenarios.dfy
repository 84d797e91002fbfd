/**
 * Concrete runs of the executors on small trees, worked out from the model's
 * definitions: the renaming chain of `transfer_files` and the counts
 * `delete_dirs` reports for nested plans.
 */
module Scenarios {
  import opened PurePaths
  import opened FileSystems
  import opened Operations

  /** The suffix and stem pathlib computes for the names the renaming chain produces. */
  lemma NameParts()
    ensures Suffix("test.txt") == ".txt" && Stem("test.txt") == "test"
    ensures Suffix("test_1.txt") == ".txt" && Stem("test_1.txt") == "test_1"
  {
    LastDotIsLast("test.txt", 4);
    LastDotIsLast("test_1.txt", 6);
  }

  /** `test.txt` is renamed to `test_1.txt`, and that one to `test_1_2.txt`. */
  lemma RenamingChain()
    ensures Renamed(["dest", "test.txt"], 1) == ["dest", "test_1.txt"]
    ensures Renamed(["dest", "test_1.txt"], 2) == ["dest", "test_1_2.txt"]
    ensures Candidate(["dest", "test.txt"], 2) == ["dest", "test_1_2.txt"]
  {
    NameParts();
    assert DecimalString(1) == "1" && DecimalString(2) == "2";
    assert Stem("test.txt") + "_" + "1" + Suffix("test.txt") == "test_1.txt";
    assert Stem("test_1.txt") + "_" + "2" + Suffix("test_1.txt") == "test_1_2.txt";
    assert Candidate(["dest", "test.txt"], 1) == ["dest", "test_1.txt"];
  }

  /** A root holding `parent` and `parent/child`. */
  function NestedTree(): (t: Tree)
    ensures WellFormed(t)
  {
    var t := map[[] := Dir, ["parent"] := Dir, ["parent", "child"] := Dir];
    assert forall p, i :: p in t && 0 <= i < |p| ==> p[..i] == [] || p[..i] == ["parent"];
    t
  }

  /**
   * With the plan `[parent, parent/child]` the first removal takes the child
   * with it, so the second `rmtree` raises: both directories are gone but
   * only one removal is counted.
   */
  lemma NestedDeletionCountsOne()
    ensures DeleteRun(NestedTree(), [["parent"], ["parent", "child"]], [true, true], false)
            == (map[[] := Dir], 1)
  {
    var t := NestedTree();
    var plan: seq<Path> := [["parent"], ["parent", "child"]];
    var afterFirst := WithoutTree(t, ["parent"]);
    assert afterFirst == map[[] := Dir];
    assert DeleteRun(t, plan[..1], [true], false) == (afterFirst, 1) by {
      assert plan[..1][..0] == [];
    }
    assert !IsDir(afterFirst, ["parent", "child"]);
  }
}
