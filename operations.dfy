/**
 * The file-organising engine: the classifier (`get_folder_path`), the planner
 * (`create_plans`), the transfer executor (`transfer_files`) and the cleanup
 * executor (`delete_dirs`).
 *
 * Outcomes the tree alone does not decide (a rename or a recursive removal
 * that the operating system refuses) come from an oracle: one `permits` flag
 * per plan entry.
 */
module Operations {
  import opened PurePaths
  import opened FileSystems

  // ===========================================================================
  // Classifier
  // ===========================================================================

  /** One entry of the cleaning plan: a destination folder and the suffixes it collects. */
  datatype Rule = Rule(folder: Path, extensions: seq<string>)

  /** The file's suffix, dot included, is one of the rule's extensions (case-sensitively). */
  predicate Matches(rule: Rule, file: Path) {
    Suffix(Name(file)) in rule.extensions
  }

  /** None of the first `i` rules matches the file. */
  predicate NoEarlierMatch(cleaningPlan: seq<Rule>, file: Path, i: int)
    requires 0 <= i <= |cleaningPlan|
  {
    forall j :: 0 <= j < i ==> !Matches(cleaningPlan[j], file)
  }

  /**
   * `get_folder_path`: the folder of the first rule, in plan order, whose
   * extensions contain the file's suffix; the unrecognized folder when no rule
   * does (in particular when the plan is empty).
   */
  function GetFolderPath(file: Path, cleaningPlan: seq<Rule>, unrecognized: Path): (folder: Path)
    ensures NoEarlierMatch(cleaningPlan, file, |cleaningPlan|) ==> folder == unrecognized
    ensures forall i :: 0 <= i < |cleaningPlan| && Matches(cleaningPlan[i], file) && NoEarlierMatch(cleaningPlan, file, i)
                        ==> folder == cleaningPlan[i].folder
  {
    if |cleaningPlan| == 0 then unrecognized
    else if Matches(cleaningPlan[0], file) then cleaningPlan[0].folder
    else
      var rest := cleaningPlan[1..];
      assert forall i :: 1 <= i <= |cleaningPlan| && NoEarlierMatch(cleaningPlan, file, i)
                         ==> NoEarlierMatch(rest, file, i - 1);
      GetFolderPath(file, rest, unrecognized)
  }

  // ===========================================================================
  // Planner
  // ===========================================================================

  predicate NoDuplicates(s: seq<Path>) {
    forall i, j :: 0 <= i < j < |s| ==> s[i] != s[j]
  }

  /**
   * What `source_dir.rglob("*")` yields: every entry strictly below the root,
   * each once, in an order the model leaves open.
   */
  ghost predicate IsListing(t: Tree, root: Path, listing: seq<Path>) {
    && NoDuplicates(listing)
    && forall p :: p in listing <==> p in t && StrictlyBelow(root, p)
  }

  /** The entries strictly below `root` of kind `k`. */
  function KindBelow(t: Tree, root: Path, k: Kind): set<Path> {
    set p | p in t && StrictlyBelow(root, p) && t[p] == k
  }

  /** The entries of `listing` of kind `k`, in listing order. */
  function EntriesOfKind(t: Tree, listing: seq<Path>, k: Kind): seq<Path> {
    if |listing| == 0 then []
    else
      var last := listing[|listing| - 1];
      EntriesOfKind(t, listing[..|listing| - 1], k) + (if last in t && t[last] == k then [last] else [])
  }

  /** The transfer-plan entry for a file: the file and `destination_folder / file.name`. */
  function PlanEntry(file: Path, cleaningPlan: seq<Rule>, unrecognized: Path): (Path, Path) {
    (file, GetFolderPath(file, cleaningPlan, unrecognized) + [Name(file)])
  }

  /** The transfer plan `create_plans` builds from a listing. */
  function TransfersOf(t: Tree, listing: seq<Path>, cleaningPlan: seq<Rule>, unrecognized: Path): seq<(Path, Path)> {
    if |listing| == 0 then []
    else
      var last := listing[|listing| - 1];
      TransfersOf(t, listing[..|listing| - 1], cleaningPlan, unrecognized)
        + (if IsFile(t, last) then [PlanEntry(last, cleaningPlan, unrecognized)] else [])
  }

  /** The source paths of a transfer plan. */
  function Sources(plan: seq<(Path, Path)>): (s: seq<Path>)
    ensures |s| == |plan| && forall i :: 0 <= i < |plan| ==> s[i] == plan[i].0
  {
    seq(|plan|, i requires 0 <= i < |plan| => plan[i].0)
  }

  lemma {:induction false} EntriesOfKindMembers(t: Tree, listing: seq<Path>, k: Kind)
    ensures forall p :: p in EntriesOfKind(t, listing, k) <==> p in listing && p in t && t[p] == k
    ensures NoDuplicates(listing) ==> NoDuplicates(EntriesOfKind(t, listing, k))
  {
    if |listing| > 0 {
      var n := |listing| - 1;
      EntriesOfKindMembers(t, listing[..n], k);
      assert listing == listing[..n] + [listing[n]];
      if NoDuplicates(listing) {
        assert NoDuplicates(listing[..n]);
        assert listing[n] !in listing[..n];
      }
    }
  }

  lemma {:induction false} TransfersOfShape(t: Tree, listing: seq<Path>, cleaningPlan: seq<Rule>, unrecognized: Path)
    ensures Sources(TransfersOf(t, listing, cleaningPlan, unrecognized)) == EntriesOfKind(t, listing, File)
    ensures forall e :: e in TransfersOf(t, listing, cleaningPlan, unrecognized)
                        ==> e == PlanEntry(e.0, cleaningPlan, unrecognized)
  {
    if |listing| > 0 {
      TransfersOfShape(t, listing[..|listing| - 1], cleaningPlan, unrecognized);
    }
  }

  lemma {:induction false} DistinctCardinality(s: seq<Path>)
    requires NoDuplicates(s)
    ensures |set p | p in s| == |s|
  {
    if |s| > 0 {
      var n := |s| - 1;
      assert NoDuplicates(s[..n]);
      DistinctCardinality(s[..n]);
      assert (set p | p in s) == (set p | p in s[..n]) + {s[n]} by {
        assert s == s[..n] + [s[n]];
      }
      assert s[n] !in s[..n];
    }
  }

  /** Over a full listing, a plan of kind `k` holds exactly the entries of that kind below the root. */
  lemma PlanOfKind(t: Tree, root: Path, listing: seq<Path>, k: Kind)
    requires IsListing(t, root, listing)
    ensures forall p :: p in EntriesOfKind(t, listing, k) <==> p in KindBelow(t, root, k)
    ensures |EntriesOfKind(t, listing, k)| == |KindBelow(t, root, k)|
  {
    var plan := EntriesOfKind(t, listing, k);
    EntriesOfKindMembers(t, listing, k);
    assert (set p | p in plan) == KindBelow(t, root, k);
    DistinctCardinality(plan);
  }

  /** An empty source directory yields two empty plans. */
  lemma EmptySourceNoPlans(t: Tree, root: Path, listing: seq<Path>, cleaningPlan: seq<Rule>, unrecognized: Path)
    requires IsListing(t, root, listing)
    requires forall p :: p in t ==> !StrictlyBelow(root, p)
    ensures EntriesOfKind(t, listing, Dir) == [] && TransfersOf(t, listing, cleaningPlan, unrecognized) == []
  {
  }

  /**
   * `create_plans`: walks the listing once; directories go to the deletion
   * plan, regular files to the transfer plan with their classified
   * destination, and anything else (a broken link, a fifo) to neither.
   */
  method CreatePlans(fs: FileSystem, sourceDir: Path, cleaningPlan: seq<Rule>, unrecognized: Path, listing: seq<Path>)
    returns (transferPlan: seq<(Path, Path)>, deletePlan: seq<Path>)
    requires IsListing(fs.entries, sourceDir, listing)
    ensures deletePlan == EntriesOfKind(fs.entries, listing, Dir)
    ensures transferPlan == TransfersOf(fs.entries, listing, cleaningPlan, unrecognized)
    ensures forall p :: p in deletePlan <==> IsDir(fs.entries, p) && StrictlyBelow(sourceDir, p)
    ensures forall p :: p in Sources(transferPlan) <==> IsFile(fs.entries, p) && StrictlyBelow(sourceDir, p)
    ensures forall e :: e in transferPlan ==> e.1 == GetFolderPath(e.0, cleaningPlan, unrecognized) + [Name(e.0)]
    ensures forall e :: e in transferPlan ==> Name(e.1) == Name(e.0)
    ensures |deletePlan| == |KindBelow(fs.entries, sourceDir, Dir)|
    ensures |transferPlan| == |KindBelow(fs.entries, sourceDir, File)|
  {
    transferPlan, deletePlan := [], [];
    var i := 0;
    while i < |listing|
      invariant 0 <= i <= |listing|
      invariant deletePlan == EntriesOfKind(fs.entries, listing[..i], Dir)
      invariant transferPlan == TransfersOf(fs.entries, listing[..i], cleaningPlan, unrecognized)
    {
      var entry := listing[i];
      assert listing[..i + 1][..i] == listing[..i];
      if IsDir(fs.entries, entry) {
        deletePlan := deletePlan + [entry];
      } else if IsFile(fs.entries, entry) {
        var destinationFolder := GetFolderPath(entry, cleaningPlan, unrecognized);
        transferPlan := transferPlan + [(entry, destinationFolder + [Name(entry)])];
      }
      i := i + 1;
    }
    assert listing[..i] == listing;
    PlanOfKind(fs.entries, sourceDir, listing, Dir);
    PlanOfKind(fs.entries, sourceDir, listing, File);
    TransfersOfShape(fs.entries, listing, cleaningPlan, unrecognized);
    forall e | e in transferPlan ensures Name(e.1) == Name(e.0) {
      var folder := GetFolderPath(e.0, cleaningPlan, unrecognized);
      assert e.1 == folder + [Name(e.0)];
    }
  }

  // ===========================================================================
  // Collision resolution
  // ===========================================================================

  /** `d.with_name(f"{d.stem}_{copy}{d.suffix}")` */
  function Renamed(d: Path, copy: nat): (r: Path)
    requires |d| > 0
    ensures |r| == |d| && Parent(r) == Parent(d)
    ensures |Name(r)| > |Name(d)|
  {
    WithName(d, Stem(Name(d)) + "_" + DecimalString(copy) + Suffix(Name(d)))
  }

  /**
   * The destinations tried for `d`, in order: `d` itself, then each renaming
   * of the previous one, so `a.txt`, `a_1.txt`, `a_1_2.txt`, ...
   */
  function Candidate(d: Path, k: nat): (r: Path)
    requires |d| > 0
    ensures |r| == |d| && Parent(r) == Parent(d)
  {
    if k == 0 then d else Renamed(Candidate(d, k - 1), k)
  }

  /** The entries whose name is at least `n` characters long. */
  function LongNames(t: Tree, n: nat): set<Path> {
    set q | q in t && |Name(q)| >= n
  }

  /** A taken destination's entry leaves the measure once the name has grown. */
  lemma LongNamesShrink(t: Tree, d: Path, next: Path)
    requires Exists(t, d) && |Name(next)| > |Name(d)|
    ensures |LongNames(t, |Name(next)|)| < |LongNames(t, |Name(d)|)|
  {
    var shorter, longer := LongNames(t, |Name(next)|), LongNames(t, |Name(d)|);
    assert longer == shorter + (longer - shorter);
    assert d in longer - shorter;
  }

  /** The renaming loop from `d`, whose next copy number is `copy`. */
  function FreeFrom(t: Tree, d: Path, copy: nat): (r: Path)
    requires |d| > 0
    ensures |r| == |d| && Parent(r) == Parent(d) && !Exists(t, r)
    decreases |LongNames(t, |Name(d)|)|
  {
    if !Exists(t, d) then d
    else
      var next := Renamed(d, copy);
      LongNamesShrink(t, d, next);
      FreeFrom(t, next, copy + 1)
  }

  /** The collision-free destination `transfer_files` settles on for a planned one. */
  function EffectiveDestination(t: Tree, d: Path): Path
    requires |d| > 0
  {
    FreeFrom(t, d, 1)
  }

  /** One turn of the renaming loop: a taken `c` is replaced by its renaming. */
  lemma FreeFromUnfold(t: Tree, c: Path, copy: nat)
    requires |c| > 0 && Exists(t, c)
    ensures FreeFrom(t, c, copy) == FreeFrom(t, Renamed(c, copy), copy + 1)
    ensures |LongNames(t, |Name(Renamed(c, copy))|)| < |LongNames(t, |Name(c)|)|
  {
    LongNamesShrink(t, c, Renamed(c, copy));
  }

  lemma {:induction false} FreeFromFirstFree(t: Tree, d: Path, m: nat) returns (k: nat)
    requires |d| > 0
    ensures m <= k && FreeFrom(t, Candidate(d, m), m + 1) == Candidate(d, k)
    ensures forall j :: m <= j < k ==> Exists(t, Candidate(d, j))
    decreases |LongNames(t, |Name(Candidate(d, m))|)|
  {
    if !Exists(t, Candidate(d, m)) {
      k := m;
    } else {
      var c := Candidate(d, m);
      FreeFromUnfold(t, c, m + 1);
      assert Candidate(d, m + 1) == Renamed(c, m + 1);
      k := FreeFromFirstFree(t, d, m + 1);
      forall j | m <= j < k ensures Exists(t, Candidate(d, j)) {
        if j == m {
          assert Exists(t, c);
        }
      }
    }
  }

  /**
   * The effective destination is the first entry of `d`, `stem_1.suffix`,
   * `stem_1_2.suffix`, ... that does not exist; it keeps the planned parent
   * directory.
   */
  lemma EffectiveDestinationIsFirstFree(t: Tree, d: Path) returns (k: nat)
    requires |d| > 0
    ensures EffectiveDestination(t, d) == Candidate(d, k) && !Exists(t, Candidate(d, k))
    ensures forall j :: 0 <= j < k ==> Exists(t, Candidate(d, j))
    ensures Parent(EffectiveDestination(t, d)) == Parent(d)
  {
    assert Candidate(d, 0) == d;
    k := FreeFromFirstFree(t, d, 0);
  }

  /** The `while destination.exists()` loop of `transfer_files`. */
  method ResolveDestination(fs: FileSystem, d: Path) returns (destination: Path)
    requires |d| > 0
    ensures destination == EffectiveDestination(fs.entries, d)
    ensures !Exists(fs.entries, destination) && Parent(destination) == Parent(d)
  {
    var t := fs.entries;
    destination := d;
    var copyNumber: nat := 1;
    while Exists(t, destination)
      invariant |destination| == |d|
      invariant FreeFrom(t, destination, copyNumber) == EffectiveDestination(t, d)
      decreases |LongNames(t, |Name(destination)|)|
    {
      var next := Renamed(destination, copyNumber);
      LongNamesShrink(t, destination, next);
      destination := next;
      copyNumber := copyNumber + 1;
    }
  }

  // ===========================================================================
  // Transfer executor
  // ===========================================================================

  /** Every planned destination has a name (`with_name` raises on the root). */
  predicate Named(plan: seq<(Path, Path)>) {
    forall i :: 0 <= i < |plan| ==> |plan[i].1| > 0
  }

  /**
   * The body of the `transfer_files` loop for one entry outside a dry run:
   * the resulting tree and whether the entry was counted.
   */
  function TransferOne(t: Tree, source: Path, destination: Path, permitted: bool): (Tree, bool)
    requires |destination| > 0
  {
    var target := EffectiveDestination(t, destination);
    if !CanMakeDirs(t, Parent(target)) then (t, false)
    else
      var prepared := WithParents(t, Parent(target));
      if permitted && CanReplace(prepared, source, target) then (Replaced(prepared, source, target), true)
      else (prepared, false)
  }

  /** The `transfer_files` loop over a whole plan: the final tree and the count. */
  function TransferRun(t: Tree, plan: seq<(Path, Path)>, permits: seq<bool>, dryRun: bool): (r: (Tree, nat))
    requires |permits| == |plan| && Named(plan)
    ensures r.1 <= |plan|
    ensures dryRun ==> r == (t, 0)
    decreases |plan|
  {
    if |plan| == 0 then (t, 0)
    else
      var n := |plan| - 1;
      var before := TransferRun(t, plan[..n], permits[..n], dryRun);
      if dryRun then before
      else
        var step := TransferOne(before.0, plan[n].0, plan[n].1, permits[n]);
        (step.0, if step.1 then before.1 + 1 else before.1)
  }

  /**
   * One entry: it is counted exactly when the OS permits the rename, the
   * target's parent can be created and the source is present and not a
   * directory. A counted move takes the source's entry to the effective
   * destination, which did not exist; either way no other existing entry is
   * changed, the only entries added are the target and missing parent
   * directories, and an uncounted entry leaves every entry where it was.
   */
  lemma TransferOneEffect(t: Tree, source: Path, destination: Path, permitted: bool)
    requires WellFormed(t) && |destination| > 0
    ensures var target := EffectiveDestination(t, destination);
            var (after, moved) := TransferOne(t, source, destination, permitted);
            && (moved <==> permitted && CanMakeDirs(t, Parent(target)) && source in t && t[source] != Dir)
            && (moved ==> !Exists(t, target) && target in after && after[target] == t[source])
            && (moved && source != target ==> source !in after)
            && (forall q :: Exists(t, q) && q != source ==> q in after && after[q] == t[q])
            && (forall q :: q in after && q !in t ==> q == target || (IsPrefix(q, Parent(target)) && after[q] == Dir))
            && (!moved ==> forall q :: q in t ==> q in after && after[q] == t[q])
  {
    var target := EffectiveDestination(t, destination);
    var parent := Parent(target);
    assert !Exists(t, target);
    if CanMakeDirs(t, parent) {
      var prepared := WithParents(t, parent);
      WithParentsWellFormed(t, parent);
      assert !IsPrefix(target, parent);
      assert source in t ==> source in prepared && prepared[source] == t[source];
    }
  }

  lemma {:induction false} TransferOneWellFormed(t: Tree, source: Path, destination: Path, permitted: bool)
    requires WellFormed(t) && |destination| > 0
    ensures WellFormed(TransferOne(t, source, destination, permitted).0)
  {
    var target := EffectiveDestination(t, destination);
    var parent := Parent(target);
    if CanMakeDirs(t, parent) {
      var prepared := WithParents(t, parent);
      WithParentsWellFormed(t, parent);
      if permitted && CanReplace(prepared, source, target) {
        ReplacedWellFormed(prepared, source, target);
      }
    }
  }

  /** Transferring keeps the filesystem a tree. */
  lemma {:induction false} TransferRunWellFormed(t: Tree, plan: seq<(Path, Path)>, permits: seq<bool>, dryRun: bool)
    requires WellFormed(t) && |permits| == |plan| && Named(plan)
    ensures WellFormed(TransferRun(t, plan, permits, dryRun).0)
  {
    if |plan| > 0 && !dryRun {
      var n := |plan| - 1;
      assert Named(plan[..n]);
      TransferRunWellFormed(t, plan[..n], permits[..n], dryRun);
      TransferOneWellFormed(TransferRun(t, plan[..n], permits[..n], dryRun).0, plan[n].0, plan[n].1, permits[n]);
    }
  }

  /** A whole transfer never overwrites or alters an existing entry that is not one of the plan's sources. */
  lemma {:induction false} TransferRunNeverOverwrites(t: Tree, plan: seq<(Path, Path)>, permits: seq<bool>, dryRun: bool)
    requires WellFormed(t) && |permits| == |plan| && Named(plan)
    ensures forall q :: Exists(t, q) && q !in Sources(plan) ==>
              q in TransferRun(t, plan, permits, dryRun).0 && TransferRun(t, plan, permits, dryRun).0[q] == t[q]
  {
    if |plan| > 0 && !dryRun {
      var n := |plan| - 1;
      assert Named(plan[..n]);
      TransferRunNeverOverwrites(t, plan[..n], permits[..n], dryRun);
      TransferRunWellFormed(t, plan[..n], permits[..n], dryRun);
      var before := TransferRun(t, plan[..n], permits[..n], dryRun).0;
      var after := TransferRun(t, plan, permits, dryRun).0;
      assert after == TransferOne(before, plan[n].0, plan[n].1, permits[n]).0;
      TransferOneEffect(before, plan[n].0, plan[n].1, permits[n]);
      assert Sources(plan[..n]) == Sources(plan)[..n];
      assert Sources(plan)[n] == plan[n].0;
      forall q | Exists(t, q) && q !in Sources(plan) ensures q in after && after[q] == t[q] {
        assert q !in Sources(plan[..n]);
        assert Exists(before, q) && q != plan[n].0;
      }
    }
  }

  /** The run over the first `i + 1` entries is the run over the first `i` followed by entry `i`. */
  lemma TransferRunStep(t: Tree, plan: seq<(Path, Path)>, permits: seq<bool>, dryRun: bool, i: nat)
    requires |permits| == |plan| && Named(plan) && i < |plan|
    ensures Named(plan[..i]) && Named(plan[..i + 1])
    ensures var before := TransferRun(t, plan[..i], permits[..i], dryRun);
            var after := TransferRun(t, plan[..i + 1], permits[..i + 1], dryRun);
            var step := TransferOne(before.0, plan[i].0, plan[i].1, permits[i]);
            && (dryRun ==> after == before)
            && (!dryRun ==> after.0 == step.0 && after.1 == if step.1 then before.1 + 1 else before.1)
  {
    assert plan[..i + 1][..i] == plan[..i];
    assert permits[..i + 1][..i] == permits[..i];
  }

  /**
   * One pass of the `transfer_files` loop outside a dry run: settle on the
   * effective destination, create its parent directories and rename the
   * source there; `moved` is whether the entry is counted.
   */
  method TransferEntry(fs: FileSystem, source: Path, planned: Path, permitted: bool) returns (moved: bool)
    requires fs.Valid() && |planned| > 0
    modifies fs
    ensures fs.Valid()
    ensures fs.entries == TransferOne(old(fs.entries), source, planned, permitted).0
    ensures moved == TransferOne(old(fs.entries), source, planned, permitted).1
  {
    var destination := ResolveDestination(fs, planned);
    moved := false;
    var made := fs.MakeDirs(Parent(destination));
    if made {
      moved := fs.Replace(source, destination, permitted);
    }
  }

  /**
   * `transfer_files`: for each entry in plan order, settle on the effective
   * destination, then (outside a dry run) create its parent directories and
   * rename the source there, counting the entries whose move did not raise.
   */
  method TransferFiles(fs: FileSystem, transferPlan: seq<(Path, Path)>, dryRun: bool, permits: seq<bool>)
    returns (succeeded: nat, total: nat)
    requires fs.Valid() && |permits| == |transferPlan| && Named(transferPlan)
    modifies fs
    ensures fs.Valid()
    ensures (fs.entries, succeeded) == TransferRun(old(fs.entries), transferPlan, permits, dryRun)
    ensures total == |transferPlan| && succeeded <= total
    ensures dryRun ==> succeeded == 0 && fs.entries == old(fs.entries)
  {
    ghost var initial := fs.entries;
    succeeded := 0;
    var i := 0;
    while i < |transferPlan|
      invariant 0 <= i <= |transferPlan| && Named(transferPlan[..i])
      invariant fs.Valid()
      invariant fs.entries == TransferRun(initial, transferPlan[..i], permits[..i], dryRun).0
      invariant succeeded == TransferRun(initial, transferPlan[..i], permits[..i], dryRun).1
    {
      TransferRunStep(initial, transferPlan, permits, dryRun, i);
      if !dryRun {
        var moved := TransferEntry(fs, transferPlan[i].0, transferPlan[i].1, permits[i]);
        if moved {
          succeeded := succeeded + 1;
        }
      }
      i := i + 1;
    }
    assert transferPlan[..i] == transferPlan && permits[..i] == permits;
    total := |transferPlan|;
  }

  // ===========================================================================
  // Cleanup executor
  // ===========================================================================

  /** The body of the `delete_dirs` loop for one entry outside a dry run. */
  function DeleteOne(t: Tree, directory: Path, permitted: bool): (Tree, bool) {
    if permitted && IsDir(t, directory) then (WithoutTree(t, directory), true) else (t, false)
  }

  /** The `delete_dirs` loop over a whole plan: the final tree and the count. */
  function DeleteRun(t: Tree, plan: seq<Path>, permits: seq<bool>, dryRun: bool): (r: (Tree, nat))
    requires |permits| == |plan|
    ensures r.1 <= |plan|
    ensures dryRun ==> r == (t, 0)
    decreases |plan|
  {
    if |plan| == 0 then (t, 0)
    else
      var n := |plan| - 1;
      var before := DeleteRun(t, plan[..n], permits[..n], dryRun);
      if dryRun then before
      else
        var step := DeleteOne(before.0, plan[n], permits[n]);
        (step.0, if step.1 then before.1 + 1 else before.1)
  }

  /**
   * One entry: it is counted exactly when it is a directory at that moment and
   * the OS permits the removal; then it goes with all its descendants and
   * nothing else changes. Otherwise the tree is unchanged.
   */
  lemma DeleteOneEffect(t: Tree, directory: Path, permitted: bool)
    ensures var (after, removed) := DeleteOne(t, directory, permitted);
            && (removed <==> permitted && IsDir(t, directory))
            && (removed ==> forall q :: q in after <==> q in t && !IsPrefix(directory, q))
            && (forall q :: q in after ==> q in t && after[q] == t[q])
            && (!removed ==> after == t)
  {
  }

  /** Cleaning up only ever removes entries: what is left is unchanged. */
  lemma {:induction false} DeleteRunOnlyRemoves(t: Tree, plan: seq<Path>, permits: seq<bool>, dryRun: bool)
    requires |permits| == |plan|
    ensures forall q :: q in DeleteRun(t, plan, permits, dryRun).0 ==>
              q in t && DeleteRun(t, plan, permits, dryRun).0[q] == t[q]
  {
    if |plan| > 0 && !dryRun {
      var n := |plan| - 1;
      DeleteRunOnlyRemoves(t, plan[..n], permits[..n], dryRun);
    }
  }

  /** Cleaning up keeps the filesystem a tree. */
  lemma {:induction false} DeleteRunWellFormed(t: Tree, plan: seq<Path>, permits: seq<bool>, dryRun: bool)
    requires WellFormed(t) && |permits| == |plan|
    ensures WellFormed(DeleteRun(t, plan, permits, dryRun).0)
  {
    if |plan| > 0 && !dryRun {
      var n := |plan| - 1;
      DeleteRunWellFormed(t, plan[..n], permits[..n], dryRun);
      var before := DeleteRun(t, plan[..n], permits[..n], dryRun).0;
      if permits[n] && IsDir(before, plan[n]) {
        WithoutTreeWellFormed(before, plan[n]);
      }
    }
  }

  /** Nothing but (at most) `p` itself, as a non-directory, is left at or below `p`. */
  predicate Cleared(t: Tree, p: Path) {
    forall q :: q in t && IsPrefix(p, q) ==> q == p && t[q] != Dir
  }

  lemma ClearedStays(t: Tree, t': Tree, p: Path)
    requires Cleared(t, p)
    requires forall q :: q in t' ==> q in t && t'[q] == t[q]
    ensures Cleared(t', p)
  {
  }

  /**
   * When the OS refuses nothing, a real cleanup leaves no planned directory
   * and nothing below any planned entry.
   */
  lemma {:induction false} DeleteRunClearsPlan(t: Tree, plan: seq<Path>, permits: seq<bool>)
    requires WellFormed(t) && |permits| == |plan|
    requires forall i :: 0 <= i < |permits| ==> permits[i]
    ensures forall p :: p in plan ==> Cleared(DeleteRun(t, plan, permits, false).0, p)
  {
    if |plan| > 0 {
      var n := |plan| - 1;
      DeleteRunClearsPlan(t, plan[..n], permits[..n]);
      DeleteRunWellFormed(t, plan[..n], permits[..n], false);
      var before := DeleteRun(t, plan[..n], permits[..n], false).0;
      var after := DeleteRun(t, plan, permits, false).0;
      DeleteOneEffect(before, plan[n], permits[n]);
      forall p | p in plan ensures Cleared(after, p) {
        if p == plan[n] {
          forall q | q in after && IsPrefix(p, q) ensures q == p && after[q] != Dir {
            assert q in before;
          }
        } else {
          assert p in plan[..n] by { assert plan == plan[..n] + [plan[n]]; }
          ClearedStays(before, after, p);
        }
      }
    }
  }

  /**
   * `delete_dirs`: for each planned directory in order, (outside a dry run)
   * remove it recursively, counting the removals that did not raise.
   */
  method DeleteDirs(fs: FileSystem, deletePlan: seq<Path>, dryRun: bool, permits: seq<bool>)
    returns (succeeded: nat, total: nat)
    requires fs.Valid() && |permits| == |deletePlan|
    modifies fs
    ensures fs.Valid()
    ensures (fs.entries, succeeded) == DeleteRun(old(fs.entries), deletePlan, permits, dryRun)
    ensures total == |deletePlan| && succeeded <= total
    ensures dryRun ==> succeeded == 0 && fs.entries == old(fs.entries)
  {
    succeeded := 0;
    var i := 0;
    while i < |deletePlan|
      invariant 0 <= i <= |deletePlan|
      invariant fs.Valid()
      invariant (fs.entries, succeeded) == DeleteRun(old(fs.entries), deletePlan[..i], permits[..i], dryRun)
    {
      assert deletePlan[..i + 1][..i] == deletePlan[..i];
      assert permits[..i + 1][..i] == permits[..i];
      if !dryRun {
        var removed := fs.RemoveTree(deletePlan[i], permits[i]);
        if removed {
          succeeded := succeeded + 1;
        }
      }
      i := i + 1;
    }
    assert deletePlan[..i] == deletePlan && permits[..i] == permits;
    total := |deletePlan|;
  }
}
