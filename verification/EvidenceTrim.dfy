/**
 Trimming of an oversized evidence collection before it is zipped: the largest files are dropped
 until the rest fits, and a manifest of the dropped files joins the archive when it could be
 written.
 */
module EvidenceTrim {

  datatype EvidenceFile = EvidenceFile(abs: string, rel: string, size: nat)

  const MANIFEST_NAME := "excluded_files.txt"

  function TotalSize(files: seq<EvidenceFile>): nat {
    if files == [] then 0 else files[0].size + TotalSize(files[1..])
  }

  /** The sum of the sizes: of one file its size, of two collections the sum of both. */
  lemma TotalSizeMeans(f: EvidenceFile, a: seq<EvidenceFile>, b: seq<EvidenceFile>)
    ensures TotalSize([]) == 0 && TotalSize([f]) == f.size
    ensures TotalSize(a + b) == TotalSize(a) + TotalSize(b)
  {
    TotalSizeConcat(a, b);
  }

  ghost predicate LargestFirst(files: seq<EvidenceFile>) {
    forall i, j :: 0 <= i < j < |files| ==> files[i].size >= files[j].size
  }

  // ----- Sizes and permutations -----

  lemma {:induction false} TotalSizeConcat(a: seq<EvidenceFile>, b: seq<EvidenceFile>)
    ensures TotalSize(a + b) == TotalSize(a) + TotalSize(b)
  {
    if a == [] {
      assert a + b == b;
    } else {
      TotalSizeConcat(a[1..], b);
      assert (a + b)[1..] == a[1..] + b;
    }
  }

  function Without(files: seq<EvidenceFile>, i: nat): seq<EvidenceFile>
    requires i < |files|
  {
    files[..i] + files[i + 1..]
  }

  lemma RemoveBetween(a: seq<EvidenceFile>, x: EvidenceFile, b: seq<EvidenceFile>)
    ensures TotalSize(a + [x] + b) == x.size + TotalSize(a + b)
    ensures multiset(a + [x] + b) == multiset(a + b) + multiset{x}
  {
    TotalSizeConcat(a + [x], b);
    TotalSizeConcat(a, [x]);
    TotalSizeConcat(a, b);
  }

  /** Taking one file out of the middle. */
  lemma RemoveAt(files: seq<EvidenceFile>, i: nat)
    requires i < |files|
    ensures TotalSize(files) == files[i].size + TotalSize(Without(files, i))
    ensures multiset(files) == multiset(Without(files, i)) + multiset{files[i]}
  {
    hide TotalSize;
    assert files == files[..i] + [files[i]] + files[i + 1..];
    RemoveBetween(files[..i], files[i], files[i + 1..]);
  }

  lemma SplitHead(files: seq<EvidenceFile>)
    requires files != []
    ensures multiset(files) == multiset(files[1..]) + multiset{files[0]}
  {
    assert files == [files[0]] + files[1..];
  }

  lemma {:induction false} TotalSizeOfPermutation(a: seq<EvidenceFile>, b: seq<EvidenceFile>)
    requires multiset(a) == multiset(b)
    ensures TotalSize(a) == TotalSize(b)
  {
    if a == [] {
      assert |multiset(b)| == 0;
    } else {
      SplitHead(a);
      assert a[0] in multiset(b);
      var i: nat :| i < |b| && b[i] == a[0];
      RemoveAt(b, i);
      assert multiset(a[1..]) == multiset(a) - multiset{a[0]};
      assert multiset(Without(b, i)) == multiset(b) - multiset{b[i]};
      TotalSizeOfPermutation(a[1..], Without(b, i));
    }
  }

  lemma TailLargestFirst(files: seq<EvidenceFile>)
    requires LargestFirst(files) && files != []
    ensures LargestFirst(files[1..])
  {
  }

  /**
   The k largest files weigh at least as much as any k or fewer files of the collection.  This is
   what makes dropping from the front optimal.
   */
  lemma {:induction false} TopIsHeaviest(files: seq<EvidenceFile>, k: nat, some: seq<EvidenceFile>)
    requires LargestFirst(files) && k <= |files|
    requires multiset(some) <= multiset(files) && |some| <= k
    ensures TotalSize(some) <= TotalSize(files[..k])
  {
    hide LargestFirst;
    if some != [] {
      var i := HeadOrAny(files, some);
      RemoveAt(some, i);
      OneFileLess(files, some, i);
      TailLargestFirst(files);
      TopIsHeaviest(files[1..], k - 1, Without(some, i));
      assert files[..k][1..] == files[1..][..k - 1];
    }
  }

  /** Picks the largest file of the collection from `some` if it is there, else any file of `some`. */
  lemma HeadOrAny(files: seq<EvidenceFile>, some: seq<EvidenceFile>) returns (i: nat)
    requires LargestFirst(files) && some != [] && multiset(some) <= multiset(files)
    ensures files != [] && i < |some| && some[i].size <= files[0].size
    ensures files[0] in some ==> some[i] == files[0]
  {
    i := 0;
    assert some[0] in multiset(files);
    assert some[0] in files;
    if files[0] in some { i :| i < |some| && some[i] == files[0]; }
  }

  lemma OneFileLess(files: seq<EvidenceFile>, some: seq<EvidenceFile>, i: nat)
    requires files != [] && i < |some| && multiset(some) <= multiset(files)
    requires files[0] in some ==> some[i] == files[0]
    ensures multiset(Without(some, i)) <= multiset(files[1..])
  {
    RemoveAt(some, i);
    SplitHead(files);
    var s, f := multiset(Without(some, i)), multiset(files[1..]);
    forall x ensures s[x] <= f[x] {
      assert multiset(some)[x] <= multiset(files)[x];
      if x == files[0] && files[0] !in some { assert x !in multiset(some); }
    }
  }

  // ----- Sorting -----

  lemma InsertKeepsOrder(a: seq<EvidenceFile>, f: EvidenceFile, b: seq<EvidenceFile>)
    requires LargestFirst(a + b)
    requires forall j :: 0 <= j < |a| ==> a[j].size >= f.size
    requires b != [] ==> b[0].size <= f.size
    ensures LargestFirst(a + [f] + b)
  {
    var s, r := a + b, a + [f] + b;
    forall i, j | 0 <= i < j < |r| ensures r[i].size >= r[j].size {
      if i < |a| { assert r[i] == s[i]; } else if i > |a| { assert r[i] == s[i - 1]; }
      if j < |a| { assert r[j] == s[j]; } else if j > |a| { assert r[j] == s[j - 1] && s[|a|] == b[0]; }
    }
  }

  method InsertBySize(sorted: seq<EvidenceFile>, f: EvidenceFile) returns (r: seq<EvidenceFile>)
    requires LargestFirst(sorted)
    ensures LargestFirst(r)
    ensures multiset(r) == multiset(sorted) + multiset{f}
  {
    var i := 0;
    while i < |sorted| && sorted[i].size >= f.size
      invariant 0 <= i <= |sorted|
      invariant forall j :: 0 <= j < i ==> sorted[j].size >= f.size
    {
      i := i + 1;
    }
    assert sorted == sorted[..i] + sorted[i..];
    r := sorted[..i] + [f] + sorted[i..];
    InsertKeepsOrder(sorted[..i], f, sorted[i..]);
  }

  /** Sorting by decreasing size; nothing but this contract is used. */
  method SortLargestFirst(files: seq<EvidenceFile>) returns (sorted: seq<EvidenceFile>)
    ensures LargestFirst(sorted)
    ensures multiset(sorted) == multiset(files)
  {
    sorted := [];
    for n := 0 to |files|
      invariant LargestFirst(sorted)
      invariant multiset(sorted) == multiset(files[..n])
    {
      assert files[..n + 1] == files[..n] + [files[n]];
      sorted := InsertBySize(sorted, files[n]);
    }
    assert files[..|files|] == files;
  }

  // ----- Trimming -----

  /** `some` can be left out of `files` so that the rest fits. */
  ghost predicate Suffices(files: seq<EvidenceFile>, some: seq<EvidenceFile>, limit: nat) {
    multiset(some) <= multiset(files) && TotalSize(files) <= limit + TotalSize(some)
  }

  /**
   What a trim must achieve: nothing is lost or invented, the kept files fit, every dropped file is
   at least as large as every kept one, and no smaller number of files would have done.
   */
  ghost predicate OptimalTrim(files: seq<EvidenceFile>, limit: nat, kept: seq<EvidenceFile>, excluded: seq<EvidenceFile>) {
    && multiset(kept) + multiset(excluded) == multiset(files)
    && TotalSize(kept) <= limit
    && (forall x, k :: x in excluded && k in kept ==> x.size >= k.size)
    && (forall some :: Suffices(files, some, limit) ==> |excluded| <= |some|)
  }

  /** If the rest exceeds the limit without the n-th file, no fewer than n files will do. */
  lemma FewerDoNotSuffice(
    files: seq<EvidenceFile>, sorted: seq<EvidenceFile>, n: nat, limit: nat, some: seq<EvidenceFile>)
    requires multiset(sorted) == multiset(files) && LargestFirst(sorted) && |some| < n <= |sorted|
    requires TotalSize(sorted[n - 1..]) > limit
    ensures !Suffices(files, some, limit)
  {
    hide TotalSize, LargestFirst;
    if Suffices(files, some, limit) {
      TotalSizeOfPermutation(files, sorted);
      TopIsHeaviest(sorted, n - 1, some);
      assert sorted == sorted[..n - 1] + sorted[n - 1..];
      TotalSizeConcat(sorted[..n - 1], sorted[n - 1..]);
      assert false;
    }
  }

  lemma FrontIsLarger(sorted: seq<EvidenceFile>, n: nat)
    requires LargestFirst(sorted) && n <= |sorted|
    ensures forall x, k :: x in sorted[..n] && k in sorted[n..] ==> x.size >= k.size
  {
  }

  /** A front segment that is needed to its last file is optimal. */
  lemma FrontIsOptimal(files: seq<EvidenceFile>, sorted: seq<EvidenceFile>, n: nat, limit: nat)
    requires multiset(sorted) == multiset(files) && LargestFirst(sorted) && n <= |sorted|
    requires TotalSize(sorted[n..]) <= limit
    requires n > 0 ==> TotalSize(sorted[n - 1..]) > limit
    ensures OptimalTrim(files, limit, sorted[n..], sorted[..n])
  {
    hide TotalSize, LargestFirst, Suffices;
    assert sorted == sorted[..n] + sorted[n..];
    FrontIsLarger(sorted, n);
    forall some | Suffices(files, some, limit) ensures n <= |some| {
      if |some| < n { FewerDoNotSuffice(files, sorted, n, limit, some); }
    }
  }

  /** Pops files off the front until the rest fits. */
  method DropUntilFits(sorted: seq<EvidenceFile>, total: nat, limit: nat)
    returns (inventory: seq<EvidenceFile>, excluded: seq<EvidenceFile>)
    requires total == TotalSize(sorted)
    ensures |excluded| <= |sorted| && excluded == sorted[..|excluded|] && inventory == sorted[|excluded|..]
    ensures TotalSize(inventory) <= limit
    ensures excluded != [] ==> TotalSize(sorted[|excluded| - 1..]) > limit
  {
    inventory, excluded := sorted, [];
    var totalSize := total;
    while totalSize > limit && |inventory| > 0
      invariant |excluded| <= |sorted|
      invariant excluded == sorted[..|excluded|] && inventory == sorted[|excluded|..]
      invariant totalSize == TotalSize(inventory)
      invariant excluded != [] ==> TotalSize(sorted[|excluded| - 1..]) > limit
      decreases |inventory|
    {
      var drop := inventory[0];
      inventory := inventory[1..];
      totalSize := totalSize - drop.size;
      excluded := excluded + [drop];
    }
  }

  method SumSizes(files: seq<EvidenceFile>) returns (total: nat)
    ensures total == TotalSize(files)
  {
    total := 0;
    for i := 0 to |files|
      invariant total == TotalSize(files[..i])
    {
      TotalSizeConcat(files[..i], [files[i]]);
      assert files[..i + 1] == files[..i] + [files[i]];
      total := total + files[i].size;
    }
    assert files[..|files|] == files;
  }

  /**
   Phase 2 of building the archive.  `canWrite` says whether the manifest file could be created.
   `zipped` is what the archive is built from.
   */
  method Trim(inventory: seq<EvidenceFile>, limit: nat, manifestPath: string, canWrite: bool)
    returns (zipped: seq<EvidenceFile>, kept: seq<EvidenceFile>, excluded: seq<EvidenceFile>)
    ensures OptimalTrim(inventory, limit, kept, excluded)
    ensures excluded == [] <==> TotalSize(inventory) <= limit
    ensures excluded == [] ==> kept == inventory
    ensures zipped == kept + if excluded != [] && canWrite then [EvidenceFile(manifestPath, "excluded_files.txt", 0)] else []
    ensures TotalSize(zipped) <= limit
  {
    var totalSize := SumSizes(inventory);
    kept, excluded := inventory, [];
    if totalSize > limit {
      var sorted := SortLargestFirst(inventory);
      TotalSizeOfPermutation(inventory, sorted);
      kept, excluded := DropUntilFits(sorted, totalSize, limit);
      FrontIsOptimal(inventory, sorted, |excluded|, limit);
      zipped := kept + if canWrite then [EvidenceFile(manifestPath, MANIFEST_NAME, 0)] else [];
      TotalSizeConcat(kept, if canWrite then [EvidenceFile(manifestPath, MANIFEST_NAME, 0)] else []);
    } else {
      zipped := inventory;
    }
  }
}
