/**
 * Split bookkeeping for downstream evaluation (GCL/eval/eval.py): cutting a
 * random permutation into train/valid/test slices, converting PyG boolean
 * split masks into index lists, and resolving an evaluator's stopping metric.
 */
module Eval {
  import opened Wrappers
  import opened Indexing

  /** The exceptions the modelled code raises. */
  datatype EvalError =
    | AssertionError
    | IndexError
    | ValueError
    | RuntimeError  // `torch.randperm` of a negative count

  /** A Python dict from split name to an index tensor. */
  type SplitDict = map<string, seq<int>>

  /** `Union[Dict, List[Dict]]`. */
  datatype SplitOut = Single(dict: SplitDict) | Multiple(dicts: seq<SplitDict>)

  /** What `torch.randperm(n)` returns: a permutation of `0..n-1`. */
  predicate IsPermutation(p: seq<int>, n: nat)
  {
    multiset(p) == multiset(Range(n))
  }

  // ---------------------------------------------------------------------------
  // get_split
  // ---------------------------------------------------------------------------

  /** `int(num_samples * ratio)`, with the product taken exactly. */
  function SizeOf(numSamples: int, ratio: real): int
  {
    Trunc(numSamples as real * ratio)
  }

  /** The dict built for one permutation, as the code writes it: 'valid' is sized by the test size. */
  function SplitOf(perm: seq<int>, trainSize: int, testSize: int): (r: SplitDict)
    ensures r.Keys == {"train", "valid", "test"}
    ensures r["train"] <= perm
  {
    map["train" := Slice(perm, None, Some(trainSize)),
        "valid" := Slice(perm, Some(trainSize), Some(testSize + trainSize)),
        "test" := Slice(perm, Some(testSize + trainSize), None)]
  }

  /**
   * `get_split`, with the permutation drawn in iteration `k` passed in as `perms[k]`.
   * The ratio assertion fails before anything is drawn; one split yields a dict,
   * more yield a list, and none fails on `out[0]`. A negative sample count passes the
   * assertion and fails in the first `torch.randperm`.
   */
  method GetSplit(numSamples: int, numSplits: int, trainRatio: real, testRatio: real, perms: seq<seq<int>>)
    returns (r: Result<SplitOut, EvalError>)
    requires numSplits <= |perms|
    ensures !(trainRatio + testRatio < 1.0) ==> r == Err(AssertionError)
    ensures trainRatio + testRatio < 1.0 && numSplits <= 0 ==> r == Err(IndexError)
    ensures trainRatio + testRatio < 1.0 && numSplits > 0 && numSamples < 0 ==> r == Err(RuntimeError)
    ensures trainRatio + testRatio < 1.0 && numSamples >= 0 && numSplits == 1 ==>
      r == Ok(Single(SplitOf(perms[0], SizeOf(numSamples, trainRatio), SizeOf(numSamples, testRatio))))
    ensures trainRatio + testRatio < 1.0 && numSamples >= 0 && numSplits > 1 ==>
      && r.Ok? && r.value.Multiple? && |r.value.dicts| == numSplits
      && forall k :: 0 <= k < numSplits ==>
           r.value.dicts[k] == SplitOf(perms[k], SizeOf(numSamples, trainRatio), SizeOf(numSamples, testRatio))
  {
    if !(trainRatio + testRatio < 1.0) {
      return Err(AssertionError);
    }
    var trainSize := SizeOf(numSamples, trainRatio);
    var testSize := SizeOf(numSamples, testRatio);
    var out: seq<SplitDict> := [];
    var i := 0;
    while i < numSplits
      invariant 0 <= i <= (if numSplits > 0 then numSplits else 0)
      invariant |out| == i
      invariant i > 0 ==> numSamples >= 0
      invariant forall k :: 0 <= k < i ==> out[k] == SplitOf(perms[k], trainSize, testSize)
    {
      if numSamples < 0 {
        return Err(RuntimeError);
      }
      out := out + [SplitOf(perms[i], trainSize, testSize)];
      i := i + 1;
    }
    if numSplits > 1 {
      return Ok(Multiple(out));
    }
    if |out| == 0 {
      return Err(IndexError);
    }
    return Ok(Single(out[0]));
  }

  lemma {:induction false} RangeDistinct(n: nat, x: int)
    ensures multiset(Range(n))[x] == if 0 <= x < n then 1 else 0
  {
    if n > 0 {
      RangeDistinct(n - 1, x);
      assert Range(n) == Range(n - 1) + [n - 1];
    }
  }

  /**
   * With non-negative sizes the three slices put back together give the
   * permutation, in order, and have the sizes the code computes (clamped to the length).
   */
  lemma SplitOfConcat(perm: seq<int>, trainSize: int, testSize: int)
    requires 0 <= trainSize && 0 <= testSize
    ensures var d := SplitOf(perm, trainSize, testSize);
      && d["train"] + d["valid"] + d["test"] == perm
      && (trainSize + testSize <= |perm| ==>
            |d["train"]| == trainSize && |d["valid"]| == testSize
            && |d["test"]| == |perm| - trainSize - testSize)
  {
    var d := SplitOf(perm, trainSize, testSize);
    var a := SliceBound(trainSize, |perm|);
    var b := SliceBound(testSize + trainSize, |perm|);
    assert d["train"] == perm[..a];
    assert d["valid"] == perm[a..b];
    assert d["test"] == perm[b..];
    assert perm[..a] + perm[a..b] + perm[b..] == perm;
  }

  /**
   * For ratios allowed by the assertion and not negative, the slice sizes sum to at
   * most `n`, and to less than `n` when there is at least one sample.
   */
  lemma SizesFit(n: nat, trainRatio: real, testRatio: real)
    requires 0.0 <= trainRatio && 0.0 <= testRatio && trainRatio + testRatio < 1.0
    ensures 0 <= SizeOf(n, trainRatio) && 0 <= SizeOf(n, testRatio)
    ensures SizeOf(n, trainRatio) + SizeOf(n, testRatio) <= n
    ensures 1 <= n ==> SizeOf(n, trainRatio) + SizeOf(n, testRatio) < n
  {
    var z := trainRatio + testRatio;
    var x, y := n as real * trainRatio, n as real * testRatio;
    var a, b := SizeOf(n, trainRatio), SizeOf(n, testRatio);
    assert a as real <= x && b as real <= y;
    calc {
      (a + b) as real;
    <=
      x + y;
    ==
      n as real * z;
    <=
      n as real;
    }
    if 1 <= n {
      calc {
        (a + b) as real;
      <=
        n as real * z;
      <  { assert n as real * z < n as real * 1.0; }
        n as real;
      }
    }
  }

  /**
   * Every dict `get_split` builds from a permutation of `0..n-1`, with non-negative
   * ratios that pass its assertion: train, valid and test are consecutive slices of
   * the permutation, have sizes `int(n*train_ratio)`, `int(n*test_ratio)` and the
   * rest, are pairwise disjoint, cover `0..n-1`, and test is non-empty when `n >= 1`.
   */
  lemma {:induction false} SplitPartition(perm: seq<int>, n: nat, trainRatio: real, testRatio: real)
    requires IsPermutation(perm, n)
    requires 0.0 <= trainRatio && 0.0 <= testRatio && trainRatio + testRatio < 1.0
    ensures var d := SplitOf(perm, SizeOf(n, trainRatio), SizeOf(n, testRatio));
      && d["train"] + d["valid"] + d["test"] == perm
      && |d["train"]| == SizeOf(n, trainRatio)
      && |d["valid"]| == SizeOf(n, testRatio)
      && |d["test"]| == n - SizeOf(n, trainRatio) - SizeOf(n, testRatio)
      && (1 <= n ==> |d["test"]| >= 1)
      && (forall x :: x in d["train"] ==> x !in d["valid"] && x !in d["test"])
      && (forall x :: x in d["valid"] ==> x !in d["test"])
      && (forall x :: (x in d["train"] || x in d["valid"] || x in d["test"]) <==> 0 <= x < n)
  {
    var a, b := SizeOf(n, trainRatio), SizeOf(n, testRatio);
    SizesFit(n, trainRatio, testRatio);
    assert |perm| == |multiset(perm)| == |multiset(Range(n))| == n;
    SplitOfConcat(perm, a, b);
    var d := SplitOf(perm, a, b);
    PiecesOfPermutation(d["train"], d["valid"], d["test"], n);
  }

  /** Three consecutive pieces of a permutation of `0..n-1` are pairwise disjoint and together hold `0..n-1`. */
  lemma PiecesOfPermutation(tr: seq<int>, va: seq<int>, te: seq<int>, n: nat)
    requires IsPermutation(tr + va + te, n)
    ensures forall x :: x in tr ==> x !in va && x !in te
    ensures forall x :: x in va ==> x !in te
    ensures forall x :: (x in tr || x in va || x in te) <==> 0 <= x < n
  {
    assert multiset(tr + va + te) == multiset(tr) + multiset(va) + multiset(te);
    forall x
      ensures x in tr ==> x !in va && x !in te
      ensures x in va ==> x !in te
      ensures (x in tr || x in va || x in te) <==> 0 <= x < n
    {
      RangeDistinct(n, x);
    }
  }

  /**
   * The assertion only bounds the sum of the ratios, so a negative test ratio passes it
   * and can make 'test' overlap 'train': with 10 samples and ratios 0.5 and -0.5,
   * 'test' is the whole permutation.
   */
  lemma NegativeRatioOverlaps(perm: seq<int>)
    requires IsPermutation(perm, 10)
    ensures 0.5 + -0.5 < 1.0
    ensures var d := SplitOf(perm, SizeOf(10, 0.5), SizeOf(10, -0.5));
      d["test"] == perm && |d["train"]| == 5 && d["valid"] == []
  {
    assert |perm| == |multiset(perm)| == |multiset(Range(10))| == 10;
  }

  /**
   * The docstring's example `get_split(10, 1, 0.5, 0.4)` shows 4 test indices and
   * 1 valid index; the code as written puts 4 indices in 'valid' and 1 in 'test'.
   */
  lemma DocExampleAsWritten(perm: seq<int>)
    requires |perm| == 10
    ensures var d := SplitOf(perm, SizeOf(10, 0.5), SizeOf(10, 0.4));
      |d["train"]| == 5 && |d["valid"]| == 4 && |d["test"]| == 1
  {
    SplitOfConcat(perm, 5, 4);
  }

  /** The split the docstring describes: 'test' holds `int(n*test_ratio)` entries and 'valid' the rest. */
  function IntendedSplitOf(perm: seq<int>, trainSize: int, testSize: int): SplitDict
  {
    map["train" := Slice(perm, None, Some(trainSize)),
        "test" := Slice(perm, Some(trainSize), Some(testSize + trainSize)),
        "valid" := Slice(perm, Some(testSize + trainSize), None)]
  }

  /**
   * The intended split sizes 'test' by the test ratio, still partitions the
   * permutation in order, and reproduces the docstring's 5/1/4 example.
   */
  lemma IntendedSplitSizes(perm: seq<int>, n: nat, trainRatio: real, testRatio: real)
    requires |perm| == n
    requires 0.0 <= trainRatio && 0.0 <= testRatio && trainRatio + testRatio < 1.0
    ensures var d := IntendedSplitOf(perm, SizeOf(n, trainRatio), SizeOf(n, testRatio));
      && d["train"] + d["test"] + d["valid"] == perm
      && |d["train"]| == SizeOf(n, trainRatio)
      && |d["test"]| == SizeOf(n, testRatio)
      && |d["valid"]| == n - SizeOf(n, trainRatio) - SizeOf(n, testRatio)
      && (n == 10 && trainRatio == 0.5 && testRatio == 0.4 ==>
            |d["train"]| == 5 && |d["valid"]| == 1 && |d["test"]| == 4)
  {
    var a, b := SizeOf(n, trainRatio), SizeOf(n, testRatio);
    SizesFit(n, trainRatio, testRatio);
    assert 0 <= a && 0 <= b && a + b <= n;
    var d := IntendedSplitOf(perm, a, b);
    assert d["train"] == perm[..a];
    assert d["test"] == perm[a..a + b];
    assert d["valid"] == perm[a + b..];
    assert perm[..a] + perm[a..a + b] + perm[a + b..] == perm;
  }

  // ---------------------------------------------------------------------------
  // from_PyG_split
  // ---------------------------------------------------------------------------

  /** A boolean split mask: 1-D over nodes, or 2-D with one column per split. */
  datatype Mask = Mask1D(bits: seq<bool>) | Mask2D(width: nat, rows: seq<seq<bool>>)

  /** The parts of a PyG `Data` object that `from_PyG_split` reads; an absent mask is `None`. */
  datatype PyGData = PyGData(numNodes: nat, trainMask: Option<Mask>, valMask: Option<Mask>, testMask: Option<Mask>)

  /** A mask tensor has one row per node (and a 2-D one is rectangular). */
  predicate MaskFits(m: Mask, n: nat)
  {
    match m
    case Mask1D(bits) => |bits| == n
    case Mask2D(w, rows) => |rows| == n && forall k :: 0 <= k < n ==> |rows[k]| == w
  }

  /** The shape invariant PyG keeps for the masks it stores. */
  predicate WellFormed(d: PyGData)
  {
    && (d.trainMask.Some? ==> MaskFits(d.trainMask.value, d.numNodes))
    && (d.valMask.Some? ==> MaskFits(d.valMask.value, d.numNodes))
    && (d.testMask.Some? ==> MaskFits(d.testMask.value, d.numNodes))
  }

  /** The attribute names the 2-D branch iterates over, in order. */
  const MaskNames: seq<string> := ["train_mask", "val_mask", "test_mask"]

  /** `data[name]`. */
  function MaskField(d: PyGData, name: string): Option<Mask>
  {
    if name == "train_mask" then d.trainMask
    else if name == "val_mask" then d.valMask
    else d.testMask
  }

  /** `name[:-5]`: the dict key the 2-D branch derives from an attribute name. */
  function KeyOf(name: string): string
  {
    Slice(name, None, Some(-5))
  }

  /** The keys `name[:-5]` gives for the three attribute names. */
  const MaskKeys: seq<string> := ["train", "val", "test"]

  lemma KeysOfMaskNames()
    ensures forall j :: 0 <= j < 3 ==> KeyOf(MaskNames[j]) == MaskKeys[j]
  {
    assert KeyOf(MaskNames[0]) == "train_mask"[..5] == "train";
    assert KeyOf(MaskNames[1]) == "val_mask"[..3] == "val";
    assert KeyOf(MaskNames[2]) == "test_mask"[..4] == "test";
  }

  /** Column `i` of a 2-D mask. */
  function Column(rows: seq<seq<bool>>, i: nat): (c: seq<bool>)
    requires forall k :: 0 <= k < |rows| ==> i < |rows[k]|
    ensures |c| == |rows| && forall k :: 0 <= k < |rows| ==> c[k] == rows[k][i]
  {
    seq(|rows|, k requires 0 <= k < |rows| => rows[k][i])
  }

  /**
   * The indices the 2-D branch stores for one mask in iteration `i`: the whole 1-D
   * mask, or column `i` of a 2-D one; `None` when that column does not exist.
   */
  function Selection(m: Mask, n: nat, i: nat): (r: Option<seq<int>>)
    requires MaskFits(m, n)
    ensures m.Mask1D? ==> r == Some(Positions(m.bits))
    ensures m.Mask2D? ==> (r.Some? <==> i < m.width)
  {
    match m
    case Mask1D(bits) => Some(Positions(bits))
    case Mask2D(w, rows) => if i < w then Some(Positions(Column(rows, i))) else None
  }

  /** Every mask is present and fits the node count. */
  predicate AllPresent(d: PyGData)
  {
    d.trainMask.Some? && d.valMask.Some? && d.testMask.Some? && WellFormed(d)
  }

  lemma MaskNamesSelect(d: PyGData)
    ensures MaskField(d, MaskNames[0]) == d.trainMask
    ensures MaskField(d, MaskNames[1]) == d.valMask
    ensures MaskField(d, MaskNames[2]) == d.testMask
  {
    assert MaskNames[1] != "train_mask" by { assert MaskNames[1][0] != "train_mask"[0]; }
    assert MaskNames[2] != "train_mask" by { assert MaskNames[2][1] != "train_mask"[1]; }
    assert MaskNames[2] != "val_mask" by { assert MaskNames[2][0] != "val_mask"[0]; }
  }

  /** The first `j` masks named in `MaskNames` have column `i` (a 1-D mask always does). */
  predicate PrefixExists(d: PyGData, i: nat, j: nat)
    requires AllPresent(d) && j <= 3
  {
    forall l :: 0 <= l < j ==> Selection(MaskField(d, MaskNames[l]).value, d.numNodes, i).Some?
  }

  /** In iteration `i`, every mask has the column the 2-D branch reads. */
  predicate ColumnExists(d: PyGData, i: nat)
    requires AllPresent(d)
  {
    && Selection(d.trainMask.value, d.numNodes, i).Some?
    && Selection(d.valMask.value, d.numNodes, i).Some?
    && Selection(d.testMask.value, d.numNodes, i).Some?
  }

  lemma PrefixExistsAll(d: PyGData, i: nat)
    requires AllPresent(d)
    ensures PrefixExists(d, i, 3) <==> ColumnExists(d, i)
  {
    MaskNamesSelect(d);
  }

  /** The dict the inner loop has built after its first `j` steps of iteration `i` (keys as `KeysOfMaskNames` computes them). */
  function PartialDict(d: PyGData, i: nat, j: nat): SplitDict
    requires AllPresent(d) && j <= 3 && PrefixExists(d, i, j)
  {
    if j == 0 then map[]
    else
      PartialDict(d, i, j - 1)[MaskKeys[j - 1] := Selection(MaskField(d, MaskNames[j - 1]).value, d.numNodes, i).value]
  }

  /** What iteration `i` of the 2-D branch appends: keys 'train', 'val', 'test' with that column's indices. */
  lemma ColumnDictContents(d: PyGData, i: nat)
    requires AllPresent(d) && ColumnExists(d, i)
    ensures PrefixExists(d, i, 3)
    ensures var dict := PartialDict(d, i, 3);
      && dict.Keys == {"train", "val", "test"}
      && dict["train"] == Selection(d.trainMask.value, d.numNodes, i).value
      && dict["val"] == Selection(d.valMask.value, d.numNodes, i).value
      && dict["test"] == Selection(d.testMask.value, d.numNodes, i).value
  {
    PrefixExistsAll(d, i);
    MaskNamesSelect(d);
    var tr := Selection(d.trainMask.value, d.numNodes, i).value;
    var va := Selection(d.valMask.value, d.numNodes, i).value;
    var te := Selection(d.testMask.value, d.numNodes, i).value;
    assert PartialDict(d, i, 1) == map["train" := tr];
    assert PartialDict(d, i, 2) == map["train" := tr, "val" := va];
    assert PartialDict(d, i, 3) == map["train" := tr, "val" := va, "test" := te];
  }

  /** Having run every iteration means every 2-D mask had enough columns. */
  lemma {:induction false} AllColumnsMeansAvailable(d: PyGData)
    requires AllPresent(d) && d.trainMask.value.Mask2D?
    requires forall k :: 0 <= k < d.trainMask.value.width ==> ColumnExists(d, k)
    ensures ColumnsAvailable(d)
  {
    var w := d.trainMask.value.width;
    if d.valMask.value.Mask2D? {
      var vw := d.valMask.value.width;
      assert vw < w ==> ColumnExists(d, vw);
    }
    if d.testMask.value.Mask2D? {
      var tw := d.testMask.value.width;
      assert tw < w ==> ColumnExists(d, tw);
    }
  }

  /** The 2-D branch runs one iteration per column of `train_mask` and fails unless every 2-D mask has that many. */
  predicate ColumnsAvailable(d: PyGData)
    requires AllPresent(d) && d.trainMask.value.Mask2D?
  {
    var w := d.trainMask.value.width;
    (d.valMask.value.Mask2D? ==> w <= d.valMask.value.width)
    && (d.testMask.value.Mask2D? ==> w <= d.testMask.value.width)
  }

  /**
   * `from_PyG_split`. A missing mask is a `ValueError`; 1-D masks give one dict
   * keyed 'train'/'valid'/'test' (indexing the 1-D node range with a 2-D mask fails);
   * 2-D masks give one dict per column of `train_mask`, reusing any 1-D mask.
   */
  method FromPyGSplit(d: PyGData) returns (r: Result<SplitOut, EvalError>)
    requires WellFormed(d)
    ensures r == Err(ValueError) <==> (d.trainMask.None? || d.valMask.None? || d.testMask.None?)
    ensures AllPresent(d) && d.trainMask.value.Mask1D? ==>
      if d.valMask.value.Mask1D? && d.testMask.value.Mask1D? then
        r == Ok(Single(map["train" := Positions(d.trainMask.value.bits),
                           "valid" := Positions(d.valMask.value.bits),
                           "test" := Positions(d.testMask.value.bits)]))
      else r == Err(IndexError)
    ensures AllPresent(d) && d.trainMask.value.Mask2D? ==>
      if ColumnsAvailable(d) then
        && r.Ok? && r.value.Multiple? && |r.value.dicts| == d.trainMask.value.width
        && forall i :: 0 <= i < |r.value.dicts| ==>
             ColumnExists(d, i) && PrefixExists(d, i, 3) && r.value.dicts[i] == PartialDict(d, i, 3)
      else r == Err(IndexError)
  {
    if d.trainMask.None? || d.testMask.None? || d.valMask.None? {
      return Err(ValueError);
    }
    var n := d.numNodes;
    var train := d.trainMask.value;
    if train.Mask1D? {
      if d.valMask.value.Mask2D? || d.testMask.value.Mask2D? {
        return Err(IndexError);
      }
      return Ok(Single(map["train" := Positions(train.bits),
                           "valid" := Positions(d.valMask.value.bits),
                           "test" := Positions(d.testMask.value.bits)]));
    }
    var out := ColumnDicts(d);
    if out.None? {
      return Err(IndexError);
    }
    return Ok(Multiple(out.value));
  }

  /**
   * The outer loop of the 2-D branch: one dict per column of `train_mask`;
   * `None` stands for the `IndexError` raised by the first missing column.
   */
  method ColumnDicts(d: PyGData) returns (r: Option<seq<SplitDict>>)
    requires AllPresent(d) && d.trainMask.value.Mask2D?
    ensures r.Some? <==> ColumnsAvailable(d)
    ensures r.Some? ==>
      && |r.value| == d.trainMask.value.width
      && forall i :: 0 <= i < |r.value| ==>
           ColumnExists(d, i) && PrefixExists(d, i, 3) && r.value[i] == PartialDict(d, i, 3)
  {
    var width := d.trainMask.value.width;
    var out: seq<SplitDict> := [];
    var i := 0;
    while i < width
      invariant i <= width
      invariant |out| == i
      invariant forall k :: 0 <= k < i ==>
        ColumnExists(d, k) && PrefixExists(d, k, 3) && out[k] == PartialDict(d, k, 3)
    {
      var outDict := ColumnDict(d, i);
      if outDict.None? {
        return None;
      }
      out := out + [outDict.value];
      i := i + 1;
    }
    AllColumnsMeansAvailable(d);
    return Some(out);
  }

  /**
   * The inner loop of the 2-D branch for iteration `i`: one entry per mask name,
   * keyed `name[:-5]`; `None` stands for the `IndexError` of a missing column.
   */
  method ColumnDict(d: PyGData, i: nat) returns (r: Option<SplitDict>)
    requires AllPresent(d)
    ensures r.Some? <==> ColumnExists(d, i)
    ensures r.Some? ==> PrefixExists(d, i, 3) && r.value == PartialDict(d, i, 3)
  {
    var outDict: SplitDict := map[];
    var j := 0;
    while j < 3
      invariant j <= 3
      invariant PrefixExists(d, i, j)
      invariant outDict == PartialDict(d, i, j)
    {
      var name := MaskNames[j];
      var picked := Selection(MaskField(d, name).value, d.numNodes, i);
      if picked.None? {
        PrefixExistsAll(d, i);
        return None;
      }
      KeysOfMaskNames();
      outDict := outDict[KeyOf(name) := picked.value];
      j := j + 1;
    }
    PrefixExistsAll(d, i);
    return Some(outDict);
  }

  /**
   * The two layouts name the validation split differently: 1-D masks give the key
   * 'valid', 2-D masks give 'val', so no 2-D dict has a 'valid' entry.
   */
  lemma ValidationKeyDiffers(d: PyGData, i: nat)
    requires AllPresent(d) && ColumnExists(d, i)
    ensures PrefixExists(d, i, 3)
    ensures "valid" !in PartialDict(d, i, 3) && "val" in PartialDict(d, i, 3)
  {
    ColumnDictContents(d, i);
  }

  /**
   * A 1-D val or test mask in the 2-D branch (WikiCS has a single test split) is
   * reused unchanged for every split: column i does not matter.
   */
  lemma FlatMaskReused(d: PyGData, i: nat)
    requires AllPresent(d) && ColumnExists(d, i)
    ensures PrefixExists(d, i, 3) && "val" in PartialDict(d, i, 3) && "test" in PartialDict(d, i, 3)
    ensures d.valMask.value.Mask1D? ==> PartialDict(d, i, 3)["val"] == Positions(d.valMask.value.bits)
    ensures d.testMask.value.Mask1D? ==> PartialDict(d, i, 3)["test"] == Positions(d.testMask.value.bits)
  {
    ColumnDictContents(d, i);
    assert PartialDict(d, i, 3)["val"] == Selection(d.valMask.value, d.numNodes, i).value;
    assert PartialDict(d, i, 3)["test"] == Selection(d.testMask.value, d.numNodes, i).value;
  }

  // ---------------------------------------------------------------------------
  // BaseEvaluator.__init__
  // ---------------------------------------------------------------------------

  /** A handle standing for a Python callable (a metric, a cross-validator). */
  type Handle = int

  /** The `metric` argument: one callable, a list of them, or some other object (a tuple, say). */
  datatype MetricArg = Callable(f: Handle) | MetricList(fs: seq<Handle>) | OtherObject

  /** The `stop_metric` argument: `None`, a callable, or an index into the metrics. */
  datatype StopMetricArg = NoStopMetric | StopCallable(f: Handle) | StopIndex(i: int)

  /** The fields `BaseEvaluator.__init__` sets; none of them changes afterwards. */
  datatype BaseEvaluator = BaseEvaluator(cv: Option<Handle>, split: SplitOut, metric: MetricArg, stopMetric: Option<Handle>)

  /** `metric` after a lone callable has been wrapped into a list; `None` when it is not a list. */
  function MetricsAsList(metric: MetricArg): Option<seq<Handle>>
  {
    match metric
    case Callable(f) => Some([f])
    case MetricList(fs) => Some(fs)
    case OtherObject => None
  }

  /**
   * `BaseEvaluator.__init__`. The stored `metric` is the argument as given. Without
   * a cross-validator and a stop metric, index 0 is used; an index selects from the
   * (wrapped) metric list with Python indexing, failing with `IndexError` out of range
   * and `ValueError` when the metrics are not a list; a callable or `None` is kept as is.
   */
  method NewBaseEvaluator(split: SplitOut, metric: MetricArg, stopMetric: StopMetricArg, cv: Option<Handle>)
    returns (r: Result<BaseEvaluator, EvalError>)
    ensures r.Ok? ==> r.value.cv == cv && r.value.split == split && r.value.metric == metric
    ensures stopMetric.StopCallable? ==> r.Ok? && r.value.stopMetric == Some(stopMetric.f)
    ensures stopMetric.NoStopMetric? && cv.Some? ==> r.Ok? && r.value.stopMetric == None
    ensures stopMetric.StopIndex? || (stopMetric.NoStopMetric? && cv.None?) ==>
      var i := if stopMetric.StopIndex? then stopMetric.i else 0;
      match MetricsAsList(metric)
      case None => r == Err(ValueError)
      case Some(fs) =>
        if -|fs| <= i < |fs| then r.Ok? && r.value.stopMetric == Some(fs[if i < 0 then |fs| + i else i])
        else r == Err(IndexError)
  {
    var stop := stopMetric;
    if cv.None? && stop.NoStopMetric? {
      stop := StopIndex(0);
    }
    var metrics := metric;
    if metrics.Callable? {
      metrics := MetricList([metrics.f]);
    }
    var resolved: Option<Handle>;
    if stop.StopIndex? {
      if metrics.MetricList? {
        var picked := PyIndex(metrics.fs, stop.i);
        if picked.None? {
          return Err(IndexError);
        }
        resolved := Some(picked.value);
      } else {
        return Err(ValueError);
      }
    } else {
      resolved := if stop.StopCallable? then Some(stop.f) else None;
    }
    return Ok(BaseEvaluator(cv, split, metric, resolved));
  }
}
