/**
 * Helpers of utils.py: set difference and intersection computed from the
 * value counts of a concatenation, the index-to-count-vector scatter, the
 * activation lookup, and the parsing of an augmentation schema such as
 * "ER+FM" into a left-nested composition of augmentors.
 */
module Utils {
  import opened Wrappers
  import opened Indexing

  /** The exceptions the modelled code raises; each carries the key or name that caused it. */
  datatype UtilsError = KeyError(key: string) | NotImplementedError(name: string)

  // ---------------------------------------------------------------------------
  // set_differ / set_intersect
  // ---------------------------------------------------------------------------

  /** Inserts `x` into an ascending duplicate-free sequence. */
  function InsertSorted(x: int, s: seq<int>): (r: seq<int>)
    requires StrictlyIncreasing(s)
    ensures StrictlyIncreasing(r)
    ensures forall y :: y in r <==> y == x || y in s
  {
    if |s| == 0 then [x]
    else if x < s[0] then [x] + s
    else if x == s[0] then s
    else
      var tail := InsertSorted(x, s[1..]);
      var r := [s[0]] + tail;
      assert StrictlyIncreasing(r) by {
        forall i, j | 0 <= i < j < |r| ensures r[i] < r[j] {
          assert r[j] == tail[j - 1] && r[j] in tail;
          if 0 < i {
            assert r[i] == tail[i - 1];
          } else if r[j] != x {
            assert r[j] in s[1..];
            var q :| 0 <= q < |s| - 1 && s[1..][q] == r[j];
            assert s[0] < s[q + 1];
          }
        }
      }
      r
  }

  /** The `uniques` of `tensor.unique()`: the distinct values, ascending. */
  function Unique(s: seq<int>): (r: seq<int>)
    ensures StrictlyIncreasing(r)
    ensures forall y :: y in r <==> y in s
  {
    if |s| == 0 then []
    else
      var k := |s| - 1;
      assert s == s[..k] + [s[k]];
      InsertSorted(s[k], Unique(s[..k]))
  }

  /** The `counts` of `tensor.unique(return_counts=True)`: how often each unique value occurs. */
  function Counts(uniques: seq<int>, s: seq<int>): (c: seq<nat>)
    ensures |c| == |uniques|
    ensures forall i :: 0 <= i < |uniques| ==> c[i] == multiset(s)[uniques[i]]
  {
    seq(|uniques|, i requires 0 <= i < |uniques| => multiset(s)[uniques[i]])
  }

  /** `uniques[counts == 1]` over `torch.cat([s1, s2])`. */
  function SetDiffer(s1: seq<int>, s2: seq<int>): (r: seq<int>)
    ensures StrictlyIncreasing(r)
    ensures forall x :: x in r ==> multiset(s1 + s2)[x] == 1
  {
    var combined := s1 + s2;
    var uniques := Unique(combined);
    var counts := Counts(uniques, combined);
    var m := seq(|counts|, i requires 0 <= i < |counts| => counts[i] == 1);
    MaskedIncreasing(uniques, m);
    MaskedMembers(uniques, m);
    Masked(uniques, m)
  }

  /** `uniques[counts > 1]` over `torch.cat([s1, s2])`. */
  function SetIntersect(s1: seq<int>, s2: seq<int>): (r: seq<int>)
    ensures StrictlyIncreasing(r)
    ensures forall x :: x in r ==> multiset(s1 + s2)[x] > 1
  {
    var combined := s1 + s2;
    var uniques := Unique(combined);
    var counts := Counts(uniques, combined);
    var m := seq(|counts|, i requires 0 <= i < |counts| => counts[i] > 1);
    MaskedIncreasing(uniques, m);
    MaskedMembers(uniques, m);
    Masked(uniques, m)
  }

  /** `set_differ` holds exactly the values that occur once in `s1 ++ s2`, ascending and without repeats. */
  lemma SetDifferMembers(s1: seq<int>, s2: seq<int>)
    ensures StrictlyIncreasing(SetDiffer(s1, s2))
    ensures forall x :: x in SetDiffer(s1, s2) <==> multiset(s1 + s2)[x] == 1
  {
    var combined := s1 + s2;
    var uniques := Unique(combined);
    var counts := Counts(uniques, combined);
    var m := seq(|counts|, i requires 0 <= i < |counts| => counts[i] == 1);
    MaskedIncreasing(uniques, m);
    MaskedMembers(uniques, m);
    forall x | multiset(combined)[x] == 1 ensures x in Masked(uniques, m) {
      assert x in combined;
      var i :| 0 <= i < |uniques| && uniques[i] == x;
      assert m[i];
    }
  }

  /** `set_intersect` holds exactly the values that occur more than once in `s1 ++ s2`, ascending and without repeats. */
  lemma SetIntersectMembers(s1: seq<int>, s2: seq<int>)
    ensures StrictlyIncreasing(SetIntersect(s1, s2))
    ensures forall x :: x in SetIntersect(s1, s2) <==> multiset(s1 + s2)[x] > 1
  {
    var combined := s1 + s2;
    var uniques := Unique(combined);
    var counts := Counts(uniques, combined);
    var m := seq(|counts|, i requires 0 <= i < |counts| => counts[i] > 1);
    MaskedIncreasing(uniques, m);
    MaskedMembers(uniques, m);
    forall x | multiset(combined)[x] > 1 ensures x in Masked(uniques, m) {
      assert x in combined;
      var i :| 0 <= i < |uniques| && uniques[i] == x;
      assert m[i];
    }
  }

  /** The two results are disjoint and together hold every distinct value of `s1 ++ s2`. */
  lemma DifferIntersectPartition(s1: seq<int>, s2: seq<int>)
    ensures forall x :: !(x in SetDiffer(s1, s2) && x in SetIntersect(s1, s2))
    ensures forall x :: x in SetDiffer(s1, s2) || x in SetIntersect(s1, s2) <==> x in s1 || x in s2
  {
    SetDifferMembers(s1, s2);
    SetIntersectMembers(s1, s2);
    forall x ensures x in s1 || x in s2 <==> multiset(s1 + s2)[x] > 0 {
      assert x in s1 + s2 <==> x in s1 || x in s2;
    }
  }

  /** Each value occurs at most once. */
  ghost predicate DuplicateFree(s: seq<int>)
  {
    forall x :: multiset(s)[x] <= 1
  }

  /** For duplicate-free inputs the two results are the symmetric difference and the intersection. */
  lemma SetOperationsOnSets(s1: seq<int>, s2: seq<int>)
    requires DuplicateFree(s1) && DuplicateFree(s2)
    ensures forall x :: x in SetDiffer(s1, s2) <==> (x in s1 && x !in s2) || (x !in s1 && x in s2)
    ensures forall x :: x in SetIntersect(s1, s2) <==> x in s1 && x in s2
  {
    SetDifferMembers(s1, s2);
    SetIntersectMembers(s1, s2);
    forall x ensures multiset(s1 + s2)[x] == multiset(s1)[x] + multiset(s2)[x] {
      assert multiset(s1 + s2) == multiset(s1) + multiset(s2);
    }
  }

  /** A value repeated inside `s1` alone is left out of the difference and put into the intersection, whatever `s2` holds. */
  lemma RepeatInFirstOnly(s1: seq<int>, s2: seq<int>, x: int)
    requires multiset(s1)[x] > 1
    ensures x !in SetDiffer(s1, s2)
    ensures x in SetIntersect(s1, s2)
  {
    SetDifferMembers(s1, s2);
    SetIntersectMembers(s1, s2);
    assert multiset(s1 + s2) == multiset(s1) + multiset(s2);
  }

  // ---------------------------------------------------------------------------
  // indices_to_mask
  // ---------------------------------------------------------------------------

  /** Adding 1.0 at each index of `row` into `num_nodes` zeros (one row of `scatter_add`). */
  function ScatterOnes(row: seq<int>, numNodes: nat): (r: seq<nat>)
    requires forall k :: 0 <= k < |row| ==> 0 <= row[k] < numNodes
    ensures |r| == numNodes
  {
    if |row| == 0 then seq(numNodes, _ => 0)
    else
      var k := |row| - 1;
      var prev := ScatterOnes(row[..k], numNodes);
      prev[row[k] := prev[row[k]] + 1]
  }

  /** Entry `j` of the scattered row counts the occurrences of `j`. */
  lemma {:induction false} ScatterOnesCounts(row: seq<int>, numNodes: nat)
    requires forall k :: 0 <= k < |row| ==> 0 <= row[k] < numNodes
    ensures forall j :: 0 <= j < numNodes ==> ScatterOnes(row, numNodes)[j] == multiset(row)[j]
  {
    if |row| > 0 {
      var k := |row| - 1;
      assert row == row[..k] + [row[k]];
      assert multiset(row) == multiset(row[..k]) + multiset{row[k]};
      ScatterOnesCounts(row[..k], numNodes);
    }
  }

  /** Every index of every row lies in `[0, num_nodes)`. */
  predicate IndicesInRange(indices: seq<seq<int>>, numNodes: nat)
  {
    forall i, k :: 0 <= i < |indices| && 0 <= k < |indices[i]| ==> 0 <= indices[i][k] < numNodes
  }

  /** `indices_to_mask`: `scatter_add` of ones along each row. */
  function IndicesToMask(indices: seq<seq<int>>, numNodes: nat): (r: seq<seq<nat>>)
    requires IndicesInRange(indices, numNodes)
    ensures |r| == |indices|
    ensures forall i :: 0 <= i < |r| ==> |r[i]| == numNodes
  {
    seq(|indices|, i requires 0 <= i < |indices| => ScatterOnes(indices[i], numNodes))
  }

  /** Per row, entry `j` of the mask counts how often node `j` occurs in that row. */
  lemma IndicesToMaskCounts(indices: seq<seq<int>>, numNodes: nat)
    requires IndicesInRange(indices, numNodes)
    ensures forall i, j :: 0 <= i < |indices| && 0 <= j < numNodes ==>
      IndicesToMask(indices, numNodes)[i][j] == multiset(indices[i])[j]
  {
    forall i | 0 <= i < |indices| ensures forall j :: 0 <= j < numNodes ==>
      IndicesToMask(indices, numNodes)[i][j] == multiset(indices[i])[j]
    {
      ScatterOnesCounts(indices[i], numNodes);
    }
  }

  function Sum(s: seq<nat>): nat
  {
    if |s| == 0 then 0 else Sum(s[..|s| - 1]) + s[|s| - 1]
  }

  lemma {:induction false} SumZeros(n: nat)
    ensures Sum(seq(n, _ => 0)) == 0
  {
    if n > 0 {
      assert seq(n, _ => 0)[..n - 1] == seq(n - 1, _ => 0);
      SumZeros(n - 1);
    }
  }

  lemma {:induction false} SumIncrement(s: seq<nat>, j: nat)
    requires j < |s|
    ensures Sum(s[j := s[j] + 1]) == Sum(s) + 1
  {
    var k := |s| - 1;
    if j < k {
      assert s[j := s[j] + 1][..k] == s[..k][j := s[j] + 1];
      SumIncrement(s[..k], j);
    } else {
      assert s[j := s[j] + 1][..k] == s[..k];
    }
  }

  /** Each row of the mask adds up to the number of indices in that row. */
  lemma {:induction false} ScatterOnesSum(row: seq<int>, numNodes: nat)
    requires forall k :: 0 <= k < |row| ==> 0 <= row[k] < numNodes
    ensures Sum(ScatterOnes(row, numNodes)) == |row|
  {
    if |row| == 0 {
      SumZeros(numNodes);
    } else {
      var k := |row| - 1;
      var prev := ScatterOnes(row[..k], numNodes);
      assert ScatterOnes(row, numNodes) == prev[row[k] := prev[row[k]] + 1];
      ScatterOnesSum(row[..k], numNodes);
      SumIncrement(prev, row[k]);
    }
  }

  /** Only for a row without repeats is the result a 0/1 membership mask. */
  lemma MaskOfDistinctRow(indices: seq<seq<int>>, numNodes: nat, i: nat)
    requires IndicesInRange(indices, numNodes) && i < |indices|
    ensures DuplicateFree(indices[i]) ==>
      forall j :: 0 <= j < numNodes ==> IndicesToMask(indices, numNodes)[i][j] == if j in indices[i] then 1 else 0
    ensures !DuplicateFree(indices[i]) ==> exists j :: 0 <= j < numNodes && IndicesToMask(indices, numNodes)[i][j] > 1
  {
    var r := IndicesToMask(indices, numNodes);
    IndicesToMaskCounts(indices, numNodes);
    if !DuplicateFree(indices[i]) {
      var x :| multiset(indices[i])[x] > 1;
      assert x in indices[i];
      assert r[i][x] > 1;
    }
  }

  // ---------------------------------------------------------------------------
  // get_activation
  // ---------------------------------------------------------------------------

  /** The `torch.nn` activation classes the lookup offers. */
  datatype Activation = ReLU | Hardtanh | ELU | LeakyReLU | PReLU | RReLU

  /** The `activations` dict. */
  const Activations: map<string, Activation> :=
    map["relu" := ReLU, "hardtanh" := Hardtanh, "elu" := ELU,
        "leakyrelu" := LeakyReLU, "prelu" := PReLU, "rrelu" := RReLU]

  /** `activations[name]`: a missing name raises `KeyError`. */
  function GetActivation(name: string): (r: Result<Activation, UtilsError>)
    ensures r.Err? ==> r.error == KeyError(name)
  {
    if name in Activations then Ok(Activations[name]) else Err(KeyError(name))
  }

  /** The name under which each activation is registered. */
  function ActivationName(a: Activation): string
  {
    match a
    case ReLU => "relu"
    case Hardtanh => "hardtanh"
    case ELU => "elu"
    case LeakyReLU => "leakyrelu"
    case PReLU => "prelu"
    case RReLU => "rrelu"
  }

  /** Every activation is found under its name, and a name is found only if it is that activation's name. */
  lemma ActivationRoundTrip(a: Activation, name: string)
    ensures GetActivation(ActivationName(a)) == Ok(a)
    ensures GetActivation(name).Ok? <==> exists b :: ActivationName(b) == name
    ensures GetActivation(name).Ok? ==> ActivationName(GetActivation(name).value) == name
  {
    if GetActivation(name).Ok? {
      assert name in Activations;
      assert ActivationName(Activations[name]) == name;
    }
  }

  // ---------------------------------------------------------------------------
  // get_augmentor
  // ---------------------------------------------------------------------------

  /** `str(n)` of a non-negative integer: its decimal digits, most significant first. */
  function NatToString(n: nat): (s: string)
    ensures |s| > 0
    ensures forall k :: 0 <= k < |s| ==> '0' <= s[k] <= '9'
  {
    if n < 10 then [DigitChar(n)] else NatToString(n / 10) + [DigitChar(n % 10)]
  }

  function DigitChar(d: nat): (c: char)
    requires d < 10
    ensures '0' <= c <= '9'
  {
    ('0' as int + d) as char
  }

  /** `f'{view_id}'` of an integer: a minus sign before the digits of a negative one. */
  function IntToString(i: int): string
  {
    if i < 0 then "-" + NatToString(-i) else NatToString(i)
  }

  /** The value of a string of decimal digits. */
  function ParseNat(s: string): int
    requires |s| > 0
  {
    var k := |s| - 1;
    var d := s[k] as int - '0' as int;
    if k == 0 then d else ParseNat(s[..k]) * 10 + d
  }

  /** The integer a decimal string written by `IntToString` stands for. */
  function ParseInt(s: string): int
    requires |s| > 0
  {
    if s[0] == '-' && |s| > 1 then -ParseNat(s[1..]) else ParseNat(s)
  }

  lemma {:induction false} ParseNatToString(n: nat)
    ensures ParseNat(NatToString(n)) == n
  {
    if n >= 10 {
      var s := NatToString(n);
      assert s[..|s| - 1] == NatToString(n / 10);
      ParseNatToString(n / 10);
    }
  }

  /** Parsing reads back the integer that was written. */
  lemma ParseIntToString(i: int)
    ensures ParseInt(IntToString(i)) == i
  {
    if i < 0 {
      var s := IntToString(i);
      assert s[1..] == NatToString(-i);
      ParseNatToString(-i);
    } else {
      var s := NatToString(i);
      assert s[0] != '-';
      ParseNatToString(i);
    }
  }

  /** Distinct integers are written differently. */
  lemma IntToStringInjective(i: int, j: int)
    ensures IntToString(i) == IntToString(j) ==> i == j
  {
    ParseIntToString(i);
    ParseIntToString(j);
  }

  /** A parameter key specific to one view, such as `drop_edge_prob1`. */
  function ViewKey(prefix: string, viewId: int): string
  {
    prefix + IntToString(viewId)
  }

  /** Two views read different keys under the same prefix. */
  lemma ViewKeysDistinct(prefix: string, v1: int, v2: int)
    requires v1 != v2
    ensures ViewKey(prefix, v1) != ViewKey(prefix, v2)
  {
    IntToStringInjective(v1, v2);
    assert ViewKey(prefix, v1)[|prefix|..] == IntToString(v1);
    assert ViewKey(prefix, v2)[|prefix|..] == IntToString(v2);
  }

  /**
   * The augmentor classes `get_augmentor` builds, holding the parameter values
   * they were given, and `Compose`, what `a >> b` builds.
   */
  datatype Augmentor<V> =
    | EdgeRemoving(pe: V)
    | EdgeAdding(pe: V)
    | NodeDropping(pn: V)
    | RWSampling(numSeeds: V, walkLength: V)
    | PPRDiffusion(eps: V, useCache: bool)
    | MarkovDiffusion(spEps: V, useCache: bool)
    | Identity
    | FeatureMasking(pf: V)
    | FeatureDropout(pf: V)
    | Compose(first: Augmentor<V>, second: Augmentor<V>)

  /** The augmentation codes `get_augmentor` accepts. */
  const AugmentorCodes: set<string> := {"ER", "EA", "ND", "RWS", "PPR", "MKD", "ORI", "FM", "FD"}

  /** The code each single augmentor is built from. */
  function Code<V>(a: Augmentor<V>): string
  {
    match a
    case EdgeRemoving(_) => "ER"
    case EdgeAdding(_) => "EA"
    case NodeDropping(_) => "ND"
    case RWSampling(_, _) => "RWS"
    case PPRDiffusion(_, _) => "PPR"
    case MarkovDiffusion(_, _) => "MKD"
    case Identity => "ORI"
    case FeatureMasking(_) => "FM"
    case FeatureDropout(_) => "FD"
    case Compose(_, _) => ">>"
  }

  /** The parameter values a single augmentor holds, in argument order. */
  function Params<V>(a: Augmentor<V>): seq<V>
  {
    match a
    case EdgeRemoving(p) => [p]
    case EdgeAdding(p) => [p]
    case NodeDropping(p) => [p]
    case RWSampling(p, q) => [p, q]
    case PPRDiffusion(p, _) => [p]
    case MarkovDiffusion(p, _) => [p]
    case Identity => []
    case FeatureMasking(p) => [p]
    case FeatureDropout(p) => [p]
    case Compose(_, _) => []
  }

  /** The keys of `param` each code reads, in the order they are read. */
  function ReadKeys(code: string, viewId: int): seq<string>
  {
    if code == "ER" then [ViewKey("drop_edge_prob", viewId)]
    else if code == "EA" then [ViewKey("add_edge_prob", viewId)]
    else if code == "ND" then [ViewKey("drop_node_prob", viewId)]
    else if code == "RWS" then ["num_seeds", "walk_length"]
    else if code == "PPR" || code == "MKD" then ["sp_eps"]
    else if code == "FM" || code == "FD" then [ViewKey("drop_feat_prob", viewId)]
    else []
  }

  /** `param[key]`: a missing key raises `KeyError`. */
  function Lookup<V>(param: map<string, V>, key: string): (r: Result<V, UtilsError>)
    ensures r.Ok? <==> key in param
    ensures r.Ok? ==> r.value == param[key]
    ensures r.Err? ==> r.error == KeyError(key)
  {
    if key in param then Ok(param[key]) else Err(KeyError(key))
  }

  /** `get_augmentor(aug_name, view_id, param)`. */
  function GetAugmentor<V>(name: string, viewId: int, param: map<string, V>): (r: Result<Augmentor<V>, UtilsError>)
    ensures r.Ok? ==> !r.value.Compose?
  {
    if name == "ER" then
      var pe :- Lookup(param, ViewKey("drop_edge_prob", viewId)); Ok(EdgeRemoving(pe))
    else if name == "EA" then
      var pe :- Lookup(param, ViewKey("add_edge_prob", viewId)); Ok(EdgeAdding(pe))
    else if name == "ND" then
      var pn :- Lookup(param, ViewKey("drop_node_prob", viewId)); Ok(NodeDropping(pn))
    else if name == "RWS" then
      var seeds :- Lookup(param, "num_seeds");
      var length :- Lookup(param, "walk_length");
      Ok(RWSampling(seeds, length))
    else if name == "PPR" then
      var eps :- Lookup(param, "sp_eps"); Ok(PPRDiffusion(eps, false))
    else if name == "MKD" then
      var eps :- Lookup(param, "sp_eps"); Ok(MarkovDiffusion(eps, false))
    else if name == "ORI" then
      Ok(Identity)
    else if name == "FM" then
      var pf :- Lookup(param, ViewKey("drop_feat_prob", viewId)); Ok(FeatureMasking(pf))
    else if name == "FD" then
      var pf :- Lookup(param, ViewKey("drop_feat_prob", viewId)); Ok(FeatureDropout(pf))
    else
      Err(NotImplementedError(name))
  }

  /**
   * An unknown code raises `NotImplementedError`. A known code succeeds exactly
   * when every key it reads is present; the augmentor then has that code and holds
   * those keys' values in order, and otherwise the error is the `KeyError` of the
   * first missing key.
   */
  lemma GetAugmentorSpec<V>(name: string, viewId: int, param: map<string, V>)
    ensures name !in AugmentorCodes ==> GetAugmentor(name, viewId, param) == Err(NotImplementedError(name))
    ensures name in AugmentorCodes ==>
      var r := GetAugmentor(name, viewId, param);
      var keys := ReadKeys(name, viewId);
      && (r.Ok? <==> forall k :: k in keys ==> k in param)
      && (r.Ok? ==> Code(r.value) == name
                    && |Params(r.value)| == |keys|
                    && forall k :: 0 <= k < |keys| ==> Params(r.value)[k] == param[keys[k]])
      && (r.Err? ==> exists k :: 0 <= k < |keys| && r.error == KeyError(keys[k]) && keys[k] !in param
                                 && forall k' :: 0 <= k' < k ==> keys[k'] in param)
  {
    var r := GetAugmentor(name, viewId, param);
    var keys := ReadKeys(name, viewId);
    if name in AugmentorCodes && r.Err? {
      if keys[0] !in param {
        assert r.error == KeyError(keys[0]);
      } else {
        assert name == "RWS" && r.error == KeyError(keys[1]);
      }
    }
  }

  /**
   * Edge removal/adding, node dropping and feature masking/dropout read a key
   * specific to the view, so two views never share it; the other codes read
   * shared keys and give the same augmentor for every view. Diffusions never
   * cache.
   */
  lemma AugmentorViews<V>(name: string, v1: int, v2: int, param: map<string, V>)
    ensures name in {"ER", "EA", "ND", "FM", "FD"} && v1 != v2 ==> ReadKeys(name, v1) != ReadKeys(name, v2)
    ensures name in {"RWS", "PPR", "MKD", "ORI"} ==> GetAugmentor(name, v1, param) == GetAugmentor(name, v2, param)
    ensures GetAugmentor(name, v1, param).Ok? && (name == "PPR" || name == "MKD") ==>
      !GetAugmentor(name, v1, param).value.useCache
  {
    if v1 != v2 {
      if name == "ER" { ViewKeysDistinct("drop_edge_prob", v1, v2); }
      else if name == "EA" { ViewKeysDistinct("add_edge_prob", v1, v2); }
      else if name == "ND" { ViewKeysDistinct("drop_node_prob", v1, v2); }
      else { ViewKeysDistinct("drop_feat_prob", v1, v2); }
    }
  }

  // ---------------------------------------------------------------------------
  // get_compositional_augmentor
  // ---------------------------------------------------------------------------

  /** `s.split(sep)`: the pieces between separators, empty ones included; never an empty list. */
  function SplitOn(s: string, sep: char): (r: seq<string>)
    ensures |r| > 0
  {
    if |s| == 0 then [""]
    else
      var k := |s| - 1;
      assert s == s[..k] + [s[k]];
      var prev := SplitOn(s[..k], sep);
      var n := |prev| - 1;
      if s[k] == sep then prev + [""]
      else prev[..n] + [prev[n] + [s[k]]]
  }

  /** There is one piece more than there are separators, and no piece holds a separator. */
  lemma {:induction false} SplitPieces(s: string, sep: char)
    ensures |SplitOn(s, sep)| == multiset(s)[sep] + 1
    ensures forall i :: 0 <= i < |SplitOn(s, sep)| ==> sep !in SplitOn(s, sep)[i]
  {
    if |s| > 0 {
      var k := |s| - 1;
      var c := s[k];
      assert s == s[..k] + [c];
      assert multiset(s) == multiset(s[..k]) + multiset{c};
      var prev := SplitOn(s[..k], sep);
      var n := |prev| - 1;
      SplitPieces(s[..k], sep);
      var r := SplitOn(s, sep);
      if c == sep {
        assert r == prev + [""];
      } else {
        assert r == prev[..n] + [prev[n] + [c]];
        assert sep !in prev[n] + [c];
      }
    }
  }

  /** `sep.join(pieces)`. */
  function Join(pieces: seq<string>, sep: char): string
    requires |pieces| > 0
  {
    var n := |pieces| - 1;
    if n == 0 then pieces[0] else Join(pieces[..n], sep) + [sep] + pieces[n]
  }

  /** Joining the pieces gives back the schema. */
  lemma {:induction false} JoinSplit(s: string, sep: char)
    ensures Join(SplitOn(s, sep), sep) == s
  {
    if |s| > 0 {
      var k := |s| - 1;
      var c := s[k];
      assert s == s[..k] + [c];
      var prev := SplitOn(s[..k], sep);
      var n := |prev| - 1;
      JoinSplit(s[..k], sep);
      var r := SplitOn(s, sep);
      if c == sep {
        assert r == prev + [""];
        assert r[..n + 1] == prev;
        assert Join(r, sep) == Join(prev, sep) + [sep] + "";
      } else {
        assert r == prev[..n] + [prev[n] + [c]];
        if n == 0 {
          assert Join(r, sep) == prev[0] + [c];
        } else {
          assert r[..n] == prev[..n];
          assert Join(r, sep) == Join(prev[..n], sep) + [sep] + (prev[n] + [c]);
          assert Join(prev, sep) == Join(prev[..n], sep) + [sep] + prev[n];
        }
      }
    }
  }

  /** Splitting a join of separator-free pieces gives back the pieces. */
  lemma {:induction false} SplitJoin(pieces: seq<string>, sep: char)
    requires |pieces| > 0
    requires forall i :: 0 <= i < |pieces| ==> sep !in pieces[i]
    ensures SplitOn(Join(pieces, sep), sep) == pieces
  {
    var n := |pieces| - 1;
    if n == 0 {
      SplitPlain(pieces[0], sep);
    } else {
      SplitJoin(pieces[..n], sep);
      SplitAppend(Join(pieces[..n], sep), pieces[n], sep);
      assert pieces == pieces[..n] + [pieces[n]];
    }
  }

  /** A string without separators is one piece. */
  lemma {:induction false} SplitPlain(w: string, sep: char)
    requires sep !in w
    ensures SplitOn(w, sep) == [w]
  {
    if |w| > 0 {
      var k := |w| - 1;
      assert w == w[..k] + [w[k]];
      SplitPlain(w[..k], sep);
    }
  }

  /** Appending a separator and a separator-free word adds that word as one more piece. */
  lemma {:induction false} SplitAppend(s: string, w: string, sep: char)
    requires sep !in w
    ensures SplitOn(s + [sep] + w, sep) == SplitOn(s, sep) + [w]
  {
    if |w| == 0 {
      assert s + [sep] + w == s + [sep];
      assert (s + [sep])[..|s|] == s;
    } else {
      var k := |w| - 1;
      assert (s + [sep] + w)[..|s| + 1 + k] == s + [sep] + w[..k];
      assert w == w[..k] + [w[k]];
      SplitAppend(s, w[..k], sep);
    }
  }

  /** `[get_augmentor(x, view_id, param) for x in pieces]`: the first piece that fails raises its error. */
  function BuildAll<V>(pieces: seq<string>, viewId: int, param: map<string, V>): (r: Result<seq<Augmentor<V>>, UtilsError>)
    ensures r.Ok? <==> forall i :: 0 <= i < |pieces| ==> GetAugmentor(pieces[i], viewId, param).Ok?
    ensures r.Ok? ==> |r.value| == |pieces|
    ensures r.Ok? ==> forall i :: 0 <= i < |pieces| ==> r.value[i] == GetAugmentor(pieces[i], viewId, param).value
    ensures r.Err? ==> exists i :: 0 <= i < |pieces| && GetAugmentor(pieces[i], viewId, param) == Err(r.error)
                                   && forall j :: 0 <= j < i ==> GetAugmentor(pieces[j], viewId, param).Ok?
  {
    if |pieces| == 0 then Ok([])
    else
      match GetAugmentor(pieces[0], viewId, param)
      case Err(e) => Err(e)
      case Ok(a) =>
        match BuildAll(pieces[1..], viewId, param)
        case Err(e) =>
          assert exists i :: 1 <= i < |pieces| && GetAugmentor(pieces[i], viewId, param) == Err(e)
                             && forall j :: 0 <= j < i ==> GetAugmentor(pieces[j], viewId, param).Ok?;
          Err(e)
        case Ok(rest) => Ok([a] + rest)
  }

  /** `augs[0] >> augs[1] >> ...`: the left-nested composition. */
  function LeftFold<V>(augs: seq<Augmentor<V>>): (r: Augmentor<V>)
    requires |augs| > 0
    ensures Steps(r) == FlatSteps(augs)
  {
    var n := |augs| - 1;
    if n == 0 then augs[0] else Compose(LeftFold(augs[..n]), augs[n])
  }

  /** The single augmentors a composition applies, in order. */
  function Steps<V>(a: Augmentor<V>): seq<Augmentor<V>>
  {
    if a.Compose? then Steps(a.first) + Steps(a.second) else [a]
  }

  /** The single augmentors of each element, one after the other. */
  function FlatSteps<V>(augs: seq<Augmentor<V>>): seq<Augmentor<V>>
  {
    if |augs| == 0 then [] else FlatSteps(augs[..|augs| - 1]) + Steps(augs[|augs| - 1])
  }

  /** Folding single augmentors applies each of them once, in order. */
  lemma {:induction false} LeftFoldSteps<V>(augs: seq<Augmentor<V>>)
    requires |augs| > 0
    requires forall i :: 0 <= i < |augs| ==> !augs[i].Compose?
    ensures Steps(LeftFold(augs)) == augs
  {
    FlatStepsOfSingles(augs);
  }

  /** Single augmentors are their own steps. */
  lemma {:induction false} FlatStepsOfSingles<V>(augs: seq<Augmentor<V>>)
    requires forall i :: 0 <= i < |augs| ==> !augs[i].Compose?
    ensures FlatSteps(augs) == augs
  {
    if |augs| > 0 {
      var n := |augs| - 1;
      FlatStepsOfSingles(augs[..n]);
      assert augs == augs[..n] + [augs[n]];
    }
  }

  /** Every augmentor built from a schema piece is a single one. */
  lemma BuiltAreSingle<V>(pieces: seq<string>, viewId: int, param: map<string, V>)
    requires BuildAll(pieces, viewId, param).Ok?
    ensures forall i :: 0 <= i < |pieces| ==> !BuildAll(pieces, viewId, param).value[i].Compose?
  {
    forall i | 0 <= i < |pieces| ensures !BuildAll(pieces, viewId, param).value[i].Compose? {
      assert GetAugmentor(pieces[i], viewId, param).Ok?;
    }
  }

  /** Composing the augmentors of a schema whose pieces all build applies one augmentor per piece, in order. */
  lemma CompositionSteps<V>(schema: string, viewId: int, param: map<string, V>)
    requires BuildAll(SplitOn(schema, '+'), viewId, param).Ok?
    ensures var augs := BuildAll(SplitOn(schema, '+'), viewId, param).value;
      && |augs| == multiset(schema)['+'] + 1
      && Steps(LeftFold(augs)) == augs
  {
    var pieces := SplitOn(schema, '+');
    BuiltAreSingle(pieces, viewId, param);
    LeftFoldSteps(BuildAll(pieces, viewId, param).value);
    SplitPieces(schema, '+');
  }

  /** The loop `aug = augs[0]; for a in augs[1:]: aug = aug >> a`. */
  method ComposeAll<V>(augs: seq<Augmentor<V>>) returns (aug: Augmentor<V>)
    requires |augs| > 0
    ensures aug == LeftFold(augs)
  {
    aug := augs[0];
    for k := 1 to |augs|
      invariant aug == LeftFold(augs[..k])
    {
      assert augs[..k + 1][..k] == augs[..k];
      aug := Compose(aug, augs[k]);
    }
    assert augs[..|augs|] == augs;
  }

  /**
   * `get_compositional_augmentor(schema, view_id, param)`: split on '+', build
   * every piece, and compose from the left; the composition applies one
   * augmentor per piece, in schema order.
   */
  method GetCompositionalAugmentor<V>(schema: string, viewId: int, param: map<string, V>)
    returns (r: Result<Augmentor<V>, UtilsError>)
    ensures var built := BuildAll(SplitOn(schema, '+'), viewId, param);
      && (built.Err? ==> r == Err(built.error))
      && (built.Ok? ==> r == Ok(LeftFold(built.value)) && Steps(r.value) == built.value)
    ensures r.Ok? ==> |Steps(r.value)| == multiset(schema)['+'] + 1
  {
    var pieces := SplitOn(schema, '+');
    var built := BuildAll(pieces, viewId, param);
    if built.Err? {
      return Err(built.error);
    }
    var aug := ComposeAll(built.value);
    CompositionSteps(schema, viewId, param);
    return Ok(aug);
  }
}
