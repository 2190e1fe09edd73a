# PyGCL orchestration and split bookkeeping in Dafny

This project models the parts of PyGCL, a graph contrastive learning library, that decide what is computed, not how the numbers come out. It covers three things.

- **Contrast models** (`GCL/models/contrast_model.py`) are `SingleBranchContrast`, `DualBranchContrast`, `BootstrapContrast` and `WithinEmbedContrast`. The model covers which sampler each one picks and which arguments each mode demands. It says which embedding is the anchor, the sample or the negative sample in each direction, which masks reach the sampler, and how the two direction losses are averaged.
- **Evaluation splits** (`GCL/eval/eval.py`) are `get_split`, `from_PyG_split` and the stop-metric resolution of `BaseEvaluator.__init__`. `get_split` cuts random permutations into train/valid/test slices. `from_PyG_split` turns boolean split masks into index lists.
- **Helpers** (`utils.py`) are `set_differ` and `set_intersect` (count filters over a concatenation), `indices_to_mask` (a scatter of ones), the activation lookup, the augmentor dispatch and the `'+'`-separated augmentation schema.

## Files

- `wrappers.dfy` holds `Option` and `Result`. A `Result` error stands for the Python exception raised.
- `indexing.dfy` holds the Python and torch indexing the code relies on:
  - `torch.arange`;
  - slices with negative, clamped bounds;
  - list indexing with negative indices;
  - `int()` of a float, which truncates toward zero;
  - boolean-mask selection.
- `eval.dfy` is module `Eval`.
- `contrast_model.dfy` is module `ContrastModel`.
- `utils.dfy` is module `Utils`.

## Modelling choices

**Imperative code.** Code with loops is modelled as methods whose loops are proved against specification functions:
- `get_split`'s loop over splits is `Eval.GetSplit`, proved against `Eval.SplitOf`.
- `from_PyG_split`'s nested loops are `Eval.ColumnDicts` and `Eval.ColumnDict`, called by `Eval.FromPyGSplit`, proved against `Eval.PartialDict`.
- `get_compositional_augmentor`'s `for` loop is `Utils.ComposeAll`, called by `Utils.GetCompositionalAugmentor`, proved against `Utils.LeftFold`.

**Contrast modules.** Their fields never change after `__init__`, so they are datatypes built by constructor functions.

**Tensors and calls.**
- Tensors the code only passes along are opaque handles.
- A sampler call is the term `SamplerCall` that records every keyword argument.
- The loss is a function parameter.

**Where the code wins.** Where the documentation and the code disagree, the model follows the code:
- For `get_split(10, 1, 0.5, 0.4)` the docstring example (eval.py:27-28) shows train/valid/test sizes 5/1/4. The code gives 5/4/1; see Findings.
- That call also returns a single dict, not the one-element list the docstring shows (eval.py:43 against eval.py:28).
- `from_PyG_split` names the validation key `'valid'` for 1-D masks but `'val'` for 2-D masks (`mask[:-5]`). `Eval.ValidationKeyDiffers` states this.

## Model

| member | source | states |
|---|---|---|
| Indexing.Range | GCL/eval/eval.py:62 | `torch.arange(n)` has length n and holds i at position i |
| Indexing.Trunc | GCL/eval/eval.py:32-33 | `int()` of a float rounds toward zero: within 1 below a non-negative value, within 1 above a negative one |
| Indexing.SliceBound | GCL/eval/eval.py:39-41 | a slice bound counts from the end when negative and is clamped to [0, n] |
| Indexing.Slice | GCL/eval/eval.py:39-41 | `s[lo:hi]` is at most as long as s; without a lower bound it is a prefix, without an upper bound a suffix, and with in-range bounds `lo <= hi` exactly `s[lo..hi]` |
| Indexing.PyIndex | GCL/eval/eval.py:111 | `xs[i]` succeeds exactly for -len <= i < len; a negative index counts from the end; otherwise IndexError |
| Indexing.Masked | utils.py:110 | boolean-mask selection has one element per true bit |
| Indexing.MaskedMembers | utils.py:110 | every selected element is in the result, and every element of the result is a selected one |
| Indexing.MaskedIncreasing | utils.py:110 | selecting from an ascending sequence keeps it ascending |
| Indexing.Positions | GCL/eval/eval.py:66-68 | `arange(n)[mask]` has one entry per set bit |
| Indexing.PositionsAreMaskedRange | GCL/eval/eval.py:62-68 | `indices[mask]` with `indices = torch.arange(n)` is mask selection applied to the range |
| Indexing.PositionsMembers | GCL/eval/eval.py:66-68 | `arange(n)[mask]` holds exactly the positions whose bit is set |
| Indexing.PositionsIncreasing | GCL/eval/eval.py:66-68 | those positions come out ascending |
| Eval.SplitOf | GCL/eval/eval.py:38-42 | the dict has exactly the keys 'train', 'valid', 'test', and 'train' is a prefix of the permutation |
| Eval.GetSplit | GCL/eval/eval.py:30-43 | sum of ratios not below 1 is an AssertionError before anything else; fewer than one split is an IndexError on `out[0]`; a negative sample count is the RuntimeError of `torch.randperm`; otherwise 1 split gives one dict, and more give a list with the dict of permutation k at position k |
| Eval.SplitOfConcat | GCL/eval/eval.py:39-41 | with non-negative sizes, train ++ valid ++ test is the permutation; train has train_size entries and valid test_size entries when they fit |
| Eval.SizesFit | GCL/eval/eval.py:30-33 | with non-negative ratios summing below 1, both sizes are non-negative, sum to at most n, and sum below n when n >= 1 |
| Eval.SplitPartition | GCL/eval/eval.py:32-42 | for a permutation of 0..n-1 and non-negative ratios passing the assertion, the three slices are pairwise disjoint, cover 0..n-1, have the truncated sizes, and 'test' is non-empty when n >= 1 |
| Eval.NegativeRatioOverlaps | GCL/eval/eval.py:30-41 | a negative test ratio can pass the assertion and make 'test' overlap 'train': for n=10 and ratios 0.5/-0.5, 'train' has 5 entries, 'valid' is empty and 'test' is the whole permutation |
| Eval.DocExampleAsWritten | GCL/eval/eval.py:27-41 | for n=10, ratios 0.5/0.4, the code puts 4 indices in 'valid' and 1 in 'test' |
| Eval.IntendedSplitSizes | GCL/eval/eval.py:26-28 | the split the docstring describes partitions the permutation in order, gives 'test' test_size entries, and gives 5/1/4 in the docstring's example |
| Eval.KeysOfMaskNames | GCL/eval/eval.py:74-77 | `mask[:-5]` turns 'train_mask', 'val_mask', 'test_mask' into 'train', 'val', 'test' |
| Eval.FromPyGSplit | GCL/eval/eval.py:59-81 | a missing mask is exactly the ValueError case. 1-D masks give one dict of set positions, or an IndexError when val/test is 2-D. A 2-D train mask gives one dict per column, or an IndexError when a 2-D val/test mask lacks that column |
| Eval.Selection | GCL/eval/eval.py:75-79 | a 1-D mask selects its set positions whatever the column; a 2-D mask has a selection for column i exactly when i is below its width |
| Eval.ColumnDicts | GCL/eval/eval.py:71-81 | the outer loop yields one dict per train-mask column, each the selection of that column, exactly when every 2-D val/test mask is at least as wide; otherwise it stops with the IndexError |
| Eval.ColumnDict | GCL/eval/eval.py:73-80 | one split's dict exists exactly when every 2-D mask has column i; it equals the per-mask selection keyed by `mask[:-5]` |
| Eval.ColumnDictContents | GCL/eval/eval.py:73-80 | the 2-D dict has exactly the keys 'train', 'val', 'test', each the selection of its mask in column i |
| Eval.AllColumnsMeansAvailable | GCL/eval/eval.py:72-81 | when every column of the train mask has its dict, every 2-D val/test mask is at least as wide as the train mask |
| Eval.ValidationKeyDiffers | GCL/eval/eval.py:64-79 | the 2-D dicts carry 'val' and no 'valid', unlike the 1-D dict |
| Eval.FlatMaskReused | GCL/eval/eval.py:74-79 | a 1-D val or test mask in the 2-D branch (a single test split, as in WikiCS) gives its set positions in every split, whatever the column |
| Eval.NewBaseEvaluator | GCL/eval/eval.py:98-115 | fields stored as given (`metric` unwrapped). With neither cv nor stop metric, index 0 is used. An index picks from the metric list, a lone callable counting as a one-element list. Out of range is IndexError; a non-list is ValueError. A callable stop metric is kept; with cv and no stop metric it is None |
| ContrastModel.Average | GCL/models/contrast_model.py:93 | the result is the midpoint of the two direction losses |
| ContrastModel.AverageFacts | GCL/models/contrast_model.py:90-93 | the combination is symmetric, lies between the two losses, and equals their common value when they agree |
| ContrastModel.SingleGraph | GCL/models/contrast_model.py:73 | no batch means a single graph; a non-empty batch means a single graph iff every graph index is <= 0; an empty batch fails |
| ContrastModel.Max | GCL/models/contrast_model.py:73 | `batch.max()` bounds every element and is one of them |
| ContrastModel.NewSingleBranchContrast | GCL/models/contrast_model.py:11-17 | construction succeeds exactly for mode 'G2L' (else AssertionError) and stores loss, kwargs and a dense G2L sampler |
| ContrastModel.SingleForward | GCL/models/contrast_model.py:19-28 | the call fails (AssertionError) exactly when neither batch nor hn is given |
| ContrastModel.SingleForwardWiring | GCL/models/contrast_model.py:20-27 | g is the anchor and h the sample; hn goes to the sampler without a batch, the batch otherwise; the stored kwargs reach the loss |
| ContrastModel.SingleForwardIgnoresExtraMasks | GCL/models/contrast_model.py:19-25 | the extra masks never influence the result |
| ContrastModel.NewDualBranchContrast | GCL/models/contrast_model.py:32-45 | a given sampler is kept. Otherwise the default sampler is chosen iff the mode is L2L/G2G without intra-view negatives, and a dense sampler for the mode otherwise |
| ContrastModel.DualForward | GCL/models/contrast_model.py:47-93 | the call is the RuntimeError exactly when the default sampler gets an extra mask, checked before anything else. Otherwise it is the AssertionError exactly when the mode's required embeddings are missing (for G2L, once the batch has been read), and an empty G2L batch fails in `batch.max()`. Success implies the required embeddings are present |
| ContrastModel.DualSameScaleWiring | GCL/models/contrast_model.py:56-71 | L2L/G2G contrast view 1 against view 2 with the first masks and view 2 against view 1 with the second, sharing the extra masks, and average the two losses |
| ContrastModel.DualGlobalLocalWiring | GCL/models/contrast_model.py:72-88 | G2L pairs g1 with h2 and g2 with h1; one graph passes negatives h4/h3, several pass the batch |
| ContrastModel.DualForwardSymmetric | GCL/models/contrast_model.py:56-93 | swapping the two views (embeddings and per-direction masks) leaves result and errors unchanged |
| ContrastModel.DualForwardEqualDirections | GCL/models/contrast_model.py:47-71 | in L2L or G2G, identical views with identical per-direction masks give the one-direction loss, for any sampler the RuntimeError check lets through |
| ContrastModel.NewBootstrapContrast | GCL/models/contrast_model.py:97-107 | a given sampler is kept; otherwise default for L2L/G2G, dense without intra-view negatives for other modes |
| ContrastModel.BootstrapForward | GCL/models/contrast_model.py:109-134 | per mode, success iff that mode's predictions and targets are present (and, for G2L, the batch is usable); a missing one is the AssertionError, and an empty G2L batch fails in `batch.max()` |
| ContrastModel.BootstrapAnchorsAreTargets | GCL/models/contrast_model.py:109-134 | in every mode each view's target is the anchor for the other view's prediction (h in L2L, g in G2G, graph targets against node predictions in G2L); only multi-graph G2L passes the batch, single-graph G2L bypasses the sampler; no masks and no kwargs |
| ContrastModel.BootstrapSingleGraphUnmasked | GCL/models/contrast_model.py:121-126 | on one graph (no batch, or a batch whose largest entry is <= 0) G2L bypasses the sampler with mask-free instances |
| ContrastModel.BootstrapForwardSymmetric | GCL/models/contrast_model.py:109-134 | swapping views leaves the result unchanged; the extra positive mask is never used |
| ContrastModel.WithinEmbedForward | GCL/models/contrast_model.py:142-145 | twice the result is loss(h1,h2) + loss(h2,h1) on mask-free instances without kwargs |
| ContrastModel.WithinEmbedSymmetric | GCL/models/contrast_model.py:142-145 | the result is symmetric in h1, h2 and equals the one-direction loss on equal inputs |
| Utils.InsertSorted | utils.py:109 | inserting into an ascending duplicate-free sequence keeps it so and adds exactly that value |
| Utils.Unique | utils.py:109 | `unique` gives the distinct values, ascending, without repeats |
| Utils.Counts | utils.py:109 | one count per unique value, each the number of its occurrences |
| Utils.SetDiffer | utils.py:107-111 | the result is ascending without repeats, and each of its values occurs once in s1 ++ s2 |
| Utils.SetIntersect | utils.py:114-118 | the result is ascending without repeats, and each of its values occurs more than once in s1 ++ s2 |
| Utils.SetDifferMembers | utils.py:107-111 | `set_differ` holds exactly the values occurring once in s1 ++ s2, ascending and without repeats |
| Utils.SetIntersectMembers | utils.py:114-118 | `set_intersect` holds exactly the values occurring more than once in s1 ++ s2, ascending and without repeats |
| Utils.DifferIntersectPartition | utils.py:107-118 | the two results are disjoint and their union is the distinct values of s1 ++ s2 |
| Utils.SetOperationsOnSets | utils.py:107-118 | for duplicate-free inputs they are the symmetric difference and the intersection |
| Utils.RepeatInFirstOnly | utils.py:107-118 | a value repeated inside s1 is dropped from the difference and put in the intersection whatever s2 holds |
| Utils.ScatterOnes | utils.py:122 | one row of `scatter_add` has num_nodes entries |
| Utils.ScatterOnesCounts | utils.py:122 | scattering ones into num_nodes zeros gives, at entry j, the number of occurrences of j |
| Utils.IndicesToMask | utils.py:121-122 | the mask has one row per index row, each of length num_nodes |
| Utils.IndicesToMaskCounts | utils.py:121-122 | per row, entry j of the mask counts how often j occurs in that row |
| Utils.ScatterOnesSum | utils.py:122 | each row of the mask sums to the number of indices in that row |
| Utils.MaskOfDistinctRow | utils.py:121-122 | the mask row is a 0/1 membership mask iff the row has no repeats; otherwise some entry exceeds 1 |
| Utils.GetActivation | utils.py:61-71 | an unknown name is a KeyError carrying that name |
| Utils.ActivationRoundTrip | utils.py:62-71 | every activation is found under its name, and a lookup succeeds exactly for the six names, returning the activation so named |
| Utils.ParseNatToString | utils.py:76 | decimal digits of n read back as n |
| Utils.ParseIntToString | utils.py:76 | `str(view_id)` reads back as view_id, negative ones included |
| Utils.IntToStringInjective | utils.py:76 | distinct view ids give distinct strings |
| Utils.ViewKeysDistinct | utils.py:75-92 | distinct view ids read distinct view-specific parameter keys |
| Utils.Lookup | utils.py:76 | `param[key]` returns the stored value, or a KeyError carrying the key |
| Utils.GetAugmentor | utils.py:74-94 | a built augmentor is a single augmentor, never a composition |
| Utils.GetAugmentorSpec | utils.py:74-94 | an unknown code is NotImplementedError. A known code succeeds iff every key it reads is present. The augmentor has that code, holds exactly those keys' values. A failure is the KeyError of the first missing key |
| Utils.AugmentorViews | utils.py:74-92 | ER/EA/ND/FM/FD read different keys for different views; RWS/PPR/MKD/ORI give the same augmentor for every view; diffusions never cache |
| Utils.SplitOn | utils.py:98 | `str.split` always gives at least one piece |
| Utils.SplitPieces | utils.py:98 | splitting on '+' gives one piece more than there are '+' signs, none containing '+' |
| Utils.JoinSplit | utils.py:98 | joining the pieces with '+' gives back the schema |
| Utils.SplitJoin | utils.py:98 | splitting a '+'-join of '+'-free pieces gives back the pieces |
| Utils.BuildAll | utils.py:99 | the list comprehension succeeds iff every piece does, holding each piece's augmentor in order; a failure is the error of the first failing piece |
| Utils.LeftFold | utils.py:101-103 | the steps of `augs[0] >> augs[1] >> ...` are the steps of each element, in order |
| Utils.FlatStepsOfSingles | utils.py:101-103 | a list of single augmentors is its own list of steps |
| Utils.LeftFoldSteps | utils.py:101-103 | folding single augmentors with `>>` applies each once, in order |
| Utils.ComposeAll | utils.py:101-104 | starting from the first augmentor and composing each later one on the right yields the left-nested composition of the list |
| Utils.CompositionSteps | utils.py:97-104 | when every piece builds, there is one augmentor per '+' plus one, and their composition applies exactly them, in order |
| Utils.GetCompositionalAugmentor | utils.py:97-104 | a failing piece's error is returned. Otherwise the result is the left-nested composition of the pieces' augmentors; its steps are exactly those augmentors in schema order, one per '+' plus one |

## Left out

- Floating point: ratios are exact reals, so `int(num_samples * ratio)` does not reproduce float rounding of the product.
- The G2L single-graph test uses unbounded integers for batch indices. Losses are real values from an opaque loss function.
- `torch.randperm`: `Eval.GetSplit` takes the permutation of each iteration as the parameter `perms` (one per split).
- Eval.GetSplit: the keyword defaults (1 split, ratios 0.1 and 0.8) are not modelled. Callers pass every argument.
- ContrastModel.NewSingleBranchContrast: the default `intraview_negs=False` is not modelled; callers pass it.
- ContrastModel.NewDualBranchContrast: the default `intraview_negs=False` is not modelled; callers pass it (a missing sampler is `None`, as in the source).
- ContrastModel.NewBootstrapContrast: the default `mode='L2L'` is not modelled; callers pass the mode.
- Samplers and losses (`GCL/models/samplers`, `GCL/losses`) are not part of this model. A sampler call is recorded, not evaluated; the dense sampler is `DenseSampler(mode, intraview_negs)` as `get_dense_sampler` would configure it.
- Augmentor classes (`GCL/augmentors`) are not part of this model. Each augmentor is a constructor holding its parameter values, and `a >> b` is `Compose(a, b)`.
- torch `Module` registration, autograd and devices are left out.
- `BaseEvaluator.evaluate` is abstract (it raises NotImplementedError) and `__call__` only passes the call on to it; `BaseSKLearnEvaluator.evaluate` and the SVM evaluators call into scikit-learn. All of them are left out.
- The dataset loaders `load_node_dataset` and `load_graph_dataset` do filesystem and download I/O and are left out.
- `indices_to_mask` returns float32 counts. The model uses exact naturals, which differ only above 2^24 occurrences.
- `indices_to_mask` indices outside `[0, num_nodes)` make `scatter_add` fail. The model requires them in range and does not model that failure.
- `set_differ` and `set_intersect` pass `dim=0`, which on 2-D tensors makes `unique` compare whole rows. Only 1-D index tensors are modelled.
- Eval.FromPyGSplit: it requires the shape invariant PyG keeps for stored masks (one row per node, rectangular 2-D masks). Ill-shaped masks are not modelled.
- ContrastModel.DualForward: `isinstance(self.sampler, DefaultSampler)` is modelled as equality with the default sampler. Sampler subclasses are not modelled.
- Eval.NewBaseEvaluator: Python's `isinstance(x, int)` also accepts `bool`. A boolean stop metric is not modelled.

## Findings

| source | as written | input that shows it | evidently intended | confidence | as-written member | corrected member |
|---|---|---|---|---|---|---|
| GCL/eval/eval.py:39-41 | 'valid' is `indices[train_size : test_size + train_size]`, so it gets int(n * test_ratio) entries and 'test' gets the rest | `get_split(10, 1, 0.5, 0.4)` gives train/valid/test sizes 5/4/1 | 'test' gets int(n * test_ratio) entries and 'valid' the rest, i.e. 5/1/4, as the docstring example at eval.py:27-28 shows | medium, not executed | Eval.DocExampleAsWritten | Eval.IntendedSplitSizes |
