/**
 * Contrast orchestration (GCL/models/contrast_model.py): which sampler a
 * contrast model uses, which arguments each mode requires, which embedding is
 * the anchor, the sample or the negative sample in each of the two directions,
 * and how the two direction losses are combined.
 *
 * Embeddings and masks are opaque handles. A sampler call is kept as the term
 * that records its arguments, and the loss is a function parameter, so the
 * model says exactly what reaches the sampler and the loss and nothing about
 * what they compute.
 */
module ContrastModel {
  import opened Wrappers

  /** A handle standing for a tensor: an embedding matrix or a mask. */
  type Tensor = int

  /** The keyword arguments stored at construction and passed on to the loss. */
  type Kwargs = map<string, Tensor>

  /** The exceptions the modelled code raises. */
  datatype ContrastError =
    | AssertionError
    | RuntimeError  // the explicit sanity check of DualBranchContrast
    | EmptyBatch    // the torch RuntimeError that `batch.max()` raises on an empty tensor

  /** The two sampler classes; a dense sampler remembers how it was configured. */
  datatype Sampler = DefaultSampler | DenseSampler(mode: string, intraviewNegs: bool)

  /** One call of a sampler, with the keyword arguments it received (`None` when not passed). */
  datatype SamplerCall = SamplerCall(
    sampler: Sampler, anchor: Tensor, sample: Tensor,
    negSample: Option<Tensor>, batch: Option<seq<int>>,
    posMask: Option<Tensor>, negMask: Option<Tensor>,
    extraPosMask: Option<Tensor>, extraNegMask: Option<Tensor>)

  /** A `ContrastInstance`: the one a sampler built, or one built directly without masks. */
  datatype ContrastInstance = Sampled(call: SamplerCall) | Unmasked(anchor: Tensor, sample: Tensor)

  /** `self.loss(contrast_instance=ci, **kwargs)`. */
  type Loss = (ContrastInstance, Kwargs) -> real

  /** A sampler call with only anchor and sample given. */
  function Call(s: Sampler, anchor: Tensor, sample: Tensor): SamplerCall
  {
    SamplerCall(s, anchor, sample, None, None, None, None, None, None)
  }

  /** `(l1 + l2) * 0.5`, the combination of the two directions. */
  function Average(l1: real, l2: real): (r: real)
    ensures r - l1 == l2 - r
  {
    (l1 + l2) * 0.5
  }

  /** The mean of two direction losses lies between them, is symmetric, and equals a loss that both directions share. */
  lemma AverageFacts(l1: real, l2: real)
    ensures Average(l1, l2) == Average(l2, l1)
    ensures l1 == l2 ==> Average(l1, l2) == l1
    ensures l1 <= l2 ==> l1 <= Average(l1, l2) <= l2
  {
  }

  /**
   * `batch is None or batch.max().item() + 1 <= 1`: whether the G2L branches
   * take the single-graph path. The maximum of an empty batch is an error.
   */
  function SingleGraph(batch: Option<seq<int>>): (r: Result<bool, ContrastError>)
    ensures batch.None? ==> r == Ok(true)
    ensures batch.Some? && |batch.value| == 0 ==> r == Err(EmptyBatch)
    ensures batch.Some? && |batch.value| > 0 ==>
      r.Ok? && (r.value <==> forall k :: 0 <= k < |batch.value| ==> batch.value[k] <= 0)
  {
    match batch
    case None => Ok(true)
    case Some(b) => if |b| == 0 then Err(EmptyBatch) else Ok(Max(b) + 1 <= 1)
  }

  /** `batch.max()` of a non-empty batch. */
  function Max(b: seq<int>): (m: int)
    requires |b| > 0
    ensures (forall k :: 0 <= k < |b| ==> b[k] <= m) && m in b
  {
    if |b| == 1 then b[0]
    else
      var rest := Max(b[1..]);
      if b[0] >= rest then b[0] else rest
  }

  // ---------------------------------------------------------------------------
  // SingleBranchContrast
  // ---------------------------------------------------------------------------

  /** The fields `SingleBranchContrast.__init__` sets; none changes afterwards. */
  datatype SingleBranchContrast = SingleBranchContrast(loss: Loss, mode: string, sampler: Sampler, kwargs: Kwargs)

  /** `SingleBranchContrast(loss, mode, intraview_negs, **kwargs)`: only 'G2L' is accepted; the sampler is the dense one. */
  function NewSingleBranchContrast(loss: Loss, mode: string, intraviewNegs: bool, kwargs: Kwargs)
    : (r: Result<SingleBranchContrast, ContrastError>)
    ensures r.Ok? <==> mode == "G2L"
    ensures r.Err? ==> r.error == AssertionError
    ensures r.Ok? ==> r.value.loss == loss && r.value.mode == "G2L" && r.value.kwargs == kwargs
                      && r.value.sampler == DenseSampler("G2L", intraviewNegs)
  {
    if mode != "G2L" then Err(AssertionError)
    else Ok(SingleBranchContrast(loss, mode, DenseSampler(mode, intraviewNegs), kwargs))
  }

  /**
   * `SingleBranchContrast.forward`: without `batch` the negative samples `hn` are
   * required and handed to the sampler; with `batch` the batch is. The extra masks
   * are accepted and dropped.
   */
  function SingleForward(
    m: SingleBranchContrast, h: Tensor, g: Tensor, batch: Option<seq<int>>, hn: Option<Tensor>,
    extraPosMask: Option<Tensor>, extraNegMask: Option<Tensor>): (r: Result<real, ContrastError>)
    ensures r.Err? <==> batch.None? && hn.None?
    ensures r.Err? ==> r.error == AssertionError
  {
    if batch.None? then
      if hn.None? then Err(AssertionError)
      else Ok(m.loss(Sampled(Call(m.sampler, g, h).(negSample := hn)), m.kwargs))
    else
      Ok(m.loss(Sampled(Call(m.sampler, g, h).(batch := batch)), m.kwargs))
  }

  /** The graph embedding is the anchor and the node embeddings the sample, on both paths. */
  lemma SingleForwardWiring(m: SingleBranchContrast, h: Tensor, g: Tensor, batch: Option<seq<int>>, hn: Option<Tensor>,
                            extraPosMask: Option<Tensor>, extraNegMask: Option<Tensor>)
    requires batch.Some? || hn.Some?
    ensures var ci := if batch.None? then SamplerCall(m.sampler, g, h, hn, None, None, None, None, None)
                      else SamplerCall(m.sampler, g, h, None, batch, None, None, None, None);
      SingleForward(m, h, g, batch, hn, extraPosMask, extraNegMask) == Ok(m.loss(Sampled(ci), m.kwargs))
  {
  }

  /** The extra masks never reach the sampler: the result does not depend on them. */
  lemma SingleForwardIgnoresExtraMasks(m: SingleBranchContrast, h: Tensor, g: Tensor, batch: Option<seq<int>>,
                                       hn: Option<Tensor>, p1: Option<Tensor>, n1: Option<Tensor>,
                                       p2: Option<Tensor>, n2: Option<Tensor>)
    ensures SingleForward(m, h, g, batch, hn, p1, n1) == SingleForward(m, h, g, batch, hn, p2, n2)
  {
  }

  // ---------------------------------------------------------------------------
  // DualBranchContrast
  // ---------------------------------------------------------------------------

  /** The fields `DualBranchContrast.__init__` sets; none changes afterwards. */
  datatype DualBranchContrast = DualBranchContrast(loss: Loss, mode: string, sampler: Sampler, kwargs: Kwargs)

  /** Whether a mode compares like with like (node-node or graph-graph). */
  predicate SameScale(mode: string)
  {
    mode == "L2L" || mode == "G2G"
  }

  /**
   * `DualBranchContrast(loss, mode, intraview_negs, sampler, **kwargs)`: a given
   * sampler wins; otherwise the default sampler is used exactly for L2L/G2G without
   * intra-view negatives, and a dense sampler for that mode in every other case.
   */
  function NewDualBranchContrast(loss: Loss, mode: string, intraviewNegs: bool, sampler: Option<Sampler>, kwargs: Kwargs)
    : (r: DualBranchContrast)
    ensures r.loss == loss && r.mode == mode && r.kwargs == kwargs
    ensures sampler.Some? ==> r.sampler == sampler.value
    ensures sampler.None? ==> (r.sampler == DefaultSampler <==> SameScale(mode) && !intraviewNegs)
    ensures sampler.None? && !(SameScale(mode) && !intraviewNegs) ==> r.sampler == DenseSampler(mode, intraviewNegs)
  {
    var s :=
      if sampler.Some? then sampler.value
      else if (mode == "L2L" || mode == "G2G") && !intraviewNegs then DefaultSampler
      else DenseSampler(mode, intraviewNegs);
    DualBranchContrast(loss, mode, s, kwargs)
  }

  /** The keyword arguments of `DualBranchContrast.forward`, each `None` unless given. */
  datatype DualArgs = DualArgs(
    h1: Option<Tensor>, h2: Option<Tensor>, g1: Option<Tensor>, g2: Option<Tensor>,
    batch: Option<seq<int>>, h3: Option<Tensor>, h4: Option<Tensor>,
    extraPosMask: Option<Tensor>, extraNegMask: Option<Tensor>,
    posMask1: Option<Tensor>, posMask2: Option<Tensor>, negMask1: Option<Tensor>, negMask2: Option<Tensor>)

  /** The same call with the two views exchanged: h1/h2, g1/g2, h3/h4 and the per-direction masks. */
  function SwapViews(a: DualArgs): DualArgs
  {
    a.(h1 := a.h2, h2 := a.h1, g1 := a.g2, g2 := a.g1, h3 := a.h4, h4 := a.h3,
       posMask1 := a.posMask2, posMask2 := a.posMask1, negMask1 := a.negMask2, negMask2 := a.negMask1)
  }

  /** Direction `anchor -> sample` of an L2L or G2G call, with that direction's masks and the shared extra masks. */
  function SameScaleCall(s: Sampler, anchor: Tensor, sample: Tensor, posMask: Option<Tensor>, negMask: Option<Tensor>,
                         a: DualArgs): SamplerCall
  {
    Call(s, anchor, sample).(posMask := posMask, negMask := negMask,
                             extraPosMask := a.extraPosMask, extraNegMask := a.extraNegMask)
  }

  /** Direction `anchor -> sample` of a G2L call: negative samples on one graph, the batch on several. */
  function GlobalLocalCall(s: Sampler, anchor: Tensor, sample: Tensor, negSample: Option<Tensor>, batch: Option<seq<int>>,
                           a: DualArgs): SamplerCall
  {
    Call(s, anchor, sample).(negSample := negSample, batch := batch,
                             extraPosMask := a.extraPosMask, extraNegMask := a.extraNegMask)
  }

  /** Both directions' losses averaged. */
  function BothDirections(m: DualBranchContrast, c1: SamplerCall, c2: SamplerCall): real
  {
    Average(m.loss(Sampled(c1), m.kwargs), m.loss(Sampled(c2), m.kwargs))
  }

  /** The arguments the mode requires are present (the multi-graph G2L path needs `batch` too, which it has). */
  predicate HasRequired(mode: string, a: DualArgs, single: bool)
  {
    if mode == "L2L" then a.h1.Some? && a.h2.Some?
    else if mode == "G2G" then a.g1.Some? && a.g2.Some?
    else a.h1.Some? && a.h2.Some? && a.g1.Some? && a.g2.Some?
         && (single ==> a.h3.Some? && a.h4.Some?)
  }

  /**
   * `DualBranchContrast.forward`. The default sampler with extra masks is refused
   * before anything else; then each mode checks its arguments and contrasts view 1
   * against view 2 and view 2 against view 1.
   */
  function DualForward(m: DualBranchContrast, a: DualArgs): (r: Result<real, ContrastError>)
    ensures r == Err(RuntimeError) <==> m.sampler == DefaultSampler && (a.extraPosMask.Some? || a.extraNegMask.Some?)
    ensures (!(m.sampler == DefaultSampler && (a.extraPosMask.Some? || a.extraNegMask.Some?))
             && !SameScale(m.mode) && a.batch == Some([])) ==> r == Err(EmptyBatch)
    ensures r == Err(AssertionError) <==>
      && !(m.sampler == DefaultSampler && (a.extraPosMask.Some? || a.extraNegMask.Some?))
      && (SameScale(m.mode) ==> !HasRequired(m.mode, a, false))
      && (!SameScale(m.mode) ==> SingleGraph(a.batch).Ok? && !HasRequired(m.mode, a, SingleGraph(a.batch).value))
    ensures r.Ok? ==> SameScale(m.mode) ==> HasRequired(m.mode, a, false)
    ensures r.Ok? ==> !SameScale(m.mode) ==> SingleGraph(a.batch).Ok? && HasRequired(m.mode, a, SingleGraph(a.batch).value)
  {
    var s := m.sampler;
    if s == DefaultSampler && !(a.extraNegMask.None? && a.extraPosMask.None?) then Err(RuntimeError)
    else if m.mode == "L2L" then
      if !(a.h1.Some? && a.h2.Some?) then Err(AssertionError)
      else Ok(BothDirections(m, SameScaleCall(s, a.h1.value, a.h2.value, a.posMask1, a.negMask1, a),
                                SameScaleCall(s, a.h2.value, a.h1.value, a.posMask2, a.negMask2, a)))
    else if m.mode == "G2G" then
      if !(a.g1.Some? && a.g2.Some?) then Err(AssertionError)
      else Ok(BothDirections(m, SameScaleCall(s, a.g1.value, a.g2.value, a.posMask1, a.negMask1, a),
                                SameScaleCall(s, a.g2.value, a.g1.value, a.posMask2, a.negMask2, a)))
    else
      match SingleGraph(a.batch)
      case Err(e) => Err(e)
      case Ok(single) =>
        if single then
          if !(a.h1.Some? && a.h2.Some? && a.g1.Some? && a.g2.Some? && a.h3.Some? && a.h4.Some?) then Err(AssertionError)
          else Ok(BothDirections(m, GlobalLocalCall(s, a.g1.value, a.h2.value, a.h4, None, a),
                                    GlobalLocalCall(s, a.g2.value, a.h1.value, a.h3, None, a)))
        else
          if !(a.h1.Some? && a.h2.Some? && a.g1.Some? && a.g2.Some? && a.batch.Some?) then Err(AssertionError)
          else Ok(BothDirections(m, GlobalLocalCall(s, a.g1.value, a.h2.value, None, a.batch, a),
                                    GlobalLocalCall(s, a.g2.value, a.h1.value, None, a.batch, a)))
  }

  /**
   * In L2L (and likewise G2G with g1/g2), direction 1 contrasts h1 against h2 with the
   * first masks and direction 2 swaps anchor and sample and uses the second masks;
   * both receive the same extra masks.
   */
  lemma DualSameScaleWiring(m: DualBranchContrast, a: DualArgs)
    requires SameScale(m.mode)
    requires !(m.sampler == DefaultSampler && (a.extraPosMask.Some? || a.extraNegMask.Some?))
    requires HasRequired(m.mode, a, false)
    ensures var (x1, x2) := if m.mode == "L2L" then (a.h1.value, a.h2.value) else (a.g1.value, a.g2.value);
      var c1 := SamplerCall(m.sampler, x1, x2, None, None, a.posMask1, a.negMask1, a.extraPosMask, a.extraNegMask);
      var c2 := SamplerCall(m.sampler, x2, x1, None, None, a.posMask2, a.negMask2, a.extraPosMask, a.extraNegMask);
      DualForward(m, a) == Ok(Average(m.loss(Sampled(c1), m.kwargs), m.loss(Sampled(c2), m.kwargs)))
  {
  }

  /**
   * In G2L on one graph, (g1, h2) is contrasted with negatives h4 and (g2, h1) with
   * negatives h3; on several graphs both directions get the batch instead.
   */
  lemma DualGlobalLocalWiring(m: DualBranchContrast, a: DualArgs)
    requires !SameScale(m.mode)
    requires !(m.sampler == DefaultSampler && (a.extraPosMask.Some? || a.extraNegMask.Some?))
    requires SingleGraph(a.batch).Ok? && HasRequired(m.mode, a, SingleGraph(a.batch).value)
    ensures var single := SingleGraph(a.batch).value;
      var c1 := SamplerCall(m.sampler, a.g1.value, a.h2.value, if single then a.h4 else None,
                            if single then None else a.batch, None, None, a.extraPosMask, a.extraNegMask);
      var c2 := SamplerCall(m.sampler, a.g2.value, a.h1.value, if single then a.h3 else None,
                            if single then None else a.batch, None, None, a.extraPosMask, a.extraNegMask);
      DualForward(m, a) == Ok(Average(m.loss(Sampled(c1), m.kwargs), m.loss(Sampled(c2), m.kwargs)))
  {
  }

  /** Exchanging the two views (embeddings and per-direction masks) leaves the result unchanged, errors included. */
  lemma DualForwardSymmetric(m: DualBranchContrast, a: DualArgs)
    ensures DualForward(m, SwapViews(a)) == DualForward(m, a)
  {
  }

  /**
   * In L2L or G2G, identical views with identical per-direction masks make both
   * directions the same call, so the result is that one call's loss. This holds for
   * the default sampler too, as long as no extra mask triggers its RuntimeError.
   */
  lemma DualForwardEqualDirections(m: DualBranchContrast, a: DualArgs)
    requires SameScale(m.mode) && HasRequired(m.mode, a, false)
    requires !(m.sampler == DefaultSampler && (a.extraPosMask.Some? || a.extraNegMask.Some?))
    requires if m.mode == "L2L" then a.h1 == a.h2 else a.g1 == a.g2
    requires a.posMask1 == a.posMask2 && a.negMask1 == a.negMask2
    ensures var x := if m.mode == "L2L" then a.h1.value else a.g1.value;
      DualForward(m, a) == Ok(m.loss(Sampled(SameScaleCall(m.sampler, x, x, a.posMask1, a.negMask1, a)), m.kwargs))
  {
  }

  // ---------------------------------------------------------------------------
  // BootstrapContrast
  // ---------------------------------------------------------------------------

  /** The fields `BootstrapContrast.__init__` sets; it stores no keyword arguments. */
  datatype BootstrapContrast = BootstrapContrast(loss: Loss, mode: string, sampler: Sampler)

  /** `BootstrapContrast(loss, mode, sampler)`: a given sampler wins; otherwise default for L2L/G2G, dense without intra-view negatives otherwise. */
  function NewBootstrapContrast(loss: Loss, mode: string, sampler: Option<Sampler>): (r: BootstrapContrast)
    ensures r.loss == loss && r.mode == mode
    ensures sampler.Some? ==> r.sampler == sampler.value
    ensures sampler.None? && SameScale(mode) ==> r.sampler == DefaultSampler
    ensures sampler.None? && !SameScale(mode) ==> r.sampler == DenseSampler(mode, false)
  {
    var s :=
      if sampler.Some? then sampler.value
      else if mode == "L2L" || mode == "G2G" then DefaultSampler
      else DenseSampler(mode, false);
    BootstrapContrast(loss, mode, s)
  }

  /** The keyword arguments of `BootstrapContrast.forward`. */
  datatype BootstrapArgs = BootstrapArgs(
    h1Pred: Option<Tensor>, h2Pred: Option<Tensor>, h1Target: Option<Tensor>, h2Target: Option<Tensor>,
    g1Pred: Option<Tensor>, g2Pred: Option<Tensor>, g1Target: Option<Tensor>, g2Target: Option<Tensor>,
    batch: Option<seq<int>>, extraPosMask: Option<Tensor>)

  function SwapBootstrapViews(a: BootstrapArgs): BootstrapArgs
  {
    a.(h1Pred := a.h2Pred, h2Pred := a.h1Pred, h1Target := a.h2Target, h2Target := a.h1Target,
       g1Pred := a.g2Pred, g2Pred := a.g1Pred, g1Target := a.g2Target, g2Target := a.g1Target)
  }

  /** `self.loss(contrast_instance=ci)`: the bootstrap loss gets no keyword arguments. */
  function BootstrapLoss(m: BootstrapContrast, ci: ContrastInstance): real
  {
    m.loss(ci, map[])
  }

  /**
   * `BootstrapContrast.forward`: each view's target is the anchor for the other view's
   * prediction. On a single graph G2L bypasses the sampler and builds mask-free instances.
   */
  function BootstrapForward(m: BootstrapContrast, a: BootstrapArgs): (r: Result<real, ContrastError>)
    ensures m.mode == "L2L" ==> (r.Ok? <==> a.h1Pred.Some? && a.h2Pred.Some? && a.h1Target.Some? && a.h2Target.Some?)
    ensures m.mode == "G2G" ==> (r.Ok? <==> a.g1Pred.Some? && a.g2Pred.Some? && a.g1Target.Some? && a.g2Target.Some?)
    ensures !SameScale(m.mode) ==>
      (r.Ok? <==> a.h1Pred.Some? && a.h2Pred.Some? && a.g1Target.Some? && a.g2Target.Some? && SingleGraph(a.batch).Ok?)
    ensures !BootstrapHasRequired(m.mode, a) ==> r == Err(AssertionError)
    ensures BootstrapHasRequired(m.mode, a) && !SameScale(m.mode) && a.batch == Some([]) ==> r == Err(EmptyBatch)
  {
    var s := m.sampler;
    if m.mode == "L2L" then
      if !(a.h1Pred.Some? && a.h2Pred.Some? && a.h1Target.Some? && a.h2Target.Some?) then Err(AssertionError)
      else Ok(Average(BootstrapLoss(m, Sampled(Call(s, a.h1Target.value, a.h2Pred.value))),
                      BootstrapLoss(m, Sampled(Call(s, a.h2Target.value, a.h1Pred.value)))))
    else if m.mode == "G2G" then
      if !(a.g1Pred.Some? && a.g2Pred.Some? && a.g1Target.Some? && a.g2Target.Some?) then Err(AssertionError)
      else Ok(Average(BootstrapLoss(m, Sampled(Call(s, a.g1Target.value, a.g2Pred.value))),
                      BootstrapLoss(m, Sampled(Call(s, a.g2Target.value, a.g1Pred.value)))))
    else
      if !(a.h1Pred.Some? && a.h2Pred.Some? && a.g1Target.Some? && a.g2Target.Some?) then Err(AssertionError)
      else match SingleGraph(a.batch)
        case Err(e) => Err(e)
        case Ok(single) =>
          if single then
            Ok(Average(BootstrapLoss(m, Unmasked(a.g1Target.value, a.h2Pred.value)),
                       BootstrapLoss(m, Unmasked(a.g2Target.value, a.h1Pred.value))))
          else
            Ok(Average(BootstrapLoss(m, Sampled(Call(s, a.g1Target.value, a.h2Pred.value).(batch := a.batch))),
                       BootstrapLoss(m, Sampled(Call(s, a.g2Target.value, a.h1Pred.value).(batch := a.batch)))))
  }

  /** The present arguments of the mode: L2L and G2G need both predictions and targets, G2L node predictions and graph targets. */
  predicate BootstrapHasRequired(mode: string, a: BootstrapArgs)
  {
    if mode == "L2L" then a.h1Pred.Some? && a.h2Pred.Some? && a.h1Target.Some? && a.h2Target.Some?
    else if mode == "G2G" then a.g1Pred.Some? && a.g2Pred.Some? && a.g1Target.Some? && a.g2Target.Some?
    else a.h1Pred.Some? && a.h2Pred.Some? && a.g1Target.Some? && a.g2Target.Some?
  }

  /**
   * In every mode, each instance has a target of one view as anchor and the other
   * view's prediction as sample: h targets/predictions in L2L, g in G2G, and graph
   * targets against node predictions in G2L. Only multi-graph G2L hands the batch
   * to the sampler; no instance carries masks and the loss gets no keyword arguments.
   */
  lemma BootstrapAnchorsAreTargets(m: BootstrapContrast, a: BootstrapArgs)
    requires BootstrapHasRequired(m.mode, a)
    requires !SameScale(m.mode) ==> SingleGraph(a.batch).Ok?
    ensures
      var (t1, p2, t2, p1) :=
        if m.mode == "L2L" then (a.h1Target.value, a.h2Pred.value, a.h2Target.value, a.h1Pred.value)
        else if m.mode == "G2G" then (a.g1Target.value, a.g2Pred.value, a.g2Target.value, a.g1Pred.value)
        else (a.g1Target.value, a.h2Pred.value, a.g2Target.value, a.h1Pred.value);
      var batch := if SameScale(m.mode) then None else a.batch;
      var direct := !SameScale(m.mode) && SingleGraph(a.batch).value;
      var ci1 := if direct then Unmasked(t1, p2) else Sampled(SamplerCall(m.sampler, t1, p2, None, batch, None, None, None, None));
      var ci2 := if direct then Unmasked(t2, p1) else Sampled(SamplerCall(m.sampler, t2, p1, None, batch, None, None, None, None));
      BootstrapForward(m, a) == Ok(Average(m.loss(ci1, map[]), m.loss(ci2, map[])))
  {
  }

  /** On a single graph (no batch, or a batch whose largest entry is <= 0) G2L uses no sampler: the instances carry no masks. */
  lemma BootstrapSingleGraphUnmasked(m: BootstrapContrast, a: BootstrapArgs)
    requires !SameScale(m.mode) && SingleGraph(a.batch) == Ok(true)
    requires a.h1Pred.Some? && a.h2Pred.Some? && a.g1Target.Some? && a.g2Target.Some?
    ensures BootstrapForward(m, a) == Ok(Average(m.loss(Unmasked(a.g1Target.value, a.h2Pred.value), map[]),
                                                 m.loss(Unmasked(a.g2Target.value, a.h1Pred.value), map[])))
  {
  }

  /** Exchanging the two views leaves the bootstrap result unchanged, and the extra positive mask is never used. */
  lemma BootstrapForwardSymmetric(m: BootstrapContrast, a: BootstrapArgs, extra: Option<Tensor>)
    ensures BootstrapForward(m, SwapBootstrapViews(a)) == BootstrapForward(m, a)
    ensures BootstrapForward(m, a.(extraPosMask := extra)) == BootstrapForward(m, a)
  {
  }

  // ---------------------------------------------------------------------------
  // WithinEmbedContrast
  // ---------------------------------------------------------------------------

  /** `WithinEmbedContrast(loss)`: only the loss is stored. */
  datatype WithinEmbedContrast = WithinEmbedContrast(loss: Loss)

  /** `WithinEmbedContrast.forward`: the mean of the losses on the mask-free instances (h1, h2) and (h2, h1). */
  function WithinEmbedForward(m: WithinEmbedContrast, h1: Tensor, h2: Tensor): (r: real)
    ensures 2.0 * r == m.loss(Unmasked(h1, h2), map[]) + m.loss(Unmasked(h2, h1), map[])
  {
    Average(m.loss(Unmasked(h1, h2), map[]), m.loss(Unmasked(h2, h1), map[]))
  }

  /**
   * The within-embedding contrast is symmetric in its two arguments and equals the
   * one-direction loss on identical inputs.
   */
  lemma WithinEmbedSymmetric(m: WithinEmbedContrast, h1: Tensor, h2: Tensor)
    ensures WithinEmbedForward(m, h1, h2) == WithinEmbedForward(m, h2, h1)
    ensures WithinEmbedForward(m, h1, h1) == m.loss(Unmasked(h1, h1), map[])
  {
  }
}
