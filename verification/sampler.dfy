/** The sampler `generate_arch_param` (utils/prior_pool.py:96-117) and the
    collaborators it calls: the configuration, the lookup table, and the random
    draws, all passed in explicitly. */
module Sampler {
  import opened Results
  import opened Builtins
  import opened Encoding

  /** The read-only configuration fields the pool reads. */
  datatype Config = Config(
    lowFlops: int,
    highFlops: int,
    poolSize: int,
    layersNum: nat,      // len(CONFIG.l_cfgs)
    archParamNums: nat,  // total width of all rows together
    splitBlocks: nat,
    kernelsNums: nat,
    expansion: int)

  /** A decoded layer, produced only by the lookup table. */
  datatype LayerConfig = LayerConfig(
    expansionRate: int, outChannels: int, kernels: seq<int>, stride: int, splitBlocks: int, se: bool)

  /** The lookup table's operations the pool calls; their code is not part of
      this model, so they are arbitrary total functions. */
  datatype LookupTable = LookupTable(
    validate: Matrix -> Matrix,                 // get_validation_arch_param
    modelFlops: Matrix -> real,                 // get_model_flops
    decode: Matrix -> seq<LayerConfig>,         // decode_arch_param
    encode: seq<LayerConfig> -> Matrix)         // encode_arch_param

  /** The raw generator output consumed by one call of the sampler: one value per
      layer for the depth, one per (layer, block) for the kernel choice. */
  datatype Draw = Draw(depthNoise: nat -> nat, choiceNoise: (nat, nat) -> nat)

  /** What the sampler returns: the cost model's FLOPS and the validated encoding. */
  datatype Sampled = Sampled(flops: real, param: Matrix)

  /** Layer `i`'s expansion depth, `np.random.randint(2, expansion + 1)`. */
  function Depth(cfg: Config, d: Draw, i: nat): (depth: nat)
    requires cfg.expansion >= 2
    ensures 2 <= depth <= cfg.expansion
  {
    RandInt(2, cfg.expansion + 1, d.depthNoise(i)).value
  }

  /** Layer `i`'s kernel pick for block `e`, `np.random.randint(0, kernelsNums - 1)`:
      any position of the block except the last, which is skip. */
  function Choice(cfg: Config, d: Draw, i: nat, e: nat): (h: nat)
    requires cfg.kernelsNums >= 2
    ensures h < cfg.kernelsNums - 1
  {
    RandInt(0, cfg.kernelsNums - 1, d.choiceNoise(i, e)).value
  }

  /** Layer `i`'s kernel picks for its first `depth` blocks. */
  function Hots(cfg: Config, d: Draw, i: nat, depth: nat): (hots: seq<nat>)
    requires cfg.kernelsNums >= 2
    ensures |hots| == depth
    ensures forall e | 0 <= e < depth :: hots[e] < cfg.kernelsNums - 1
  {
    seq(depth, (e: nat) => Choice(cfg, d, i, e))
  }

  /** Exactly the configurations and draws for which lines 97-111 raise nothing:
      there are layers (line 98 divides by their number), the depth range and
      the kernel range are non-empty (lines 99, 110), each row is
      `splitBlocks * kernelsNums` wide (line 106), and no drawn depth exceeds the
      number of blocks (line 111 would assign into a short slice). */
  predicate Buildable(cfg: Config, d: Draw) {
    && cfg.layersNum > 0
    && cfg.expansion >= 2
    && cfg.kernelsNums >= 2
    && cfg.splitBlocks * cfg.kernelsNums == cfg.archParamNums / cfg.layersNum
    && forall i: nat | i < cfg.layersNum :: Depth(cfg, d, i) <= cfg.splitBlocks
  }

  /** The rows built by lines 102-111 once every check has passed. */
  function Rows(cfg: Config, d: Draw): (m: Matrix)
    requires Buildable(cfg, d)
    ensures |m| == cfg.layersNum
  {
    seq(cfg.layersNum, i requires 0 <= i < cfg.layersNum =>
      LayerRow(cfg.kernelsNums, cfg.splitBlocks, Hots(cfg, d, i, Depth(cfg, d, i))))
  }

  /** Every constructed row has `Depth` non-skip blocks followed by skip blocks. */
  lemma RowsWellFormed(cfg: Config, d: Draw)
    requires Buildable(cfg, d)
    ensures forall i: nat | i < cfg.layersNum ::
      WellFormedRow(Rows(cfg, d)[i], cfg.kernelsNums, cfg.splitBlocks, Depth(cfg, d, i))
  {
    forall i: nat | i < cfg.layersNum
      ensures WellFormedRow(Rows(cfg, d)[i], cfg.kernelsNums, cfg.splitBlocks, Depth(cfg, d, i))
    {
      LayerRowWellFormed(cfg.kernelsNums, cfg.splitBlocks, Hots(cfg, d, i, Depth(cfg, d, i)));
    }
  }

  /** The encoding before the lookup table's validation (lines 97-111), with the
      exception each failing check raises. On success every layer's row has
      `Depth` non-skip blocks followed by skip blocks, each block one-hot. */
  function RawEncoding(cfg: Config, d: Draw): (r: Result<Matrix>)
    ensures r.Ok? <==> Buildable(cfg, d)
    ensures cfg.layersNum == 0 ==> r == Err(ZeroDivision)
    ensures r.Err? ==> r.error in {ZeroDivision, EmptyRandRange, ShapeMismatch}
    ensures r.Ok? ==> |r.value| == cfg.layersNum
    ensures r.Ok? ==> forall i: nat | i < cfg.layersNum ::
      && |r.value[i]| == cfg.archParamNums / cfg.layersNum
      && WellFormedRow(r.value[i], cfg.kernelsNums, cfg.splitBlocks, Depth(cfg, d, i))
  {
    if cfg.layersNum == 0 then Err(ZeroDivision)
    else if cfg.expansion < 2 then Err(EmptyRandRange)
    else
      var width := cfg.archParamNums / cfg.layersNum;
      // `arch_param[i] = tensor(skip * splitBlocks)` broadcasts a length-1 value
      var skipWidth := |Repeat(SkipBlock(cfg.kernelsNums), cfg.splitBlocks)|;
      if skipWidth != width && skipWidth != 1 then Err(ShapeMismatch)
      else if cfg.kernelsNums < 2 then Err(EmptyRandRange)
      else if exists i: nat | i < cfg.layersNum :: Depth(cfg, d, i) > cfg.splitBlocks then Err(ShapeMismatch)
      else
        RowsWellFormed(cfg, d);
        Ok(Rows(cfg, d))
  }

  /** `generate_arch_param(lookup_table)` with `p=False`: the validated encoding
      and the cost the model reports for that validated encoding. */
  function Sample(lt: LookupTable, cfg: Config, d: Draw): (r: Result<Sampled>)
    ensures r.Ok? <==> Buildable(cfg, d)
    ensures r.Err? ==> r.error in {ZeroDivision, EmptyRandRange, ShapeMismatch}
    ensures r.Ok? ==> r.value.flops == lt.modelFlops(r.value.param)
  {
    match RawEncoding(cfg, d)
    case Err(e) => Err(e)
    case Ok(raw) =>
      var param := lt.validate(raw);
      Ok(Sampled(lt.modelFlops(param), param))
  }

  /** The lookup table's validation receives the rows built by lines 102-111,
      and the sampler raises exactly what that construction raises. */
  lemma SampleValidatesRows(lt: LookupTable, cfg: Config, d: Draw)
    ensures Sample(lt, cfg, d).Ok? ==> Sample(lt, cfg, d).value.param == lt.validate(Rows(cfg, d))
    ensures Sample(lt, cfg, d).Err? ==> Sample(lt, cfg, d).error == RawEncoding(cfg, d).error
  {
  }
}
