/** Pool construction `_generate_prior_pool` (utils/prior_pool.py:60-93): the
    ladder of FLOPS targets, the rejection loop that samples until a candidate
    fits a target, and the pool that stores one canonical encoding per target.
    The unbounded `while` loop is bounded by a finite sequence of draws: each
    attempt consumes one, and running out is the error `OutOfDraws`. */
module PoolBuilder {
  import opened Results
  import opened Builtins
  import opened Encoding
  import opened Sampler
  import opened PoolStore

  /** Fewest decoded layers an accepted sample may have (line 82). */
  const MinLayers: nat := 19

  /** `pool_interval = (high_flops - low_flops) // (pool_size + 1)` (line 71). */
  function PoolInterval(cfg: Config): (r: Result<int>)
    ensures r.Err? <==> cfg.poolSize == -1
    ensures r.Ok? && cfg.poolSize >= 0 ==>
      r.value * (cfg.poolSize + 1) <= cfg.highFlops - cfg.lowFlops < (r.value + 1) * (cfg.poolSize + 1)
    ensures r.Ok? && cfg.poolSize < -1 ==>
      (r.value + 1) * (cfg.poolSize + 1) < cfg.highFlops - cfg.lowFlops <= r.value * (cfg.poolSize + 1)
  {
    FloorDiv(cfg.highFlops - cfg.lowFlops, cfg.poolSize + 1)
  }

  /** The `k`-th target, counting from 0: `low + (k + 1) * interval`. */
  function Rung(low: int, interval: int, k: nat): (t: int) {
    low + (k + 1) * interval
  }

  /** Rung `k` is term `k` of the `range` that starts one interval above `low`. */
  lemma RungIsRangeTerm(low: int, interval: int, k: nat)
    ensures Term(low + interval, interval, k) == Rung(low, interval, k)
  {
  }

  /** Every rung is the matching term of the `range`. */
  lemma RungsAreRangeTerms(low: int, interval: int)
    ensures forall k: nat :: Term(low + interval, interval, k) == Rung(low, interval, k)
  {
    forall k: nat ensures Term(low + interval, interval, k) == Rung(low, interval, k) {
      RungIsRangeTerm(low, interval, k);
    }
  }

  /** `range(low + interval, high - 1, interval)` (lines 73-76). */
  function TargetLadder(cfg: Config): (r: Result<seq<int>>)
    ensures r.Err? <==> PoolInterval(cfg).Err? || PoolInterval(cfg).value == 0
    ensures PoolInterval(cfg).Err? ==> r == Err(ZeroDivision)
    ensures PoolInterval(cfg) == Ok(0) ==> r == Err(ZeroRangeStep)
    ensures r.Ok? ==> forall k: nat | k < |r.value| ::
      r.value[k] == Rung(cfg.lowFlops, PoolInterval(cfg).value, k)
    ensures r.Ok? && PoolInterval(cfg).value > 0 ==> forall k: nat ::
      k < |r.value| <==> Rung(cfg.lowFlops, PoolInterval(cfg).value, k) < cfg.highFlops - 1
    ensures r.Ok? && PoolInterval(cfg).value < 0 ==> forall k: nat ::
      k < |r.value| <==> Rung(cfg.lowFlops, PoolInterval(cfg).value, k) > cfg.highFlops - 1
  {
    match PoolInterval(cfg)
    case Err(e) => Err(e)
    case Ok(step) =>
      RungsAreRangeTerms(cfg.lowFlops, step);
      Range(cfg.lowFlops + step, cfg.highFlops - 1, step)
  }

  /** Rungs of a positive interval climb strictly. */
  lemma RungStrict(low: int, interval: int, i: nat, j: nat)
    requires i < j && interval > 0
    ensures Rung(low, interval, i) < Rung(low, interval, j)
  {
    var d := j - i;
    assert (j + 1) * interval == (i + 1) * interval + d * interval;
    assert d * interval >= interval by {
      MulMono(1, d, interval);
    }
  }

  /** Rungs of a non-zero interval never repeat. */
  lemma RungInjective(low: int, interval: int, i: nat, j: nat)
    requires i < j && interval != 0
    ensures Rung(low, interval, i) != Rung(low, interval, j)
  {
    if interval > 0 {
      RungStrict(low, interval, i, j);
    } else {
      RungStrict(-low, -interval, i, j);
      assert Rung(-low, -interval, i) == -Rung(low, interval, i);
      assert Rung(-low, -interval, j) == -Rung(low, interval, j);
    }
  }

  /** With a positive interval the ladder is every `low + k * interval`,
      k = 1, 2, ..., that is below `high - 1`, in strictly increasing order. */
  lemma LadderArithmetic(cfg: Config, step: int)
    requires PoolInterval(cfg) == Ok(step) && step > 0
    ensures TargetLadder(cfg).Ok?
    ensures forall k: nat :: k < |TargetLadder(cfg).value| <==> Rung(cfg.lowFlops, step, k) < cfg.highFlops - 1
    ensures forall i, j | 0 <= i < j < |TargetLadder(cfg).value| :: TargetLadder(cfg).value[i] < TargetLadder(cfg).value[j]
  {
    var ladder := TargetLadder(cfg).value;
    var stop := cfg.highFlops - 1;
    var r := Range(cfg.lowFlops + step, stop, step);
    assert r.Ok? && ladder == r.value;
    forall k: nat
      ensures k < |ladder| <==> Rung(cfg.lowFlops, step, k) < stop
    {
      RungIsRangeTerm(cfg.lowFlops, step, k);
      assert k < |r.value| <==> Term(cfg.lowFlops + step, step, k) < stop;
    }
    forall i, j | 0 <= i < j < |ladder|
      ensures ladder[i] < ladder[j]
    {
      RungStrict(cfg.lowFlops, step, i, j);
    }
  }

  /** Targets of any ladder are pairwise distinct: the step is never zero. */
  lemma LadderDistinct(cfg: Config)
    requires TargetLadder(cfg).Ok?
    ensures forall i, j | 0 <= i < j < |TargetLadder(cfg).value| :: TargetLadder(cfg).value[i] != TargetLadder(cfg).value[j]
  {
    var ladder := TargetLadder(cfg).value;
    var step := PoolInterval(cfg).value;
    forall i, j | 0 <= i < j < |ladder|
      ensures ladder[i] != ladder[j]
    {
      RungInjective(cfg.lowFlops, step, i, j);
    }
  }

  /** With a positive interval, the ladder has `n` targets exactly when rung
      `n - 1` is the last one below `high - 1`. */
  lemma LadderLength(cfg: Config, step: int, n: nat)
    requires PoolInterval(cfg) == Ok(step) && step > 0
    ensures TargetLadder(cfg).Ok?
    ensures |TargetLadder(cfg).value| == n <==>
      && (n == 0 || Rung(cfg.lowFlops, step, n - 1) < cfg.highFlops - 1)
      && Rung(cfg.lowFlops, step, n) >= cfg.highFlops - 1
  {
    LadderArithmetic(cfg, step);
    var len := |TargetLadder(cfg).value|;
    assert n == 0 || (n - 1 < len <==> Rung(cfg.lowFlops, step, n - 1) < cfg.highFlops - 1);
    assert n < len <==> Rung(cfg.lowFlops, step, n) < cfg.highFlops - 1;
  }

  /** With `low_flops = 80, high_flops = 120, pool_size = 1` the interval is 20
      and the ladder is the single target 100. */
  lemma SingleTargetLadder(cfg: Config)
    requires cfg.lowFlops == 80 && cfg.highFlops == 120 && cfg.poolSize == 1
    ensures PoolInterval(cfg) == Ok(20)
    ensures TargetLadder(cfg) == Ok([100])
  {
    assert PoolInterval(cfg) == Ok(20);
    LadderLength(cfg, 20, 1);
    var ladder := TargetLadder(cfg).value;
    assert ladder[0] == Rung(80, 20, 0) == 100;
    assert ladder == [100];
  }

  /** The ladder can hold more than `pool_size` targets: 0..14 with
      `pool_size = 3` gives four, the last one 12. */
  lemma LadderLongerThanPoolSize(cfg: Config)
    requires cfg.lowFlops == 0 && cfg.highFlops == 14 && cfg.poolSize == 3
    ensures TargetLadder(cfg).Ok? && |TargetLadder(cfg).value| == 4 > cfg.poolSize
    ensures TargetLadder(cfg).value[3] == 12
  {
    assert PoolInterval(cfg) == Ok(3);
    LadderLength(cfg, 3, 4);
  }

  /** The ladder can hold fewer than `pool_size` targets: 0..3 with
      `pool_size = 2` gives the single target 1. */
  lemma LadderShorterThanPoolSize(cfg: Config)
    requires cfg.lowFlops == 0 && cfg.highFlops == 3 && cfg.poolSize == 2
    ensures TargetLadder(cfg).Ok? && |TargetLadder(cfg).value| == 1 < cfg.poolSize
    ensures TargetLadder(cfg).value[0] == 1
  {
    assert PoolInterval(cfg) == Ok(1);
    LadderLength(cfg, 1, 1);
  }

  /** A negative interval (here `high < low`) raises nothing: low 100, high 50
      and pool size 1 give `range(75, 49, -25)`, the descending targets 75, 50. */
  lemma LadderDescending(cfg: Config)
    requires cfg.lowFlops == 100 && cfg.highFlops == 50 && cfg.poolSize == 1
    ensures PoolInterval(cfg) == Ok(-25)
    ensures TargetLadder(cfg).Ok? && |TargetLadder(cfg).value| == 2
    ensures TargetLadder(cfg).value[0] == 75 && TargetLadder(cfg).value[1] == 50
  {
    assert PoolInterval(cfg) == Ok(-25);
    var l := TargetLadder(cfg).value;
    assert Rung(100, -25, 1) == 50 > 49;
    assert Rung(100, -25, 2) == 25 <= 49;
    assert 1 < |l| && !(2 < |l|);
  }

  // ---------------------------------------------------------------------------
  // The rejection loop (lines 77-88)

  /** One attempt: a sample, its decoded layers and their canonical re-encoding.
      `genFlops` is the cost the sampler reported for the validated encoding. */
  datatype Candidate = Candidate(genFlops: real, layers: seq<LayerConfig>, param: Matrix)

  /** Lines 77-80 (and 83-86): sample, decode, re-encode. */
  function Attempt(lt: LookupTable, cfg: Config, d: Draw): (r: Result<Candidate>)
    ensures r.Ok? <==> Buildable(cfg, d)
    ensures r.Err? ==> r.error != OutOfDraws
  {
    match Sample(lt, cfg, d)
    case Err(e) => Err(e)
    case Ok(s) =>
      var layers := lt.decode(s.param);
      Ok(Candidate(s.flops, layers, lt.encode(layers)))
  }

  /** A candidate carries the cost the model reports for the validated sample,
      that sample's decoded layers, and their canonical re-encoding. */
  lemma AttemptCanonical(lt: LookupTable, cfg: Config, d: Draw)
    requires Attempt(lt, cfg, d).Ok?
    ensures var s := lt.validate(Rows(cfg, d));
      Attempt(lt, cfg, d).value == Candidate(lt.modelFlops(s), lt.decode(s), lt.encode(lt.decode(s)))
  {
    SampleValidatesRows(lt, cfg, d);
  }

  /** The negation of the loop condition on line 82: the reported cost is within
      `bias` of the target and at least `MinLayers` layers were decoded. */
  predicate Acceptable(c: Candidate, target: int, bias: int) {
    && (target - bias) as real <= c.genFlops <= (target + bias) as real
    && |c.layers| >= MinLayers
  }

  /** The attempt succeeded but the loop condition sends it back. */
  predicate Rejected(lt: LookupTable, cfg: Config, target: int, bias: int, d: Draw) {
    Attempt(lt, cfg, d).Ok? && !Acceptable(Attempt(lt, cfg, d).value, target, bias)
  }

  datatype Accepted = Accepted(candidate: Candidate, used: nat)

  /** The loop of lines 77-87 for one target: attempts draws in order and keeps
      the first acceptable candidate; `used` counts the draws consumed. */
  function RejectionSample(lt: LookupTable, cfg: Config, target: int, bias: int, draws: seq<Draw>): (r: Result<Accepted>)
    ensures r.Ok? ==> 1 <= r.value.used <= |draws|
    ensures r.Ok? ==> Attempt(lt, cfg, draws[r.value.used - 1]) == Ok(r.value.candidate)
    ensures r.Ok? ==> Acceptable(r.value.candidate, target, bias)
    ensures r.Ok? ==> forall j | 0 <= j < r.value.used - 1 :: Rejected(lt, cfg, target, bias, draws[j])
    ensures r == Err(OutOfDraws) <==> forall j | 0 <= j < |draws| :: Rejected(lt, cfg, target, bias, draws[j])
    ensures r.Err? && r.error != OutOfDraws ==> exists j | 0 <= j < |draws| ::
      && Attempt(lt, cfg, draws[j]) == Err(r.error)
      && forall i | 0 <= i < j :: Rejected(lt, cfg, target, bias, draws[i])
    decreases |draws|
  {
    if |draws| == 0 then Err(OutOfDraws)
    else
      match Attempt(lt, cfg, draws[0])
      case Err(e) => Err(e)
      case Ok(c) =>
        if Acceptable(c, target, bias) then Ok(Accepted(c, 1))
        else
          var rest := RejectionSample(lt, cfg, target, bias, draws[1..]);
          match rest
          case Err(e) =>
            if e == OutOfDraws then
              RejectedPrefix(lt, cfg, target, bias, draws, |draws| - 1);
              Err(e)
            else
              var j' :| 0 <= j' < |draws[1..]| && Attempt(lt, cfg, draws[1..][j']) == Err(e)
                && forall i | 0 <= i < j' :: Rejected(lt, cfg, target, bias, draws[1..][i]);
              RejectedPrefix(lt, cfg, target, bias, draws, j');
              RejectedPrefix(lt, cfg, target, bias, draws, |draws| - 1);
              assert draws[1..][j'] == draws[j' + 1];
              Err(e)
          case Ok(a) =>
            RejectedPrefix(lt, cfg, target, bias, draws, a.used - 1);
            RejectedPrefix(lt, cfg, target, bias, draws, |draws| - 1);
            assert draws[1..][a.used - 1] == draws[a.used];
            Ok(Accepted(a.candidate, a.used + 1))
  }

  /** After a rejected first draw, the first `m` draws of the rest are all
      rejected exactly when the first `m + 1` draws are. */
  lemma RejectedPrefix(lt: LookupTable, cfg: Config, target: int, bias: int, draws: seq<Draw>, m: nat)
    requires m < |draws| && Rejected(lt, cfg, target, bias, draws[0])
    ensures (forall j | 0 <= j < m :: Rejected(lt, cfg, target, bias, draws[1..][j]))
        <==> (forall j | 0 <= j < m + 1 :: Rejected(lt, cfg, target, bias, draws[j]))
  {
    assert forall j | 1 <= j < |draws| :: draws[j] == draws[1..][j - 1];
  }

  // ---------------------------------------------------------------------------
  // The pool (lines 67, 73-88)

  /** `str(t)` for every target, in order. */
  function TargetKeys(targets: seq<int>): (ks: seq<string>)
    ensures |ks| == |targets|
  {
    seq(|targets|, i requires 0 <= i < |targets| => IntToString(targets[i]))
  }

  /** `v` is what some draw's acceptable attempt for `target` re-encoded. */
  ghost predicate StoredFor(lt: LookupTable, cfg: Config, target: int, bias: int, v: Matrix, draws: seq<Draw>) {
    exists j | 0 <= j < |draws| ::
      && Attempt(lt, cfg, draws[j]).Ok?
      && Acceptable(Attempt(lt, cfg, draws[j]).value, target, bias)
      && Attempt(lt, cfg, draws[j]).value.param == v
  }

  /** Being stored for a target survives prepending draws. */
  lemma StoredForSuffix(lt: LookupTable, cfg: Config, target: int, bias: int, v: Matrix, draws: seq<Draw>, n: nat)
    requires n <= |draws| && StoredFor(lt, cfg, target, bias, v, draws[n..])
    ensures StoredFor(lt, cfg, target, bias, v, draws)
  {
    var j :| 0 <= j < |draws[n..]| && Attempt(lt, cfg, draws[n..][j]).Ok?
      && Acceptable(Attempt(lt, cfg, draws[n..][j]).value, target, bias)
      && Attempt(lt, cfg, draws[n..][j]).value.param == v;
    assert draws[n..][j] == draws[n + j];
  }

  /** None of the targets' keys is in the pool yet, and no target repeats. */
  predicate Fresh(pool: Pool, targets: seq<int>) {
    && (forall i, j | 0 <= i < j < |targets| :: targets[i] != targets[j])
    && (forall i | 0 <= i < |targets| :: Lookup(pool, IntToString(targets[i])).None?)
  }

  /** From position `start` on, `p` holds one entry per target, in order, keyed
      `str(target)`, each stored for its target. */
  ghost predicate Filled(lt: LookupTable, cfg: Config, bias: int, p: Pool, start: nat, targets: seq<int>, draws: seq<Draw>) {
    && |p| == start + |targets|
    && forall i | 0 <= i < |targets| ::
         && p[start + i].key == IntToString(targets[i])
         && StoredFor(lt, cfg, targets[i], bias, p[start + i].value, draws)
  }

  /** The `for` loop of lines 73-88 from a partly filled pool: one rejection loop
      per target, each starting where the previous one stopped in the draws,
      then `pool[str(t)] = accepted`. For fresh targets, each one appends its
      entry, in target order. */
  function FillPool(lt: LookupTable, cfg: Config, bias: int, targets: seq<int>, pool: Pool, draws: seq<Draw>): (r: Result<Pool>)
    ensures r.Ok? && Fresh(pool, targets) ==>
      && |pool| <= |r.value|
      && r.value[..|pool|] == pool
      && Filled(lt, cfg, bias, r.value, |pool|, targets, draws)
    decreases |targets|
  {
    if |targets| == 0 then Ok(pool)
    else
      match RejectionSample(lt, cfg, targets[0], bias, draws)
      case Err(e) => Err(e)
      case Ok(a) =>
        var v := a.candidate.param;
        var pool' := Put(pool, IntToString(targets[0]), v);
        var r := FillPool(lt, cfg, bias, targets[1..], pool', draws[a.used..]);
        if r.Ok? && Fresh(pool, targets) then
          FreshAfterPut(pool, targets, v);
          AcceptedIsStored(lt, cfg, targets[0], bias, draws, a);
          FillPoolStep(lt, cfg, bias, targets, pool, pool', draws, a.used, v, r.value);
          r
        else r
  }

  /** Storing the first fresh target appends it and leaves the others fresh. */
  lemma FreshAfterPut(pool: Pool, targets: seq<int>, v: Matrix)
    requires |targets| > 0 && Fresh(pool, targets)
    ensures Put(pool, IntToString(targets[0]), v) == pool + [Entry(IntToString(targets[0]), v)]
    ensures Fresh(Put(pool, IntToString(targets[0]), v), targets[1..])
  {
    var pool' := Put(pool, IntToString(targets[0]), v);
    var rest := targets[1..];
    forall i | 0 <= i < |rest| ensures Lookup(pool', IntToString(rest[i])).None? {
      assert rest[i] == targets[i + 1];
      IntToStringInjective(rest[i], targets[0]);
    }
  }

  /** The candidate the rejection loop accepts is stored for its target. */
  lemma AcceptedIsStored(lt: LookupTable, cfg: Config, target: int, bias: int, draws: seq<Draw>, a: Accepted)
    requires RejectionSample(lt, cfg, target, bias, draws) == Ok(a)
    ensures 1 <= a.used <= |draws|
    ensures StoredFor(lt, cfg, target, bias, a.candidate.param, draws)
  {
    assert Attempt(lt, cfg, draws[a.used - 1]) == Ok(a.candidate);
  }

  /** The inductive step behind `FillPool`'s contract: the first target's entry
      followed by the rest's entries. */
  lemma FillPoolStep(lt: LookupTable, cfg: Config, bias: int, targets: seq<int>, pool: Pool, pool': Pool,
                     draws: seq<Draw>, used: nat, v: Matrix, p: Pool)
    requires |targets| > 0 && used <= |draws|
    requires pool' == pool + [Entry(IntToString(targets[0]), v)]
    requires StoredFor(lt, cfg, targets[0], bias, v, draws)
    requires |pool'| <= |p| && p[..|pool'|] == pool'
    requires Filled(lt, cfg, bias, p, |pool'|, targets[1..], draws[used..])
    ensures p[..|pool|] == pool
    ensures Filled(lt, cfg, bias, p, |pool|, targets, draws)
  {
    var n := |pool|;
    assert p[..n] == p[..n + 1][..n];
    assert p[n] == p[..n + 1][n];
    forall i | 0 <= i < |targets|
      ensures p[n + i].key == IntToString(targets[i])
      ensures StoredFor(lt, cfg, targets[i], bias, p[n + i].value, draws)
    {
      if i > 0 {
        FillPoolLater(lt, cfg, bias, targets, p, n, draws, used, i);
      }
    }
  }

  /** Entry `i > 0` of the step comes from the rest's entry `i - 1`. */
  lemma FillPoolLater(lt: LookupTable, cfg: Config, bias: int, targets: seq<int>, p: Pool, n: nat,
                      draws: seq<Draw>, used: nat, i: nat)
    requires 0 < i < |targets| && used <= |draws|
    requires Filled(lt, cfg, bias, p, n + 1, targets[1..], draws[used..])
    ensures n + i < |p|
    ensures p[n + i].key == IntToString(targets[i])
    ensures StoredFor(lt, cfg, targets[i], bias, p[n + i].value, draws)
  {
    FilledEntry(lt, cfg, bias, p, n + 1, targets[1..], draws[used..], i - 1);
    assert targets[1..][i - 1] == targets[i];
    StoredForSuffix(lt, cfg, targets[i], bias, p[n + i].value, draws, used);
  }

  /** One entry of a filled stretch. */
  lemma FilledEntry(lt: LookupTable, cfg: Config, bias: int, p: Pool, start: nat, targets: seq<int>, draws: seq<Draw>, i: nat)
    requires Filled(lt, cfg, bias, p, start, targets, draws) && i < |targets|
    ensures start + i < |p|
    ensures p[start + i].key == IntToString(targets[i])
    ensures StoredFor(lt, cfg, targets[i], bias, p[start + i].value, draws)
  {
  }

  /** `_generate_prior_pool` without the file write: the pool holds exactly one
      key per ladder target, `str(target)`, in ladder order, and each value is the
      canonical re-encoding of an acceptable sample for that target. */
  function BuildPool(lt: LookupTable, cfg: Config, bias: int, draws: seq<Draw>): (r: Result<Pool>)
    ensures TargetLadder(cfg).Err? ==> r == Err(TargetLadder(cfg).error)
    ensures r.Ok? ==> TargetLadder(cfg).Ok? && Keys(r.value) == TargetKeys(TargetLadder(cfg).value)
    ensures r.Ok? ==> forall i | 0 <= i < |r.value| ::
      StoredFor(lt, cfg, TargetLadder(cfg).value[i], bias, r.value[i].value, draws)
  {
    match TargetLadder(cfg)
    case Err(e) => Err(e)
    case Ok(ladder) =>
      LadderDistinct(cfg);
      assert Fresh([], ladder);
      var r := FillPool(lt, cfg, bias, ladder, [], draws);
      assert r.Ok? ==> Filled(lt, cfg, bias, r.value, 0, ladder, draws);
      r
  }

  // ---------------------------------------------------------------------------
  // The built pool seen through `get_prior` and `get_prior_keys` (lines 33-43)

  /** `p` is keyed `str(t)` for each `t` of `ts`, in order. */
  predicate KeyedBy(p: Pool, ts: seq<int>) {
    |p| == |ts| && forall i | 0 <= i < |p| :: p[i].key == IntToString(ts[i])
  }

  /** `Keys(p) == TargetKeys(ts)` entry by entry. */
  lemma KeysAreTargetKeys(p: Pool, ts: seq<int>)
    requires Keys(p) == TargetKeys(ts)
    ensures KeyedBy(p, ts)
  {
    assert |Keys(p)| == |TargetKeys(ts)|;
    forall i | 0 <= i < |p|
      ensures p[i].key == IntToString(ts[i])
    {
      assert Keys(p)[i] == TargetKeys(ts)[i];
    }
  }

  /** Keys written by `str` read back through `int` as the targets. */
  lemma KeyedByParses(p: Pool, ts: seq<int>)
    requires KeyedBy(p, ts)
    ensures CanonicalKeys(p) && ParseKeys(p) == Some(ts)
  {
    forall i | 0 <= i < |p|
      ensures ParseInt(p[i].key) == Some(ts[i])
    {
      IntStringRoundTrip(ts[i]);
    }
    var ks := ParseKeys(p).value;
    assert forall i | 0 <= i < |p| :: Some(ks[i]) == ParseInt(p[i].key);
    assert ks == ts;
  }

  /** Distinct targets give distinct keys. */
  lemma KeyedByUnique(p: Pool, ts: seq<int>)
    requires KeyedBy(p, ts)
    requires forall i, j | 0 <= i < j < |ts| :: ts[i] != ts[j]
    ensures UniqueKeys(p)
  {
    forall i, j | 0 <= i < j < |p|
      ensures p[i].key != p[j].key
    {
      IntToStringInjective(ts[i], ts[j]);
    }
  }

  /** A built pool is a proper dict whose keys read back, through `int`, as the
      ladder in order: `get_prior_keys` lists exactly the targets. */
  lemma BuiltPoolIsDict(lt: LookupTable, cfg: Config, bias: int, draws: seq<Draw>)
    requires BuildPool(lt, cfg, bias, draws).Ok?
    ensures var p := BuildPool(lt, cfg, bias, draws).value;
      && UniqueKeys(p)
      && CanonicalKeys(p)
      && ParseKeys(p) == Some(TargetLadder(cfg).value)
  {
    var p := BuildPool(lt, cfg, bias, draws).value;
    var ladder := TargetLadder(cfg).value;
    LadderDistinct(cfg);
    KeysAreTargetKeys(p, ladder);
    KeyedByParses(p, ladder);
    KeyedByUnique(p, ladder);
  }

  /** `get_prior(flops)` on a built pool returns the encoding stored for the
      ladder target nearest to `flops`, the lowest such target on a tie. */
  lemma BuiltPoolGetPrior(lt: LookupTable, cfg: Config, bias: int, draws: seq<Draw>, flops: int)
    requires BuildPool(lt, cfg, bias, draws).Ok? && |BuildPool(lt, cfg, bias, draws).value| > 0
    ensures var p := BuildPool(lt, cfg, bias, draws).value;
      var ladder := TargetLadder(cfg).value;
      var n := ArgMin(Distances(ladder, flops));
      && |ladder| == |p|
      && IsFirstArgMin(Distances(ladder, flops), n)
      && GetPrior(p, flops) == Ok(p[n].value)
      && StoredFor(lt, cfg, ladder[n], bias, p[n].value, draws)
  {
    var p := BuildPool(lt, cfg, bias, draws).value;
    BuiltPoolIsDict(lt, cfg, bias, draws);
    GetPriorNearest(p, flops);
    KeysAreTargetKeys(p, TargetLadder(cfg).value);
  }

  /** Querying a ladder target exactly returns that target's entry. */
  lemma BuiltPoolExactTarget(lt: LookupTable, cfg: Config, bias: int, draws: seq<Draw>, t: nat)
    requires BuildPool(lt, cfg, bias, draws).Ok? && t < |BuildPool(lt, cfg, bias, draws).value|
    ensures var p := BuildPool(lt, cfg, bias, draws).value;
      && t < |TargetLadder(cfg).value|
      && GetPrior(p, TargetLadder(cfg).value[t]) == Ok(p[t].value)
  {
    var p := BuildPool(lt, cfg, bias, draws).value;
    var ladder := TargetLadder(cfg).value;
    BuiltPoolIsDict(lt, cfg, bias, draws);
    KeysAreTargetKeys(p, ladder);
    GetPriorExactKey(p, t, ladder[t]);
  }

  /** `str(100)` is "100". */
  lemma HundredKey()
    ensures IntToString(100) == "100"
  {
    assert DigitChar(0) == '0' && DigitChar(1) == '1';
    assert NatToString(1) == "1";
    assert NatToString(10) == NatToString(1) + [DigitChar(0)] == "10";
    assert NatToString(100) == NatToString(10) + [DigitChar(0)] == "100";
  }

  /** With `low_flops = 80, high_flops = 120, pool_size = 1` a built pool has the
      single key "100", and every query returns its encoding. */
  lemma SingleTargetPool(lt: LookupTable, cfg: Config, bias: int, draws: seq<Draw>, flops: int)
    requires cfg.lowFlops == 80 && cfg.highFlops == 120 && cfg.poolSize == 1
    requires BuildPool(lt, cfg, bias, draws).Ok?
    ensures var p := BuildPool(lt, cfg, bias, draws).value;
      && Keys(p) == ["100"]
      && GetPrior(p, flops) == Ok(p[0].value)
  {
    var p := BuildPool(lt, cfg, bias, draws).value;
    SingleTargetLadder(cfg);
    HundredKey();
    assert TargetKeys([100]) == ["100"];
    BuiltPoolGetPrior(lt, cfg, bias, draws, flops);
  }

  /** What an entry is, without any law of the lookup table: the canonical
      re-encoding `encode(decode(s))` of a validated sample `s` built from one
      draw, where `s` itself was priced within `bias` of the target and decoded
      to at least `MinLayers` layers. */
  lemma StoredIsReencodedSample(lt: LookupTable, cfg: Config, target: int, bias: int, v: Matrix, draws: seq<Draw>)
    requires StoredFor(lt, cfg, target, bias, v, draws)
    ensures exists j | 0 <= j < |draws| ::
      && Buildable(cfg, draws[j])
      && var s := lt.validate(Rows(cfg, draws[j]));
         && (target - bias) as real <= lt.modelFlops(s) <= (target + bias) as real
         && |lt.decode(s)| >= MinLayers
         && v == lt.encode(lt.decode(s))
  {
    var j :| 0 <= j < |draws| && Attempt(lt, cfg, draws[j]).Ok?
      && Acceptable(Attempt(lt, cfg, draws[j]).value, target, bias)
      && Attempt(lt, cfg, draws[j]).value.param == v;
    AttemptCanonical(lt, cfg, draws[j]);
  }

  /** Laws of the lookup table under which the canonical re-encoding changes
      nothing the pool cares about: decoding it gives back the same layers, and
      the cost model prices it like the sample it came from. */
  ghost predicate CanonicalStable(lt: LookupTable) {
    && (forall m :: lt.decode(lt.encode(lt.decode(m))) == lt.decode(m))
    && (forall m :: lt.modelFlops(lt.encode(lt.decode(m))) == lt.modelFlops(m))
  }

  /** What the pool promises of each entry: its cost is within `bias` of its
      target and it has at least `MinLayers` layers. The loop only checks this
      for the validated sample, not for the stored re-encoding, so it holds of
      the stored value only under the table's canonical-stability laws. */
  lemma StoredWithinBias(lt: LookupTable, cfg: Config, target: int, bias: int, v: Matrix, draws: seq<Draw>)
    requires CanonicalStable(lt)
    requires StoredFor(lt, cfg, target, bias, v, draws)
    ensures (target - bias) as real <= lt.modelFlops(v) <= (target + bias) as real
    ensures |lt.decode(v)| >= MinLayers
  {
    var j :| 0 <= j < |draws| && Attempt(lt, cfg, draws[j]).Ok?
      && Acceptable(Attempt(lt, cfg, draws[j]).value, target, bias)
      && Attempt(lt, cfg, draws[j]).value.param == v;
    AttemptCanonical(lt, cfg, draws[j]);
    var s := lt.validate(Rows(cfg, draws[j]));
    assert v == lt.encode(lt.decode(s));
    assert lt.decode(v) == lt.decode(s);
    assert lt.modelFlops(v) == lt.modelFlops(s);
  }

  /** Every entry of a built pool meets the target it is keyed by, given the
      table's laws. */
  lemma BuiltPoolWithinBias(lt: LookupTable, cfg: Config, bias: int, draws: seq<Draw>, i: nat)
    requires CanonicalStable(lt)
    requires BuildPool(lt, cfg, bias, draws).Ok? && i < |BuildPool(lt, cfg, bias, draws).value|
    ensures var p := BuildPool(lt, cfg, bias, draws).value;
      var t := TargetLadder(cfg).value[i];
      && p[i].key == IntToString(t)
      && (t - bias) as real <= lt.modelFlops(p[i].value) <= (t + bias) as real
      && |lt.decode(p[i].value)| >= MinLayers
  {
    var p := BuildPool(lt, cfg, bias, draws).value;
    var ladder := TargetLadder(cfg).value;
    KeysAreTargetKeys(p, ladder);
    StoredWithinBias(lt, cfg, ladder[i], bias, p[i].value, draws);
  }
}
