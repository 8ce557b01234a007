# PriorPool in Dafny

This project models the deterministic core of `PriorPool` (utils/prior_pool.py). A prior pool is a
dictionary from target FLOPS values, written as decimal strings, to architecture encodings.

Building the pool (`_generate_prior_pool`) works in three steps:

- It computes a ladder of targets: `pool_interval = (high - low) // (pool_size + 1)`, then
  `range(low + interval, high - 1, interval)`.
- For each target it samples architectures until one has a reported cost within `bias` of the
  target and at least 19 decoded layers.
- It stores `encode(decode(sample))` under `str(target)`.

A sample (`generate_arch_param`) has one row per layer. Each row is `split_blocks` one-hot blocks
of width `kernels_nums`:

- the first `depth` blocks pick a non-skip kernel;
- the remaining blocks pick the skip position, which is the block's last position.

The lookup table validates the encoding and prices it. `get_prior(flops)` parses the keys back
with `int` and returns the entry under the key nearest to `flops`. On a tie it returns the first
such key in dictionary order.

Modules, in dependency order:

- `Results`: `Option`, and `Result` with one `Error` kind per exception the code can raise.
- `Builtins`: the Python and numpy primitives with their exact integer semantics. These are
  floor division, `range` (any non-zero step; step 0 raises), `str(int)`, `int(str)` and
  `np.random.randint`.
- `Encoding`: one-hot blocks, the skip row, block slicing and the slice-overwrite loop.
- `Sampler`: the configuration, the lookup table, the random draws, the row construction and the
  sampler.
- `PoolStore`: the pool as an insertion-ordered dictionary (a sequence of entries), `get_prior`
  and `get_prior_keys`.
- `PoolBuilder`: the target ladder, the rejection loop, pool construction, and the lemmas that
  connect the built pool to `get_prior`.

Inputs that are not code:

- Randomness becomes explicit input. A `Draw` holds the raw generator output for one sampler
  call: one value per layer for the depth, and one per (layer, block) for the kernel choice.
  `randint(low, high)` maps a raw value `u` to `low + u % (high - low)`. `RandIntCoversRange`
  shows that every value of the interval is reachable.
- The lookup table's four operations (`get_validation_arch_param`, `get_model_flops`,
  `decode_arch_param`, `encode_arch_param`) are arbitrary total functions held in a
  `LookupTable` value.
- The unbounded `while` loop runs over a finite sequence of draws, one draw per attempt.
  Running out of draws is the error `OutOfDraws`, which the code itself never raises.

Two points where the code does less than one might expect, modelled as the code does:

- The loop checks the cost of the validated sample, but it stores the canonical re-encoding
  `encode(decode(sample))`. So the intended invariant that every entry costs within `bias` of
  its key is not guaranteed by the code alone. `StoredIsReencodedSample` states what does hold without
  assumptions. `StoredWithinBias` and `BuiltPoolWithinBias` prove that invariant under
  two lookup-table laws (`CanonicalStable`): re-encoding does not change what decoding gives,
  and it does not change the cost.
- The ladder need not have `pool_size` targets. With low 0, high 14 and pool size 3 it has
  four; with low 0, high 3 and pool size 2 it has one. The number of targets is whatever the
  `range` yields.

## Model

| member | source | states |
|---|---|---|
| Builtins.FloorDiv | utils/prior_pool.py:71 | Python `//`: raises exactly on a zero divisor; otherwise the quotient is rounded toward negative infinity, bracketing the dividend between consecutive multiples of the divisor for either sign of divisor |
| Builtins.Range | utils/prior_pool.py:73-76 | `range` raises exactly on step 0; otherwise element k is `start + k*step`, and index k is in the list exactly when that value is still short of `stop` in the step's direction |
| Builtins.RandInt | utils/prior_pool.py:99-100 | `randint(low, high)` raises exactly on an empty interval and otherwise lies in `[low, high)` |
| Builtins.RandIntCoversRange | utils/prior_pool.py:110 | every value of `[low, high)` is drawn by some raw input, so explicit draws reach every sample the generator can produce |
| Builtins.IntToString | utils/prior_pool.py:88 | `str(t)`: non-empty, leading '-' exactly for negatives, digits only otherwise |
| Builtins.ParseInt | utils/prior_pool.py:34 | `int(k)` succeeds exactly on an optionally signed non-empty run of digits |
| Builtins.IntStringRoundTrip | utils/prior_pool.py:34-38 | `int(str(n)) == n` for every integer, so the pool's keys parse back to its targets |
| Builtins.IntToStringInjective | utils/prior_pool.py:88 | distinct targets get distinct keys, and equal keys mean equal targets |
| Encoding.SkipBlock | utils/prior_pool.py:103-105 | the skip block is `kernels_nums` wide and one-hot at its last position |
| Encoding.RepeatBlock | utils/prior_pool.py:106-107 | every block of `architecture * split_blocks` is `architecture` |
| Encoding.OverwriteBlocks | utils/prior_pool.py:108-111 | after the overwrite loop, block e holds the one-hot on the e-th choice, for every overwritten e |
| Encoding.OverwriteTail | utils/prior_pool.py:108-111 | the overwrite loop leaves every position after its blocks unchanged |
| Encoding.LayerRowBlock | utils/prior_pool.py:103-111 | block b of a row is the chosen one-hot when b < depth and the skip block otherwise |
| Encoding.LayerRowWellFormed | utils/prior_pool.py:103-111 | every block of a constructed row has exactly one 1: at a non-skip position for b < depth, at the skip position for b >= depth |
| Sampler.Depth | utils/prior_pool.py:99-100 | each layer's drawn depth lies in `[2, expansion]` |
| Sampler.Hots | utils/prior_pool.py:108-110 | one kernel choice per expanded block, each at a non-skip position `< kernels_nums - 1` |
| Sampler.RawEncoding | utils/prior_pool.py:97-111 | the construction succeeds exactly on buildable configurations and draws; no layers raise ZeroDivision; every error is a division, empty-randint or shape error; on success there is one row per layer of width `arch_param_nums // layers`, each well-formed for its layer's depth |
| Sampler.Sample | utils/prior_pool.py:96-117 | the sampler succeeds exactly when the construction does, and reports the cost model's price of the very encoding it returns |
| PoolStore.Lookup | utils/prior_pool.py:38 | a dict lookup fails exactly when no entry has the key, and otherwise returns the value of an entry with that key |
| PoolStore.LookupUnique | utils/prior_pool.py:38 | in a dict, looking up entry i's key returns entry i's value |
| PoolStore.Put | utils/prior_pool.py:88 | `pool[k] = v` appends a new key at the end and keeps an existing key's position; afterwards k maps to v, every other key maps to what it did, and keys stay unique |
| PoolStore.ParseKeys | utils/prior_pool.py:34 | the key list parses exactly when every key is an integer literal, and then yields each key's value in dict order |
| PoolStore.ArgMin | utils/prior_pool.py:37 | `argmin` returns a position of least distance, and the first one on ties |
| PoolStore.GetPrior | utils/prior_pool.py:33-40 | `get_prior` raises ValueError exactly when some key is not an integer literal and fails on an empty pool exactly when the pool is empty; otherwise it raises KeyError exactly when `str` of the first nearest key is not itself a key, and it raises nothing else, so it succeeds whenever that key is found, returning the value stored under `str` of a key at the first position of least distance |
| PoolStore.GetPriorNearest | utils/prior_pool.py:33-40 | on a dict of `str`-written integer keys, `get_prior` succeeds and returns the entry at the first nearest position |
| PoolStore.GetPriorExactKey | utils/prior_pool.py:33-40 | querying exactly a stored key returns that key's entry |
| PoolStore.GetPriorNonCanonicalKey | utils/prior_pool.py:34-38 | a pool whose only key is "07" makes `get_prior` raise KeyError: `int` reads 7, and `str(7)` = "7" is not a key |
| PoolBuilder.PoolInterval | utils/prior_pool.py:71 | the interval raises exactly when `pool_size == -1`, and otherwise is the floor of `(high - low) / (pool_size + 1)`, bracketed between consecutive multiples of the divisor for a positive and for a negative divisor alike |
| PoolBuilder.TargetLadder | utils/prior_pool.py:71-76 | the ladder raises ZeroDivision on a zero divisor and ZeroRangeStep on a zero interval, and nothing else; target k is `low + (k+1)*interval`, and index k is in the ladder exactly when that target is below `high - 1` for a positive interval, above it for a negative one |
| PoolBuilder.LadderDescending | utils/prior_pool.py:71-76 | a negative interval raises nothing: low 100, high 50 and pool size 1 give interval -25 and the descending targets 75, 50 |
| PoolBuilder.LadderArithmetic | utils/prior_pool.py:73-76 | with a positive interval the ladder is exactly the values `low + k*interval`, k = 1, 2, ..., below `high - 1`, strictly increasing |
| PoolBuilder.LadderDistinct | utils/prior_pool.py:73-76 | ladder targets never repeat |
| PoolBuilder.LadderLength | utils/prior_pool.py:73-76 | with a positive interval, the ladder has n targets exactly when target n-1 is the last one below `high - 1` (both directions) |
| PoolBuilder.SingleTargetLadder | utils/prior_pool.py:69-76 | with low 80, high 120 and pool size 1 the interval is 20 and the ladder is exactly [100] |
| PoolBuilder.LadderLongerThanPoolSize | utils/prior_pool.py:71-76 | with low 0, high 14 and pool size 3 the ladder has four targets, the last being 12 |
| PoolBuilder.LadderShorterThanPoolSize | utils/prior_pool.py:71-76 | with low 0, high 3 and pool size 2 the ladder is the single target 1 |
| PoolBuilder.Attempt | utils/prior_pool.py:77-80 | one attempt succeeds exactly when the sampler's construction does, and never reports running out of draws |
| PoolBuilder.RejectionSample | utils/prior_pool.py:77-87 | the loop accepts the first acceptable attempt: every earlier attempt was rejected, the accepted one is within bias with at least 19 layers; it runs out exactly when every draw is rejected, and any other error is the first failing attempt after rejections only |
| PoolBuilder.FillPool | utils/prior_pool.py:73-88 | for fresh distinct targets, the loop keeps the existing entries and appends one entry per target in order, keyed `str(target)`, each holding a value stored for that target |
| PoolBuilder.FreshAfterPut | utils/prior_pool.py:88 | storing the first fresh target appends it and leaves the remaining targets fresh |
| PoolBuilder.AcceptedIsStored | utils/prior_pool.py:82-88 | the accepted candidate's encoding is stored for its target |
| PoolBuilder.BuildPool | utils/prior_pool.py:67-93 | ladder errors propagate; on success the keys are exactly `str` of the ladder targets in ladder order, and entry i holds a value stored for target i |
| PoolBuilder.BuiltPoolIsDict | utils/prior_pool.py:42-43 | a built pool has unique keys written by `str`, and `get_prior_keys` parses back to exactly the ladder |
| PoolBuilder.BuiltPoolGetPrior | utils/prior_pool.py:33-40 | on a built pool `get_prior` returns the entry of the first ladder target nearest the query, and that entry was stored for that target |
| PoolBuilder.BuiltPoolExactTarget | utils/prior_pool.py:33-40 | querying a ladder target returns that target's entry |
| PoolBuilder.SingleTargetPool | utils/prior_pool.py:67-93 | with low 80, high 120 and pool size 1 a built pool has the single key "100", and every query returns its value |
| PoolBuilder.StoredIsReencodedSample | utils/prior_pool.py:77-88 | each stored value is `encode(decode(s))` of a validated sample s built from one draw, where s was priced within bias of the target and decoded to at least 19 layers |
| PoolBuilder.StoredWithinBias | utils/prior_pool.py:77-88 | under the lookup table's canonical-stability laws, a stored value itself costs within bias of its target and decodes to at least 19 layers |
| PoolBuilder.BuiltPoolWithinBias | utils/prior_pool.py:67-93 | under those laws, every entry of a built pool meets the target named by its key |

## Left out

- Loading and saving the pool as JSON, and the `os.path.exists` choice between them (lines 26-31, 45-57, 91): file I/O. The pool is built in memory.
- The `p=True` relaxation branch, `calculate_block_probability` with `tau=5` (lines 113-114): a floating-point computation inside the lookup table that the pool never takes.
- The lookup table's internals (validation, decoding, encoding, cost model): their code is not part of this model, so they are arbitrary functions. Only the two laws named above are ever assumed.
- `torch.Tensor` / `torch.empty` conversion, `.cuda()` and `.tolist()`: representation only. Encodings are integer sequences throughout.
- Logging, and the unused `generator`, `model` and `loader` parameters.
- Termination of the rejection loop: it depends on the random generator. The loop is bounded by the finite draw sequence, and exhausting it is an error the code does not have.
- `bias` defaults (1 in `__init__`, 5 in `_generate_prior_pool`): the caller always passes one, so `bias` is a parameter.
- Costs are `real`, not floating point. Comparisons against `target ± bias` are exact; NaN and rounding are not modelled.
- `get_prior` with a float query: the query is an integer. The numpy `int64` overflow of `prior_keys - flops` is not modelled; integers are unbounded.
- `int` accepts surrounding whitespace, underscores between digits and non-ASCII digits; `ParseInt` accepts only an optional sign followed by ASCII digits. Such keys never come from `str(target)`.
- PoolBuilder.LadderLongerThanPoolSize: states the length and the last target, not the full list [3, 6, 9, 12]; the other targets follow from `TargetLadder`'s element formula.
