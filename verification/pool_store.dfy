/** The in-memory prior pool and its queries (utils/prior_pool.py:33-43): an
    insertion-ordered dictionary from stringified FLOPS targets to encodings,
    and the nearest-target lookup `get_prior`. */
module PoolStore {
  import opened Results
  import opened Builtins
  import opened Encoding

  datatype Entry = Entry(key: string, value: Matrix)

  /** A Python dict: entries in insertion order. */
  type Pool = seq<Entry>

  /** `prior_pool.keys()`, in iteration order. */
  function Keys(pool: Pool): (ks: seq<string>)
    ensures |ks| == |pool|
    ensures forall i | 0 <= i < |pool| :: ks[i] == pool[i].key
  {
    seq(|pool|, i requires 0 <= i < |pool| => pool[i].key)
  }

  /** A dict never holds one key twice. */
  predicate UniqueKeys(pool: Pool) {
    forall i, j | 0 <= i < j < |pool| :: pool[i].key != pool[j].key
  }

  /** Position of key `k`, the first one if the sequence repeats it. */
  function IndexOf(pool: Pool, k: string): (r: Option<nat>)
    ensures r.None? <==> forall i | 0 <= i < |pool| :: pool[i].key != k
    ensures r.Some? ==> r.value < |pool| && pool[r.value].key == k
    ensures r.Some? ==> forall j | 0 <= j < r.value :: pool[j].key != k
  {
    if |pool| == 0 then None
    else if pool[0].key == k then Some(0)
    else
      match IndexOf(pool[1..], k)
      case None =>
        assert forall i | 1 <= i < |pool| :: pool[i] == pool[1..][i - 1];
        None
      case Some(i) =>
        assert forall j | 1 <= j < |pool| :: pool[j] == pool[1..][j - 1];
        Some(i + 1)
  }

  /** The key search behind `prior_pool[k]`: `None` where Python raises KeyError. */
  function Lookup(pool: Pool, k: string): (r: Option<Matrix>)
    ensures r.None? <==> forall i | 0 <= i < |pool| :: pool[i].key != k
    ensures r.Some? ==> exists i | 0 <= i < |pool| :: pool[i] == Entry(k, r.value)
  {
    match IndexOf(pool, k)
    case None => None
    case Some(i) => Some(pool[i].value)
  }

  /** In a dict, looking up the key of entry `i` finds entry `i`'s value. */
  lemma LookupUnique(pool: Pool, i: nat)
    requires UniqueKeys(pool) && i < |pool|
    ensures Lookup(pool, pool[i].key) == Some(pool[i].value)
  {
    var j := IndexOf(pool, pool[i].key).value;
    assert j == i;
  }

  /** `prior_pool[k] = v`: a new key goes to the end, an existing key keeps its
      position; afterwards `k` maps to `v` and every other key to what it did. */
  function Put(pool: Pool, k: string, v: Matrix): (r: Pool)
    ensures Lookup(pool, k).None? ==> r == pool + [Entry(k, v)]
    ensures Lookup(pool, k).None? ==> Keys(r) == Keys(pool) + [k]
    ensures Lookup(pool, k).Some? ==> Keys(r) == Keys(pool)
    ensures Lookup(r, k) == Some(v)
    ensures forall k' | k' != k :: Lookup(r, k') == Lookup(pool, k')
    ensures UniqueKeys(pool) ==> UniqueKeys(r)
  {
    match IndexOf(pool, k)
    case None =>
      PutNew(pool, k, v);
      pool + [Entry(k, v)]
    case Some(i) =>
      PutExisting(pool, i, k, v);
      pool[i := Entry(k, v)]
  }

  /** Storing a new key: appended, found, and no other key moves. */
  lemma PutNew(pool: Pool, k: string, v: Matrix)
    requires IndexOf(pool, k).None?
    ensures var r := pool + [Entry(k, v)];
      && Keys(r) == Keys(pool) + [k]
      && IndexOf(r, k) == Some(|pool|)
      && (forall k' | k' != k :: IndexOf(r, k') == IndexOf(pool, k'))
      && (UniqueKeys(pool) ==> UniqueKeys(r))
  {
    var r := pool + [Entry(k, v)];
    forall k' | k' != k ensures IndexOf(r, k') == IndexOf(pool, k') {
      IndexOfPrefix(pool, r, k');
    }
    assert IndexOf(r, k) == Some(|pool|) by {
      assert r[|pool|].key == k;
      assert forall j | 0 <= j < |pool| :: r[j].key == pool[j].key != k;
    }
    assert Keys(r) == Keys(pool) + [k] by {
      assert forall j | 0 <= j < |pool| :: r[j].key == pool[j].key;
    }
    assert UniqueKeys(pool) ==> UniqueKeys(r) by {
      assert forall j | 0 <= j < |pool| :: r[j].key == pool[j].key != k;
    }
  }

  /** Overwriting the key at position `i`: same keys, found with the new value. */
  lemma PutExisting(pool: Pool, i: nat, k: string, v: Matrix)
    requires IndexOf(pool, k) == Some(i)
    ensures var r := pool[i := Entry(k, v)];
      && Keys(r) == Keys(pool)
      && IndexOf(r, k) == Some(i)
      && (forall k' :: IndexOf(r, k') == IndexOf(pool, k'))
  {
    var r := pool[i := Entry(k, v)];
    forall k' ensures IndexOf(r, k') == IndexOf(pool, k') {
      IndexOfSameKeys(pool, r, k');
    }
    assert Keys(r) == Keys(pool);
  }

  /** Appending an entry with another key does not move a key's position. */
  lemma IndexOfPrefix(pool: Pool, r: Pool, k: string)
    requires |pool| < |r| && r[..|pool|] == pool && r[|pool|].key != k
    requires |r| == |pool| + 1
    ensures IndexOf(r, k) == IndexOf(pool, k)
  {
    assert forall i | 0 <= i < |pool| :: r[i] == pool[i];
    match IndexOf(pool, k)
    case None =>
      assert forall i | 0 <= i < |r| :: r[i].key != k;
    case Some(i) =>
      var j := IndexOf(r, k).value;
      assert j <= i;
      assert j == i;
  }

  /** Two dicts with the same key at every position agree on every key's position. */
  lemma IndexOfSameKeys(pool: Pool, r: Pool, k: string)
    requires |pool| == |r| && forall i | 0 <= i < |pool| :: pool[i].key == r[i].key
    ensures IndexOf(r, k) == IndexOf(pool, k)
  {
    match IndexOf(pool, k)
    case None =>
    case Some(i) =>
      var j := IndexOf(r, k).value;
      assert j == i;
  }

  /** Every key is the decimal text of an integer, as `str(flops)` writes it. */
  predicate CanonicalKeys(pool: Pool) {
    forall i | 0 <= i < |pool| :: ParseInt(pool[i].key).Some? && IntToString(ParseInt(pool[i].key).value) == pool[i].key
  }

  /** `[int(k) for k in prior_pool.keys()]`: the first key that is not an
      integer literal raises ValueError. */
  function ParseKeys(pool: Pool): (r: Option<seq<int>>)
    ensures r.Some? <==> forall i | 0 <= i < |pool| :: ParseInt(pool[i].key).Some?
    ensures r.Some? ==> |r.value| == |pool| && forall i | 0 <= i < |pool| :: Some(r.value[i]) == ParseInt(pool[i].key)
  {
    if |pool| == 0 then Some([])
    else match ParseInt(pool[0].key)
      case None => None
      case Some(k) =>
        match ParseKeys(pool[1..])
        case None =>
          assert forall i | 1 <= i < |pool| :: pool[i] == pool[1..][i - 1];
          None
        case Some(ks) =>
          assert forall i | 1 <= i < |pool| :: pool[i] == pool[1..][i - 1];
          Some([k] + ks)
  }

  /** `n` is where `argmin` stops: a minimum of `ds`, and the first one. */
  predicate IsFirstArgMin(ds: seq<int>, n: nat) {
    && n < |ds|
    && (forall j | 0 <= j < |ds| :: ds[n] <= ds[j])
    && (forall j | 0 <= j < n :: ds[n] < ds[j])
  }

  /** numpy's `argmin`: a left-to-right scan that moves only on a strictly
      smaller value, so ties go to the lowest index. */
  function ArgMin(ds: seq<int>): (n: nat)
    requires |ds| > 0
    ensures IsFirstArgMin(ds, n)
  {
    if |ds| == 1 then 0
    else
      var best := ArgMin(ds[..|ds| - 1]);
      if ds[|ds| - 1] < ds[best] then |ds| - 1 else best
  }

  /** `np.absolute(prior_keys - flops)`. */
  function Distances(ks: seq<int>, flops: int): (ds: seq<int>)
    ensures |ds| == |ks|
    ensures forall i | 0 <= i < |ks| :: ds[i] == Abs(ks[i] - flops)
  {
    seq(|ks|, i requires 0 <= i < |ks| => Abs(ks[i] - flops))
  }

  /** `get_prior(flops)`: the value stored under the key nearest to `flops`, the
      first such key in iteration order on ties. The key is parsed with `int`
      and looked up again with `str`, so a key that is not in `str` form is
      missed. */
  function GetPrior(pool: Pool, flops: int): (r: Result<Matrix>)
    ensures r == Err(InvalidKey) <==> ParseKeys(pool).None?
    ensures r == Err(EmptyPool) <==> |pool| == 0
    ensures r.Ok? ==> exists n: nat | n < |pool| ::
      && IsFirstArgMin(Distances(ParseKeys(pool).value, flops), n)
      && Lookup(pool, IntToString(ParseKeys(pool).value[n])) == Some(r.value)
    ensures ParseKeys(pool).Some? && |pool| > 0 ==>
      (r == Err(MissingKey) <==>
        Lookup(pool, IntToString(ParseKeys(pool).value[ArgMin(Distances(ParseKeys(pool).value, flops))])).None?)
    ensures r.Err? ==> r.error in {InvalidKey, EmptyPool, MissingKey}
  {
    match ParseKeys(pool)
    case None => Err(InvalidKey)
    case Some(ks) =>
      if |ks| == 0 then Err(EmptyPool)
      else
        var n := ArgMin(Distances(ks, flops));
        match Lookup(pool, IntToString(ks[n]))
        case None => Err(MissingKey)
        case Some(v) => Ok(v)
  }

  /** In a dict of canonical keys, `str(int(k))` gives back key `k`. */
  lemma ParsedKey(pool: Pool, i: nat)
    requires CanonicalKeys(pool) && i < |pool|
    ensures ParseKeys(pool).Some?
    ensures pool[i].key == IntToString(ParseKeys(pool).value[i])
  {
    assert ParseInt(pool[i].key).Some?;
    assert Some(ParseKeys(pool).value[i]) == ParseInt(pool[i].key);
  }

  /** On a dict whose keys are all `str` of integers, `get_prior` succeeds and
      returns the entry at the first position of least distance. */
  lemma GetPriorNearest(pool: Pool, flops: int)
    requires |pool| > 0 && UniqueKeys(pool) && CanonicalKeys(pool)
    ensures ParseKeys(pool).Some?
    ensures var n := ArgMin(Distances(ParseKeys(pool).value, flops));
      && IsFirstArgMin(Distances(ParseKeys(pool).value, flops), n)
      && GetPrior(pool, flops) == Ok(pool[n].value)
  {
    ParsedKey(pool, 0);
    var ks := ParseKeys(pool).value;
    var n := ArgMin(Distances(ks, flops));
    ParsedKey(pool, n);
    LookupUnique(pool, n);
  }

  /** If some key equals the query, the nearest key does too. */
  lemma NearestOfExact(ks: seq<int>, flops: int, n: nat, t: nat)
    requires IsFirstArgMin(Distances(ks, flops), n)
    requires t < |ks| && ks[t] == flops
    ensures ks[n] == flops
  {
    var ds := Distances(ks, flops);
    assert ds[t] == 0;
    assert ds[n] <= ds[t];
  }

  /** Querying exactly a stored target returns that target's entry. */
  lemma GetPriorExactKey(pool: Pool, t: nat, flops: int)
    requires UniqueKeys(pool) && CanonicalKeys(pool)
    requires t < |pool| && pool[t].key == IntToString(flops)
    ensures GetPrior(pool, flops) == Ok(pool[t].value)
  {
    GetPriorNearest(pool, flops);
    var ks := ParseKeys(pool).value;
    var n := ArgMin(Distances(ks, flops));
    assert ks[t] == flops by {
      ParsedKey(pool, t);
      IntToStringInjective(ks[t], flops);
    }
    NearestOfExact(ks, flops, n, t);
    assert n == t by {
      ParsedKey(pool, n);
      assert pool[n].key == pool[t].key;
    }
  }

  /** A key that `int` accepts but `str` does not write back, such as "07",
      makes `get_prior` miss it and raise KeyError. */
  lemma GetPriorNonCanonicalKey(m: Matrix, flops: int)
    ensures GetPrior([Entry("07", m)], flops) == Err(MissingKey)
  {
    var pool := [Entry("07", m)];
    assert ParseInt("07") == Some(7) by {
      assert AllDigits("07");
      assert DigitsValue("07") == DigitsValue("0") * 10 + 7;
    }
    assert pool[0].key == "07";
    assert ParseKeys(pool).Some?;
    var ks := ParseKeys(pool).value;
    assert |ks| == 1 && ks[0] == 7;
    assert ks == [7];
    assert IntToString(7) == "7" by {
      assert DigitChar(7) == '7';
    }
    assert ArgMin(Distances(ks, flops)) == 0;
    assert Lookup(pool, "7").None?;
  }
}
