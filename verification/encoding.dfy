/** Architecture encodings: one row per layer, each row a run of `kernelsNums`-wide
    blocks, one block per split. A block is a one-hot vector over the kernel
    choices; its last position is the "skip" choice. */
module Encoding {

  type Row = seq<int>

  /** An architecture encoding: one row per layer. */
  type Matrix = seq<Row>

  /** `[0] * width` with a 1 written at `hot`. */
  function OneHot(width: nat, hot: nat): (b: Row)
    ensures |b| == width
  {
    seq(width, j => if j == hot then 1 else 0)
  }

  /** The block has exactly one 1, at `hot`, and 0 everywhere else. */
  predicate IsOneHotAt(block: Row, hot: nat) {
    && hot < |block|
    && forall j | 0 <= j < |block| :: block[j] == (if j == hot then 1 else 0)
  }

  lemma OneHotIsOneHot(width: nat, hot: nat)
    requires hot < width
    ensures IsOneHotAt(OneHot(width, hot), hot)
    ensures forall j | 0 <= j < width :: OneHot(width, hot)[j] == 1 <==> j == hot
  {
  }

  /** `[0 for _ in range(kernelsNums - 1)] + [1]`: the skip choice alone. */
  function SkipBlock(kernelsNums: nat): (b: Row)
    ensures |b| == if kernelsNums == 0 then 1 else kernelsNums
    ensures kernelsNums > 0 ==> IsOneHotAt(b, kernelsNums - 1)
  {
    seq(if kernelsNums == 0 then 0 else kernelsNums - 1, _ => 0) + [1]
  }

  /** `x * n` on a Python list. */
  function Repeat(x: Row, n: nat): (r: Row)
    ensures |r| == n * |x|
  {
    if n == 0 then [] else Repeat(x, n - 1) + x
  }

  lemma MulMono(a: nat, b: nat, c: nat)
    requires a <= b
    ensures a * c <= b * c
  {
  }

  /** Arithmetic of block offsets: block `b` of `n` ends where block `b + 1`
      starts, and no later than the end of block `n - 1`. */
  lemma BlockOffsets(b: nat, n: nat, w: nat)
    requires b < n
    ensures (b + 1) * w == b * w + w
    ensures (b + 1) * w <= n * w
  {
    MulMono(b + 1, n, w);
  }

  /** Two sequences that agree on a prefix agree on every slice inside it. */
  lemma SliceOfCommonPrefix(a: Row, c: Row, m: nat, x: nat, y: nat)
    requires m <= |a| && m <= |c| && a[..m] == c[..m]
    requires x <= y <= m
    ensures a[x..y] == c[x..y]
  {
    forall i | x <= i < y
      ensures a[i] == c[i]
    {
      assert a[i] == a[..m][i];
      assert c[i] == c[..m][i];
    }
  }

  /** Two sequences of one length that agree on a suffix agree on every slice inside it. */
  lemma SliceOfSuffix(a: Row, c: Row, m: nat, x: nat, y: nat)
    requires |a| == |c| && m <= x <= y <= |a| && a[m..] == c[m..]
    ensures a[x..y] == c[x..y]
  {
    forall i | x <= i < y
      ensures a[i] == c[i]
    {
      assert a[i] == a[m..][i - m];
      assert c[i] == c[m..][i - m];
    }
  }

  /** Block `b` of a row whose blocks are `width` wide. */
  function Block(row: Row, width: nat, b: nat): (block: Row)
    requires (b + 1) * width <= |row|
  {
    row[b * width..(b + 1) * width]
  }

  /** Every block of `x * n` is `x`. */
  lemma {:induction false} RepeatBlock(x: Row, n: nat, b: nat)
    requires b < n
    ensures (b + 1) * |x| <= |Repeat(x, n)| && Block(Repeat(x, n), |x|, b) == x
  {
    var w := |x|;
    var r := Repeat(x, n);
    var p := Repeat(x, n - 1);
    BlockOffsets(b, n, w);
    BlockOffsets(n - 1, n, w);
    assert r[..(n - 1) * w] == p;
    if b < n - 1 {
      RepeatBlock(x, n - 1, b);
      BlockOffsets(b, n - 1, w);
      SliceOfCommonPrefix(r, p, (n - 1) * w, b * w, (b + 1) * w);
    } else {
      assert Block(r, w, b) == r[(n - 1) * w..];
    }
  }

  /** `row[at : at + len(block)] = block`, within bounds. */
  function Splice(row: Row, at: nat, block: Row): (r: Row)
    requires at + |block| <= |row|
    ensures |r| == |row|
    ensures r[at..at + |block|] == block
    ensures r[..at] == row[..at] && r[at + |block|..] == row[at + |block|..]
  {
    row[..at] + block + row[at + |block|..]
  }

  /** The loop `for e in range(len(hots)): row[e*w : (e+1)*w] = OneHot(w, hots[e])`,
      applied in order to a row whose first `len(hots)` blocks exist. */
  function Overwrite(row: Row, width: nat, hots: seq<nat>): (r: Row)
    requires |hots| * width <= |row|
    ensures |r| == |row|
  {
    if |hots| == 0 then row
    else
      var n := |hots| - 1;
      BlockOffsets(n, |hots|, width);
      Splice(Overwrite(row, width, hots[..n]), n * width, OneHot(width, hots[n]))
  }

  /** After the overwrite loop, block `b` holds the one-hot on `hots[b]`. */
  lemma {:induction false} OverwriteBlock(row: Row, width: nat, hots: seq<nat>, b: nat)
    requires |hots| * width <= |row| && b < |hots|
    ensures (b + 1) * width <= |row| && Block(Overwrite(row, width, hots), width, b) == OneHot(width, hots[b])
  {
    var n := |hots| - 1;
    BlockOffsets(n, |hots|, width);
    BlockOffsets(b, |hots|, width);
    var prev := Overwrite(row, width, hots[..n]);
    var r := Overwrite(row, width, hots);
    assert r == Splice(prev, n * width, OneHot(width, hots[n]));
    if b < n {
      BlockOffsets(b, n, width);
      OverwriteBlock(row, width, hots[..n], b);
      SliceOfCommonPrefix(r, prev, n * width, b * width, (b + 1) * width);
      assert hots[..n][b] == hots[b];
    }
  }

  /** After the overwrite loop, block `e` holds the one-hot on `hots[e]` for every
      `e < len(hots)`. */
  lemma OverwriteBlocks(row: Row, width: nat, hots: seq<nat>)
    requires |hots| * width <= |row|
    ensures forall b: nat | b < |hots| ::
      (b + 1) * width <= |row| && Block(Overwrite(row, width, hots), width, b) == OneHot(width, hots[b])
  {
    forall b: nat | b < |hots|
      ensures (b + 1) * width <= |row| && Block(Overwrite(row, width, hots), width, b) == OneHot(width, hots[b])
    {
      OverwriteBlock(row, width, hots, b);
    }
  }

  /** The overwrite loop leaves everything after its blocks untouched. */
  lemma {:induction false} OverwriteTail(row: Row, width: nat, hots: seq<nat>)
    requires |hots| * width <= |row|
    ensures Overwrite(row, width, hots)[|hots| * width..] == row[|hots| * width..]
  {
    if |hots| > 0 {
      var n := |hots| - 1;
      BlockOffsets(n, |hots|, width);
      OverwriteTail(row, width, hots[..n]);
      var prev := Overwrite(row, width, hots[..n]);
      var r := Overwrite(row, width, hots);
      assert r == Splice(prev, n * width, OneHot(width, hots[n]));
      assert r[|hots| * width..] == prev[|hots| * width..];
      SliceOfSuffix(prev, row, n * width, |hots| * width, |row|);
    }
  }

  /** Block `b` exists; it picks a non-skip kernel when `b < depth` and the skip
      position otherwise. */
  predicate BlockChoice(row: Row, kernelsNums: nat, b: nat, depth: nat)
    requires kernelsNums >= 1
  {
    && (b + 1) * kernelsNums <= |row|
    && (b < depth ==> exists h: nat | h < kernelsNums - 1 :: IsOneHotAt(Block(row, kernelsNums, b), h))
    && (b >= depth ==> IsOneHotAt(Block(row, kernelsNums, b), kernelsNums - 1))
  }

  /** A row of `splitBlocks` blocks of width `kernelsNums` whose first `depth`
      blocks pick a non-skip kernel and whose remaining blocks pick skip. */
  predicate WellFormedRow(row: Row, kernelsNums: nat, splitBlocks: nat, depth: nat) {
    && kernelsNums >= 2
    && |row| == splitBlocks * kernelsNums
    && forall b: nat | b < splitBlocks :: BlockChoice(row, kernelsNums, b, depth)
  }

  /** One layer's row (source lines 103-111): fill every split with the skip block,
      then overwrite block `e` with a one-hot on `hots[e]` for each `e < len(hots)`. */
  function LayerRow(kernelsNums: nat, splitBlocks: nat, hots: seq<nat>): (r: Row)
    requires |hots| <= splitBlocks
  {
    MulMono(|hots|, splitBlocks, |SkipBlock(kernelsNums)|);
    Overwrite(Repeat(SkipBlock(kernelsNums), splitBlocks), |SkipBlock(kernelsNums)|, hots)
  }

  /** Block `b` of a layer row: the chosen one-hot for the first `|hots|`
      blocks, the skip block after them. */
  lemma LayerRowBlock(kernelsNums: nat, splitBlocks: nat, hots: seq<nat>, b: nat)
    requires kernelsNums >= 1 && |hots| <= splitBlocks && b < splitBlocks
    ensures (b + 1) * kernelsNums <= |LayerRow(kernelsNums, splitBlocks, hots)|
    ensures Block(LayerRow(kernelsNums, splitBlocks, hots), kernelsNums, b)
         == if b < |hots| then OneHot(kernelsNums, hots[b]) else SkipBlock(kernelsNums)
  {
    var skip := SkipBlock(kernelsNums);
    assert |skip| == kernelsNums;
    var base := Repeat(skip, splitBlocks);
    var r := LayerRow(kernelsNums, splitBlocks, hots);
    var n := |hots|;
    MulMono(n, splitBlocks, kernelsNums);
    OverwriteBlocks(base, kernelsNums, hots);
    OverwriteTail(base, kernelsNums, hots);
    RepeatBlock(skip, splitBlocks, b);
    BlockOffsets(b, splitBlocks, kernelsNums);
    if b >= n {
      MulMono(n, b, kernelsNums);
      SliceOfSuffix(r, base, n * kernelsNums, b * kernelsNums, (b + 1) * kernelsNums);
    }
  }

  /** Every block of a layer row holds exactly one 1: a non-skip kernel in the
      first `|hots|` blocks, the skip position in the rest. */
  lemma LayerRowWellFormed(kernelsNums: nat, splitBlocks: nat, hots: seq<nat>)
    requires kernelsNums >= 2 && |hots| <= splitBlocks
    requires forall e | 0 <= e < |hots| :: hots[e] < kernelsNums - 1
    ensures WellFormedRow(LayerRow(kernelsNums, splitBlocks, hots), kernelsNums, splitBlocks, |hots|)
  {
    var r := LayerRow(kernelsNums, splitBlocks, hots);
    assert |SkipBlock(kernelsNums)| == kernelsNums;
    forall b: nat | b < splitBlocks
      ensures BlockChoice(r, kernelsNums, b, |hots|)
    {
      LayerRowBlock(kernelsNums, splitBlocks, hots, b);
      if b < |hots| {
        var h := hots[b];
        OneHotIsOneHot(kernelsNums, h);
        assert IsOneHotAt(Block(r, kernelsNums, b), h);
      }
    }
  }
}
