/** The two Merkle-root loops, and why a root binds the list it was computed from.

    The block builder pads an odd level in place and then pairs; the block type pairs and repeats
    the last hash on the fly.  Both are proved to compute one recursive root. */
module Merkle {
  import opened Types

  type Pair = (Hash, Hash) -> Hash

  /** One level up: neighbours are paired, and a last hash without a neighbour is paired with itself. */
  function LevelUp(pair: Pair, hashes: seq<Hash>): (up: seq<Hash>)
    ensures |up| == (|hashes| + 1) / 2
  {
    if |hashes| == 0 then []
    else if |hashes| == 1 then [pair(hashes[0], hashes[0])]
    else [pair(hashes[0], hashes[1])] + LevelUp(pair, hashes[2..])
  }

  /** The root of a list of transaction hashes; the empty list has the zero root. */
  function Root(pair: Pair, hashes: seq<Hash>): Hash
    decreases |hashes|
  {
    if |hashes| == 0 then ZERO_HASH
    else if |hashes| == 1 then hashes[0]
    else Root(pair, LevelUp(pair, hashes))
  }

  lemma {:induction false} LevelUpAt(pair: Pair, hashes: seq<Hash>, i: nat)
    requires i < (|hashes| + 1) / 2
    ensures LevelUp(pair, hashes)[i]
            == pair(hashes[2 * i], if 2 * i + 1 < |hashes| then hashes[2 * i + 1] else hashes[2 * i])
  {
    if |hashes| > 1 && i > 0 {
      LevelUpAt(pair, hashes[2..], i - 1);
    }
  }

  // ---------- binding ----------

  ghost predicate Injective(pair: Pair) {
    forall a, b, c, d {:trigger pair(a, b), pair(c, d)} :: pair(a, b) == pair(c, d) ==> a == c && b == d
  }

  lemma LevelUpBinds(pair: Pair, xs: seq<Hash>, ys: seq<Hash>)
    requires Injective(pair) && |xs| == |ys|
    requires LevelUp(pair, xs) == LevelUp(pair, ys)
    ensures xs == ys
  {
    forall k | 0 <= k < |xs| ensures xs[k] == ys[k] {
      LevelUpAt(pair, xs, k / 2);
      LevelUpAt(pair, ys, k / 2);
      assert k == 2 * (k / 2) || k == 2 * (k / 2) + 1;
    }
  }

  /** Lists of equal length with equal roots are equal, when the pair hash has no collisions. */
  lemma {:induction false} RootBinds(pair: Pair, xs: seq<Hash>, ys: seq<Hash>)
    requires Injective(pair) && |xs| == |ys|
    ensures Root(pair, xs) == Root(pair, ys) <==> xs == ys
    decreases |xs|
  {
    if |xs| == 1 {
      assert xs == [xs[0]] && ys == [ys[0]];
    } else if |xs| > 1 && Root(pair, xs) == Root(pair, ys) {
      RootBinds(pair, LevelUp(pair, xs), LevelUp(pair, ys));
      LevelUpBinds(pair, xs, ys);
    }
  }

  /** Equal length is needed: a list of odd length above one has the root of its padded list. */
  lemma {:induction false} PaddingKeepsRoot(pair: Pair, xs: seq<Hash>)
    requires |xs| % 2 == 1 && |xs| > 1
    ensures Root(pair, xs + [xs[|xs| - 1]]) == Root(pair, xs)
  {
    PaddedLevel(pair, xs);
  }

  lemma {:induction false} PaddedLevel(pair: Pair, xs: seq<Hash>)
    requires |xs| % 2 == 1
    ensures LevelUp(pair, xs + [xs[|xs| - 1]]) == LevelUp(pair, xs)
  {
    var padded := xs + [xs[|xs| - 1]];
    forall i | 0 <= i < (|xs| + 1) / 2 ensures LevelUp(pair, padded)[i] == LevelUp(pair, xs)[i] {
      LevelUpAt(pair, padded, i);
      LevelUpAt(pair, xs, i);
    }
  }

  // ---------- the tree above a list ----------

  /** No hashes have the zero root, one is its own root, and two are paired. */
  lemma RootOfFew(pair: Pair, a: Hash, b: Hash)
    ensures Root(pair, []) == 0
    ensures Root(pair, [a]) == a
    ensures Root(pair, [a, b]) == pair(a, b)
  {
    assert [a, b][2..] == [];
  }

  lemma RootOfFewTxs(pair: Pair, txs: seq<Tx>)
    ensures |txs| == 1 ==> Root(pair, TxIds(txs)) == txs[0].id
    ensures |txs| == 2 ==> Root(pair, TxIds(txs)) == pair(txs[0].id, txs[1].id)
  {
    var ids := TxIds(txs);
    if |txs| == 2 {
      assert ids == [txs[0].id, txs[1].id];
      RootOfFew(pair, txs[0].id, txs[1].id);
    }
  }

  /** The number of nodes `level` levels above `n` hashes. */
  function Width(n: nat, level: nat): (w: nat)
    ensures n > 0 ==> w > 0
  {
    if level == 0 then n else (Width(n, level - 1) + 1) / 2
  }

  /** Node `i` of a level: two neighbours below it paired, the last one with itself if it has none. */
  function Node(pair: Pair, hashes: seq<Hash>, level: nat, i: nat): Hash
    requires i < Width(|hashes|, level)
    decreases level
  {
    if level == 0 then hashes[i]
    else
      var left := Node(pair, hashes, level - 1, 2 * i);
      pair(left, if 2 * i + 1 < Width(|hashes|, level - 1) then Node(pair, hashes, level - 1, 2 * i + 1) else left)
  }

  lemma {:induction false} WidthAbove(n: nat, level: nat)
    ensures Width((n + 1) / 2, level) == Width(n, level + 1)
  {
    if level > 0 { WidthAbove(n, level - 1); }
  }

  lemma WidthUp(pair: Pair, hashes: seq<Hash>, level: nat)
    ensures Width(|LevelUp(pair, hashes)|, level) == Width(|hashes|, level + 1)
  {
    hide LevelUp, Width;
    WidthAbove(|hashes|, level);
  }

  lemma {:induction false} NodeAbove(pair: Pair, hashes: seq<Hash>, level: nat, i: nat)
    requires i < Width(|hashes|, level + 1)
    ensures i < Width(|LevelUp(pair, hashes)|, level)
    ensures Node(pair, LevelUp(pair, hashes), level, i) == Node(pair, hashes, level + 1, i)
    decreases level
  {
    hide *;
    var up := LevelUp(pair, hashes);
    WidthUp(pair, hashes, level);
    if level == 0 {
      FirstLevel(pair, hashes, i);
    } else {
      WidthUp(pair, hashes, level - 1);
      NodeStep(pair, hashes, level + 1, i);
      NodeStep(pair, up, level, i);
      NodeAbove(pair, hashes, level - 1, 2 * i);
      if 2 * i + 1 < Width(|hashes|, level) { NodeAbove(pair, hashes, level - 1, 2 * i + 1); }
    }
  }

  lemma NodeStep(pair: Pair, hashes: seq<Hash>, level: nat, i: nat)
    requires level > 0 && i < Width(|hashes|, level)
    ensures 2 * i < Width(|hashes|, level - 1)
    ensures var left := Node(pair, hashes, level - 1, 2 * i);
            Node(pair, hashes, level, i)
            == pair(left, if 2 * i + 1 < Width(|hashes|, level - 1)
                          then Node(pair, hashes, level - 1, 2 * i + 1) else left)
  {
  }

  lemma FirstLevel(pair: Pair, hashes: seq<Hash>, i: nat)
    requires i < Width(|hashes|, 1)
    ensures Width(|hashes|, 1) == (|hashes| + 1) / 2
    ensures Node(pair, LevelUp(pair, hashes), 0, i) == Node(pair, hashes, 1, i)
  {
    hide LevelUp;
    assert Width(|hashes|, 0) == |hashes|;
    LevelUpAt(pair, hashes, i);
    assert Node(pair, hashes, 0, 2 * i) == hashes[2 * i];
    if 2 * i + 1 < |hashes| { assert Node(pair, hashes, 0, 2 * i + 1) == hashes[2 * i + 1]; }
  }

  /** The root of any hashes is the single node of the first level that has only one. */
  lemma {:induction false} RootIsTop(pair: Pair, hashes: seq<Hash>, level: nat)
    requires Width(|hashes|, level) == 1 && forall k: nat :: k < level ==> Width(|hashes|, k) > 1
    ensures Root(pair, hashes) == Node(pair, hashes, level, 0)
    decreases level
  {
    hide LevelUp;
    assert Width(|hashes|, 0) == |hashes|;
    if level > 0 {
      var up := LevelUp(pair, hashes);
      forall k: nat | k < level ensures Width(|up|, k) == Width(|hashes|, k + 1) {
        WidthAbove(|hashes|, k);
      }
      RootIsTop(pair, up, level - 1);
      NodeAbove(pair, hashes, level - 1, 0);
    }
  }

  lemma {:induction false} LevelUpJoins(pair: Pair, xs: seq<Hash>, ys: seq<Hash>)
    requires |xs| % 2 == 0
    ensures LevelUp(pair, xs + ys) == LevelUp(pair, xs) + LevelUp(pair, ys)
  {
    if xs == [] {
      assert xs + ys == ys;
    } else {
      assert (xs + ys)[2..] == xs[2..] + ys;
      LevelUpJoins(pair, xs[2..], ys);
    }
  }

  function PowerOfTwo(k: nat): (n: nat)
    ensures n > 0
  {
    if k == 0 then 1 else 2 * PowerOfTwo(k - 1)
  }

  /** Two full halves: the root pairs their roots. */
  lemma {:induction false} RootJoins(pair: Pair, xs: seq<Hash>, ys: seq<Hash>, k: nat)
    requires |xs| == |ys| == PowerOfTwo(k)
    ensures Root(pair, xs + ys) == pair(Root(pair, xs), Root(pair, ys))
    decreases k
  {
    if k == 0 {
      assert xs == [xs[0]] && ys == [ys[0]] && xs + ys == [xs[0], ys[0]];
      RootOfFew(pair, xs[0], ys[0]);
      RootOfFew(pair, ys[0], xs[0]);
    } else {
      hide LevelUp;
      LevelUpJoins(pair, xs, ys);
      RootJoins(pair, LevelUp(pair, xs), LevelUp(pair, ys), k - 1);
    }
  }

  // ---------- the loops ----------

  lemma PairNext(pair: Pair, up: seq<Hash>, hashes: seq<Hash>, i: nat)
    requires i + 2 <= |hashes|
    ensures up + LevelUp(pair, hashes[i..])
            == (up + [pair(hashes[i], hashes[i + 1])]) + LevelUp(pair, hashes[i + 2..])
  {
    assert hashes[i..][2..] == hashes[i + 2..];
  }

  /** The pairing half of the block builder's loop, on a level already padded to even length. */
  method PairUp(pair: Pair, hashes: seq<Hash>) returns (up: seq<Hash>)
    requires |hashes| % 2 == 0
    ensures up == LevelUp(pair, hashes)
  {
    assert LevelUp(pair, []) == [] && hashes[0..] == hashes;
    hide LevelUp;
    ghost var half := |hashes| / 2;
    up := [];
    var i := 0;
    while i < |hashes|
      invariant 0 <= i <= |hashes| == 2 * half && i == 2 * |up|
      invariant LevelUp(pair, hashes) == up + LevelUp(pair, hashes[i..])
    {
      PairNext(pair, up, hashes, i);
      up := up + [pair(hashes[i], hashes[i + 1])];
      i := i + 2;
    }
  }

  lemma RootStep(pair: Pair, hashes: seq<Hash>)
    requires |hashes| > 1
    ensures Root(pair, hashes) == Root(pair, LevelUp(pair, hashes))
  {
    hide LevelUp;
  }

  /** The block builder's root: pad an odd level in place, pair, and repeat until one hash is left. */
  method BuilderRoot(pair: Pair, txs: seq<Tx>) returns (root: Hash)
    ensures root == Root(pair, TxIds(txs))
    ensures txs == [] ==> root == 0
    ensures |txs| == 1 ==> root == txs[0].id
    ensures |txs| == 2 ==> root == pair(txs[0].id, txs[1].id)
  {
    RootOfFewTxs(pair, txs);
    hide LevelUp;
    if |txs| == 0 {
      return ZERO_HASH;
    }
    var hashes := TxIds(txs);
    while |hashes| > 1
      invariant |hashes| >= 1
      invariant Root(pair, hashes) == Root(pair, TxIds(txs))
      decreases |hashes|
    {
      hide Root;
      ghost var level := hashes;
      RootStep(pair, level);
      if |hashes| % 2 != 0 {
        PaddedLevel(pair, hashes);
        hashes := hashes + [hashes[|hashes| - 1]];
      }
      hashes := PairUp(pair, hashes);
      assert hashes == LevelUp(pair, level);
    }
    root := hashes[0];
  }

  /** One level of the block type: pair, and repeat the last hash where a neighbour is missing. */
  method BlockLevel(pair: Pair, hashes: seq<Hash>) returns (up: seq<Hash>)
    ensures up == LevelUp(pair, hashes)
  {
    up := [];
    var i := 0;
    while i < |hashes|
      invariant 0 <= i <= |hashes| + 1 && i % 2 == 0
      invariant LevelUp(pair, hashes) == up + LevelUp(pair, if i <= |hashes| then hashes[i..] else [])
    {
      if i + 1 < |hashes| {
        PairNext(pair, up, hashes, i);
        up := up + [pair(hashes[i], hashes[i + 1])];
      } else {
        assert hashes[i..] == [hashes[i]];
        up := up + [pair(hashes[i], hashes[i])];
      }
      i := i + 2;
    }
  }

  /** The block type's root: the same value the builder computes, so a built block's header root
      passes the check made before a batch is applied. */
  method BlockRoot(pair: Pair, txs: seq<Tx>) returns (root: Hash)
    ensures root == Root(pair, TxIds(txs))
    ensures txs == [] ==> root == 0
    ensures |txs| == 1 ==> root == txs[0].id
    ensures |txs| == 2 ==> root == pair(txs[0].id, txs[1].id)
  {
    RootOfFewTxs(pair, txs);
    if |txs| == 0 {
      return ZERO_HASH;
    }
    if |txs| == 1 {
      return txs[0].id;
    }
    var hashes := TxIds(txs);
    while |hashes| > 1
      invariant |hashes| >= 1
      invariant Root(pair, hashes) == Root(pair, TxIds(txs))
      decreases |hashes|
    {
      hashes := BlockLevel(pair, hashes);
    }
    root := hashes[0];
  }
}
