/** Everything the merge loop keeps, round by round (common/src/huffman_encoding.c:118-143). */
module HuffmanMerge {
  import opened HuffmanTree
  import opened HuffmanBuild
  import opened HuffmanHeight
  import opened HuffmanCost

  /** What the merge loop keeps. */
  ghost predicate MergeInv(a: seq<TreeEntry>, d: seq<DictEntry>, n: nat, k: nat, total: int,
                           ti: nat, l: nat, r: nat, ph: Phase, parent: seq<int>)
  {
    && Alphabet(d, n, k, total) && Queues(a, d, n, ti, l, r)
    && Conserved(a, d, n, ti, l, r, total) && Bounded(a, r, total)
    && InPhase(a, d, n, k, ti, l, r, ph)
    && OneParent(a, n, ti, l, r, parent)
    && Costs(a, d, n, k, ti, l, r)
  }

  lemma MergeStep(a: seq<TreeEntry>, d: seq<DictEntry>, n: nat, k: nat, total: int, ti: nat, l: nat, r: nat, ph: Phase,
                  parent: seq<int>, x: nat, y: nat, ti': nat, l': nat)
    returns (ph': Phase)
    requires MergeInv(a, d, n, k, total, ti, l, r, ph, parent) && Picks(a, n, ti, l, r, x, y, ti', l')
    ensures r < |a| && x < r && y < r
    ensures MergeInv(Merge(a, r, x, y), d, n, k, total, ti', l', r + 1, ph', parent[x := r][y := r])
  {
    hide Forest, Alphabet, InPhase, Picks, Merge, Weights, Bag, OneParent, Bounded, Costs;
    ForestStep(a, d, n, ti, l, r, x, y, ti', l');
    WeightStep(a, d, n, ti, l, r, x, y, ti', l');
    BagStep(a, d, n, ti, l, r, x, y, ti', l');
    BoundedStep(a, n, ti, l, r, total, x, y, ti', l');
    OneParentStep(a, n, ti, l, r, x, y, ti', l', parent);
    CostsStep(a, d, n, k, total, ti, l, r, ph, x, y, ti', l');
    ph' := PhaseStep(a, d, n, k, total, ti, l, r, ph, x, y, ti', l');
  }
}
