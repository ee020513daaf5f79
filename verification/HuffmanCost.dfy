/** What the merge costs: the weights of the merged nodes add up to the content bits, and when every leaf is used the
    merge always joins the two lightest roots, so no other code is cheaper (common/src/huffman_encoding.c:107-143). */
module HuffmanCost {
  import opened HuffmanTree
  import opened HuffmanBuild
  import opened HuffmanHeight
  import opened HuffmanOptimal

  function Vals(a: seq<TreeEntry>): (s: seq<int>)
    ensures |s| == |a| && forall i :: 0 <= i < |a| ==> s[i] == a[i].val
  {
    seq(|a|, i requires 0 <= i < |a| => a[i].val)
  }

  /** The weights in slots lo..hi. */
  ghost function ValBag(a: seq<TreeEntry>, lo: nat, hi: nat): multiset<int>
    requires lo <= hi <= |a|
  {
    multiset(Vals(a)[lo..hi])
  }

  lemma ValExtend(a: seq<TreeEntry>, b: seq<TreeEntry>, lo: nat, hi: nat)
    requires lo <= hi < |b| && hi <= |a| && forall k :: lo <= k < hi ==> b[k] == a[k]
    ensures ValBag(b, lo, hi) == ValBag(a, lo, hi) && ValBag(b, lo, hi + 1) == ValBag(a, lo, hi) + multiset{b[hi].val}
  {
    hide Vals;
    assert Vals(b)[lo..hi] == Vals(a)[lo..hi];
    assert Vals(b)[lo..hi + 1] == Vals(b)[lo..hi] + [b[hi].val];
  }

  lemma ValFirst(a: seq<TreeEntry>, lo: nat, hi: nat)
    requires lo < hi <= |a|
    ensures ValBag(a, lo, hi) == multiset{a[lo].val} + ValBag(a, lo + 1, hi)
  {
    hide Vals;
    assert Vals(a)[lo..hi] == [a[lo].val] + Vals(a)[lo + 1..hi];
  }

  lemma ValAtLeast(a: seq<TreeEntry>, lo: nat, hi: nat, m: int)
    requires lo <= hi <= |a| && forall i :: lo <= i < hi ==> m <= a[i].val
    ensures forall w :: w in ValBag(a, lo, hi) ==> m <= w
  {
    hide Vals;
    forall w | w in ValBag(a, lo, hi)
      ensures m <= w
    {
      assert w in Vals(a)[lo..hi];
    }
  }

  /** The weights of all roots. */
  ghost function Roots(a: seq<TreeEntry>, n: nat, ti: nat, l: nat, r: nat): multiset<int>
    requires ti <= n <= l <= r <= |a|
  {
    ValBag(a, ti, n) + ValBag(a, l, r)
  }

  lemma PickedRoot(a: seq<TreeEntry>, n: nat, ti: nat, l: nat, r: nat)
    requires ti <= n <= l <= r <= |a| && (ti < n || l < r)
    ensures var (x, ti', l') := Pick(a, n, ti, l, r);
            x < |a| && ti' <= n <= l' <= r && Roots(a, n, ti, l, r) == multiset{a[x].val} + Roots(a, n, ti', l', r)
  {
    hide ValBag;
    if ti < n { ValFirst(a, ti, n); }
    if l < r { ValFirst(a, l, r); }
  }

  /** A bound for what is left to merge is a bound for the whole once what was spent is added. */
  ghost predicate Lifted(left: multiset<int>, whole: multiset<int>, spent: int) {
    forall c :: LowerBound(left, c) ==> LowerBound(whole, c + spent)
  }

  ghost predicate Lifts(a: seq<TreeEntry>, n: nat, ti: nat, l: nat, r: nat)
    requires ti <= n <= l <= r <= |a|
  {
    Lifted(Roots(a, n, ti, l, r), ValBag(a, 0, n), Weights(a, n, r))
  }

  /** The roots after one round. */
  lemma RootsStep(a: seq<TreeEntry>, n: nat, ti: nat, l: nat, r: nat, x: nat, y: nat, ti': nat, l': nat)
    requires Picks(a, n, ti, l, r, x, y, ti', l') && r < |a|
    ensures x < |a| && y < |a| && ti' <= n <= l' <= r
    ensures Roots(a, n, ti, l, r) == multiset{a[x].val, a[y].val} + Roots(a, n, ti', l', r)
    ensures Roots(Merge(a, r, x, y), n, ti', l', r + 1) == Roots(a, n, ti', l', r) + multiset{a[x].val + a[y].val}
    ensures Weights(Merge(a, r, x, y), n, r + 1) == Weights(a, n, r) + a[x].val + a[y].val
    ensures ValBag(Merge(a, r, x, y), 0, n) == ValBag(a, 0, n)
  {
    hide ValBag, Weights;
    var p := Pick(a, n, ti, l, r);
    PickedRoot(a, n, ti, l, r);
    PickedRoot(a, n, p.1, p.2, r);
    var b := Merge(a, r, x, y);
    ValExtend(a, b, ti', n);
    ValExtend(a, b, l', r);
    ValExtend(a, b, 0, n);
    WeightsExtend(a, b, n, r);
  }

  /** Joining the two lightest weights keeps this. */
  lemma JoinLifts(left: multiset<int>, rest: multiset<int>, x: int, y: int, later: multiset<int>,
                  whole: multiset<int>, spent: int)
    requires left == multiset{x, y} + rest && 0 <= x <= y && forall w :: w in rest ==> y <= w
    requires later == rest + multiset{x + y} && Lifted(left, whole, spent)
    ensures Lifted(later, whole, spent + x + y)
  {
    hide LowerBound;
    assert left - multiset{x, y} == rest && left - multiset{x} == multiset{y} + rest;
    forall c | LowerBound(later, c)
      ensures LowerBound(whole, c + (spent + x + y))
    {
      MergeBound(left, x, y, c);
      assert LowerBound(whole, (c + x + y) + spent);
    }
  }

  /** A round that joins the two lightest roots keeps this. */
  lemma LiftStep(a: seq<TreeEntry>, d: seq<DictEntry>, n: nat, total: int, ti: nat, l: nat, r: nat, m: int,
                 x: nat, y: nat, ti': nat, l': nat)
    requires Alphabet(d, n, n, total) && SortedRoots(a, d, n, n, ti, l, r, m) && Lifts(a, n, ti, l, r)
    requires Picks(a, n, ti, l, r, x, y, ti', l')
    ensures r < |a| && ti' <= n <= l' <= r && Lifts(Merge(a, r, x, y), n, ti', l', r + 1)
  {
    hide Forest, Alphabet, Picks, Lifted, ValBag, Weights;
    PicksTake(a, n, ti, l, r, x, y, ti', l');
    TwoLightest(a, d, n, n, total, ti, l, r, m, x, y, ti', l');
    assert r < |a| by { ForestStep(a, d, n, ti, l, r, x, y, ti', l'); }
    RootsStep(a, n, ti, l, r, x, y, ti', l');
    ValAtLeast(a, ti', n, a[y].val);
    ValAtLeast(a, l', r, a[y].val);
    JoinLifts(Roots(a, n, ti, l, r), Roots(a, n, ti', l', r), a[x].val, a[y].val,
              Roots(Merge(a, r, x, y), n, ti', l', r + 1), ValBag(a, 0, n), Weights(a, n, r));
  }

  // ---------------------------------------------------------------- internal weights

  /** The weights of the merged nodes below a slot, itself included. */
  ghost function InnerAt(a: seq<TreeEntry>, d: seq<DictEntry>, n: nat, r: nat, i: nat): int
    requires Forest(a, d, n, r) && i < r
    decreases i
  {
    if i < n then 0
    else
      assert Merged(a, i);
      a[i].val + InnerAt(a, d, n, r, a[i].left) + InnerAt(a, d, n, r, a[i].right)
  }

  lemma {:induction false} InnerFrame(a: seq<TreeEntry>, b: seq<TreeEntry>, d: seq<DictEntry>, n: nat, r: nat,
                                      r': nat, i: nat)
    requires Forest(a, d, n, r) && Forest(b, d, n, r') && i < r <= r'
    requires forall k :: 0 <= k < r ==> a[k] == b[k]
    ensures InnerAt(b, d, n, r', i) == InnerAt(a, d, n, r, i)
    decreases i
  {
    if i >= n {
      assert Merged(a, i);
      InnerFrame(a, b, d, n, r, r', a[i].left);
      InnerFrame(a, b, d, n, r, r', a[i].right);
    }
  }

  ghost function Inners(a: seq<TreeEntry>, d: seq<DictEntry>, n: nat, r: nat, lo: nat, hi: nat): int
    requires Forest(a, d, n, r) && hi <= r
    decreases hi - lo
  {
    if lo >= hi then 0 else InnerAt(a, d, n, r, lo) + Inners(a, d, n, r, lo + 1, hi)
  }

  lemma {:induction false} InnersFrame(a: seq<TreeEntry>, b: seq<TreeEntry>, d: seq<DictEntry>, n: nat, r: nat,
                                       r': nat, lo: nat, hi: nat)
    requires Forest(a, d, n, r) && Forest(b, d, n, r') && hi <= r <= r'
    requires forall k :: 0 <= k < r ==> a[k] == b[k]
    ensures Inners(b, d, n, r', lo, hi) == Inners(a, d, n, r, lo, hi)
    decreases hi - lo
  {
    hide Forest, InnerAt;
    if lo < hi {
      InnerFrame(a, b, d, n, r, r', lo);
      InnersFrame(a, b, d, n, r, r', lo + 1, hi);
    }
  }

  lemma {:induction false} InnersExtend(a: seq<TreeEntry>, d: seq<DictEntry>, n: nat, r: nat, lo: nat, hi: nat)
    requires Forest(a, d, n, r) && lo <= hi < r
    ensures Inners(a, d, n, r, lo, hi + 1) == Inners(a, d, n, r, lo, hi) + InnerAt(a, d, n, r, hi)
    decreases hi - lo
  {
    hide Forest, InnerAt;
    if lo < hi {
      InnersExtend(a, d, n, r, lo + 1, hi);
    }
  }

  /** Below the roots lie all merged nodes, each once. */
  ghost predicate Accounted(a: seq<TreeEntry>, d: seq<DictEntry>, n: nat, ti: nat, l: nat, r: nat)
    requires Forest(a, d, n, r) && ti <= n <= l <= r
  {
    Inners(a, d, n, r, ti, n) + Inners(a, d, n, r, l, r) == Weights(a, n, r)
  }

  lemma InnersFirst(a: seq<TreeEntry>, d: seq<DictEntry>, n: nat, r: nat, lo: nat, next: nat, hi: nat)
    requires Forest(a, d, n, r) && lo < hi <= r && next == lo + 1
    ensures Inners(a, d, n, r, lo, hi) == InnerAt(a, d, n, r, lo) + Inners(a, d, n, r, next, hi)
  {
    hide Forest, InnerAt;
  }

  /** The two roots taken, in any order, stood first in their queues. */
  lemma InnersTaken(a: seq<TreeEntry>, d: seq<DictEntry>, n: nat, ti: nat, l: nat, r: nat, x: nat, y: nat, ti': nat,
                    l': nat)
    requires Forest(a, d, n, r) && Picks(a, n, ti, l, r, x, y, ti', l')
    ensures x < r && y < r && ti' <= n <= l' <= r
    ensures Inners(a, d, n, r, ti, n) + Inners(a, d, n, r, l, r)
         == InnerAt(a, d, n, r, x) + InnerAt(a, d, n, r, y) + Inners(a, d, n, r, ti', n) + Inners(a, d, n, r, l', r)
  {
    hide Inners, InnerAt, Picks, Forest;
    PicksTake(a, n, ti, l, r, x, y, ti', l');
    if ti' == ti + 2 {
      InnersFirst(a, d, n, r, x, y, n);
      InnersFirst(a, d, n, r, y, ti', n);
    } else if ti' == ti + 1 {
      InnersFirst(a, d, n, r, ti, ti', n);
      InnersFirst(a, d, n, r, l, l', r);
    } else {
      InnersFirst(a, d, n, r, x, y, r);
      InnersFirst(a, d, n, r, y, l', r);
    }
  }

  lemma AccountedStep(a: seq<TreeEntry>, d: seq<DictEntry>, n: nat, ti: nat, l: nat, r: nat, x: nat, y: nat,
                      ti': nat, l': nat)
    requires Queues(a, d, n, ti, l, r) && Picks(a, n, ti, l, r, x, y, ti', l') && r < |a|
             && Accounted(a, d, n, ti, l, r)
    requires Forest(Merge(a, r, x, y), d, n, r + 1)
    ensures ti' <= n <= l' <= r && Accounted(Merge(a, r, x, y), d, n, ti', l', r + 1)
  {
    hide Inners, InnerAt, Forest, Picks, Weights;
    InnersTaken(a, d, n, ti, l, r, x, y, ti', l');
    var b := Merge(a, r, x, y);
    InnersFrame(a, b, d, n, r, r + 1, ti', n);
    InnersFrame(a, b, d, n, r, r + 1, l', r);
    InnersExtend(b, d, n, r + 1, l', r);
    InnerFrame(a, b, d, n, r, r + 1, x);
    InnerFrame(a, b, d, n, r, r + 1, y);
    NewInner(a, b, d, n, r, x, y);
    WeightsExtend(a, b, n, r);
  }

  lemma NewInner(a: seq<TreeEntry>, b: seq<TreeEntry>, d: seq<DictEntry>, n: nat, r: nat, x: nat, y: nat)
    requires Forest(b, d, n, r + 1) && n <= r < |a| && x < r && y < r && b == Merge(a, r, x, y)
    ensures InnerAt(b, d, n, r + 1, r) == b[r].val + InnerAt(b, d, n, r + 1, x) + InnerAt(b, d, n, r + 1, y)
  {
  }

  // ---------------------------------------------------------------- the whole merge

  /** What the merge has cost so far. */
  ghost predicate Costs(a: seq<TreeEntry>, d: seq<DictEntry>, n: nat, k: nat, ti: nat, l: nat, r: nat)
    requires Queues(a, d, n, ti, l, r)
  {
    Accounted(a, d, n, ti, l, r) && (k == n ==> Lifts(a, n, ti, l, r))
  }

  lemma {:induction false} LeavesCostNothing(a: seq<TreeEntry>, d: seq<DictEntry>, n: nat, i: nat)
    requires Forest(a, d, n, n) && i <= n
    ensures Inners(a, d, n, n, i, n) == 0
    decreases n - i
  {
    if i < n {
      LeavesCostNothing(a, d, n, i + 1);
    }
  }

  lemma CostsStart(a: seq<TreeEntry>, d: seq<DictEntry>, n: nat, k: nat)
    requires Queues(a, d, n, 0, n, n)
    ensures Costs(a, d, n, k, 0, n, n)
  {
    hide LowerBound, ValBag;
    LeavesCostNothing(a, d, n, 0);
    NoVals(a, n);
    assert Roots(a, n, 0, n, n) == ValBag(a, 0, n);
  }

  lemma CostsStep(a: seq<TreeEntry>, d: seq<DictEntry>, n: nat, k: nat, total: int, ti: nat, l: nat, r: nat, ph: Phase,
                  x: nat, y: nat, ti': nat, l': nat)
    requires Alphabet(d, n, k, total) && Queues(a, d, n, ti, l, r) && Costs(a, d, n, k, ti, l, r)
    requires InPhase(a, d, n, k, ti, l, r, ph) && Picks(a, n, ti, l, r, x, y, ti', l')
    requires r < |a| && Queues(Merge(a, r, x, y), d, n, ti', l', r + 1)
    ensures Costs(Merge(a, r, x, y), d, n, k, ti', l', r + 1)
  {
    hide Alphabet, Picks, Merge, Lifts, Accounted, Forest, SortedRoots, TallIsHeavy, ChildrenLight, Fifo;
    AccountedStep(a, d, n, ti, l, r, x, y, ti', l');
    if k == n {
      LiftStep(a, d, n, total, ti, l, r, ph.m, x, y, ti', l');
    }
  }

  /** At the end the merged nodes weigh what lies below the root, and no code for the leaf weights is cheaper when
      every leaf is used. */
  ghost predicate IsCheapest(a: seq<TreeEntry>, d: seq<DictEntry>, n: nat)
    requires n >= 2 && Forest(a, d, n, 2 * n - 1)
  {
    && InnerAt(a, d, n, 2 * n - 1, 2 * n - 2) == Weights(a, n, 2 * n - 1)
    && ((forall i :: 0 <= i < n ==> a[i].val >= 1) ==> LowerBound(ValBag(a, 0, n), Weights(a, n, 2 * n - 1)))
  }

  lemma CostsEnd(a: seq<TreeEntry>, d: seq<DictEntry>, n: nat, k: nat, total: int, l: nat, r: nat)
    requires Alphabet(d, n, k, total) && Queues(a, d, n, n, l, r) && Costs(a, d, n, k, n, l, r)
    requires r == 2 * n - 1 && l == 2 * n - 2 && a[l].val >= 0
    ensures IsCheapest(a, d, n)
  {
    hide LowerBound, ValBag;
    assert Inners(a, d, n, r, l, r) == InnerAt(a, d, n, r, l) + Inners(a, d, n, r, l + 1, r);
    if k < n {
      assert a[k].val == d[k].freq == 0;
    } else {
      assert Roots(a, n, n, l, r) == multiset{a[l].val} by {
        ValFirst(a, l, r);
        assert ValBag(a, n, n) == ValBag(a, r, r) == multiset{} by { NoVals(a, n); NoVals(a, r); }
      }
      SingleBound(a[l].val);
      assert LowerBound(Roots(a, n, n, l, r), 0);
    }
  }

  lemma NoVals(a: seq<TreeEntry>, i: nat)
    requires i <= |a|
    ensures ValBag(a, i, i) == multiset{}
  {
  }
}
