/** How deep the merged tree can get (common/src/huffman_encoding.c:95-143): while used leaves remain, every round
    takes the two lightest roots, so weights grow like Fibonacci numbers with height; the unused leaf of weight 0
    comes last, and from then on roots are merged first in, first out. */
module HuffmanHeight {
  import opened Bits
  import opened HuffmanTree
  import opened HuffmanBuild

  /** 1, 2, 3, 5, 8, ...: the least weight of a tree of a given height. */
  function Fib(h: nat): (f: int)
    ensures f >= 1
  {
    if h == 0 then 1 else if h == 1 then 2 else Fib(h - 1) + Fib(h - 2)
  }

  lemma {:induction false} FibMonotone(h: nat, g: nat)
    requires h <= g
    ensures Fib(h) <= Fib(g)
    decreases g
  {
    if h < g {
      FibMonotone(h, g - 1);
    }
  }

  const REGULAR_HEIGHT: nat := 44
  const MAX_HEIGHT: nat := 53
  const MAX_CODE_LENGTH: nat := 16

  lemma FibBeyondInt()
    ensures Fib(REGULAR_HEIGHT + 1) > INT_MAX
  {
    assert Fib(10) == 144 && Fib(11) == 233;
    assert Fib(20) == 17711 && Fib(21) == 28657;
    assert Fib(30) == 2178309 && Fib(31) == 3524578;
    assert Fib(40) == 267914296 && Fib(41) == 433494437;
  }

  // ---------------------------------------------------------------- while used leaves remain

  /** The unused leaf of weight 0. */
  ghost predicate IsUnused(n: nat, k: nat, i: nat) {
    k < n && i == k
  }

  ghost predicate SortedRoots(a: seq<TreeEntry>, d: seq<DictEntry>, n: nat, k: nat, ti: nat, l: nat, r: nat, m: int) {
    && Queues(a, d, n, ti, l, r) && ti <= k <= n && 0 <= m
    && (forall i :: ti <= i < k ==> m <= a[i].val)
    && (forall j :: l <= j < r ==> m <= a[j].val)
    && (forall i, j :: l <= i <= j < r ==> a[i].val <= a[j].val)
    && (r > n ==> a[r - 1].val <= 2 * m)
  }

  /** Taking the next root takes a lightest one, unless it takes the unused leaf. */
  lemma PickIsLightest(a: seq<TreeEntry>, d: seq<DictEntry>, n: nat, k: nat, total: int, ti: nat, l: nat, r: nat)
    requires Alphabet(d, n, k, total) && Forest(a, d, n, r) && ti <= k && n <= l <= r && (ti < n || l < r)
    requires forall i, j :: l <= i <= j < r ==> a[i].val <= a[j].val
    requires Pick(a, n, ti, l, r).1 <= k
    ensures var (x, ti', l') := Pick(a, n, ti, l, r);
            && (forall i :: ti <= i < k ==> a[x].val <= a[i].val)
            && (forall j :: l <= j < r ==> a[x].val <= a[j].val)
  {
    if ti < k && l < r {
      assert a[ti].val == d[ti].freq;
    }
    assert ti == k < n ==> a[ti].val == 0;
  }

  /** One round takes the two lightest roots, in order. */
  lemma TwoLightest(a: seq<TreeEntry>, d: seq<DictEntry>, n: nat, k: nat, total: int, ti: nat, l: nat, r: nat, m: int,
                    x: nat, y: nat, ti': nat, l': nat)
    requires Alphabet(d, n, k, total) && SortedRoots(a, d, n, k, ti, l, r, m)
    requires Picks(a, n, ti, l, r, x, y, ti', l') && ti' <= k
    ensures x < r && y < r && m <= a[x].val <= a[y].val
    ensures forall i :: ti' <= i < k ==> a[y].val <= a[i].val
    ensures forall j :: l' <= j < r ==> a[y].val <= a[j].val
  {
    hide Forest, Alphabet;
    assert Forest(a, d, n, r);
    PickIsLightest(a, d, n, k, total, ti, l, r);
    var p := Pick(a, n, ti, l, r);
    PickIsLightest(a, d, n, k, total, p.1, p.2, r);
  }

  /** The merged nodes stay sorted. */
  lemma SortedStep(a: seq<TreeEntry>, d: seq<DictEntry>, n: nat, k: nat, total: int, ti: nat, l: nat, r: nat, m: int,
                   x: nat, y: nat, ti': nat, l': nat)
    requires Alphabet(d, n, k, total) && SortedRoots(a, d, n, k, ti, l, r, m)
    requires Picks(a, n, ti, l, r, x, y, ti', l') && ti' <= k
    ensures r < |a| && SortedRoots(Merge(a, r, x, y), d, n, k, ti', l', r + 1, a[y].val)
  {
    hide Forest, Alphabet, Picks;
    ForestStep(a, d, n, ti, l, r, x, y, ti', l');
    PicksTake(a, n, ti, l, r, x, y, ti', l');
    TwoLightest(a, d, n, k, total, ti, l, r, m, x, y, ti', l');
  }

  /** The height of a slot's tree. */
  ghost function High(a: seq<TreeEntry>, d: seq<DictEntry>, n: nat, r: nat, i: nat): nat
    requires Forest(a, d, n, r) && i < r
  {
    Height(TreeAt(a, d, n, r, i))
  }

  ghost predicate TallIsHeavy(a: seq<TreeEntry>, d: seq<DictEntry>, n: nat, k: nat, r: nat)
    requires Forest(a, d, n, r)
  {
    forall i :: 0 <= i < r && !IsUnused(n, k, i) ==> Fib(High(a, d, n, r, i)) <= a[i].val
  }

  /** No merged node has a child heavier than the last root taken, and none has the unused leaf as a child. */
  ghost predicate ChildrenLight(a: seq<TreeEntry>, n: nat, k: nat, r: nat, m: int)
    requires n <= r <= |a| && forall i :: n <= i < r ==> Merged(a, i)
  {
    forall i :: n <= i < r ==>
      && Merged(a, i)
      && a[a[i].left].val <= m && !IsUnused(n, k, a[i].left)
      && a[a[i].right].val <= m && !IsUnused(n, k, a[i].right)
  }

  ghost predicate Regular(a: seq<TreeEntry>, d: seq<DictEntry>, n: nat, k: nat, ti: nat, l: nat, r: nat, m: int) {
    SortedRoots(a, d, n, k, ti, l, r, m) && TallIsHeavy(a, d, n, k, r) && ChildrenLight(a, n, k, r, m)
  }

  /** The taller child of a merged node has one height less, so that height's least weight is at most m. */
  lemma TallerChild(a: seq<TreeEntry>, d: seq<DictEntry>, n: nat, k: nat, r: nat, m: int, i: nat)
    requires Forest(a, d, n, r) && TallIsHeavy(a, d, n, k, r) && ChildrenLight(a, n, k, r, m) && n <= i < r
    ensures High(a, d, n, r, i) >= 1 && Fib(High(a, d, n, r, i) - 1) <= m
  {
    assert Merged(a, i);
    var c := if High(a, d, n, r, a[i].left) > High(a, d, n, r, a[i].right) then a[i].left else a[i].right;
    assert High(a, d, n, r, i) == 1 + High(a, d, n, r, c);
    assert !IsUnused(n, k, c);
  }

  lemma FibSum(hx: nat, hy: nat, wx: int, wy: int, m: int)
    requires Fib(hx) <= wx && Fib(hy) <= wy && m <= wx && m <= wy
    requires hx >= 1 ==> Fib(hx - 1) <= m
    requires hy >= 1 ==> Fib(hy - 1) <= m
    ensures Fib(1 + if hx > hy then hx else hy) <= wx + wy
  {
  }

  lemma LeafHeight(a: seq<TreeEntry>, d: seq<DictEntry>, n: nat, r: nat, i: nat)
    requires Forest(a, d, n, r) && i < n
    ensures High(a, d, n, r, i) == 0
  {
  }

  lemma TallStep(a: seq<TreeEntry>, d: seq<DictEntry>, n: nat, k: nat, r: nat, m: int, x: nat, y: nat,
                 b: seq<TreeEntry>)
    requires Forest(a, d, n, r) && TallIsHeavy(a, d, n, k, r) && ChildrenLight(a, n, k, r, m)
    requires x < r < |a| && y < r && m <= a[x].val && m <= a[y].val && !IsUnused(n, k, x) && !IsUnused(n, k, y)
    requires b == Merge(a, r, x, y) && Forest(b, d, n, r + 1)
    requires forall i :: 0 <= i < r ==> High(b, d, n, r + 1, i) == High(a, d, n, r, i)
    requires High(b, d, n, r + 1, r) == 1 +
             if High(a, d, n, r, x) > High(a, d, n, r, y) then High(a, d, n, r, x) else High(a, d, n, r, y)
    ensures TallIsHeavy(b, d, n, k, r + 1)
  {
    if x >= n { TallerChild(a, d, n, k, r, m, x); } else { LeafHeight(a, d, n, r, x); }
    if y >= n { TallerChild(a, d, n, k, r, m, y); } else { LeafHeight(a, d, n, r, y); }
    FibSum(High(a, d, n, r, x), High(a, d, n, r, y), a[x].val, a[y].val, m);
    hide High, Forest, IsUnused;
  }

  lemma LightStep(a: seq<TreeEntry>, d: seq<DictEntry>, n: nat, k: nat, r: nat, m: int, x: nat, y: nat,
                  b: seq<TreeEntry>)
    requires Forest(a, d, n, r) && ChildrenLight(a, n, k, r, m)
    requires x < r < |a| && y < r && m <= a[x].val <= a[y].val && !IsUnused(n, k, x) && !IsUnused(n, k, y)
    requires b == Merge(a, r, x, y) && Forest(b, d, n, r + 1)
    ensures ChildrenLight(b, n, k, r + 1, a[y].val)
  {
    hide IsUnused;
    forall i | n <= i < r + 1
      ensures Merged(b, i)
      ensures b[b[i].left].val <= a[y].val && !IsUnused(n, k, b[i].left)
      ensures b[b[i].right].val <= a[y].val && !IsUnused(n, k, b[i].right)
    {
      if i < r {
        assert Merged(a, i);
      }
    }
  }

  /** One round keeps weights at least Fibonacci in the heights. */
  lemma RegularStep(a: seq<TreeEntry>, d: seq<DictEntry>, n: nat, k: nat, total: int, ti: nat, l: nat, r: nat, m: int,
                    x: nat, y: nat, ti': nat, l': nat)
    requires Alphabet(d, n, k, total) && Regular(a, d, n, k, ti, l, r, m)
    requires Picks(a, n, ti, l, r, x, y, ti', l') && ti' <= k
    ensures r < |a| && Regular(Merge(a, r, x, y), d, n, k, ti', l', r + 1, a[y].val)
  {
    hide Forest, Alphabet, Picks, TallIsHeavy, ChildrenLight, TreeAt, Merge;
    TwoLightest(a, d, n, k, total, ti, l, r, m, x, y, ti', l');
    SortedStep(a, d, n, k, total, ti, l, r, m, x, y, ti', l');
    ForestStep(a, d, n, ti, l, r, x, y, ti', l');
    PicksTake(a, n, ti, l, r, x, y, ti', l');
    ghost var b := Merge(a, r, x, y);
    forall i | 0 <= i < r
      ensures High(b, d, n, r + 1, i) == High(a, d, n, r, i)
    {
    }
    assert High(b, d, n, r + 1, r) == Height(Node(TreeAt(a, d, n, r, x), TreeAt(a, d, n, r, y)));
    TallStep(a, d, n, k, r, m, x, y, Merge(a, r, x, y));
    LightStep(a, d, n, k, r, m, x, y, Merge(a, r, x, y));
  }

  /** Every weight lies between 0 and the total. */
  ghost predicate Bounded(a: seq<TreeEntry>, r: nat, total: int)
    requires r <= |a|
  {
    forall i :: 0 <= i < r ==> 0 <= a[i].val <= total
  }

  lemma {:induction false} WeightsNonNegative(a: seq<TreeEntry>, lo: nat, hi: nat)
    requires hi <= |a| && forall i :: lo <= i < hi ==> 0 <= a[i].val
    ensures Weights(a, lo, hi) >= 0
    decreases hi - lo
  {
    if lo < hi {
      WeightsNonNegative(a, lo + 1, hi);
    }
  }

  /** The two roots taken are part of the total, so their merge is not heavier than it. */
  lemma BoundedStep(a: seq<TreeEntry>, n: nat, ti: nat, l: nat, r: nat, total: int, x: nat, y: nat, ti': nat, l': nat)
    requires Picks(a, n, ti, l, r, x, y, ti', l') && r < |a| && Bounded(a, r, total)
    requires Weights(a, ti, n) + Weights(a, l, r) == total
    ensures Bounded(Merge(a, r, x, y), r + 1, total)
  {
    var p := Pick(a, n, ti, l, r);
    assert Picks(a, n, ti, l, r, x, y, ti', l') ==> p.1 < n || p.2 < r;
    PickedWeight(a, n, ti, l, r);
    PickedWeight(a, n, p.1, p.2, r);
    hide Pick, Weights;
    WeightsNonNegative(a, ti', n);
    WeightsNonNegative(a, l', r);
  }

  lemma RegularIsLow(a: seq<TreeEntry>, d: seq<DictEntry>, n: nat, k: nat, r: nat, total: int)
    requires Forest(a, d, n, r) && TallIsHeavy(a, d, n, k, r) && Bounded(a, r, total) && total <= INT_MAX
    ensures forall i :: 0 <= i < r ==> High(a, d, n, r, i) <= REGULAR_HEIGHT
  {
    hide Forest, Fib;
    forall i | 0 <= i < r
      ensures High(a, d, n, r, i) <= REGULAR_HEIGHT
    {
      var h := High(a, d, n, r, i);
      if IsUnused(n, k, i) {
        LeafHeight(a, d, n, r, i);
      } else if h > REGULAR_HEIGHT {
        FibMonotone(REGULAR_HEIGHT + 1, h);
        FibBeyondInt();
      }
    }
  }

  // ---------------------------------------------------------------- after the unused leaf

  /** Roots l..p are of one generation (height at most g), roots p..r of the next; the next generation
      will be small enough to be merged down to one root within the height limit. */
  ghost predicate Fifo(a: seq<TreeEntry>, d: seq<DictEntry>, n: nat, l: nat, r: nat, g: nat, p: nat) {
    && Forest(a, d, n, r) && l <= p <= r && g + 1 <= MAX_HEIGHT
    && (forall j :: l <= j < p ==> High(a, d, n, r, j) <= g)
    && (forall j :: p <= j < r ==> High(a, d, n, r, j) <= g + 1)
    && (p - l + 1) / 2 + (r - p) <= Pow2(MAX_HEIGHT - (g + 1))
  }

  /** A generation with at most one root left is over. */
  lemma NextGeneration(a: seq<TreeEntry>, d: seq<DictEntry>, n: nat, l: nat, r: nat, g: nat, p: nat)
    requires Fifo(a, d, n, l, r, g, p) && p <= l + 1 && l + 2 <= r
    ensures Fifo(a, d, n, l, r, g + 1, r)
  {
    hide Forest, High;
    assert Pow2(MAX_HEIGHT - (g + 1)) >= 2;
  }

  lemma FifoStep(a: seq<TreeEntry>, d: seq<DictEntry>, n: nat, l: nat, r: nat, g: nat, p: nat)
    returns (g': nat, p': nat)
    requires Queues(a, d, n, n, l, r) && Fifo(a, d, n, l, r, g, p) && l + 2 <= r
    ensures r < |a| && Fifo(Merge(a, r, l, l + 1), d, n, l + 2, r + 1, g', p')
  {
    hide Forest, TreeAt, Pow2;
    g', p' := g, p;
    if p <= l + 1 {
      NextGeneration(a, d, n, l, r, g, p);
      g', p' := g + 1, r;
    }
    ForestStep(a, d, n, n, l, r, l, l + 1, n, l + 2);
    ghost var b, r' := Merge(a, r, l, l + 1), r + 1;
    forall j | l + 2 <= j < r'
      ensures High(b, d, n, r', j) <= if j < p' then g' else g' + 1
    {
      if j == r {
        assert High(b, d, n, r + 1, j) == Height(Node(TreeAt(a, d, n, r, l), TreeAt(a, d, n, r, l + 1)));
        assert High(a, d, n, r, l) <= g' && High(a, d, n, r, l + 1) <= g';
      } else {
        assert High(b, d, n, r + 1, j) == High(a, d, n, r, j);
      }
    }
  }

  /** The round that takes the unused leaf: afterwards every root has height at most REGULAR_HEIGHT + 1. */
  lemma LastRegularStep(a: seq<TreeEntry>, d: seq<DictEntry>, n: nat, k: nat, total: int, ti: nat, l: nat, r: nat,
                        x: nat, y: nat, ti': nat, l': nat)
    requires Alphabet(d, n, k, total) && Queues(a, d, n, ti, l, r) && TallIsHeavy(a, d, n, k, r) && Bounded(a, r, total)
    requires Picks(a, n, ti, l, r, x, y, ti', l') && ti' > k && ti <= k <= n
    ensures r < |a| && ti' == n
    ensures Fifo(Merge(a, r, x, y), d, n, l', r + 1, REGULAR_HEIGHT + 1, r + 1)
  {
    hide Forest, TreeAt, TallIsHeavy;
    RegularIsLow(a, d, n, k, r, total);
    ForestStep(a, d, n, ti, l, r, x, y, ti', l');
    PicksTake(a, n, ti, l, r, x, y, ti', l');
    ghost var b, r' := Merge(a, r, x, y), r + 1;
    forall j | l' <= j < r'
      ensures High(b, d, n, r', j) <= REGULAR_HEIGHT + 1
    {
      if j == r {
        assert High(b, d, n, r + 1, j) == Height(Node(TreeAt(a, d, n, r, x), TreeAt(a, d, n, r, y)));
        assert High(a, d, n, r, x) <= REGULAR_HEIGHT && High(a, d, n, r, y) <= REGULAR_HEIGHT;
      } else {
        assert High(b, d, n, r + 1, j) == High(a, d, n, r, j);
      }
    }
    assert Pow2(7) == 128;
    assert r + 1 - l' <= 255;
  }

  // ---------------------------------------------------------------- the whole loop

  /** The phase the merge is in, with what bounds the heights in it. */
  datatype Phase = Sorted(m: int) | Rounds(g: nat, p: nat)

  ghost predicate InPhase(a: seq<TreeEntry>, d: seq<DictEntry>, n: nat, k: nat, ti: nat, l: nat, r: nat, ph: Phase) {
    match ph
    case Sorted(m) => Regular(a, d, n, k, ti, l, r, m)
    case Rounds(g, p) => k < n && ti == n && Fifo(a, d, n, l, r, g, p)
  }

  lemma PhaseStep(a: seq<TreeEntry>, d: seq<DictEntry>, n: nat, k: nat, total: int, ti: nat, l: nat, r: nat, ph: Phase,
                  x: nat, y: nat, ti': nat, l': nat)
    returns (ph': Phase)
    requires Alphabet(d, n, k, total) && Queues(a, d, n, ti, l, r) && Bounded(a, r, total)
    requires InPhase(a, d, n, k, ti, l, r, ph) && Picks(a, n, ti, l, r, x, y, ti', l')
    ensures r < |a| && InPhase(Merge(a, r, x, y), d, n, k, ti', l', r + 1, ph')
  {
    hide Forest, Alphabet, Fifo, TallIsHeavy, Merge;
    ForestStep(a, d, n, ti, l, r, x, y, ti', l');
    PicksTake(a, n, ti, l, r, x, y, ti', l');
    if ph.Rounds? {
      var g', p' := FifoStep(a, d, n, l, r, ph.g, ph.p);
      ph' := Rounds(g', p');
    } else if ti' <= k {
      RegularStep(a, d, n, k, total, ti, l, r, ph.m, x, y, ti', l');
      ph' := Sorted(a[y].val);
    } else {
      LastRegularStep(a, d, n, k, total, ti, l, r, x, y, ti', l');
      ph' := Rounds(REGULAR_HEIGHT + 1, r + 1);
    }
  }
}
