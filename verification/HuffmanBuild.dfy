/** The two-queue merge of compress_data (common/src/huffman_encoding.c:107-143). */
module HuffmanBuild {
  import opened Bits
  import opened HuffmanTree

  datatype DictEntry = DictEntry(freq: int, chr: Byte)

  /** What steps 1 to 4 hand to the merge: n leaves, the first k of them used symbols in ascending order of
      frequency; unless all 256 values are used, one more leaf of weight 0 stands at the end. */
  ghost predicate Alphabet(d: seq<DictEntry>, n: int, k: int, total: int) {
    && 2 <= n <= 256 && n <= |d|
    && (k == n == 256 || 1 <= k == n - 1)
    && (forall i :: 0 <= i < k ==> d[i].freq >= 1)
    && (forall i, j :: 0 <= i <= j < k ==> d[i].freq <= d[j].freq)
    && (k < n ==> d[k].freq == 0)
    && (forall i, j :: 0 <= i < j < n ==> d[i].chr != d[j].chr)
    && Total(d, n) == total <= INT_MAX
  }

  function Total(d: seq<DictEntry>, n: nat): int
    requires n <= |d|
  {
    if n == 0 then 0 else Total(d, n - 1) + d[n - 1].freq
  }

  /** Slots 0..n hold the leaves, slots n..r the merged nodes in order of creation. */
  ghost predicate Forest(a: seq<TreeEntry>, d: seq<DictEntry>, n: nat, r: nat) {
    && 1 <= n <= r <= |a| == 2 * n - 1 && n <= |d|
    && (forall i :: 0 <= i < n ==> a[i] == TreeEntry(d[i].freq, -1, -1))
    && (forall i :: n <= i < r ==> Merged(a, i))
  }

  ghost predicate Merged(a: seq<TreeEntry>, i: nat)
    requires i < |a|
  {
    && 0 <= a[i].left < i && 0 <= a[i].right < i
    && a[i].val == a[a[i].left].val + a[a[i].right].val
  }

  /** The tree below a slot. */
  ghost function TreeAt(a: seq<TreeEntry>, d: seq<DictEntry>, n: nat, r: nat, i: nat): Tree
    requires Forest(a, d, n, r) && i < r
    decreases i
  {
    if i < n then Leaf(d[i].chr)
    else
      assert Merged(a, i);
      Node(TreeAt(a, d, n, r, a[i].left), TreeAt(a, d, n, r, a[i].right))
  }

  /** Where the two queues stand: leaves from ti on and merged nodes l..r are still roots. */
  ghost predicate Queues(a: seq<TreeEntry>, d: seq<DictEntry>, n: nat, ti: nat, l: nat, r: nat) {
    Forest(a, d, n, r) && ti <= n <= l <= r <= |a| && ti + (l - n) == 2 * (r - n)
  }

  /** The merge of x and y, stored in slot r. */
  function Merge(a: seq<TreeEntry>, r: nat, x: nat, y: nat): seq<TreeEntry>
    requires r < |a| && x < |a| && y < |a|
  {
    a[r := TreeEntry(a[x].val + a[y].val, x, y)]
  }

  /** Steps 6.1: which root is taken, and the two queue positions afterwards. */
  function Pick(a: seq<TreeEntry>, n: nat, ti: nat, l: nat, r: nat): (p: (nat, nat, nat))
    requires ti <= n <= l <= r <= |a| && (ti < n || l < r)
    ensures (p == (ti, ti + 1, l) && ti < n) || (p == (l, ti, l + 1) && l < r)
  {
    if ti == n then (l, ti, l + 1)
    else if l == r then (ti, ti + 1, l)
    else if a[ti].val <= a[l].val then (ti, ti + 1, l) else (l, ti, l + 1)
  }

  /** Both picks of one round. */
  ghost predicate Picks(a: seq<TreeEntry>, n: nat, ti: nat, l: nat, r: nat, x: nat, y: nat, ti': nat, l': nat) {
    && ti <= n <= l <= r <= |a| && (n - ti) + (r - l) >= 2
    && var p := Pick(a, n, ti, l, r);
       var q := Pick(a, n, p.1, p.2, r);
       x == p.0 && y == q.0 && ti' == q.1 && l' == q.2
  }

  /** What the two picks take away from the queues. */
  lemma PicksTake(a: seq<TreeEntry>, n: nat, ti: nat, l: nat, r: nat, x: nat, y: nat, ti': nat, l': nat)
    requires Picks(a, n, ti, l, r, x, y, ti', l')
    ensures ti <= ti' <= n <= l <= l' <= r <= |a|
    ensures || (ti' == ti + 2 && l' == l && x == ti && y == ti + 1)
            || (ti' == ti + 1 && l' == l + 1 && ((x == ti && y == l) || (x == l && y == ti)))
            || (ti' == ti && l' == l + 2 && x == l && y == l + 1)
  {
  }

  /** A round finds its second root if and only if two roots are left. */
  lemma SecondPickIff(a: seq<TreeEntry>, n: nat, ti: nat, l: nat, r: nat)
    requires ti <= n <= l <= r <= |a| && (ti < n || l < r)
    ensures var p := Pick(a, n, ti, l, r);
            (p.1 < n || p.2 < r) <==> exists x, y, ti', l' :: Picks(a, n, ti, l, r, x, y, ti', l')
  {
    var p := Pick(a, n, ti, l, r);
    if p.1 < n || p.2 < r {
      var q := Pick(a, n, p.1, p.2, r);
      assert Picks(a, n, ti, l, r, p.0, q.0, q.1, q.2);
    }
  }

  /** With one leaf the tree has one slot and the guard of the loop holds, but after the first pick both queues are
      empty: the second pick would read slot 1, behind the tree. */
  lemma OneLeafBreaks(a: seq<TreeEntry>)
    requires |a| == 2 * 1 - 1
    ensures Pick(a, 1, 0, 1, 1) == (0, 1, 1) && !exists x, y, ti', l' :: Picks(a, 1, 0, 1, 1, x, y, ti', l')
  {
    SecondPickIff(a, 1, 0, 1, 1);
  }

  // ---------------------------------------------------------------- frame

  lemma {:induction false} TreeAtFrame(a: seq<TreeEntry>, b: seq<TreeEntry>, d: seq<DictEntry>, n: nat, r: nat,
                                       r': nat, i: nat)
    requires Forest(a, d, n, r) && Forest(b, d, n, r') && i < r <= r'
    requires forall k :: 0 <= k < r ==> a[k] == b[k]
    ensures TreeAt(b, d, n, r', i) == TreeAt(a, d, n, r, i)
    decreases i
  {
    if i >= n {
      assert Merged(a, i);
      TreeAtFrame(a, b, d, n, r, r', a[i].left);
      TreeAtFrame(a, b, d, n, r, r', a[i].right);
    }
  }

  /** One round keeps the forest: old slots are untouched and the new one is the merge. */
  lemma ForestStep(a: seq<TreeEntry>, d: seq<DictEntry>, n: nat, ti: nat, l: nat, r: nat, x: nat, y: nat, ti': nat,
                   l': nat)
    requires Queues(a, d, n, ti, l, r) && Picks(a, n, ti, l, r, x, y, ti', l')
    ensures r < |a| && x < r && y < r && x != y
    ensures Queues(Merge(a, r, x, y), d, n, ti', l', r + 1)
    ensures forall k :: 0 <= k < r ==> Merge(a, r, x, y)[k] == a[k]
    ensures forall i :: 0 <= i < r ==>
              TreeAt(Merge(a, r, x, y), d, n, r + 1, i) == TreeAt(a, d, n, r, i)
    ensures TreeAt(Merge(a, r, x, y), d, n, r + 1, r) == Node(TreeAt(a, d, n, r, x), TreeAt(a, d, n, r, y))
  {
    PicksTake(a, n, ti, l, r, x, y, ti', l');
    hide Picks;
    var b := Merge(a, r, x, y);
    ForestGrows(a, d, n, r, x, y);
    NewTree(a, d, n, r, x, y);
    forall i | 0 <= i < r
      ensures TreeAt(b, d, n, r + 1, i) == TreeAt(a, d, n, r, i)
    {
      TreeAtFrame(a, b, d, n, r, r + 1, i);
    }
  }

  lemma ForestGrows(a: seq<TreeEntry>, d: seq<DictEntry>, n: nat, r: nat, x: nat, y: nat)
    requires r < |a| && x < r && y < r && Forest(a, d, n, r)
    ensures Forest(Merge(a, r, x, y), d, n, r + 1)
  {
    var b := Merge(a, r, x, y);
    forall i | n <= i < r
      ensures Merged(b, i)
    {
      assert Merged(a, i);
    }
    assert Merged(b, r);
  }

  lemma NewTree(a: seq<TreeEntry>, d: seq<DictEntry>, n: nat, r: nat, x: nat, y: nat)
    requires r < |a| && x < r && y < r && Forest(a, d, n, r) && Forest(Merge(a, r, x, y), d, n, r + 1)
    ensures TreeAt(Merge(a, r, x, y), d, n, r + 1, r) == Node(TreeAt(a, d, n, r, x), TreeAt(a, d, n, r, y))
  {
    var b := Merge(a, r, x, y);
    TreeAtFrame(a, b, d, n, r, r + 1, x);
    TreeAtFrame(a, b, d, n, r, r + 1, y);
    hide Forest;
  }

  // ---------------------------------------------------------------- leaves and weights are conserved

  /** Sum of the weights in slots lo..hi. */
  ghost function Weights(a: seq<TreeEntry>, lo: nat, hi: nat): int
    requires hi <= |a|
    decreases hi - lo
  {
    if lo >= hi then 0 else a[lo].val + Weights(a, lo + 1, hi)
  }

  lemma {:induction false} WeightsExtend(a: seq<TreeEntry>, b: seq<TreeEntry>, lo: nat, hi: nat)
    requires lo <= hi < |b| && hi <= |a| && forall k :: lo <= k < hi ==> b[k] == a[k]
    ensures Weights(b, lo, hi) == Weights(a, lo, hi)
    ensures Weights(b, lo, hi + 1) == Weights(a, lo, hi) + b[hi].val
    decreases hi - lo
  {
    if lo < hi {
      WeightsExtend(a, b, lo + 1, hi);
    }
  }

  ghost function SymbolBag(t: Tree): multiset<Byte> {
    multiset(Symbols(t))
  }

  lemma SymbolBagNode(t: Tree, u: Tree)
    ensures SymbolBag(Node(t, u)) == SymbolBag(t) + SymbolBag(u)
  {
    assert Symbols(Node(t, u)) == Symbols(t) + Symbols(u);
  }

  /** The symbols below slots lo..hi. */
  ghost function Bag(a: seq<TreeEntry>, d: seq<DictEntry>, n: nat, r: nat, lo: nat, hi: nat): multiset<Byte>
    requires Forest(a, d, n, r) && hi <= r
    decreases hi - lo
  {
    if lo >= hi then multiset{} else SymbolBag(TreeAt(a, d, n, r, lo)) + Bag(a, d, n, r, lo + 1, hi)
  }

  lemma {:induction false} BagFrame(a: seq<TreeEntry>, b: seq<TreeEntry>, d: seq<DictEntry>, n: nat, r: nat, r': nat,
                                    lo: nat, hi: nat)
    requires Forest(a, d, n, r) && Forest(b, d, n, r') && hi <= r <= r'
    requires forall i :: 0 <= i < r ==> TreeAt(b, d, n, r', i) == TreeAt(a, d, n, r, i)
    ensures Bag(b, d, n, r', lo, hi) == Bag(a, d, n, r, lo, hi)
    decreases hi - lo
  {
    hide Forest, TreeAt, SymbolBag;
    if lo < hi {
      BagFrame(a, b, d, n, r, r', lo + 1, hi);
    }
  }

  lemma {:induction false} BagExtend(a: seq<TreeEntry>, d: seq<DictEntry>, n: nat, r: nat, lo: nat, hi: nat)
    requires Forest(a, d, n, r) && lo <= hi < r
    ensures Bag(a, d, n, r, lo, hi + 1) == Bag(a, d, n, r, lo, hi) + SymbolBag(TreeAt(a, d, n, r, hi))
    decreases hi - lo
  {
    hide Forest, TreeAt, SymbolBag;
    if lo < hi {
      BagExtend(a, d, n, r, lo + 1, hi);
    }
  }

  /** The roots together hold every leaf once and weigh as much as all leaves. */
  ghost predicate Conserved(a: seq<TreeEntry>, d: seq<DictEntry>, n: nat, ti: nat, l: nat, r: nat, total: int)
    requires Queues(a, d, n, ti, l, r)
  {
    && Weights(a, ti, n) + Weights(a, l, r) == total
    && Bag(a, d, n, r, ti, n) + Bag(a, d, n, r, l, r) == multiset(Chars(d, n))
  }

  function Chars(d: seq<DictEntry>, n: nat): (s: seq<Byte>)
    requires n <= |d|
    ensures |s| == n && forall i :: 0 <= i < n ==> s[i] == d[i].chr
  {
    seq(n, i requires 0 <= i < n => d[i].chr)
  }

  lemma WeightStep(a: seq<TreeEntry>, d: seq<DictEntry>, n: nat, ti: nat, l: nat, r: nat, x: nat, y: nat, ti': nat,
                   l': nat)
    requires Queues(a, d, n, ti, l, r) && Picks(a, n, ti, l, r, x, y, ti', l') && r < |a|
    ensures Weights(Merge(a, r, x, y), ti', n) + Weights(Merge(a, r, x, y), l', r + 1)
            == Weights(a, ti, n) + Weights(a, l, r)
  {
    var b := Merge(a, r, x, y);
    WeightsExtend(a, b, ti', n);
    WeightsExtend(a, b, l', r);
    var p := Pick(a, n, ti, l, r);
    PickedWeight(a, n, ti, l, r);
    PickedWeight(a, n, p.1, p.2, r);
  }

  /** Taking a root off the front of its queue. */
  lemma PickedWeight(a: seq<TreeEntry>, n: nat, ti: nat, l: nat, r: nat)
    requires ti <= n <= l <= r <= |a| && (ti < n || l < r)
    ensures var p := Pick(a, n, ti, l, r);
            Weights(a, ti, n) + Weights(a, l, r) == a[p.0].val + Weights(a, p.1, n) + Weights(a, p.2, r)
  {
  }

  lemma BagPick(a: seq<TreeEntry>, d: seq<DictEntry>, n: nat, r: nat, ti: nat, l: nat)
    requires Forest(a, d, n, r) && ti <= n <= l <= r <= |a| && (ti < n || l < r)
    ensures
      var (x, ti', l') := Pick(a, n, ti, l, r);
      Bag(a, d, n, r, ti, n) + Bag(a, d, n, r, l, r)
      == SymbolBag(TreeAt(a, d, n, r, x)) + (Bag(a, d, n, r, ti', n) + Bag(a, d, n, r, l', r))
  {
    hide TreeAt, SymbolBag;
  }

  lemma BagStep(a: seq<TreeEntry>, d: seq<DictEntry>, n: nat, ti: nat, l: nat, r: nat, x: nat, y: nat, ti': nat,
                l': nat)
    requires Queues(a, d, n, ti, l, r) && Picks(a, n, ti, l, r, x, y, ti', l') && r < |a|
    requires Forest(Merge(a, r, x, y), d, n, r + 1)
    ensures Bag(Merge(a, r, x, y), d, n, r + 1, ti', n) + Bag(Merge(a, r, x, y), d, n, r + 1, l', r + 1)
         == Bag(a, d, n, r, ti, n) + Bag(a, d, n, r, l, r)
  {
    hide TreeAt, SymbolBag, Bag, Forest, Merge;
    var b := Merge(a, r, x, y);
    ForestStep(a, d, n, ti, l, r, x, y, ti', l');
    BagFrame(a, b, d, n, r, r + 1, ti', n);
    BagFrame(a, b, d, n, r, r + 1, l', r);
    BagExtend(b, d, n, r + 1, l', r);
    var p := Pick(a, n, ti, l, r);
    BagPick(a, d, n, r, ti, l);
    BagPick(a, d, n, r, p.1, p.2);
    SymbolBagNode(TreeAt(a, d, n, r, x), TreeAt(a, d, n, r, y));
  }

  // ---------------------------------------------------------------- every node is a child once

  /** A merged node is the parent of its two children. */
  ghost predicate Children(a: seq<TreeEntry>, i: nat, parent: seq<int>)
    requires i < |a| == |parent|
  {
    && 0 <= a[i].left < |a| && 0 <= a[i].right < |a| && a[i].left != a[i].right
    && parent[a[i].left] == i && parent[a[i].right] == i
  }

  /** The parent of a slot is a merged node that has it as a child. */
  ghost predicate Parent(a: seq<TreeEntry>, n: nat, r: nat, c: nat, parent: seq<int>)
    requires c < |a| == |parent| && r <= |a|
  {
    n <= parent[c] < r && (a[parent[c]].left == c || a[parent[c]].right == c)
  }

  /** `parent` names, for each slot that is no longer a root, the one merged node it is a child of. */
  ghost predicate OneParent(a: seq<TreeEntry>, n: nat, ti: nat, l: nat, r: nat, parent: seq<int>)
  {
    && ti <= n <= l <= r <= |a| == |parent|
    && (forall i :: n <= i < r ==> Children(a, i, parent))
    && (forall c :: (0 <= c < ti || n <= c < l) ==> Parent(a, n, r, c, parent))
    && (forall c :: (ti <= c < n || l <= c < |a|) ==> parent[c] == -1)
  }

  lemma OneParentStep(a: seq<TreeEntry>, n: nat, ti: nat, l: nat, r: nat, x: nat, y: nat, ti': nat, l': nat,
                      parent: seq<int>)
    requires Picks(a, n, ti, l, r, x, y, ti', l') && r < |a|
    requires OneParent(a, n, ti, l, r, parent)
    ensures OneParent(Merge(a, r, x, y), n, ti', l', r + 1, parent[x := r][y := r])
  {
    PicksTake(a, n, ti, l, r, x, y, ti', l');
    hide Picks, Children, Parent;
    var b, r', parent' := Merge(a, r, x, y), r + 1, parent[x := r][y := r];
    forall i | n <= i < r'
      ensures Children(b, i, parent')
    {
      ChildrenStep(a, n, ti, l, r, parent, x, y, i);
    }
    forall c | 0 <= c < ti' || n <= c < l'
      ensures Parent(b, n, r', c, parent')
    {
      ParentStep(a, n, ti, l, r, parent, x, y, c);
    }
  }

  lemma ChildrenStep(a: seq<TreeEntry>, n: nat, ti: nat, l: nat, r: nat, parent: seq<int>, x: nat, y: nat, i: nat)
    requires OneParent(a, n, ti, l, r, parent) && n <= i <= r < |a| && x < r && y < r && x != y
    requires parent[x] == -1 && parent[y] == -1
    ensures Children(Merge(a, r, x, y), i, parent[x := r][y := r])
  {
    if i < r {
      assert Children(a, i, parent);
    }
  }

  lemma ParentStep(a: seq<TreeEntry>, n: nat, ti: nat, l: nat, r: nat, parent: seq<int>, x: nat, y: nat, c: nat)
    requires OneParent(a, n, ti, l, r, parent) && r < |a| && x < r && y < r && x != y
    requires c == x || c == y || c < ti || n <= c < l
    ensures Parent(Merge(a, r, x, y), n, r + 1, c, parent[x := r][y := r])
  {
    if c != x && c != y {
      assert Parent(a, n, r, c, parent);
    }
  }
}
