/** compress_data (common/src/huffman_encoding.c:68-293). */
module HuffmanCompress {
  import opened Bits
  import opened HuffmanTree
  import opened Sequences
  import opened HuffmanBuild
  import opened HuffmanHeight
  import opened HuffmanCost
  import opened HuffmanMerge
  import opened HuffmanDictionary
  import opened HuffmanShortest

  // ---------------------------------------------------------------- steps 5 and 6: the tree

  lemma {:induction false} LeavesBag(a: seq<TreeEntry>, d: seq<DictEntry>, n: nat, i: nat)
    requires Forest(a, d, n, n) && i <= n
    ensures Bag(a, d, n, n, i, n) == multiset(Chars(d, n)[i..])
    ensures Weights(a, i, n) + Total(d, i) == Total(d, n)
    decreases n - i
  {
    if i < n {
      LeavesBag(a, d, n, i + 1);
      assert Chars(d, n)[i..] == [d[i].chr] + Chars(d, n)[i + 1..];
      assert Symbols(TreeAt(a, d, n, n, i)) == [d[i].chr];
    }
  }

  lemma {:induction false} FreqAtMostTotal(d: seq<DictEntry>, n: nat, i: nat)
    requires n <= |d| && i < n && forall j :: 0 <= j < n ==> d[j].freq >= 0
    ensures 0 <= Total(d, n - 1) && d[i].freq <= Total(d, n)
  {
    if n == 1 {
      assert Total(d, 1) == Total(d, 0) + d[0].freq;
    } else {
      FreqAtMostTotal(d, n - 1, if i < n - 1 then i else n - 2);
    }
  }

  /** Before the first round every leaf is a root. */
  lemma MergeStart(a: seq<TreeEntry>, d: seq<DictEntry>, n: nat, k: nat, total: int, parent: seq<int>)
    requires Alphabet(d, n, k, total) && Forest(a, d, n, n)
    requires |parent| == |a| && forall c :: 0 <= c < |a| ==> parent[c] == -1
    ensures MergeInv(a, d, n, k, total, 0, n, n, Sorted(0), parent)
  {
    hide Forest, Alphabet, Regular, Bounded, Weights, Bag, Costs;
    LeavesAreRoots(a, d, n, k, total);
    AlphabetIsRegular(a, d, n, k, total);
    CostsStart(a, d, n, k);
  }

  lemma LeavesAreRoots(a: seq<TreeEntry>, d: seq<DictEntry>, n: nat, k: nat, total: int)
    requires Alphabet(d, n, k, total) && Forest(a, d, n, n)
    ensures Queues(a, d, n, 0, n, n) && Conserved(a, d, n, 0, n, n, total)
  {
    hide TreeAt;
    LeavesBag(a, d, n, 0);
    assert Chars(d, n)[0..] == Chars(d, n);
  }

  lemma AlphabetIsRegular(a: seq<TreeEntry>, d: seq<DictEntry>, n: nat, k: nat, total: int)
    requires Alphabet(d, n, k, total) && Forest(a, d, n, n)
    ensures Bounded(a, n, total) && Regular(a, d, n, k, 0, n, n, 0)
  {
    forall i | 0 <= i < n
      ensures 0 <= a[i].val <= total && High(a, d, n, n, i) == 0
    {
      FreqAtMostTotal(d, n, i);
      LeafHeight(a, d, n, n, i);
    }
    hide High;
  }

  /** The finished tree: built from the alphabet's leaves, each used once, low enough for the code buffers. */
  ghost predicate IsHuffmanForest(a: seq<TreeEntry>, d: seq<DictEntry>, n: nat, total: int) {
    && 2 <= n <= 256
    && Forest(a, d, n, 2 * n - 1)
    && a[2 * n - 2].val == total
    && IsTreeOf(Root(a, d, n), Chars(d, n))
    && ChildrenOnce(a, n, 2 * n - 2)
    && IsCheapest(a, d, n)
  }

  /** The tree below the last slot. */
  ghost function Root(a: seq<TreeEntry>, d: seq<DictEntry>, n: nat): Tree
    requires 2 <= n && Forest(a, d, n, 2 * n - 1)
  {
    TreeAt(a, d, n, 2 * n - 1, 2 * n - 2)
  }

  ghost predicate IsTreeOf(t: Tree, symbols: seq<Byte>) {
    multiset(Symbols(t)) == multiset(symbols) && Distinct(Symbols(t)) && Height(t) <= MAX_HEIGHT
  }

  /** Every node but the root is a child of exactly one node. */
  ghost predicate ChildrenOnce(a: seq<TreeEntry>, n: nat, root: nat) {
    exists parent, size :: size == root + 1 && OneParent(a, n, n, root, size, parent)
  }

  lemma BagIsDistinct(s: seq<Byte>, t: seq<Byte>)
    requires Distinct(s) && multiset(s) == multiset(t)
    ensures Distinct(t)
  {
    forall i, j | 0 <= i < j < |t|
      ensures t[i] != t[j]
    {
      if t[i] == t[j] {
        Twice(t, i, j);
        Once(s, t[i]);
      }
    }
  }

  /** One root is left: it is the tree. */
  lemma MergeEnd(a: seq<TreeEntry>, d: seq<DictEntry>, n: nat, k: nat, total: int, ti: nat, l: nat, r: nat, ph: Phase,
                 parent: seq<int>)
    requires MergeInv(a, d, n, k, total, ti, l, r, ph, parent) && ti == n && l + 1 >= r
    ensures r == 2 * n - 1 && l == 2 * n - 2 && IsHuffmanForest(a, d, n, total)
  {
    hide IsCheapest, Costs;
    assert l == 2 * r - 2 * n;
    assert l < r;
    CostsEnd(a, d, n, k, total, l, r);
    assert Weights(a, l, r) == a[l].val + Weights(a, l + 1, r);
    var t := TreeAt(a, d, n, r, l);
    assert Bag(a, d, n, r, l, r) == SymbolBag(t) + Bag(a, d, n, r, l + 1, r);
    BagIsDistinct(Chars(d, n), Symbols(t));
    assert High(a, d, n, r, l) <= MAX_HEIGHT by {
      if ph.Sorted? {
        RegularIsLow(a, d, n, k, r, total);
      }
    }
  }

  /** The choice the source writes out once for each of the two roots. */
  method LowestRoot(tree: array<TreeEntry>, first0: nat, treeIndex: nat, tmpTreeIndexL: nat, tmpTreeIndexR: nat)
    returns (minIndex: nat, treeIndex': nat, tmpTreeIndexL': nat)
    requires treeIndex <= first0 <= tmpTreeIndexL <= tmpTreeIndexR <= tree.Length
    requires treeIndex < first0 || tmpTreeIndexL < tmpTreeIndexR
    ensures (minIndex, treeIndex', tmpTreeIndexL') == Pick(tree[..], first0, treeIndex, tmpTreeIndexL, tmpTreeIndexR)
  {
    if treeIndex == first0 {
      return tmpTreeIndexL, treeIndex, tmpTreeIndexL + 1;
    } else if tmpTreeIndexL == tmpTreeIndexR {
      return treeIndex, treeIndex + 1, tmpTreeIndexL;
    } else if tree[treeIndex].val <= tree[tmpTreeIndexL].val {
      return treeIndex, treeIndex + 1, tmpTreeIndexL;
    } else {
      return tmpTreeIndexL, treeIndex, tmpTreeIndexL + 1;
    }
  }

  /** Steps 5 and 6. */
  method BuildTree(dictionary: array<DictEntry>, first0: int, ghost k: nat, ghost total: int)
    returns (tree: array<TreeEntry>, treeRoot: int)
    requires dictionary.Length == 256 && Alphabet(dictionary[..], first0, k, total)
    ensures fresh(tree)
    ensures treeRoot == 2 * first0 - 2 && IsHuffmanForest(tree[..], dictionary[..], first0, total)
  {
    hide Forest, Alphabet, MergeInv, IsHuffmanForest;
    ghost var d := dictionary[..];
    tree := InitTree(dictionary, first0, k, total);
    var treeIndex: nat, tmpTreeIndexL: nat, tmpTreeIndexR: nat := 0, first0, first0;
    ghost var parent, ph := seq(tree.Length, _ => -1), Sorted(0);
    MergeStart(tree[..], d, first0, k, total, parent);
    while treeIndex < first0 || tmpTreeIndexL < tmpTreeIndexR - 1
      invariant MergeInv(tree[..], d, first0, k, total, treeIndex, tmpTreeIndexL, tmpTreeIndexR, ph, parent)
      invariant |parent| == tree.Length && Places(tree.Length, first0, treeIndex, tmpTreeIndexL, tmpTreeIndexR)
      decreases (first0 - treeIndex) + (tmpTreeIndexR - tmpTreeIndexL)
    {
      ghost var a, ti, l, r := tree[..], treeIndex, tmpTreeIndexL, tmpTreeIndexR;
      var min1Index, min2Index;
      min1Index, treeIndex, tmpTreeIndexL := LowestRoot(tree, first0, treeIndex, tmpTreeIndexL, tmpTreeIndexR);
      min2Index, treeIndex, tmpTreeIndexL := LowestRoot(tree, first0, treeIndex, tmpTreeIndexL, tmpTreeIndexR);
      assert Picks(a, first0, ti, l, r, min1Index, min2Index, treeIndex, tmpTreeIndexL);
      ph := MergeStep(a, d, first0, k, total, ti, l, r, ph, parent, min1Index, min2Index, treeIndex, tmpTreeIndexL);
      parent := parent[min1Index := r][min2Index := r];
      tree[tmpTreeIndexR] := TreeEntry(tree[min1Index].val + tree[min2Index].val, min1Index, min2Index);
      assert tree[..] == Merge(a, r, min1Index, min2Index);
      tmpTreeIndexR := tmpTreeIndexR + 1;
    }
    MergeEnd(tree[..], d, first0, k, total, treeIndex, tmpTreeIndexL, tmpTreeIndexR, ph, parent);
    treeRoot := tmpTreeIndexL;
  }

  /** The queue positions in numbers: as many nodes taken as two per merge. */
  ghost predicate Places(size: nat, n: int, ti: int, l: int, r: int) {
    && 2 <= n && size == 2 * n - 1
    && 0 <= ti <= n <= l <= r <= size && ti + (l - n) == 2 * (r - n)
    && (r == n || l < r)  // the node just merged is still a root
  }

  /** Step 5. The slot after the leaves also receives a dictionary weight, which the merge overwrites unread. */
  method InitTree(dictionary: array<DictEntry>, first0: int, ghost k: nat, ghost total: int)
    returns (tree: array<TreeEntry>)
    requires dictionary.Length == 256 && Alphabet(dictionary[..], first0, k, total)
    ensures fresh(tree) && tree.Length == 2 * first0 - 1 && 2 <= first0 <= 256
    ensures Forest(tree[..], dictionary[..], first0, first0)
  {
    var treeSize := first0 * 2 - 1;
    tree := new TreeEntry[treeSize](_ => BLANK);
    var i := 0;
    while i < treeSize
      invariant 0 <= i <= treeSize
      invariant forall j :: 0 <= j < i && j < first0 ==> tree[j] == TreeEntry(dictionary[j].freq, -1, -1)
    {
      tree[i] := TreeEntry(if i <= first0 && i < 256 then dictionary[i].freq else 0, -1, -1);
      i := i + 1;
    }
  }

  // ---------------------------------------------------------------- steps 7 and 8: the code table

  /** A code of up to 128 bits in 16 bytes; the bits beyond its size are zero. */
  datatype TableEntry = TableEntry(size: nat, code: seq<Byte>)

  const NO_CODE := TableEntry(0, [0, 0, 0, 0, 0, 0, 0, 0, 0, 0, 0, 0, 0, 0, 0, 0])

  datatype QueueEntry = QueueEntry(index: int, table: TableEntry)

  ghost function EntryFor(path: seq<bool>): (e: TableEntry)
    ensures e.size == |path| && |e.code| == MAX_CODE_LENGTH
    ensures forall i :: 0 <= i < MAX_CODE_LENGTH ==> e.code[i] == PackByte(Group(path, i))
  {
    TableEntry(|path|, seq(MAX_CODE_LENGTH, i requires 0 <= i => PackByte(Group(path, i))))
  }

  lemma EntryForNothing()
    ensures EntryFor([]) == NO_CODE
  {
    assert EntryFor([]).code == NO_CODE.code;
  }

  /** `code[size / 8] |= bit << (7 - size % 8); size++`, inside the 16 bytes. */
  function AddBit(e: TableEntry, bit: bool): TableEntry
    requires |e.code| == MAX_CODE_LENGTH && e.size < 8 * MAX_CODE_LENGTH
  {
    TableEntry(e.size + 1, e.code[e.size / 8 := OrBit(e.code[e.size / 8], 7 - e.size % 8, bit)])
  }

  lemma AddBitExtends(path: seq<bool>, bit: bool)
    requires |path| < 8 * MAX_CODE_LENGTH
    ensures AddBit(EntryFor(path), bit) == EntryFor(path + [bit])
  {
    hide PackByte, OrBit;
    var m := |path| / 8;
    AppendedGroups(path, bit, m);
    assert Group(path, m) == path[8 * m..];
    assert Group(path + [bit], m) == path[8 * m..] + [bit];
    OrBitAppends(path[8 * m..], bit);
    forall i | m < i < MAX_CODE_LENGTH
      ensures Group(path + [bit], i) == Group(path, i)
    {
    }
    assert AddBit(EntryFor(path), bit).code == EntryFor(path + [bit]).code;
  }

  /** A bit of a stored code, as step 13 reads it. */
  lemma CodeBit(path: seq<bool>, j: nat)
    requires j < |path| <= 8 * MAX_CODE_LENGTH
    ensures CheckBit(EntryFor(path).code[j / 8], 7 - j % 8) == path[j]
  {
    CheckBitOfPackByte(Group(path, j / 8), j % 8);
  }

  /** What a slot of the finished tree array shows: a leaf has no children, an inner node two. */
  lemma SlotView(a: seq<TreeEntry>, d: seq<DictEntry>, n: nat, r: nat, i: nat)
    requires Forest(a, d, n, r) && i < r
    ensures (a[i].left == -1 && a[i].right == -1) <==> TreeAt(a, d, n, r, i).Leaf?
    ensures TreeAt(a, d, n, r, i).Leaf? ==> i < n <= |d| && TreeAt(a, d, n, r, i).sym == d[i].chr
    ensures TreeAt(a, d, n, r, i).Node? ==>
              && 0 <= a[i].left < r && 0 <= a[i].right < r
              && TreeAt(a, d, n, r, i).left == TreeAt(a, d, n, r, a[i].left)
              && TreeAt(a, d, n, r, i).right == TreeAt(a, d, n, r, a[i].right)
  {
    if i >= n {
      assert Merged(a, i);
    }
  }

  /** Leaves of a stack of trees; each tree has one, so the stack is never longer than that. */
  ghost function LeafSum(ts: seq<Tree>): (s: nat)
    ensures s >= |ts|
  {
    if ts == [] then 0 else LeafSum(ts[..|ts| - 1]) + Leaves(ts[|ts| - 1])
  }

  lemma LeafSumPush(ts: seq<Tree>, t: Tree)
    ensures LeafSum(ts + [t]) == LeafSum(ts) + Leaves(t)
  {
    assert (ts + [t])[..|ts|] == ts;
  }

  lemma LeafSumSplit(ts: seq<Tree>, t: Tree, first: Tree, second: Tree)
    requires t.Node? && ((first == t.left && second == t.right) || (first == t.right && second == t.left))
    ensures LeafSum(ts + [first, second]) == LeafSum(ts + [t])
  {
    LeafSumPush(ts, t);
    LeafSumPush(ts, first);
    LeafSumPush(ts + [first], second);
    assert ts + [first] + [second] == ts + [first, second];
  }

  /** The stack entries of the walk: each index stands for the subtree its code leads to. */
  ghost predicate WalkStack(a: seq<TreeEntry>, d: seq<DictEntry>, n: nat, queue: seq<QueueEntry>,
                            paths: seq<seq<bool>>, ts: seq<Tree>)
    requires 2 <= n && Forest(a, d, n, 2 * n - 1)
  {
    && |paths| == |ts| <= |queue|
    && LeafSum(ts) <= n
    && forall j :: 0 <= j < |ts| ==> WalkItem(a, d, n, queue[j], paths[j], ts[j])
  }

  ghost predicate WalkItem(a: seq<TreeEntry>, d: seq<DictEntry>, n: nat, q: QueueEntry, path: seq<bool>, sub: Tree)
    requires 2 <= n && Forest(a, d, n, 2 * n - 1)
  {
    && 0 <= q.index < 2 * n - 1
    && TreeAt(a, d, n, 2 * n - 1, q.index) == sub
    && IsPath(Root(a, d, n), path) && Sub(Root(a, d, n), path) == sub
    && q.table == EntryFor(path)
    && |path| + Height(sub) <= MAX_HEIGHT
  }

  /** A symbol already has its code, or its leaf is below some stack entry. */
  ghost predicate TableProgress(t: Tree, table: seq<TableEntry>, ts: seq<Tree>)
  {
    && |table| == 256
    && (forall c: Byte :: c !in Symbols(t) ==> table[c] == NO_CODE)
    && forall c: Byte :: c in Symbols(t) ==>
         table[c] == EntryFor(Code(t, c)) || exists j :: 0 <= j < |ts| && c in Symbols(ts[j])
  }

  /** The table holds the code of every leaf symbol, its root path, and nothing else. */
  ghost predicate IsCodeTable(t: Tree, table: seq<TableEntry>) {
    && |table| == 256
    && forall c: Byte :: table[c] == if c in Symbols(t) then EntryFor(Code(t, c)) else NO_CODE
  }

  lemma StoreCode(t: Tree, table: seq<TableEntry>, ts: seq<Tree>, path: seq<bool>, sub: Tree)
    requires Distinct(Symbols(t)) && IsPath(t, path) && Sub(t, path) == sub && sub.Leaf?
    requires TableProgress(t, table, ts + [sub])
    ensures TableProgress(t, table[sub.sym := EntryFor(path)], ts)
  {
    hide Symbols, Code, EntryFor;
    PathIsCode(t, path);
    var table' := table[sub.sym := EntryFor(path)];
    forall c: Byte | c in Symbols(t) && table'[c] != EntryFor(Code(t, c))
      ensures exists j :: 0 <= j < |ts| && c in Symbols(ts[j])
    {
      var j :| 0 <= j < |ts + [sub]| && c in Symbols((ts + [sub])[j]);
      LeafSymbols(sub);
      assert j < |ts| && c in Symbols(ts[j]);
    }
  }

  lemma LeafSymbols(t: Tree)
    ensures t.Leaf? ==> Symbols(t) == [t.sym]
    ensures t.Node? ==> forall c :: c in Symbols(t) <==> c in Symbols(t.left) || c in Symbols(t.right)
  {
  }

  lemma SplitNode(t: Tree, table: seq<TableEntry>, ts: seq<Tree>, sub: Tree)
    requires sub.Node? && TableProgress(t, table, ts + [sub])
    ensures TableProgress(t, table, ts + [sub.left, sub.right])
  {
    hide Symbols, Code, EntryFor;
    LeafSymbols(sub);
    var ts' := ts + [sub.left, sub.right];
    forall c: Byte | c in Symbols(t) && table[c] != EntryFor(Code(t, c))
      ensures exists j :: 0 <= j < |ts'| && c in Symbols(ts'[j])
    {
      var j :| 0 <= j < |ts + [sub]| && c in Symbols((ts + [sub])[j]);
      var j' := if j < |ts| then j else if c in Symbols(sub.left) then |ts| else |ts| + 1;
      assert c in Symbols(ts'[j']);
    }
  }

  /** The root starts the walk. */
  lemma WalkStart(a: seq<TreeEntry>, d: seq<DictEntry>, n: nat, total: int, queue: seq<QueueEntry>,
                  table: seq<TableEntry>)
    requires IsHuffmanForest(a, d, n, total)
    requires |queue| >= 1 && queue[0] == QueueEntry(2 * n - 2, NO_CODE)
    requires |table| == 256 && forall c :: 0 <= c < 256 ==> table[c] == NO_CODE
    ensures WalkStack(a, d, n, queue, [[]], [Root(a, d, n)])
    ensures TableProgress(Root(a, d, n), table, [Root(a, d, n)])
    ensures Distinct(Symbols(Root(a, d, n)))
  {
    var t := Root(a, d, n);
    EntryForNothing();
    LeafCount(t, Chars(d, n));
    LeafSumPush([], t);
    assert [] + [t] == [t];
    assert forall c: Byte :: c in Symbols(t) ==> c in Symbols([t][0]);
  }

  lemma LeafCount(t: Tree, symbols: seq<Byte>)
    requires multiset(Symbols(t)) == multiset(symbols)
    ensures Leaves(t) == |symbols|
  {
    assert |multiset(Symbols(t))| == |Symbols(t)| && |multiset(symbols)| == |symbols|;
  }

  /** What popping the top entry shows. */
  lemma WalkTop(a: seq<TreeEntry>, d: seq<DictEntry>, n: nat, queue: seq<QueueEntry>, paths: seq<seq<bool>>,
                ts: seq<Tree>)
    requires 2 <= n <= 256 && Forest(a, d, n, 2 * n - 1) && WalkStack(a, d, n, queue, paths, ts) && ts != []
    ensures |paths| == |ts| <= |queue| && WalkItem(a, d, n, queue[|ts| - 1], paths[|ts| - 1], ts[|ts| - 1])
    ensures var i := queue[|ts| - 1].index;
            && 0 <= i < |a| && ((a[i].left == -1 && a[i].right == -1) <==> ts[|ts| - 1].Leaf?)
            && (ts[|ts| - 1].Leaf? ==> i < |d| && d[i].chr == ts[|ts| - 1].sym)
            && (ts[|ts| - 1].Node? ==> 0 <= a[i].left && 0 <= a[i].right && |ts| < n && |paths[|ts| - 1]| < MAX_HEIGHT)
    ensures ts == ts[..|ts| - 1] + [ts[|ts| - 1]]
  {
    var i := queue[|ts| - 1].index;
    SlotView(a, d, n, 2 * n - 1, i);
    LeafSumPush(ts[..|ts| - 1], ts[|ts| - 1]);
    assert ts == ts[..|ts| - 1] + [ts[|ts| - 1]];
  }

  lemma WalkPopLeaf(a: seq<TreeEntry>, d: seq<DictEntry>, n: nat, queue: seq<QueueEntry>, paths: seq<seq<bool>>,
                    ts: seq<Tree>, sub: Tree)
    requires 2 <= n && Forest(a, d, n, 2 * n - 1) && WalkStack(a, d, n, queue, paths, ts + [sub])
    ensures WalkStack(a, d, n, queue, paths[..|ts|], ts) && LeafSum(ts) < LeafSum(ts + [sub])
  {
    hide WalkItem;
    LeafSumPush(ts, sub);
    forall j | 0 <= j < |ts|
      ensures WalkItem(a, d, n, queue[j], paths[..|ts|][j], ts[j])
    {
      assert (ts + [sub])[j] == ts[j];
    }
  }

  lemma WalkPushChildren(a: seq<TreeEntry>, d: seq<DictEntry>, n: nat, queue: seq<QueueEntry>,
                         paths: seq<seq<bool>>, ts: seq<Tree>, sub: Tree, path: seq<bool>, left: QueueEntry,
                             right: QueueEntry)
    requires 2 <= n <= 256 && Forest(a, d, n, 2 * n - 1) && WalkStack(a, d, n, queue, paths, ts + [sub]) && sub.Node?
    requires |ts| + 1 < |queue| && path == paths[|ts|] && |path| < MAX_HEIGHT
    requires left == QueueEntry(a[queue[|ts|].index].left, AddBit(EntryFor(path), true))
    requires right == QueueEntry(a[queue[|ts|].index].right, AddBit(EntryFor(path), false))
    ensures WalkStack(a, d, n, queue[|ts| := left][|ts| + 1 := right],
                      paths[..|ts|] + [path + [true], path + [false]], ts + [sub.left, sub.right])
    ensures LeafSum(ts + [sub.left, sub.right]) == LeafSum(ts + [sub])
  {
    hide WalkItem, Forest, AddBit, EntryFor, LeafSum;
    LeafSumSplit(ts, sub, sub.left, sub.right);
    assert (ts + [sub])[|ts|] == sub;
    assert WalkItem(a, d, n, queue[|ts|], path, sub);
    ChildItems(a, d, n, queue[|ts|], path, sub, left, right);
    WalkItems(a, d, n, queue, paths, ts, sub, path, left, right);
  }

  lemma ChildItems(a: seq<TreeEntry>, d: seq<DictEntry>, n: nat, q: QueueEntry, path: seq<bool>, sub: Tree,
                   left: QueueEntry, right: QueueEntry)
    requires 2 <= n <= 256 && Forest(a, d, n, 2 * n - 1) && WalkItem(a, d, n, q, path, sub) && sub.Node?
             && |path| < MAX_HEIGHT
    requires left == QueueEntry(a[q.index].left, AddBit(EntryFor(path), true))
    requires right == QueueEntry(a[q.index].right, AddBit(EntryFor(path), false))
    ensures WalkItem(a, d, n, left, path + [true], sub.left) && WalkItem(a, d, n, right, path + [false], sub.right)
  {
    hide AddBit, EntryFor;
    SlotView(a, d, n, 2 * n - 1, q.index);
    WalkChild(a, d, n, path, sub, true);
    WalkChild(a, d, n, path, sub, false);
  }

  lemma WalkChild(a: seq<TreeEntry>, d: seq<DictEntry>, n: nat, path: seq<bool>, sub: Tree, bit: bool)
    requires 2 <= n && Forest(a, d, n, 2 * n - 1) && sub.Node? && |path| < MAX_HEIGHT
    requires IsPath(Root(a, d, n), path) && Sub(Root(a, d, n), path) == sub && |path| + Height(sub) <= MAX_HEIGHT
    ensures IsPath(Root(a, d, n), path + [bit])
    ensures Sub(Root(a, d, n), path + [bit]) == if bit then sub.left else sub.right
    ensures AddBit(EntryFor(path), bit) == EntryFor(path + [bit])
    ensures |path + [bit]| + Height(if bit then sub.left else sub.right) <= MAX_HEIGHT
  {
    hide TreeAt, AddBit, EntryFor, Forest;
    PathStep(Root(a, d, n), path, bit);
    AddBitExtends(path, bit);
  }

  lemma WalkItems(a: seq<TreeEntry>, d: seq<DictEntry>, n: nat, queue: seq<QueueEntry>,
                  paths: seq<seq<bool>>, ts: seq<Tree>, sub: Tree, path: seq<bool>, left: QueueEntry, right: QueueEntry)
    requires 2 <= n && Forest(a, d, n, 2 * n - 1) && WalkStack(a, d, n, queue, paths, ts + [sub]) && sub.Node?
    requires |ts| + 1 < |queue|
    requires WalkItem(a, d, n, left, path + [true], sub.left) && WalkItem(a, d, n, right, path + [false], sub.right)
    requires LeafSum(ts + [sub.left, sub.right]) <= n
    ensures WalkStack(a, d, n, queue[|ts| := left][|ts| + 1 := right],
                      paths[..|ts|] + [path + [true], path + [false]], ts + [sub.left, sub.right])
  {
    hide WalkItem, LeafSum;
    var q', p', t' := queue[|ts| := left][|ts| + 1 := right], paths[..|ts|] + [path + [true], path + [false]],
                      ts + [sub.left, sub.right];
    forall j | 0 <= j < |t'|
      ensures WalkItem(a, d, n, q'[j], p'[j], t'[j])
    {
      if j < |ts| {
        assert (ts + [sub])[j] == ts[j];
      }
    }
  }

  lemma WalkDone(t: Tree, table: seq<TableEntry>)
    requires TableProgress(t, table, [])
    ensures IsCodeTable(t, table)
  {
  }

  /** The walk takes a leaf off the stack and stores its code. */
  lemma WalkLeaf(a: seq<TreeEntry>, d: seq<DictEntry>, n: nat, queue: seq<QueueEntry>, table: seq<TableEntry>,
                 paths: seq<seq<bool>>, ts: seq<Tree>)
    requires 2 <= n <= 256 && Forest(a, d, n, 2 * n - 1) && WalkStack(a, d, n, queue, paths, ts)
    requires ts != [] && ts[|ts| - 1].Leaf? && |ts| <= |queue|
    requires TableProgress(Root(a, d, n), table, ts) && Distinct(Symbols(Root(a, d, n)))
    ensures var k, t := |ts| - 1, Root(a, d, n);
            && k <= |paths| && |table| == 256 && WalkStack(a, d, n, queue, paths[..k], ts[..k])
            && TableProgress(t, table[ts[k].sym := queue[k].table], ts[..k])
            && 2 * LeafSum(ts[..k]) - k < 2 * LeafSum(ts) - |ts|
  {
    assert |table| == 256;
    hide Forest, TreeAt, WalkStack, TableProgress, Symbols, LeafSum, EntryFor;
    var k := |ts| - 1;
    WalkTop(a, d, n, queue, paths, ts);
    LeafSumPush(ts[..k], ts[k]);
    StoreCode(Root(a, d, n), table, ts[..k], paths[k], ts[k]);
    WalkPopLeaf(a, d, n, queue, paths, ts[..k], ts[k]);
  }

  /** It takes an inner node off and puts its children on. */
  lemma WalkNode(a: seq<TreeEntry>, d: seq<DictEntry>, n: nat, queue: seq<QueueEntry>, table: seq<TableEntry>,
                 paths: seq<seq<bool>>, ts: seq<Tree>)
    requires 2 <= n <= 256 && Forest(a, d, n, 2 * n - 1) && WalkStack(a, d, n, queue, paths, ts)
    requires ts != [] && ts[|ts| - 1].Node? && |ts| < |queue| && 0 <= queue[|ts| - 1].index < |a|
    requires TableProgress(Root(a, d, n), table, ts)
    ensures var e := queue[|ts| - 1].table; |e.code| == MAX_CODE_LENGTH && e.size < 8 * MAX_CODE_LENGTH
    ensures var k, e := |ts| - 1, queue[|ts| - 1];
            var left := QueueEntry(a[e.index].left, AddBit(e.table, true));
            var right := QueueEntry(a[e.index].right, AddBit(e.table, false));
            && k < |paths|
            && WalkStack(a, d, n, queue[k := left][k + 1 := right],
                         paths[..k] + [paths[k] + [true], paths[k] + [false]], ts[..k] + [ts[k].left, ts[k].right])
            && TableProgress(Root(a, d, n), table, ts[..k] + [ts[k].left, ts[k].right])
            && LeafSum(ts[..k] + [ts[k].left, ts[k].right]) == LeafSum(ts)
  {
    hide Forest, TreeAt, WalkStack, TableProgress, Symbols, LeafSum, AddBit;
    var k, e := |ts| - 1, queue[|ts| - 1];
    WalkTop(a, d, n, queue, paths, ts);
    assert |e.table.code| == MAX_CODE_LENGTH && e.table.size < 8 * MAX_CODE_LENGTH;
    hide EntryFor;
    SplitNode(Root(a, d, n), table, ts[..k], ts[k]);
    var left := QueueEntry(a[e.index].left, AddBit(e.table, true));
    var right := QueueEntry(a[e.index].right, AddBit(e.table, false));
    WalkPushChildren(a, d, n, queue, paths, ts[..k], ts[k], paths[k], left, right);
  }

  /** Steps 7 and 8: walks the tree with an explicit stack of at most 256 entries. */
  method FillTable(tree: array<TreeEntry>, treeRoot: int, dictionary: array<DictEntry>, ghost n: nat, ghost total: int)
    returns (table: array<TableEntry>)
    requires IsHuffmanForest(tree[..], dictionary[..], n, total) && treeRoot == 2 * n - 2
    ensures fresh(table) && IsCodeTable(Root(tree[..], dictionary[..], n), table[..])
  {
    hide Forest, TreeAt, WalkStack, WalkItem, TableProgress, IsCodeTable, IsTreeOf, ChildrenOnce, IsCheapest;
    hide AddBit, EntryFor, Symbols, LeafSum, Distinct;
    ghost var a, d := tree[..], dictionary[..];
    ghost var t := Root(a, d, n);
    table := new TableEntry[256](_ => NO_CODE);
    var queue := new QueueEntry[256](_ => QueueEntry(0, NO_CODE));
    var qSize := 0;
    queue[qSize] := queue[qSize].(index := treeRoot);
    qSize := qSize + 1;
    ghost var paths: seq<seq<bool>>, ts: seq<Tree> := [[]], [t];
    WalkStart(a, d, n, total, queue[..], table[..]);
    while qSize > 0
      invariant |ts| == qSize <= 256 && WalkStack(a, d, n, queue[..], paths, ts)
      invariant TableProgress(t, table[..], ts) && Distinct(Symbols(t))
      decreases 2 * LeafSum(ts) - |ts|
    {
      WalkTop(a, d, n, queue[..], paths, ts);
      ghost var q, k := queue[..], qSize - 1;
      qSize := qSize - 1;
      var nodeInd := queue[qSize].index;
      var leftNodeInd, rightNodeInd := tree[nodeInd].left, tree[nodeInd].right;
      var currTable := queue[qSize].table;
      if leftNodeInd == -1 && rightNodeInd == -1 {
        WalkLeaf(a, d, n, q, table[..], paths, ts);
        var charValue := dictionary[nodeInd].chr;
        table[charValue] := currTable;
        paths, ts := paths[..k], ts[..k];
      } else {
        WalkNode(a, d, n, q, table[..], paths, ts);
        if leftNodeInd != -1 {
          queue[qSize] := QueueEntry(leftNodeInd, AddBit(currTable, true));
          qSize := qSize + 1;
        }
        if rightNodeInd != -1 {
          queue[qSize] := QueueEntry(rightNodeInd, AddBit(currTable, false));
          qSize := qSize + 1;
        }
        assert queue[..] == q[k := queue[k]][k + 1 := queue[k + 1]];
        paths, ts := paths[..k] + [paths[k] + [true], paths[k] + [false]], ts[..k] + [ts[k].left, ts[k].right];
      }
    }
    assert ts == [];
    WalkDone(t, table[..]);
  }

  // ---------------------------------------------------------------- step 9: the size of the result

  /** What the code table says about one byte of the data. */
  lemma CodeOf(t: Tree, table: seq<TableEntry>, data: seq<Byte>, i: nat)
    requires IsCodeTable(t, table) && Covers(t, data) && i < |data| && Height(t) <= MAX_HEIGHT
    ensures |table| == 256 && table[data[i]] == EntryFor(Code(t, data[i])) && |Code(t, data[i])| <= MAX_HEIGHT
  {
    CodeAtMostHeight(t, data[i]);
  }

  /** Step 9: the size in bits, found before anything is written. */
  method EstimateSize(table: array<TableEntry>, data: seq<Byte>, first0: int, ghost t: Tree) returns (bits: nat)
    requires IsCodeTable(t, table[..]) && Covers(t, data) && Height(t) <= MAX_HEIGHT && first0 == Leaves(t)
    ensures bits == CodedLength(t, data)
  {
    hide IsCodeTable, EntryFor, Symbols, Leaves, Code;
    bits := (1 + 1 + 4) * 8 + (10 * first0 - 1);
    var i := 0;
    assert data[..0] == [];
    while i < |data|
      invariant 0 <= i <= |data|
      invariant bits == Prologue(t) + |Encode(t, data[..i])|
    {
      CodeOf(t, table[..], data, i);
      EncodeStep(t, data, i);
      bits := bits + table[data[i]].size;
      i := i + 1;
    }
    assert data[..i] == data;
  }

  // ---------------------------------------------------------------- step 12: writing the tree

  /** The bits of the trees on the stack, top first. */
  ghost function PendingBits(ts: seq<Tree>): seq<bool> {
    if ts == [] then [] else TreeBits(ts[|ts| - 1]) + PendingBits(ts[..|ts| - 1])
  }

  ghost predicate IndexStack(a: seq<TreeEntry>, d: seq<DictEntry>, n: nat, queue: seq<int>, ts: seq<Tree>)
    requires 2 <= n && Forest(a, d, n, 2 * n - 1)
  {
    && |ts| <= |queue| && LeafSum(ts) <= n
    && forall j :: 0 <= j < |ts| ==> 0 <= queue[j] < 2 * n - 1 && TreeAt(a, d, n, 2 * n - 1, queue[j]) == ts[j]
  }

  lemma IndexStart(a: seq<TreeEntry>, d: seq<DictEntry>, n: nat, total: int, queue: seq<int>)
    requires IsHuffmanForest(a, d, n, total) && |queue| >= 1 && queue[0] == 2 * n - 2
    ensures IndexStack(a, d, n, queue, [Root(a, d, n)]) && PendingBits([Root(a, d, n)]) == TreeBits(Root(a, d, n))
  {
    var t := Root(a, d, n);
    LeafCount(t, Chars(d, n));
    LeafSumPush([], t);
    assert [] + [t] == [t] && [t][..0] == [];
  }

  lemma PendingPush(ts: seq<Tree>, t: Tree)
    ensures PendingBits(ts + [t]) == TreeBits(t) + PendingBits(ts)
  {
    assert (ts + [t])[..|ts|] == ts;
  }

  lemma PendingSplit(done: seq<bool>, ts: seq<Tree>, t: Tree)
    requires t.Node?
    ensures done + PendingBits(ts + [t]) == done + [false] + PendingBits(ts + [t.right, t.left])
  {
    hide PendingBits, Leaves;
    PendingPush(ts, t);
    PendingPush(ts, t.right);
    PendingPush(ts + [t.right], t.left);
    assert ts + [t.right] + [t.left] == ts + [t.right, t.left];
    assert TreeBits(t) == [false] + TreeBits(t.left) + TreeBits(t.right);
    assert PendingBits(ts + [t]) == [false] + PendingBits(ts + [t.right, t.left]);
  }

  lemma PendingLeaf(done: seq<bool>, ts: seq<Tree>, t: Tree)
    requires t.Leaf?
    ensures done + PendingBits(ts + [t]) == done + [true] + ByteBits(t.sym) + PendingBits(ts)
  {
    hide PendingBits, ByteBits;
    PendingPush(ts, t);
    assert PendingBits(ts + [t]) == [true] + ByteBits(t.sym) + PendingBits(ts);
  }

  /** What the top index shows. */
  lemma IndexTop(a: seq<TreeEntry>, d: seq<DictEntry>, n: nat, queue: seq<int>, ts: seq<Tree>, sub: Tree)
    requires 2 <= n <= 256 && Forest(a, d, n, 2 * n - 1) && IndexStack(a, d, n, queue, ts + [sub])
    ensures var i := queue[|ts|];
            && 0 <= i < |a| && ((a[i].left == -1 && a[i].right == -1) <==> sub.Leaf?)
            && (sub.Leaf? ==> i < |d| && d[i].chr == sub.sym)
            && (sub.Node? ==> 0 <= a[i].left && 0 <= a[i].right && |ts| + 1 < n)
  {
    hide Height;
    assert (ts + [sub])[|ts|] == sub;
    SlotView(a, d, n, 2 * n - 1, queue[|ts|]);
    LeafSumPush(ts, sub);
  }

  lemma IndexPop(a: seq<TreeEntry>, d: seq<DictEntry>, n: nat, queue: seq<int>, ts: seq<Tree>, sub: Tree)
    requires 2 <= n <= 256 && Forest(a, d, n, 2 * n - 1) && IndexStack(a, d, n, queue, ts + [sub])
    ensures IndexStack(a, d, n, queue, ts) && LeafSum(ts) < LeafSum(ts + [sub])
  {
    hide Forest, TreeAt, Symbols;
    LeafSumPush(ts, sub);
    assert forall j :: 0 <= j < |ts| ==> (ts + [sub])[j] == ts[j];
  }

  lemma IndexPush(a: seq<TreeEntry>, d: seq<DictEntry>, n: nat, queue: seq<int>, ts: seq<Tree>, sub: Tree, left: int,
                  right: int)
    requires 2 <= n <= 256 <= |queue| && Forest(a, d, n, 2 * n - 1) && IndexStack(a, d, n, queue, ts + [sub])
             && sub.Node?
    requires 0 <= queue[|ts|] < |a| && left == a[queue[|ts|]].left && right == a[queue[|ts|]].right && |ts| + 1 < n
    ensures IndexStack(a, d, n, queue[|ts| := right][|ts| + 1 := left], ts + [sub.right, sub.left])
    ensures LeafSum(ts + [sub.right, sub.left]) == LeafSum(ts + [sub])
  {
    hide Forest, TreeAt, LeafSum, Symbols, Leaves;
    assert (ts + [sub])[|ts|] == sub;
    assert forall j :: 0 <= j < |ts| ==> (ts + [sub])[j] == ts[j];
    SlotView(a, d, n, 2 * n - 1, queue[|ts|]);
    LeafSumSplit(ts, sub, sub.right, sub.left);
  }

  /** Step 12: the preorder form, from an explicit stack of at most 256 indexes. */
  method WriteTree(out: BitWriter, tree: array<TreeEntry>, treeRoot: int, dictionary: array<DictEntry>,
                   ghost n: nat, ghost total: int)
    requires out.Valid() && IsHuffmanForest(tree[..], dictionary[..], n, total) && treeRoot == 2 * n - 2
    requires out.stream as object != tree && out.stream as object != dictionary
    modifies out, out.stream
    ensures out.Valid() && out.bits == old(out.bits) + TreeBits(Root(tree[..], dictionary[..], n))
  {
    hide Forest, TreeAt, IndexStack, PendingBits, TreeBits, ByteBits, IsTreeOf, ChildrenOnce, LeafSum, Leaves, Root;
    ghost var a, d, before := tree[..], dictionary[..], out.bits;
    ghost var t := Root(a, d, n);
    var queue := new int[256](_ => 0);
    var qSize := 0;
    queue[qSize] := treeRoot;
    qSize := qSize + 1;
    ghost var ts: seq<Tree> := [t];
    IndexStart(a, d, n, total, queue[..]);
    while qSize > 0
      invariant |ts| == qSize <= 256 && IndexStack(a, d, n, queue[..], ts)
      invariant out.Valid() && out.bits + PendingBits(ts) == before + TreeBits(t)
      invariant tree[..] == a && dictionary[..] == d
      decreases 2 * LeafSum(ts) - |ts|
    {
      ghost var q, base, sub := queue[..], ts[..qSize - 1], ts[qSize - 1];
      assert ts == base + [sub];
      IndexTop(a, d, n, q, base, sub);
      LeafSumPush(base, sub);
      qSize := qSize - 1;
      var nodeInd := queue[qSize];
      var leftNodeInd, rightNodeInd := tree[nodeInd].left, tree[nodeInd].right;
      if leftNodeInd == -1 && rightNodeInd == -1 {
        PendingLeaf(out.bits, base, sub);
        IndexPop(a, d, n, q, base, sub);
        var charValue := dictionary[nodeInd].chr;
        out.WriteBit(true);
        out.WriteByte(charValue);
        ts := base;
      } else {
        PendingSplit(out.bits, base, sub);
        IndexPush(a, d, n, q, base, sub, leftNodeInd, rightNodeInd);
        out.WriteBit(false);
        if rightNodeInd != -1 {
          queue[qSize] := rightNodeInd;
          qSize := qSize + 1;
        }
        if leftNodeInd != -1 {
          queue[qSize] := leftNodeInd;
          qSize := qSize + 1;
        }
        assert queue[..] == q[|base| := rightNodeInd][|base| + 1 := leftNodeInd];
        ts := base + [sub.right, sub.left];
      }
    }
    NothingPending(ts);
  }

  lemma NothingPending(ts: seq<Tree>)
    requires |ts| == 0
    ensures PendingBits(ts) == []
  {
  }

  // ---------------------------------------------------------------- step 13: writing the content

  method WriteCode(out: BitWriter, entry: TableEntry, ghost code: seq<bool>)
    requires out.Valid() && entry == EntryFor(code) && |code| <= 8 * MAX_CODE_LENGTH
    modifies out, out.stream
    ensures out.Valid() && out.bits == old(out.bits) + code
  {
    hide EntryFor, CheckBit, PackByte, Group;
    var j := 0;
    while j < entry.size
      invariant 0 <= j <= |code| == entry.size
      invariant out.Valid() && out.bits == old(out.bits) + code[..j]
    {
      CodeBit(code, j);
      var bitValue := CheckBit(entry.code[j / 8], 7 - j % 8);
      out.WriteBit(bitValue);
      j := j + 1;
    }
  }

  method WriteContent(out: BitWriter, table: array<TableEntry>, data: seq<Byte>, ghost t: Tree)
    requires out.Valid() && IsCodeTable(t, table[..]) && Covers(t, data) && Height(t) <= MAX_HEIGHT
    requires out.stream as object != table
    modifies out, out.stream
    ensures out.Valid() && out.bits == old(out.bits) + Encode(t, data)
  {
    hide IsCodeTable, EntryFor, Symbols, Code, Encode;
    ghost var tb := table[..];
    EncodeNothing(t, data);
    var i := 0;
    while i < |data|
      invariant 0 <= i <= |data| && table[..] == tb
      invariant Covers(t, data[..i]) && out.Valid() && out.bits == old(out.bits) + Encode(t, data[..i])
    {
      CodeOf(t, tb, data, i);
      EncodeStep(t, data, i);
      WriteCode(out, table[data[i]], Code(t, data[i]));
      i := i + 1;
    }
    assert data[..i] == data;
  }

  lemma EncodeNothing(t: Tree, data: seq<Byte>)
    ensures Covers(t, data[..0]) && Encode(t, data[..0]) == []
  {
  }

  // ---------------------------------------------------------------- the whole of compress_data

  /** A tree the decoder can be given: distinct leaves, one for each byte of the data, all codes within 128 bits. When
      all byte values occur in the data no code lengths give a shorter content; no tree is better exactly then, and when
      not more than one value occurs. */
  ghost predicate IsCodeTreeFor(t: Tree, data: seq<Byte>) {
    && Distinct(Symbols(t)) && Covers(t, data) && 2 <= Leaves(t) <= 256 && Height(t) <= MAX_HEIGHT
    && (AllOccur(data) ==> IsOptimal(t, data))
    && (IsBestTree(t, data) <==> AllOccur(data) || OneValue(data))
  }

  lemma ForestCovers(a: seq<TreeEntry>, d: seq<DictEntry>, n: nat, data: seq<Byte>)
    requires IsHuffmanForest(a, d, n, |data|) && forall i :: 0 <= i < |data| ==> data[i] in Chars(d, n)
    ensures 2 <= n && Forest(a, d, n, 2 * n - 1)
    ensures Distinct(Symbols(Root(a, d, n))) && Covers(Root(a, d, n), data) && Leaves(Root(a, d, n)) == n
  {
    hide TreeAt, IsCheapest;
    var t := Root(a, d, n);
    LeafCount(t, Chars(d, n));
    forall i | 0 <= i < |data|
      ensures data[i] in Symbols(t)
    {
      assert data[i] in multiset(Chars(d, n));
      assert data[i] in multiset(Symbols(t));
    }
  }

  /** The sorted dictionary names every byte value once; all its first 256 entries are leaves when all values occur. */
  lemma DictionaryOfAll(d: seq<DictEntry>, n: nat, data: seq<Byte>)
    requires IsQsortResult(d, Counted(data)) && IsFirst0(d, n)
    ensures forall i :: 0 <= i < n ==> d[i].freq == multiset(data)[d[i].chr]
    ensures Distinct(Chars(d, 256)) && forall b: Byte :: b in Chars(d, 256)
    ensures AllOccur(data) ==> n == 256
  {
    forall i | 0 <= i < 256
      ensures d[i].freq == multiset(data)[d[i].chr]
    {
      EntryOf(data, d, i);
    }
    forall i, j | 0 <= i < j < 256
      ensures d[i].chr != d[j].chr
    {
      NoByteTwice(data, d, i, j);
    }
    forall b: Byte
      ensures b in Chars(d, 256)
    {
      var i := EveryByteThere(data, d, b);
      assert Chars(d, 256)[i] == b;
    }
    if AllOccur(data) {
      assert d[n - 1].chr in data;
    }
  }

  /** The finished tree is a code tree for the data, and its content is as long as the merged nodes weigh. */
  lemma ForestIsCodeTree(a: seq<TreeEntry>, d: seq<DictEntry>, n: nat, data: seq<Byte>)
    requires IsHuffmanForest(a, d, n, |data|) && IsQsortResult(d, Counted(data)) && IsFirst0(d, n)
    requires Alphabet(d, n, UsedCount(d, n), |data|) && forall i :: 0 <= i < |data| ==> data[i] in Chars(d, n)
    ensures 2 <= n && Forest(a, d, n, 2 * n - 1) && Leaves(Root(a, d, n)) == n
    ensures IsCodeTreeFor(Root(a, d, n), data) && |Encode(Root(a, d, n), data)| == Weights(a, n, 2 * n - 1)
  {
    hide TreeAt, IsCheapest, IsQsortResult, IsOptimal, IsBestTree, Chars, Distinct, Alphabet;
    ForestCovers(a, d, n, data);
    DictionaryOfAll(d, n, data);
    ShortestContent(a, d, n, data);
    BestTreeIff(a, d, n, data);
  }

  /** Unless all byte values occur, all leaves but one are used. */
  lemma OneUnused(d: seq<DictEntry>, n: nat, data: seq<Byte>)
    requires IsQsortResult(d, Counted(data)) && IsFirst0(d, n) && Alphabet(d, n, UsedCount(d, n), |data|)
    requires !AllOccur(data)
    ensures var k := UsedCount(d, n);
            && k < n && d[k].chr in Chars(d, n) && d[k].chr !in data
            && forall s :: s in Chars(d, n) && s != d[k].chr ==> s in data
  {
    hide SortedByCmp;
    var k := UsedCount(d, n);
    if k == n {
      forall c: Byte
        ensures c in data
      {
        var i := EveryByteThere(data, d, c);
      }
    }
    EntryOf(data, d, k);
    assert Chars(d, n)[k] == d[k].chr;
    forall s | s in Chars(d, n) && s != d[k].chr
      ensures s in data
    {
      var i :| 0 <= i < n && d[i].chr == s;
      EntryOf(data, d, i);
    }
  }

  /** The tree is the best one exactly when all byte values occur or not more than one does; otherwise its unused leaf
      takes up code space. */
  lemma BestTreeIff(a: seq<TreeEntry>, d: seq<DictEntry>, n: nat, data: seq<Byte>)
    requires IsHuffmanForest(a, d, n, |data|) && IsQsortResult(d, Counted(data)) && IsFirst0(d, n)
    requires Alphabet(d, n, UsedCount(d, n), |data|) && Covers(Root(a, d, n), data)
    requires AllOccur(data) ==> IsOptimal(Root(a, d, n), data)
    ensures IsBestTree(Root(a, d, n), data) <==> AllOccur(data) || OneValue(data)
  {
    hide TreeAt, IsCheapest, IsOptimal, IsBestTree, OneValue, IsQsortResult, Alphabet, Chars, Symbols, Leaves;
    var t := Root(a, d, n);
    if AllOccur(data) {
      BestWhenAllOccur(t, data);
    } else {
      OneUnused(d, n, data);
      RootSymbols(a, d, n, |data|);
      UnusedLeafCostsIff(t, d[UsedCount(d, n)].chr, data);
    }
  }

  lemma RootSymbols(a: seq<TreeEntry>, d: seq<DictEntry>, n: nat, total: int)
    requires IsHuffmanForest(a, d, n, total)
    ensures n >= 2 && Forest(a, d, n, 2 * n - 1) && forall s :: s in Symbols(Root(a, d, n)) <==> s in Chars(d, n)
    ensures IsCarried(Root(a, d, n))
  {
    hide TreeAt, IsCheapest;
    forall s
      ensures s in Symbols(Root(a, d, n)) <==> s in Chars(d, n)
    {
      assert s in Symbols(Root(a, d, n)) <==> s in multiset(Symbols(Root(a, d, n)));
      assert s in Chars(d, n) <==> s in multiset(Chars(d, n));
    }
  }

  lemma BestWhenAllOccur(t: Tree, data: seq<Byte>)
    requires AllOccur(data) && Covers(t, data) && IsOptimal(t, data)
    ensures IsBestTree(t, data)
  {
    hide IsOptimal, Symbols, Encode;
    forall u | IsCarried(u) && Covers(u, data)
      ensures |Encode(t, data)| <= |Encode(u, data)|
    {
      NoTreeIsBetter(t, u, data);
    }
  }

  /** Step 11: six header bytes. The flag and the padding share the first one without overlapping. */
  method WriteHeader(out: BitWriter, padding: nat, first0: nat, dataSize: nat)
    requires out.Valid() && out.bits == [] && padding < 8 && first0 >= 1
    modifies out, out.stream
    ensures out.Valid() && out.bits == HeaderBits(padding, first0, dataSize)
  {
    hide ByteBits;
    out.WriteByte(COMPRESSED_FLAG + padding);
    out.WriteByte(first0 - 1);
    out.WriteByte(dataSize / 0x100_0000);
    out.WriteByte(dataSize / 0x1_0000);
    out.WriteByte(dataSize / 0x100);
    out.WriteByte(dataSize);
  }

  /** What steps 1 to 8 leave behind for the writer: the forest with its root tree t, and the table of t's codes. */
  ghost predicate IsCodebook(tree: seq<TreeEntry>, treeRoot: int, dictionary: seq<DictEntry>, table: seq<TableEntry>,
                             first0: int, t: Tree, data: seq<Byte>)
  {
    && first0 == Leaves(t) && treeRoot == 2 * first0 - 2
    && IsHuffmanForest(tree, dictionary, first0, |data|) && t == Root(tree, dictionary, first0)
    && IsCodeTreeFor(t, data) && |Encode(t, data)| == Weights(tree, first0, 2 * first0 - 1)
    && IsCodeTable(t, table)
  }

  /** Steps 1 to 8. */
  method BuildCodes(data: seq<Byte>)
    returns (tree: array<TreeEntry>, treeRoot: int, dictionary: array<DictEntry>, table: array<TableEntry>,
             first0: int, ghost t: Tree)
    requires 1 <= |data| <= INT_MAX && !OverlongRun(data)
    ensures IsCodebook(tree[..], treeRoot, dictionary[..], table[..], first0, t, data)
  {
    hide Alphabet, IsHuffmanForest, IsQsortResult, IsFirst0, IsCodeTable, IsCodeTreeFor, Leaves, Chars, TreeAt, Forest;
    dictionary := CountFrequencies(data);
    Qsort(dictionary);
    first0 := FindFirst0(dictionary);
    ghost var d := dictionary[..];
    SortedDictionary(data, d, first0);
    tree, treeRoot := BuildTree(dictionary, first0, UsedCount(d, first0), |data|);
    ForestIsCodeTree(tree[..], d, first0, data);
    t := Root(tree[..], d, first0);
    table := FillTable(tree, treeRoot, dictionary, first0, |data|);
  }

  /** Steps 10 to 14. The buffer has exactly the predicted size; everything written fits and fills it. */
  method WriteStream(data: seq<Byte>, tree: array<TreeEntry>, treeRoot: int, dictionary: array<DictEntry>,
                     table: array<TableEntry>, first0: nat, padding: nat, compressedSize: nat, ghost t: Tree)
    returns (result: array<Byte>)
    requires IsCodebook(tree[..], treeRoot, dictionary[..], table[..], first0, t, data)
    requires padding == CodedLength(t, data) % 8
    requires compressedSize == (CodedLength(t, data) + 7) / 8
    ensures result[..] == Pack(CodedBits(t, data))
  {
    hide IsHuffmanForest, IsCodeTable, Symbols, Leaves, Code, Encode, TreeBits, HeaderBits, Pack, CodedLength, Distinct;
    var out := new BitWriter(compressedSize);
    WriteHeader(out, padding, first0, |data|);
    WriteTree(out, tree, treeRoot, dictionary, first0, |data|);
    WriteContent(out, table, data, t);
    assert out.bits == CodedBits(t, data);
    PackedSize(out, compressedSize);
    out.Flush();
    result := out.stream;
  }

  /** A buffer of the predicted size has room for the last byte. */
  lemma PackedSize(out: BitWriter, size: nat)
    requires out.Valid() && size == (|out.bits| + 7) / 8
    ensures |Pack(out.bits)| == size
    ensures out.byteIndex > 0 ==> out.streamIndex < size
  {
  }

  /** The stream for one tree: raw when the coded form would be longer than the data. */
  ghost predicate IsStreamFor(stream: seq<Byte>, t: Tree, data: seq<Byte>) {
    && IsCodeTreeFor(t, data)
    && if (CodedLength(t, data) + 7) / 8 > |data| then IsRaw(stream, data) else IsCoded(stream, t, data)
  }

  lemma RawStream(stream: seq<Byte>, t: Tree, data: seq<Byte>)
    requires IsCodeTreeFor(t, data) && (CodedLength(t, data) + 7) / 8 > |data| && stream == [NOT_COMPRESSED_FLAG] + data
    ensures IsStreamFor(stream, t, data)
  {
  }

  lemma CodedStream(stream: seq<Byte>, t: Tree, data: seq<Byte>)
    requires IsCodeTreeFor(t, data) && (CodedLength(t, data) + 7) / 8 <= |data| <= INT_MAX
             && stream == Pack(CodedBits(t, data))
    ensures IsStreamFor(stream, t, data)
  {
  }

  /** The raw form: a flag byte and the data as it is. */
  method StoreRaw(data: seq<Byte>) returns (result: array<Byte>)
    ensures result[..] == [NOT_COMPRESSED_FLAG] + data
  {
    result := new Byte[|data| + 1](i requires 0 <= i <= |data| => if i == 0 then NOT_COMPRESSED_FLAG else data[i - 1]);
  }

  /** compress_data. A null result stands for the empty result of empty input. */
  method Compress(data: seq<Byte>) returns (result: array?<Byte>)
    requires |data| <= INT_MAX && !OverlongRun(data)
    ensures result == null <==> data == []
    ensures data != [] ==> exists t :: IsStreamFor(result[..], t, data)
  {
    hide IsHuffmanForest, IsCodeTable, Symbols, Pack, CodedLength, CodedBits, Distinct, IsStreamFor;
    if data == [] {
      return null;
    }
    var tree, treeRoot, dictionary, table, first0;
    ghost var t;
    tree, treeRoot, dictionary, table, first0, t := BuildCodes(data);
    var compressedSize := EstimateSize(table, data, first0, t);
    var padding := compressedSize % 8;
    compressedSize := compressedSize / 8 + if padding != 0 then 1 else 0;
    if compressedSize > |data| {
      result := StoreRaw(data);
      RawStream(result[..], t, data);
      return;
    }
    result := WriteStream(data, tree, treeRoot, dictionary, table, first0, padding, compressedSize, t);
    CodedStream(result[..], t, data);
  }
}
