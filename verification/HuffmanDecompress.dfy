/** decompress_data (common/src/huffman_encoding.c:295-439). */
module HuffmanDecompress {
  import opened Bits
  import opened HuffmanTree

  /** The array holds the tree t in preorder from index i on. */
  ghost predicate Preorder(a: seq<TreeEntry>, i: nat, t: Tree)
    decreases t
  {
    && i + Nodes(t) <= |a|
    && match t
       case Leaf(c) => a[i] == TreeEntry(c, -1, -1)
       case Node(l, r) =>
         && a[i] == TreeEntry(-1, i + 1, i + 1 + Nodes(l))
         && Preorder(a, i + 1, l)
         && Preorder(a, i + 1 + Nodes(l), r)
  }

  lemma {:induction false} PreorderFrame(a: seq<TreeEntry>, b: seq<TreeEntry>, i: nat, t: Tree)
    requires Preorder(a, i, t) && |b| == |a|
    requires forall k :: i <= k < i + Nodes(t) ==> b[k] == a[k]
    ensures Preorder(b, i, t)
    decreases t
  {
    if t.Node? {
      PreorderFrame(a, b, i + 1, t.left);
      PreorderFrame(a, b, i + 1 + Nodes(t.left), t.right);
    }
  }

  /** Following a path in the array reaches the subtree the path leads to. */
  lemma {:induction false} PreorderSub(a: seq<TreeEntry>, i: nat, t: Tree, bit: bool)
    requires Preorder(a, i, t) && t.Node?
    ensures 0 <= a[i].left < |a| && 0 <= a[i].right < |a| && a[i].val == -1
    ensures bit ==> Preorder(a, a[i].left, t.left)
    ensures !bit ==> Preorder(a, a[i].right, t.right)
  {
  }

  // ---------------------------------------------------------------- rebuilding the tree

  /** An inner node whose subtree is still being read: its index and that subtree. */
  datatype Open = Open(at: nat, tree: Tree)

  ghost predicate Pending(a: seq<TreeEntry>, o: Open) {
    && o.tree.Node?
    && o.at < |a|
    && a[o.at].val == -1 && a[o.at].right == -1
    && (a[o.at].left == -1 || (a[o.at].left == o.at + 1 && Preorder(a, o.at + 1, o.tree.left)))
  }

  ghost function NextIndex(a: seq<TreeEntry>, o: Open): nat
    requires Pending(a, o)
  {
    if a[o.at].left == -1 then o.at + 1 else o.at + 1 + Nodes(o.tree.left)
  }

  ghost function NextTree(a: seq<TreeEntry>, o: Open): Tree
    requires Pending(a, o)
  {
    if a[o.at].left == -1 then o.tree.left else o.tree.right
  }

  ghost predicate Settled(a: seq<TreeEntry>, st: seq<Open>, t: Tree, next: nat) {
    forall j :: 0 <= j < |st| ==>
      Pending(a, st[j]) && NextIndex(a, st[j]) <= next && Leaves(st[j].tree) + j <= Leaves(t)
  }

  ghost predicate Ordered(a: seq<TreeEntry>, st: seq<Open>)
    requires forall j :: 0 <= j < |st| ==> Pending(a, st[j])
  {
    forall i, j :: 0 <= i < j < |st| ==> NextIndex(a, st[i]) <= st[j].at
  }

  ghost predicate Linked(a: seq<TreeEntry>, st: seq<Open>, t: Tree)
    requires forall j :: 0 <= j < |st| ==> Pending(a, st[j])
  {
    && (st != [] ==> st[0] == Open(0, t))
    && forall i, j :: 0 <= i < |st| && j == i + 1 < |st| ==> st[j] == Open(NextIndex(a, st[i]), NextTree(a, st[i]))
  }

  /** The open nodes are exactly a chain of incomplete ancestors, each holding the next one
      in the place it is about to fill; everything before `next` is settled. */
  ghost predicate Chain(a: seq<TreeEntry>, st: seq<Open>, t: Tree, next: nat) {
    Settled(a, st, t, next) && Ordered(a, st) && Linked(a, st, t)
  }

  /** Where the next subtree goes, and which one it is. */
  ghost predicate Expects(a: seq<TreeEntry>, st: seq<Open>, t: Tree, at: nat, cur: Tree)
    requires Chain(a, st, t, at)
  {
    Open(at, cur) == if st == [] then Open(0, t) else Open(NextIndex(a, st[|st| - 1]), NextTree(a, st[|st| - 1]))
  }

  ghost function OwnBits(a: seq<TreeEntry>, o: Open): seq<bool>
    requires Pending(a, o)
  {
    if a[o.at].left == -1 then TreeBits(o.tree.right) else []
  }

  /** The bits still to come after the subtree being read. */
  ghost function Remaining(a: seq<TreeEntry>, st: seq<Open>): seq<bool>
    requires forall j :: 0 <= j < |st| ==> Pending(a, st[j])
  {
    if st == [] then []
    else
      assert Pending(a, st[|st| - 1]);
      OwnBits(a, st[|st| - 1]) + Remaining(a, st[..|st| - 1])
  }

  /** Writes at or after `next` do not touch the chain. */
  lemma {:induction false} ChainFrame(a: seq<TreeEntry>, b: seq<TreeEntry>, st: seq<Open>, t: Tree, next: nat)
    requires Chain(a, st, t, next) && |b| == |a|
    requires forall k :: 0 <= k < next && k < |a| ==> b[k] == a[k]
    ensures Chain(b, st, t, next) && Remaining(b, st) == Remaining(a, st)
  {
    forall j | 0 <= j < |st|
      ensures Pending(b, st[j]) && NextIndex(b, st[j]) == NextIndex(a, st[j])
              && NextTree(b, st[j]) == NextTree(a, st[j])
    {
      assert NextIndex(a, st[j]) <= next;
      if a[st[j].at].left != -1 {
        PreorderFrame(a, b, st[j].at + 1, st[j].tree.left);
      }
    }
    RemainingFrame(a, b, st);
  }

  lemma {:induction false} RemainingFrame(a: seq<TreeEntry>, b: seq<TreeEntry>, st: seq<Open>)
    requires forall j {:trigger st[j]} :: 0 <= j < |st| ==>
             Pending(a, st[j]) && Pending(b, st[j]) && a[st[j].at] == b[st[j].at]
    ensures Remaining(b, st) == Remaining(a, st)
  {
    if st != [] {
      RemainingFrame(a, b, st[..|st| - 1]);
    }
  }

  lemma AllPending(a: seq<TreeEntry>, st: seq<Open>, t: Tree, next: nat)
    requires Chain(a, st, t, next)
    ensures forall j :: 0 <= j < |st| ==> Pending(a, st[j])
  {
  }

  /** The chain without its innermost node, after writes at or after that node. */
  lemma ChainPop(a: seq<TreeEntry>, b: seq<TreeEntry>, st: seq<Open>, top: Open, t: Tree, next: nat)
    requires Chain(a, st + [top], t, next) && Pending(a, top)
    requires |b| == |a| && forall k :: 0 <= k < top.at ==> b[k] == a[k]
    ensures Chain(b, st, t, top.at) && Expects(b, st, t, top.at, top.tree)
    ensures Remaining(a, st + [top]) == OwnBits(a, top) + Remaining(b, st)
  {
    var more := st + [top];
    assert more[..|st|] == st && more[|st|] == top;
    assert forall j :: 0 <= j < |st| ==> more[j] == st[j];
    assert Chain(a, st, t, top.at) && Expects(a, st, t, top.at, top.tree);
    ChainFrame(a, b, st, t, top.at);
    if st != [] {
      assert Pending(a, st[|st| - 1]) && NextIndex(a, st[|st| - 1]) == top.at;
    }
  }

  lemma PushSettled(a: seq<TreeEntry>, st: seq<Open>, top: Open, t: Tree, next: nat)
    requires Settled(a, st, t, top.at) && Pending(a, top) && NextIndex(a, top) == next
    requires Leaves(top.tree) + |st| <= Leaves(t)
    ensures Settled(a, st + [top], t, next)
  {
  }

  lemma PushOrdered(a: seq<TreeEntry>, st: seq<Open>, top: Open, t: Tree, next: nat)
    requires Settled(a, st, t, top.at) && Settled(a, st + [top], t, next) && Ordered(a, st)
    ensures Ordered(a, st + [top])
  {
    hide Pending, NextIndex;
    assert forall j :: 0 <= j < |st| ==> (st + [top])[j] == st[j];
  }

  lemma PushLinked(a: seq<TreeEntry>, st: seq<Open>, top: Open, t: Tree, next: nat)
    requires Chain(a, st, t, top.at) && Settled(a, st + [top], t, next) && Expects(a, st, t, top.at, top.tree)
    ensures Linked(a, st + [top], t)
  {
    hide Pending, NextIndex, NextTree, Ordered;
    assert forall j :: 0 <= j < |st| ==> (st + [top])[j] == st[j];
  }

  /** A chain with one more open node, the subtree that was expected. */
  lemma ChainPush(a: seq<TreeEntry>, st: seq<Open>, top: Open, t: Tree, next: nat)
    requires Chain(a, st, t, top.at) && Expects(a, st, t, top.at, top.tree)
    requires Pending(a, top) && NextIndex(a, top) == next
    ensures Chain(a, st + [top], t, next) && Expects(a, st + [top], t, next, NextTree(a, top))
  {
    hide Pending, NextIndex, NextTree, Leaves;
    ChainLeaves(a, st, top, t);
    PushSettled(a, st, top, t, next);
    PushOrdered(a, st, top, t, next);
    PushLinked(a, st, top, t, next);
  }

  /** There are fewer open nodes than leaves. */
  lemma ChainLeaves(a: seq<TreeEntry>, st: seq<Open>, top: Open, t: Tree)
    requires Chain(a, st, t, top.at) && Expects(a, st, t, top.at, top.tree) && Pending(a, top)
    ensures Leaves(top.tree) + |st| <= Leaves(t)
    ensures |st| + 1 < Leaves(t)
  {
    if st != [] {
      var up := st[|st| - 1].tree;
      assert Leaves(up) == Leaves(up.left) + Leaves(up.right);
    }
    assert Leaves(top.tree) == Leaves(top.tree.left) + Leaves(top.tree.right);
  }

  lemma RemainingPush(a: seq<TreeEntry>, st: seq<Open>, top: Open)
    requires forall j :: 0 <= j < |st| ==> Pending(a, st[j])
    requires Pending(a, top)
    ensures Remaining(a, st + [top]) == OwnBits(a, top) + Remaining(a, st)
  {
    var more := st + [top];
    assert more[..|st|] == st && more[|st|] == top;
  }

  /** An inner node is read: it becomes the innermost open node. */
  lemma PushOpen(a: seq<TreeEntry>, st: seq<Open>, t: Tree, at: nat, cur: Tree)
    requires Chain(a, st, t, at) && Expects(a, st, t, at, cur)
    requires cur.Node? && at < |a| && a[at] == BLANK
    ensures Chain(a, st + [Open(at, cur)], t, at + 1)
    ensures Expects(a, st + [Open(at, cur)], t, at + 1, cur.left)
    ensures Remaining(a, st + [Open(at, cur)]) == TreeBits(cur.right) + Remaining(a, st)
    ensures |st| + 1 < Leaves(t)
  {
    ChainPush(a, st, Open(at, cur), t, at + 1);
    ChainLeaves(a, st, Open(at, cur), t);
    RemainingPush(a, st, Open(at, cur));
  }

  lemma Tip(a: seq<TreeEntry>, st: seq<Open>, top: Open, t: Tree, at: nat, cur: Tree)
    requires Chain(a, st + [top], t, at) && Expects(a, st + [top], t, at, cur)
    ensures Pending(a, top) && top.at < at && top.tree.Node? && top.at < |a|
    ensures Leaves(top.tree) + |st| <= Leaves(t)
    ensures a[top.at].left == -1 ==> at == top.at + 1 && cur == top.tree.left
    ensures a[top.at].left != -1 ==> at == top.at + 1 + Nodes(top.tree.left) && cur == top.tree.right
    ensures a[top.at].left != -1 ==> OwnBits(a, top) == []
  {
    assert (st + [top])[|st|] == top;
  }

  /** A complete subtree becomes the left child of the innermost open node. */
  lemma LinkLeft(a: seq<TreeEntry>, b: seq<TreeEntry>, top: Open)
    requires Pending(a, top) && a[top.at].left == -1 && Preorder(a, top.at + 1, top.tree.left)
    requires b == a[top.at := a[top.at].(left := top.at + 1)]
    ensures Pending(b, top) && NextIndex(b, top) == top.at + 1 + Nodes(top.tree.left)
    ensures NextTree(b, top) == top.tree.right && OwnBits(b, top) == []
  {
    PreorderFrame(a, b, top.at + 1, top.tree.left);
  }

  lemma FillLeft(a: seq<TreeEntry>, b: seq<TreeEntry>, st: seq<Open>, top: Open, t: Tree, at: nat, cur: Tree)
    requires Chain(a, st + [top], t, at) && Expects(a, st + [top], t, at, cur) && Preorder(a, at, cur)
    requires Pending(a, top) && a[top.at].left == -1
    requires b == a[top.at := a[top.at].(left := at)]
    ensures Chain(b, st + [top], t, at + Nodes(cur))
    ensures Expects(b, st + [top], t, at + Nodes(cur), top.tree.right)
  {
    hide *;
    Tip(a, st, top, t, at, cur);
    ChainPop(a, b, st, top, t, at);
    LinkLeft(a, b, top);
    ChainPush(b, st, top, t, at + Nodes(cur));
  }

  lemma FillLeftBits(a: seq<TreeEntry>, b: seq<TreeEntry>, st: seq<Open>, top: Open, t: Tree, at: nat, next: nat)
    requires Chain(a, st + [top], t, at) && Pending(a, top) && a[top.at].left == -1
    requires |b| == |a| && forall k :: 0 <= k < top.at ==> b[k] == a[k]
    requires Pending(b, top) && b[top.at].left != -1
    requires Chain(b, st + [top], t, next)
    ensures Remaining(a, st + [top]) == TreeBits(top.tree.right) + Remaining(b, st + [top])
  {
    hide Pending, Chain, Expects, Remaining, TreeBits, Leaves;
    ChainPop(a, b, st, top, t, at);
    AllPending(b, st, t, top.at);
    RemainingPush(b, st, top);
  }

  /** A complete subtree becomes the right child, which completes the innermost open node itself. */
  lemma LinkRight(a: seq<TreeEntry>, b: seq<TreeEntry>, top: Open, at: nat)
    requires Pending(a, top) && a[top.at].left != -1 && at == top.at + 1 + Nodes(top.tree.left)
    requires Preorder(a, at, top.tree.right)
    requires b == a[top.at := a[top.at].(right := at)]
    ensures Preorder(b, top.at, top.tree)
    ensures top.at + Nodes(top.tree) == at + Nodes(top.tree.right)
  {
    PreorderFrame(a, b, top.at + 1, top.tree.left);
    PreorderFrame(a, b, at, top.tree.right);
  }

  lemma FillRight(a: seq<TreeEntry>, b: seq<TreeEntry>, st: seq<Open>, top: Open, t: Tree, at: nat, cur: Tree)
    requires Chain(a, st + [top], t, at) && Expects(a, st + [top], t, at, cur) && Preorder(a, at, cur)
    requires Pending(a, top) && a[top.at].left != -1
    requires b == a[top.at := a[top.at].(right := at)]
    ensures Chain(b, st, t, top.at) && Expects(b, st, t, top.at, top.tree)
    ensures Preorder(b, top.at, top.tree)
    ensures top.at + Nodes(top.tree) == at + Nodes(cur)
    ensures Remaining(b, st) == Remaining(a, st + [top])
  {
    hide *;
    Tip(a, st, top, t, at, cur);
    ChainPop(a, b, st, top, t, at);
    LinkRight(a, b, top, at);
  }

  /** The subtree being read ends inside the tree. */
  lemma {:induction false} EndsInside(a: seq<TreeEntry>, st: seq<Open>, t: Tree, at: nat, cur: Tree)
    requires Chain(a, st, t, at) && Expects(a, st, t, at, cur)
    ensures at + Nodes(cur) <= Nodes(t)
  {
    if st != [] {
      var base, top := st[..|st| - 1], st[|st| - 1];
      assert base + [top] == st;
      ChainPop(a, a, base, top, t, at);
      EndsInside(a, base, t, top.at, top.tree);
    }
  }

  /** Between two nodes: `cur` is read next and stored from index `at` on; `todo` are the unread bits. */
  ghost predicate Reading(a: seq<TreeEntry>, fathers: seq<int>, st: seq<Open>, t: Tree, at: nat, cur: Tree,
                          todo: seq<bool>, rest: seq<bool>)
  {
    && |a| == 2 * Leaves(t) && |fathers| == 256 && Leaves(t) <= 256 && |st| < Leaves(t)
    && (forall j :: 0 <= j < |st| ==> fathers[j + 1] == st[j].at)
    && (forall k :: at <= k < |a| ==> a[k] == BLANK)
    && Chain(a, st, t, at) && Expects(a, st, t, at, cur)
    && todo == TreeBits(cur) + (Remaining(a, st) + rest)
  }

  /** A subtree `cur` at index `at` is complete and waits to be hung under the innermost open node;
      the next unused index is `next`. */
  ghost predicate Closing(a: seq<TreeEntry>, fathers: seq<int>, st: seq<Open>, t: Tree, at: nat, cur: Tree,
                          next: nat, todo: seq<bool>, rest: seq<bool>)
  {
    && |a| == 2 * Leaves(t) && |fathers| == 256 && Leaves(t) <= 256 && |st| < Leaves(t)
    && (forall j :: 0 <= j < |st| ==> fathers[j + 1] == st[j].at)
    && (forall k :: next <= k < |a| ==> a[k] == BLANK)
    && Chain(a, st, t, at) && Expects(a, st, t, at, cur)
    && Preorder(a, at, cur) && at + Nodes(cur) == next
    && todo == Remaining(a, st) + rest
  }

  lemma ReadInner(a: seq<TreeEntry>, fathers: seq<int>, st: seq<Open>, t: Tree, at: nat, cur: Tree,
                  todo: seq<bool>, rest: seq<bool>)
    requires Reading(a, fathers, st, t, at, cur, todo, rest) && cur.Node?
    ensures at < |a| && |st| + 1 < 256 && todo != [] && !todo[0]
    ensures Reading(a, fathers[|st| + 1 := at], st + [Open(at, cur)], t, at + 1, cur.left, todo[1..], rest)
  {
    hide Chain, Expects, Remaining, TreeBits, Leaves, Nodes, Symbols;
    EndsInside(a, st, t, at, cur);
    InnerIsSmaller(cur);
    AllPending(a, st, t, at);
    PushOpen(a, st, t, at, cur);
    NodeHead(cur.left, cur.right, Remaining(a, st) + rest);
    AllPending(a, st + [Open(at, cur)], t, at + 1);
    assert TreeBits(cur.right) + (Remaining(a, st) + rest) == Remaining(a, st + [Open(at, cur)]) + rest;
  }

  lemma InnerIsSmaller(t: Tree)
    requires t.Node?
    ensures Leaves(t) == Leaves(t.left) + Leaves(t.right)
    ensures Leaves(t) >= 2
  {
  }

  lemma ReadLeaf(a: seq<TreeEntry>, fathers: seq<int>, st: seq<Open>, t: Tree, at: nat, cur: Tree,
                 todo: seq<bool>, rest: seq<bool>)
    requires Reading(a, fathers, st, t, at, cur, todo, rest) && cur.Leaf?
    ensures at < |a| && |todo| >= 9 && todo[0] && todo[1..9] == ByteBits(cur.sym)
    ensures a[at] == BLANK && (Leaves(t) >= 2 ==> st != [])
    ensures Closing(a[at := TreeEntry(cur.sym, -1, -1)], fathers, st, t, at, cur, at + 1, todo[9..], rest)
  {
    hide Chain, Remaining, TreeBits, ByteBits, Symbols;
    EndsInside(a, st, t, at, cur);
    AllPending(a, st, t, at);
    LeafHead(cur.sym, Remaining(a, st) + rest);
    ChainWrite(a, a[at := TreeEntry(cur.sym, -1, -1)], st, t, at, cur);
  }

  lemma ChainWrite(a: seq<TreeEntry>, b: seq<TreeEntry>, st: seq<Open>, t: Tree, at: nat, cur: Tree)
    requires Chain(a, st, t, at) && Expects(a, st, t, at, cur)
    requires |b| == |a| && forall k :: 0 <= k < at && k < |a| ==> b[k] == a[k]
    ensures Chain(b, st, t, at) && Expects(b, st, t, at, cur) && Remaining(b, st) == Remaining(a, st)
  {
    hide Remaining, Leaves;
    ChainFrame(a, b, st, t, at);
    if st != [] {
      assert Pending(a, st[|st| - 1]) && NextIndex(a, st[|st| - 1]) == at;
    }
  }

  lemma SplitTop(st: seq<Open>)
    requires st != []
    ensures st == st[..|st| - 1] + [st[|st| - 1]]
  {
  }

  lemma CloseLeft(a: seq<TreeEntry>, fathers: seq<int>, st: seq<Open>, top: Open, t: Tree, at: nat,
                  cur: Tree, next: nat, todo: seq<bool>, rest: seq<bool>)
    requires Closing(a, fathers, st + [top], t, at, cur, next, todo, rest)
    requires Pending(a, top) && a[top.at].left == -1
    ensures Reading(a[top.at := a[top.at].(left := at)], fathers, st + [top], t, next, top.tree.right, todo, rest)
  {
    hide Chain, Expects, Remaining, Preorder, TreeBits, Leaves, Nodes, Symbols;
    var b := a[top.at := a[top.at].(left := at)];
    Tip(a, st, top, t, at, cur);
    FillLeft(a, b, st, top, t, at, cur);
    AllPending(b, st + [top], t, next);
    Tip(b, st, top, t, next, top.tree.right);
    FillLeftBits(a, b, st, top, t, at, next);
    assert TreeBits(top.tree.right) + Remaining(b, st + [top]) + rest
        == TreeBits(top.tree.right) + (Remaining(b, st + [top]) + rest);
  }

  lemma CloseRight(a: seq<TreeEntry>, fathers: seq<int>, st: seq<Open>, top: Open, t: Tree, at: nat,
                   cur: Tree, next: nat, todo: seq<bool>, rest: seq<bool>)
    requires Closing(a, fathers, st + [top], t, at, cur, next, todo, rest)
    requires Pending(a, top) && a[top.at].left != -1
    ensures Closing(a[top.at := a[top.at].(right := at)], fathers, st, t, top.at, top.tree, next, todo, rest)
  {
    hide Chain, Expects, Remaining, Preorder, Leaves, Nodes, Symbols;
    Tip(a, st, top, t, at, cur);
    FillRight(a, a[top.at := a[top.at].(right := at)], st, top, t, at, cur);
    assert forall j :: 0 <= j < |st| ==> (st + [top])[j] == st[j];
  }

  /** Nothing is open any more: the whole tree has been read. */
  lemma AllRead(a: seq<TreeEntry>, fathers: seq<int>, t: Tree, at: nat, cur: Tree, next: nat,
                todo: seq<bool>, rest: seq<bool>)
    requires Closing(a, fathers, [], t, at, cur, next, todo, rest)
    ensures Preorder(a, 0, t) && next == Nodes(t) == |a| - 1 && todo == rest
  {
  }

  lemma StartReading(a: seq<TreeEntry>, fathers: seq<int>, t: Tree, rest: seq<bool>)
    requires |a| == 2 * Leaves(t) && |fathers| == 256 && Leaves(t) <= 256
    requires forall k :: 0 <= k < |a| ==> a[k] == BLANK
    ensures Reading(a, fathers, [], t, 0, t, TreeBits(t) + rest, rest)
  {
    assert [] + rest == rest;
  }

  /** The tree has 2 * leaves - 1 nodes, so the counting loop stops exactly at its end. */
  lemma ReadingInside(a: seq<TreeEntry>, fathers: seq<int>, st: seq<Open>, t: Tree, at: nat, cur: Tree,
                      todo: seq<bool>, rest: seq<bool>)
    requires Reading(a, fathers, st, t, at, cur, todo, rest)
    ensures at < |a| - 1 && todo != []
    ensures cur.Leaf? ==> |todo| >= 9 && todo[0] && todo[1..9] == ByteBits(cur.sym)
    ensures cur.Node? ==> !todo[0]
  {
    EndsInside(a, st, t, at, cur);
    if cur.Leaf? {
      ReadLeaf(a, fathers, st, t, at, cur, todo, rest);
    } else {
      ReadInner(a, fathers, st, t, at, cur, todo, rest);
    }
  }

  /** The do-while loop: hangs a complete subtree under the innermost open node, and the node itself
      under the next one for as long as nodes become complete. */
  method UpdateFathers(tree: array<TreeEntry>, fathers: array<int>, qSize0: nat, treeInd: nat,
                       ghost st0: seq<Open>, ghost t: Tree, ghost cur0: Tree,
                       ghost todo: seq<bool>, ghost rest: seq<bool>)
    returns (qSize: nat, ghost st: seq<Open>, ghost cur: Tree)
    requires |st0| == qSize0 > 0
    requires Closing(tree[..], fathers[..], st0, t, treeInd, cur0, treeInd + 1, todo, rest)
    modifies tree
    ensures |st| == qSize <= qSize0
    ensures qSize > 0 ==> Reading(tree[..], fathers[..], st, t, treeInd + 1, cur, todo, rest)
    ensures qSize == 0 ==> Preorder(tree[..], 0, t) && treeInd + 1 == tree.Length - 1 && todo == rest
  {
    hide Reading, Preorder, Chain, Expects, Remaining, Nodes, Leaves, Symbols, TreeBits;
    var updated, tmpInd: nat := false, treeInd;
    qSize, st, cur := qSize0, st0, cur0;
    while true
      invariant |st| == qSize <= qSize0
      invariant !updated && qSize > 0
      invariant Closing(tree[..], fathers[..], st, t, tmpInd, cur, treeInd + 1, todo, rest)
      decreases qSize
    {
      ghost var base, top := st[..qSize - 1], st[qSize - 1];
      SplitTop(st);
      Tip(tree[..], base, top, t, tmpInd, cur);
      ghost var a := tree[..];
      var father := fathers[qSize];
      assert father == top.at;
      if tree[father].left == -1 {
        CloseLeft(a, fathers[..], base, top, t, tmpInd, cur, treeInd + 1, todo, rest);
        tree[father] := tree[father].(left := tmpInd);
        assert tree[..] == a[top.at := a[top.at].(left := tmpInd)];
        cur := top.tree.right;
        updated := true;
      } else if tree[father].right == -1 {
        CloseRight(a, fathers[..], base, top, t, tmpInd, cur, treeInd + 1, todo, rest);
        tree[father] := tree[father].(right := tmpInd);
        assert tree[..] == a[top.at := a[top.at].(right := tmpInd)];
        tmpInd := father;
        qSize := qSize - 1;
        st, cur := base, top.tree;
      }
      if updated || qSize == 0 {
        break;
      }
    }
    if qSize == 0 {
      AllRead(tree[..], fathers[..], t, tmpInd, cur, treeInd + 1, todo, rest);
    }
  }

  lemma ReadingNext(todo: seq<bool>, z: seq<bool>, p: nat, n: nat)
    requires p + n <= |z| && z[p..] == todo && n <= |todo|
    ensures z[p + n..] == todo[n..] && z[p..p + n] == todo[..n]
  {
  }

  /** The symbol of a leaf: read after the flag bit and stored. */
  method StoreLeaf(input: BitReader, tree: array<TreeEntry>, fathers: array<int>, treeInd: nat,
                   ghost st: seq<Open>, ghost t: Tree, ghost cur: Tree, ghost todo: seq<bool>, ghost rest: seq<bool>)
    requires input.Valid() && cur.Leaf? && 0 <= input.Pos() <= 8 * |input.stream|
    requires Reading(tree[..], fathers[..], st, t, treeInd, cur, todo, rest)
    requires todo != [] && Unpack(input.stream)[input.Pos()..] == todo[1..]
    modifies input, tree
    ensures input.Valid() && 0 <= input.Pos() <= 8 * |input.stream|
    ensures |todo| >= 9 && Unpack(input.stream)[input.Pos()..] == todo[9..]
    ensures Closing(tree[..], fathers[..], st, t, treeInd, cur, treeInd + 1, todo[9..], rest)
    ensures Leaves(t) >= 2 ==> st != []
  {
    hide Reading, Closing, Unpack, PackByte, ByteBits, Leaves;
    ghost var a, p, z := tree[..], input.Pos(), Unpack(input.stream);
    ReadLeaf(a, fathers[..], st, t, treeInd, cur, todo, rest);
    ReadingNext(todo[1..], z, p, 8);
    assert todo[1..][..8] == todo[1..9] && todo[1..][8..] == todo[9..];
    PackOfByteBits(cur.sym);
    ServedInside(input.stream, p, 8);
    var val := input.ReadByte();
    assert val == cur.sym;
    tree[treeInd] := tree[treeInd].(val := val);
    assert tree[..] == a[treeInd := TreeEntry(cur.sym, -1, -1)];
  }

  /** Reads the preorder form of a tree and rebuilds the tree in an array. */
  method RebuildTree(input: BitReader, charCount: nat, ghost t: Tree, ghost rest: seq<bool>)
    returns (tree: array<TreeEntry>)
    requires input.Valid() && 2 <= charCount == Leaves(t) <= 256
    requires 0 <= input.Pos() <= 8 * |input.stream|
    requires Unpack(input.stream)[input.Pos()..] == TreeBits(t) + rest
    modifies input
    ensures Preorder(tree[..], 0, t)
    ensures input.Valid() && 0 <= input.Pos() <= 8 * |input.stream| && Unpack(input.stream)[input.Pos()..] == rest
  {
    hide Reading, Closing, Preorder, Leaves, Nodes, TreeBits, Unpack, ByteBits, BitReader.Valid, ServedBits;
    var treeSize := charCount * 2;
    tree := new TreeEntry[treeSize](_ => BLANK);
    var fathers := new int[256](_ => 0);
    var qSize: nat := 0;
    ghost var z := Unpack(input.stream);
    ghost var st: seq<Open>, cur, todo := [], t, TreeBits(t) + rest;
    StartReading(tree[..], fathers[..], t, rest);
    var treeInd: nat := 0;
    while treeInd < treeSize - 1
      invariant input.Valid() && 0 <= input.Pos() <= |z| && z[input.Pos()..] == todo
      invariant |st| == qSize
      invariant qSize > 0 || treeInd == 0 ==> Reading(tree[..], fathers[..], st, t, treeInd, cur, todo, rest)
      invariant qSize == 0 && treeInd > 0 ==> Preorder(tree[..], 0, t) && treeInd == treeSize - 1 && todo == rest
      decreases treeSize - treeInd
    {
      ghost var a, p := tree[..], input.Pos();
      ReadingInside(a, fathers[..], st, t, treeInd, cur, todo, rest);
      ReadingNext(todo, z, p, 1);
      var bitValue := input.ReadBit();
      assert bitValue == todo[0];
      if bitValue {
        StoreLeaf(input, tree, fathers, treeInd, st, t, cur, todo, rest);
        todo := todo[9..];
        qSize, st, cur := UpdateFathers(tree, fathers, qSize, treeInd, st, t, cur, todo, rest);
      } else {
        ReadInner(a, fathers[..], st, t, treeInd, cur, todo, rest);
        qSize := qSize + 1;
        ghost var f := fathers[..];
        fathers[qSize] := treeInd;
        assert fathers[..] == f[qSize := treeInd];
        st, cur, todo := st + [Open(treeInd, cur)], cur.left, todo[1..];
      }
      treeInd := treeInd + 1;
    }
    if qSize > 0 {
      ReadingInside(tree[..], fathers[..], st, t, treeInd, cur, todo, rest);
      assert false;
    }
  }

  // ---------------------------------------------------------------- decoding the content

  /** After k bytes of the data and the bits `pre` of the next code, `used` content bits are gone. */
  ghost predicate Decoding(t: Tree, data: seq<Byte>, k: nat, pre: seq<bool>, used: nat)
    requires Covers(t, data)
  {
    && k <= |data|
    && used == |Encode(t, data[..k])| + |pre|
    && (k == |data| ==> pre == [])
    && (k < |data| ==> pre < Code(t, data[k]))
  }

  lemma DecodingStart(t: Tree, data: seq<Byte>)
    requires Covers(t, data) && t.Node?
    ensures Decoding(t, data, 0, [], 0) && IsPath(t, []) && Sub(t, []) == t
  {
    assert data[..0] == [];
    if data != [] {
      CodeAtMostHeight(t, data[0]);
    }
  }

  lemma DecodingDone(t: Tree, data: seq<Byte>, k: nat, pre: seq<bool>, used: nat)
    requires Covers(t, data) && Decoding(t, data, k, pre, used)
    ensures used <= |Encode(t, data)|
    ensures used == |Encode(t, data)| <==> k == |data|
  {
    if k < |data| {
      EncodeSplit(t, data, k);
    } else {
      assert data[..k] == data;
    }
  }

  lemma PrefixGrows(code: seq<bool>, pre: seq<bool>)
    requires pre < code
    ensures code[..|pre|] == pre && code[..|pre| + 1] == pre + [code[|pre|]]
  {
  }

  /** One content bit moves one step down the current code, to a leaf exactly at its end. */
  lemma DecodingStep(t: Tree, data: seq<Byte>, k: nat, pre: seq<bool>, used: nat, bit: bool)
    requires Covers(t, data) && t.Node? && Decoding(t, data, k, pre, used) && used < |Encode(t, data)|
    requires bit == Encode(t, data)[used]
    ensures k < |data| && IsPath(t, pre) && Sub(t, pre).Node?
    ensures var u := if bit then Sub(t, pre).left else Sub(t, pre).right;
            if u.Leaf? then u.sym == data[k] && Decoding(t, data, k + 1, [], used + 1)
            else IsPath(t, pre + [bit]) && Sub(t, pre + [bit]) == u && Decoding(t, data, k, pre + [bit], used + 1)
  {
    DecodingDone(t, data, k, pre, used);
    EncodeSplit(t, data, k);
    EncodeStep(t, data, k);
    var code := Code(t, data[k]);
    assert bit == code[|pre|];
    PrefixGrows(code, pre);
    CodePrefix(t, data[k], |pre|);
    CodePrefix(t, data[k], |pre| + 1);
    PathStep(t, pre, bit);
    if k + 1 < |data| {
      CodeAtMostHeight(t, data[k + 1]);
    }
  }

  /** Everything the decoding loops keep: where the decoder stands in the content and in the tree,
      and that the output holds exactly the bytes decoded so far. */
  ghost predicate DecoderState(a: seq<TreeEntry>, t: Tree, data: seq<Byte>, treeInd: int, k: nat, pre: seq<bool>,
                               used: nat, written: seq<bool>)
  {
    && Covers(t, data) && Decoding(t, data, k, pre, used)
    && IsPath(t, pre) && treeInd >= 0 && Preorder(a, treeInd, Sub(t, pre))
    && Preorder(a, 0, t)
    && written == Unpack(data[..k])
  }

  lemma DecoderStep(a: seq<TreeEntry>, t: Tree, data: seq<Byte>, treeInd: int, k: nat, pre: seq<bool>, used: nat,
                    written: seq<bool>, bit: bool)
    requires DecoderState(a, t, data, treeInd, k, pre, used, written) && t.Node?
    requires used < |Encode(t, data)| && bit == Encode(t, data)[used]
    ensures 0 <= treeInd < |a| && k < |data|
    ensures var next := if bit then a[treeInd].left else a[treeInd].right;
            && 0 <= next < |a|
            && if a[next].val != -1
               then a[next].val == data[k]
                    && DecoderState(a, t, data, 0, k + 1, [], used + 1, written + ByteBits(data[k]))
               else DecoderState(a, t, data, next, k, pre + [bit], used + 1, written)
  {
    hide Decoding, Unpack, ByteBits;
    DecodingStep(t, data, k, pre, used, bit);
    PreorderSub(a, treeInd, Sub(t, pre), bit);
    UnpackStep(data, k);
  }

  /** The body shared by the three decoding loops. */
  method DecodeBit(input: BitReader, out: BitWriter, tree: array<TreeEntry>, treeInd: int,
                   ghost t: Tree, ghost data: seq<Byte>, ghost base: nat, ghost k: nat, ghost pre: seq<bool>)
    returns (next: int, ghost k': nat, ghost pre': seq<bool>)
    requires input.Valid() && out.Valid() && t.Node?
    requires base <= input.Pos() && Covers(t, data) && input.Pos() < base + |Encode(t, data)|
    requires DecoderState(tree[..], t, data, treeInd, k, pre, input.Pos() - base, out.bits)
    requires base <= |Unpack(input.stream)| && Encode(t, data) <= Unpack(input.stream)[base..]
    modifies input, out, out.stream
    ensures input.Valid() && out.Valid() && input.Pos() == old(input.Pos()) + 1
    ensures DecoderState(tree[..], t, data, next, k', pre', input.Pos() - base, out.bits)
  {
    hide DecoderState, Preorder, Unpack, Encode, ByteBits;
    ghost var used := input.Pos() - base;
    var bitValue := input.ReadBit();
    assert bitValue == Encode(t, data)[used];
    DecoderStep(tree[..], t, data, treeInd, k, pre, used, out.bits, bitValue);
    next := if bitValue then tree[treeInd].left else tree[treeInd].right;
    if tree[next].val != -1 {
      out.WriteByte(tree[next].val);
      next, k', pre' := 0, k + 1, [];
    } else {
      k', pre' := k, pre + [bitValue];
    }
  }

  /** The three loops of the decoder read the content in three runs: up to a byte boundary, up to the last byte
      that holds content (the whole stream when there is no padding), and the valid bits of that byte. */
  lemma ThreeRuns(base: nat, content: nat, size: nat, padding: nat)
    requires size == (base + content + 7) / 8 && padding == (base + content) % 8 && content >= 9
    ensures var lastByte := if padding == 0 then 8 * size else 8 * (size - 1);
            base + (8 - base % 8) <= lastByte && lastByte + padding == base + content
  {
  }

  /** A coded stream has at least nine content bits, so the alignment run stays inside the content. */
  lemma EnoughContent(stream: seq<Byte>, t: Tree, data: seq<Byte>)
    requires IsCoded(stream, t, data)
    ensures t.Node? && Covers(t, data) && |Encode(t, data)| >= |data| >= 9
    ensures |stream| == (Prologue(t) + |Encode(t, data)| + 7) / 8
    ensures CodedLength(t, data) == Prologue(t) + |Encode(t, data)|
  {
    CodedFirstByte(stream, t, data);
    EncodeAtLeastOneBitEach(t, data);
  }

  /** Steps 6.1 to 6.3: decodes the content into `out`. */
  method DecodeContent(input: BitReader, out: BitWriter, tree: array<TreeEntry>, padding: nat,
                       ghost t: Tree, ghost data: seq<Byte>)
    requires input.Valid() && out.Valid() && out.bits == [] && IsCoded(input.stream, t, data)
    requires Preorder(tree[..], 0, t)
    requires input.Pos() == Prologue(t) && padding == CodedLength(t, data) % 8
    requires Prologue(t) <= |Unpack(input.stream)| && Encode(t, data) <= Unpack(input.stream)[Prologue(t)..]
    modifies input, out, out.stream
    ensures out.Valid() && out.bits == Unpack(data)
    ensures input.Pos() == CodedLength(t, data)
  {
    hide DecoderState, Preorder, Unpack, Encode, IsCoded, CodedLength, Prologue, Covers;
    EnoughContent(input.stream, t, data);
    ghost var base, content, size := Prologue(t), |Encode(t, data)|, |input.stream|;
    ThreeRuns(base, content, size, padding);
    DecoderStart(tree[..], input.stream, t, data);
    ghost var lastByte := if padding == 0 then 8 * size else 8 * (size - 1);
    ghost var k: nat, pre: seq<bool> := 0, [];
    var treeInd := 0;
    var extraBits := 8 - input.byteIndex;
    var i := 0;
    while i < extraBits
      invariant 0 <= i <= extraBits && input.Valid() && out.Valid() && input.Pos() == base + i
      invariant DecoderState(tree[..], t, data, treeInd, k, pre, input.Pos() - base, out.bits)
    {
      treeInd, k, pre := DecodeBit(input, out, tree, treeInd, t, data, base, k, pre);
      i := i + 1;
    }
    while input.streamIndex < |input.stream| || (input.streamIndex <= |input.stream| && padding == 0)
      invariant input.Valid() && out.Valid() && base <= input.Pos() <= lastByte
      invariant DecoderState(tree[..], t, data, treeInd, k, pre, input.Pos() - base, out.bits)
      decreases lastByte - input.Pos()
    {
      treeInd, k, pre := DecodeBit(input, out, tree, treeInd, t, data, base, k, pre);
    }
    assert input.Pos() == lastByte;
    i := 0;
    while i < padding
      invariant 0 <= i <= padding && input.Valid() && out.Valid() && input.Pos() == lastByte + i
      invariant DecoderState(tree[..], t, data, treeInd, k, pre, input.Pos() - base, out.bits)
    {
      treeInd, k, pre := DecodeBit(input, out, tree, treeInd, t, data, base, k, pre);
      i := i + 1;
    }
    AllDecoded(tree[..], t, data, treeInd, k, pre, out.bits);
  }

  lemma DecoderStart(a: seq<TreeEntry>, stream: seq<Byte>, t: Tree, data: seq<Byte>)
    requires IsCoded(stream, t, data) && Preorder(a, 0, t)
    ensures Covers(t, data) && DecoderState(a, t, data, 0, 0, [], 0, [])
  {
    EnoughContent(stream, t, data);
    DecodingStart(t, data);
    assert data[..0] == [] && Unpack([]) == [];
  }

  lemma AllDecoded(a: seq<TreeEntry>, t: Tree, data: seq<Byte>, treeInd: int, k: nat, pre: seq<bool>,
                   written: seq<bool>)
    requires Covers(t, data) && DecoderState(a, t, data, treeInd, k, pre, |Encode(t, data)|, written)
    ensures written == Unpack(data)
  {
    hide Unpack, Preorder;
    DecodingDone(t, data, k, pre, |Encode(t, data)|);
    assert data[..k] == data;
  }

  /** The header's six bytes: flag with padding, leaf count and, in four bytes, the original size. */
  predicate HeaderReads(z: seq<bool>, padding: nat, leaves: nat, size: nat)
    requires |z| >= 48
  {
    && PackByte(z[0..8]) == COMPRESSED_FLAG + padding
    && PackByte(z[8..16]) == leaves - 1
    && size == PackByte(z[16..24]) * 0x100_0000 + PackByte(z[24..32]) * 0x1_0000
               + PackByte(z[32..40]) * 0x100 + PackByte(z[40..48])
  }

  /** The bytes of the header, as the reader meets them. */
  lemma HeaderFields(stream: seq<Byte>, t: Tree, data: seq<Byte>)
    requires IsCoded(stream, t, data)
    ensures 48 <= Prologue(t) <= |Unpack(stream)|
    ensures HeaderReads(Unpack(stream), CodedLength(t, data) % 8, Leaves(t), |data|)
    ensures Unpack(stream)[48..] == TreeBits(t) + (Encode(t, data) + Unpack(stream)[CodedLength(t, data)..])
  {
    hide PackByte, ByteBits, HeaderBits, HeaderReads, Encode, TreeBits, Unpack, Pack;
    CodedParts(stream, t, data);
    HeaderRead(Unpack(stream), CodedLength(t, data) % 8, Leaves(t), |data|);
  }

  lemma HeaderRead(z: seq<bool>, padding: nat, leaves: nat, size: nat)
    requires |z| >= 48 && padding < 8 && 1 <= leaves <= 256 && size <= INT_MAX
    requires z[..48] == HeaderBits(padding, leaves, size)
    ensures HeaderReads(z, padding, leaves, size)
  {
    hide PackByte, ByteBits, HeaderBits;
    var h := HeaderBits(padding, leaves, size);
    assert z[0..8] == h[0..8] && z[8..16] == h[8..16] && z[16..24] == h[16..24];
    assert z[24..32] == h[24..32] && z[32..40] == h[32..40] && z[40..48] == h[40..48];
    HeaderSlices(padding, leaves, size);
    PackOfByteBits(COMPRESSED_FLAG + padding);
    PackOfByteBits(leaves - 1);
    PackOfByteBits(size / 0x100_0000);
    PackOfByteBits(size / 0x1_0000);
    PackOfByteBits(size / 0x100);
    PackOfByteBits(size);
    FourBytes(size);
  }

  /** `originalSize`: the four bytes combined with shifts and ors; the parts do not overlap, so or is plus. */
  function JoinSize(b3: Byte, b2: Byte, b1: Byte, b0: Byte): nat {
    b3 * 0x100_0000 + b2 * 0x1_0000 + b1 * 0x100 + b0
  }

  /** Steps 2 and 3, once the flag byte has been read: leaf count and original size. */
  method ReadHeader(input: BitReader, ghost t: Tree, ghost data: seq<Byte>) returns (charCount: nat, originalSize: nat)
    requires input.Valid() && input.Pos() == 8 && IsCoded(input.stream, t, data)
    modifies input
    ensures input.Valid() && input.Pos() == 48
    ensures charCount == Leaves(t) && originalSize == |data|
  {
    hide PackByte, Unpack, Served, ServedBits, Leaves, Encode, TreeBits, CodedLength, Prologue, IsCoded;
    HeaderFields(input.stream, t, data);
    HeaderFits(input.stream, t, data);
    forall p | 0 <= p <= 40
      ensures ServedBits(input.stream, p, 8) == Unpack(input.stream)[p..p + 8]
    {
      ServedInside(input.stream, p, 8);
    }
    var b: int := input.ReadByte();
    charCount := b + 1;  // never 0, so the source's correction of a zero count has nothing to do
    var b3 := input.ReadByte();
    var b2 := input.ReadByte();
    var b1 := input.ReadByte();
    var b0 := input.ReadByte();
    originalSize := JoinSize(b3, b2, b1, b0);
  }

  lemma HeaderFits(stream: seq<Byte>, t: Tree, data: seq<Byte>)
    requires IsCoded(stream, t, data)
    ensures 48 <= Prologue(t) <= |Unpack(stream)| == 8 * |stream|
    ensures 2 <= Leaves(t) <= 256
  {
    CodedParts(stream, t, data);
  }

  lemma ContentFollows(stream: seq<Byte>, t: Tree, data: seq<Byte>, at: nat)
    requires IsCoded(stream, t, data) && at <= |Unpack(stream)|
    requires Unpack(stream)[at..] == Encode(t, data) + Unpack(stream)[CodedLength(t, data)..]
    ensures at == Prologue(t) && Encode(t, data) <= Unpack(stream)[at..]
  {
    CodedParts(stream, t, data);
  }

  /** The padding is in the low six bits of the first byte. */
  function PaddingOf(header1: Byte): nat {
    header1 % 0x40
  }

  lemma FirstByteRead(data: seq<Byte>)
    requires data != []
    ensures PackByte(ServedBits(data, 0, 8)) == data[0]
  {
    hide PackByte;
    ServedInside(data, 0, 8);
    PackOfUnpack(data, 0);
    assert Group(Unpack(data), 0) == Unpack(data)[0..8];
  }

  /** The flag bit tells coded input from raw input. */
  lemma FlagBit(b: Byte)
    ensures CheckBit(b, 7) <==> b >= COMPRESSED_FLAG
  {
  }

  /** Steps 3 to 6 for input flagged as coded. */
  method DecompressCoded(input: BitReader, header1: Byte, ghost t: Tree, ghost text: seq<Byte>)
    returns (result: array<Byte>)
    requires input.Valid() && input.Pos() == 8 && IsCoded(input.stream, t, text)
    requires header1 == COMPRESSED_FLAG + CodedLength(t, text) % 8
    modifies input
    ensures result[..] == text
  {
    hide PackByte, Unpack, Leaves, Encode, TreeBits, CodedLength, Prologue, IsCoded, Preorder, Covers;
    EnoughContent(input.stream, t, text);
    var padding := PaddingOf(header1);
    var charCount, originalSize := ReadHeader(input, t, text);
    ghost var rest := Encode(t, text) + Unpack(input.stream)[CodedLength(t, text)..];
    HeaderFields(input.stream, t, text);
    HeaderFits(input.stream, t, text);
    var tree := RebuildTree(input, charCount, t, rest);
    ContentFollows(input.stream, t, text, input.Pos());
    var out := new BitWriter(originalSize);
    DecodeContent(input, out, tree, padding, t, text);
    OutputIs(out, text);
    result := out.stream;
  }

  /** A writer that received the bits of as many bytes as it has room for holds those bytes. */
  lemma OutputIs(out: BitWriter, text: seq<Byte>)
    requires out.Valid() && out.bits == Unpack(text) && out.stream.Length == |text|
    ensures out.stream[..] == text
  {
    hide PackByte;
    forall i | 0 <= i < |text|
      ensures out.stream[i] == text[i]
    {
      PackOfUnpack(text, i);
    }
  }

  /** decompress_data. A null result stands for the empty result of empty input. The source does not defend itself
      against streams that no coder wrote, so input flagged as coded must be a coded stream. */
  method Decompress(data: seq<Byte>) returns (result: array?<Byte>)
    requires data != [] && data[0] >= COMPRESSED_FLAG ==> exists t, text :: IsCoded(data, t, text)
    ensures result == null <==> data == []
    ensures forall text :: IsRaw(data, text) ==> result != null && result[..] == text
    ensures forall t, text :: IsCoded(data, t, text) ==> result != null && result[..] == text
  {
    hide PackByte, Unpack, CheckBit, IsCoded;
    if data == [] {
      NoCodeIsEmpty();
      return null;
    }
    var input := new BitReader(data);
    FirstByteRead(data);
    var header1 := input.ReadByte();
    FlagBit(header1);
    forall t, text | IsCoded(data, t, text)
      ensures header1 >= COMPRESSED_FLAG
    {
      CodedFirstByte(data, t, text);
    }
    if !CheckBit(header1, 7) {
      result := new Byte[|data| - 1](i requires 0 <= i < |data| - 1 => data[i + 1]);
      assert result[..] == data[1..];
      return;
    }
    ghost var t, text :| IsCoded(data, t, text);
    forall u, other | IsCoded(data, u, other)
      ensures other == text
    {
      CodedUnique(data, t, text, u, other);
    }
    EnoughContent(data, t, text);
    CodedFirstByte(data, t, text);
    result := DecompressCoded(input, header1, t, text);
  }

  lemma NoCodeIsEmpty()
    ensures forall t, text :: !IsCoded([], t, text)
  {
    forall t, text | IsCoded([], t, text)
      ensures false
    {
      CodedFirstByte([], t, text);
    }
  }
}
