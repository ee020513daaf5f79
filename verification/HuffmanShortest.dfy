/** From the weights of the merge to the content it produces: how many bits the content has, and that no prefix code
    needs fewer when all byte values occur. */
module HuffmanShortest {
  import opened Bits
  import opened HuffmanTree
  import opened Sequences
  import opened HuffmanBuild
  import opened HuffmanOptimal
  import opened HuffmanCost

  // ---------------------------------------------------------------- a tree's cost is its content's length

  /** How many bytes of the data have their leaf in this tree. */
  ghost function WeightOf(t: Tree, data: seq<Byte>): nat {
    match t
    case Leaf(c) => multiset(data)[c]
    case Node(l, r) => WeightOf(l, data) + WeightOf(r, data)
  }

  /** The weights of all inner nodes. */
  ghost function Inner(t: Tree, data: seq<Byte>): nat {
    match t
    case Leaf(_) => 0
    case Node(l, r) => WeightOf(t, data) + Inner(l, data) + Inner(r, data)
  }

  lemma {:induction false} WeightConcat(t: Tree, a: seq<Byte>, b: seq<Byte>)
    ensures WeightOf(t, a + b) == WeightOf(t, a) + WeightOf(t, b) && Inner(t, a + b) == Inner(t, a) + Inner(t, b)
  {
    if t.Node? {
      WeightConcat(t.left, a, b);
      WeightConcat(t.right, a, b);
    }
  }

  /** One byte weighs 1 on the way to its leaf and nothing elsewhere. */
  lemma {:induction false} WeightOfByte(t: Tree, c: Byte)
    requires Distinct(Symbols(t))
    ensures WeightOf(t, [c]) == (if c in Symbols(t) then 1 else 0)
    ensures Inner(t, [c]) == (if c in Symbols(t) then |Code(t, c)| else 0)
  {
    if t.Node? {
      DistinctParts(Symbols(t.left), Symbols(t.right));
      WeightOfByte(t.left, c);
      WeightOfByte(t.right, c);
    }
  }

  lemma {:induction false} NothingWeighsNothing(t: Tree)
    ensures WeightOf(t, []) == 0 && Inner(t, []) == 0
  {
    if t.Node? {
      NothingWeighsNothing(t.left);
      NothingWeighsNothing(t.right);
    }
  }

  lemma {:induction false} InnerIsContent(t: Tree, data: seq<Byte>)
    requires Distinct(Symbols(t)) && Covers(t, data)
    ensures Inner(t, data) == |Encode(t, data)|
  {
    hide Symbols, Code, WeightOf, Inner;
    if data == [] {
      NothingWeighsNothing(t);
    } else {
      InnerIsContent(t, data[1..]);
      WeightOfByte(t, data[0]);
      WeightConcat(t, [data[0]], data[1..]);
      assert data == [data[0]] + data[1..];
    }
  }

  /** Slots weigh what their trees weigh. */
  lemma {:induction false} SlotIsTree(a: seq<TreeEntry>, d: seq<DictEntry>, n: nat, r: nat, i: nat, data: seq<Byte>)
    requires Forest(a, d, n, r) && i < r && forall j :: 0 <= j < n ==> d[j].freq == multiset(data)[d[j].chr]
    ensures a[i].val == WeightOf(TreeAt(a, d, n, r, i), data)
            && InnerAt(a, d, n, r, i) == Inner(TreeAt(a, d, n, r, i), data)
    decreases i
  {
    if i >= n {
      assert Merged(a, i);
      SlotIsTree(a, d, n, r, a[i].left, data);
      SlotIsTree(a, d, n, r, a[i].right, data);
    }
  }

  // ---------------------------------------------------------------- any assignment of code lengths

  /** Code lengths for all byte values, that satisfy Kraft's inequality. */
  ghost predicate IsLengths(lens: seq<nat>) {
    |lens| == 256 && Kraft(ItemsOf(AllBytes(), lens, lens)) <= 1.0
  }

  function AllBytes(): (s: seq<Byte>)
    ensures |s| == 256 && forall c :: 0 <= c < 256 ==> s[c] == c
  {
    seq(256, c requires 0 <= c < 256 => c)
  }

  /** Some symbols with their weights and code lengths. */
  function ItemsOf(s: seq<Byte>, freq: seq<nat>, lens: seq<nat>): (items: seq<Item>)
    requires |freq| == |lens| == 256
    ensures |items| == |s| && forall i :: 0 <= i < |s| ==> items[i] == Item(freq[s[i]], lens[s[i]])
  {
    if s == [] then [] else [Item(freq[s[0]], lens[s[0]])] + ItemsOf(s[1..], freq, lens)
  }

  /** How many bits the data takes with these lengths. */
  function BitsWith(lens: seq<nat>, data: seq<Byte>): nat
    requires |lens| == 256
  {
    if data == [] then 0 else lens[data[0]] + BitsWith(lens, data[1..])
  }

  ghost predicate AllOccur(data: seq<Byte>) {
    forall c: Byte :: c in data
  }

  /** No code lengths make the content shorter. */
  ghost predicate IsOptimal(t: Tree, data: seq<Byte>)
    requires Covers(t, data)
  {
    forall lens :: IsLengths(lens) ==> |Encode(t, data)| <= BitsWith(lens, data)
  }

  lemma ItemsWithout(t: seq<Byte>, i: nat, freq: seq<nat>, lens: seq<nat>)
    requires |freq| == |lens| == 256 && i < |t|
    ensures var items := ItemsOf(t, freq, lens);
            items[..i] + items[i + 1..] == ItemsOf(t[..i] + t[i + 1..], freq, lens)
  {
    hide ItemsOf;
    var rest := t[..i] + t[i + 1..];
    var items, less := ItemsOf(t, freq, lens), ItemsOf(rest, freq, lens);
    forall j | 0 <= j < |rest|
      ensures (items[..i] + items[i + 1..])[j] == less[j]
    {
      assert rest[j] == t[if j < i then j else j + 1];
    }
  }

  lemma FrontOfItems(t: seq<Byte>, i: nat, freq: seq<nat>, lens: seq<nat>)
    requires |freq| == |lens| == 256 && i < |t|
    ensures var rest := ItemsOf(t[..i] + t[i + 1..], freq, lens);
            var item := Item(freq[t[i]], lens[t[i]]);
            && Kraft(ItemsOf(t, freq, lens)) == HalfPow(item.len) + Kraft(rest)
            && Cost(ItemsOf(t, freq, lens)) == item.weight * item.len + Cost(rest)
  {
    hide Kraft, Cost, ItemsOf, HalfPow, WeightBag;
    var items := ItemsOf(t, freq, lens);
    FrontSame(items, i);
    ItemsWithout(t, i, freq, lens);
    FrontItem(items[i], items[..i] + items[i + 1..]);
  }

  /** Order does not matter. */
  lemma {:induction false} PermSame(s: seq<Byte>, t: seq<Byte>, freq: seq<nat>, lens: seq<nat>)
    requires |freq| == |lens| == 256 && multiset(s) == multiset(t)
    ensures Kraft(ItemsOf(s, freq, lens)) == Kraft(ItemsOf(t, freq, lens))
    ensures Cost(ItemsOf(s, freq, lens)) == Cost(ItemsOf(t, freq, lens))
  {
    hide Kraft, Cost, ItemsOf, HalfPow;
    if s == [] {
      assert |multiset(t)| == 0;
    } else {
      assert s[0] in multiset(t);
      var i :| 0 <= i < |t| && t[i] == s[0];
      var less, rest := s[..0] + s[1..], t[..i] + t[i + 1..];
      TakeOutOfBoth(s, 0, t, i);
      PermSame(less, rest, freq, lens);
      FrontOfItems(s, 0, freq, lens);
      FrontOfItems(t, i, freq, lens);
    }
  }

  /** A sequence with every byte value in it, none twice, is a permutation of all of them. */
  lemma EveryByteOnce(s: seq<Byte>)
    requires Distinct(s) && forall c: Byte :: c in s
    ensures multiset(s) == multiset(AllBytes())
  {
    forall c: Byte
      ensures multiset(s)[c] == multiset(AllBytes())[c]
    {
      Once(s, c);
      Once(AllBytes(), c);
      assert c in s && AllBytes()[c] == c;
    }
  }

  /** How often each byte value occurs. */
  ghost function Counts(data: seq<Byte>): (freq: seq<nat>)
    ensures |freq| == 256 && forall c :: 0 <= c < 256 ==> freq[c] == multiset(data)[c]
  {
    seq(256, c requires 0 <= c < 256 => multiset(data)[c])
  }

  lemma {:induction false} ZeroWeights(items: seq<Item>)
    requires forall i :: 0 <= i < |items| ==> items[i].weight == 0
    ensures Cost(items) == 0
  {
    if items != [] {
      ZeroWeights(items[1..]);
    }
  }

  lemma OneMore(s: seq<Item>, t: seq<Item>, c: nat)
    requires c < |s| && t == s[c := Item(s[c].weight + 1, s[c].len)]
    ensures Cost(t) == Cost(s) + s[c].len
  {
    hide Cost, Kraft, WeightBag;
    var rest := s[..c] + s[c + 1..];
    FrontSame(s, c);
    FrontSame(t, c);
    assert t[..c] + t[c + 1..] == rest by { assert t[..c] == s[..c] && t[c + 1..] == s[c + 1..]; }
    FrontItem(s[c], rest);
    FrontItem(t[c], rest);
    OneMoreTimes(s[c].weight, s[c].len);
  }

  lemma OneMoreTimes(w: int, len: nat)
    ensures (w + 1) * len == w * len + len
  {
  }

  /** Occurrences times lengths, added up, is the length of the content. */
  lemma {:induction false} CostIsBits(data: seq<Byte>, lens: seq<nat>)
    requires |lens| == 256
    ensures Cost(ItemsOf(AllBytes(), Counts(data), lens)) == BitsWith(lens, data)
  {
    hide Cost, ItemsOf;
    var items := ItemsOf(AllBytes(), Counts(data), lens);
    if data == [] {
      ZeroWeights(items);
    } else {
      CostIsBits(data[1..], lens);
      var before, c := ItemsOf(AllBytes(), Counts(data[1..]), lens), data[0];
      assert data == [c] + data[1..];
      assert forall i :: 0 <= i < 256 ==> Counts(data)[i] == Counts(data[1..])[i] + (if i == c then 1 else 0);
      assert items == before[c := Item(before[c].weight + 1, before[c].len)];
      OneMore(before, items, c);
    }
  }

  lemma {:induction false} BagOfWeights(items: seq<Item>, vals: seq<int>)
    requires |items| == |vals| && forall i :: 0 <= i < |items| ==> items[i].weight == vals[i]
    ensures WeightBag(items) == multiset(vals)
  {
    if items != [] {
      assert vals == [vals[0]] + vals[1..];
      BagOfWeights(items[1..], vals[1..]);
    }
  }

  lemma {:induction false} SameLengths(s: seq<Item>, t: seq<Item>)
    requires |s| == |t| && forall i :: 0 <= i < |s| ==> s[i].len == t[i].len
    ensures Kraft(s) == Kraft(t)
  {
    if s != [] {
      SameLengths(s[1..], t[1..]);
    }
  }

  /** A bound for the leaf weights is a bound for the content under any code lengths. */
  lemma BoundIsBits(a: seq<TreeEntry>, d: seq<DictEntry>, data: seq<Byte>, lens: seq<nat>, c: int)
    requires |d| == 256 <= |a| && IsLengths(lens) && LowerBound(ValBag(a, 0, 256), c)
    requires forall i :: 0 <= i < 256 ==> a[i].val == d[i].freq == multiset(data)[d[i].chr]
    requires Distinct(Chars(d, 256)) && forall b: Byte :: b in Chars(d, 256)
    ensures BitsWith(lens, data) >= c
  {
    hide Kraft, Cost, WeightBag, ItemsOf, Vals, Chars, Distinct;
    var s, freq := Chars(d, 256), Counts(data);
    var items := ItemsOf(s, freq, lens);
    EveryByteOnce(s);
    PermSame(s, AllBytes(), freq, lens);
    SameLengths(ItemsOf(AllBytes(), freq, lens), ItemsOf(AllBytes(), lens, lens));
    CostIsBits(data, lens);
    assert Vals(a)[0..256] == Vals(a)[..256];
    BagOfWeights(items, Vals(a)[0..256]);
    assert Cost(items) >= c;
  }

  /** What the merge makes of the data: its content has as many bits as the merged nodes weigh, and when all byte
      values occur no code lengths do better. */
  lemma ShortestContent(a: seq<TreeEntry>, d: seq<DictEntry>, n: nat, data: seq<Byte>)
    requires n >= 2 && Forest(a, d, n, 2 * n - 1) && IsCheapest(a, d, n) && |d| == 256
    requires forall i :: 0 <= i < n ==> d[i].freq == multiset(data)[d[i].chr]
    requires var t := TreeAt(a, d, n, 2 * n - 1, 2 * n - 2);
             Distinct(Symbols(t)) && Covers(t, data)
    requires AllOccur(data) ==> n == 256 && Distinct(Chars(d, 256)) && forall b: Byte :: b in Chars(d, 256)
    ensures var t := TreeAt(a, d, n, 2 * n - 1, 2 * n - 2);
            && |Encode(t, data)| == Weights(a, n, 2 * n - 1)
            && (AllOccur(data) ==> IsOptimal(t, data))
  {
    hide TreeAt, InnerAt, LowerBound, Distinct, Chars, ItemsOf, Kraft;
    var t := TreeAt(a, d, n, 2 * n - 1, 2 * n - 2);
    SlotIsTree(a, d, n, 2 * n - 1, 2 * n - 2, data);
    InnerIsContent(t, data);
    if AllOccur(data) {
      forall i | 0 <= i < n
        ensures a[i].val >= 1
      {
        assert d[i].chr in data;
      }
      forall lens | IsLengths(lens)
        ensures |Encode(t, data)| <= BitsWith(lens, data)
      {
        BoundIsBits(a, d, data, lens, Weights(a, n, 2 * n - 1));
      }
    }
  }

  // ---------------------------------------------------------------- other trees

  /** The items of a tree: each leaf with its depth. */
  function LeafItems(t: Tree, depth: nat): seq<Item> {
    match t
    case Leaf(c) => [Item(c, depth)]
    case Node(l, r) => LeafItems(l, depth + 1) + LeafItems(r, depth + 1)
  }

  lemma NoKraft()
    ensures Kraft([]) == 0.0
  {
  }

  lemma {:induction false} LeafKraft(t: Tree, depth: nat)
    ensures Kraft(LeafItems(t, depth)) == HalfPow(depth)
  {
    hide Kraft;
    if t.Node? {
      LeafKraft(t.left, depth + 1);
      LeafKraft(t.right, depth + 1);
      Concat(LeafItems(t.left, depth + 1), LeafItems(t.right, depth + 1));
    } else {
      var leaf := Item(t.sym, depth);
      assert LeafItems(t, depth) == [leaf] + [];
      FrontItem(leaf, []);
      assert Kraft([]) == 0.0 by { NoKraft(); }
    }
  }

  /** They are the symbols from left to right, each with the length of its code. */
  lemma {:induction false} LeafItemsAre(t: Tree, depth: nat, i: nat)
    requires Distinct(Symbols(t)) && i < |Symbols(t)|
    ensures |LeafItems(t, depth)| == |Symbols(t)|
    ensures LeafItems(t, depth)[i] == Item(Symbols(t)[i], depth + |Code(t, Symbols(t)[i])|)
  {
    if t.Node? {
      var m := |Symbols(t.left)|;
      DistinctParts(Symbols(t.left), Symbols(t.right));
      LeafItemsAre(t.left, depth + 1, if i < m then i else 0);
      LeafItemsAre(t.right, depth + 1, if i < m then 0 else i - m);
    }
  }

  /** The lengths of a tree's codes. */
  ghost function CodeLengths(t: Tree): (lens: seq<nat>)
    requires forall c: Byte :: c in Symbols(t)
    ensures |lens| == 256 && forall c: Byte :: lens[c] == |Code(t, c)|
  {
    seq(256, c requires 0 <= c < 256 => |Code(t, c)|)
  }

  lemma CodesAreLengths(t: Tree)
    requires Distinct(Symbols(t)) && forall c: Byte :: c in Symbols(t)
    ensures IsLengths(CodeLengths(t))
  {
    hide Kraft, LeafItems, Symbols, ItemsOf, Code;
    var lens, s := CodeLengths(t), Symbols(t);
    EveryByteOnce(s);
    PermSame(s, AllBytes(), lens, lens);
    forall i | 0 <= i < |s|
      ensures |LeafItems(t, 0)| == |s| && LeafItems(t, 0)[i].len == ItemsOf(s, lens, lens)[i].len
    {
      LeafItemsAre(t, 0, i);
    }
    SameLengths(LeafItems(t, 0), ItemsOf(s, lens, lens));
    LeafKraft(t, 0);
    assert HalfPow(0) == 1.0 by { ZeroLength(); }
  }

  lemma {:induction false} BitsAreContent(t: Tree, data: seq<Byte>)
    requires (forall c: Byte :: c in Symbols(t)) && Covers(t, data)
    ensures BitsWith(CodeLengths(t), data) == |Encode(t, data)|
  {
    hide Symbols, Code;
    if data != [] {
      BitsAreContent(t, data[1..]);
    }
  }

  /** When all byte values occur, no code tree gives a shorter content than an optimal one. */
  lemma NoTreeIsBetter(t: Tree, u: Tree, data: seq<Byte>)
    requires AllOccur(data) && Covers(t, data) && IsOptimal(t, data) && Distinct(Symbols(u)) && Covers(u, data)
    ensures |Encode(t, data)| <= |Encode(u, data)|
  {
    forall c: Byte
      ensures c in Symbols(u)
    {
      assert c in data;
      var i :| 0 <= i < |data| && data[i] == c;
    }
    CodesAreLengths(u);
    BitsAreContent(u, data);
  }

  /** Not more than one byte value occurs in the data. */
  ghost predicate OneValue(data: seq<Byte>) {
    forall i, j :: 0 <= i < j < |data| ==> data[i] == data[j]
  }

  /** A tree the coded form can carry: at least two leaves, all different bytes, so not more than 256. */
  ghost predicate IsCarried(t: Tree) {
    Leaves(t) >= 2 && Distinct(Symbols(t))
  }

  /** No tree the coded form can carry gives a shorter content for this data. */
  ghost predicate IsBestTree(t: Tree, data: seq<Byte>)
    requires Covers(t, data)
  {
    forall u :: IsCarried(u) && Covers(u, data) ==> |Encode(t, data)| <= |Encode(u, data)|
  }

  // ---------------------------------------------------------------- an unused leaf costs bits

  /** The tree without one leaf, whose sibling takes the parent's place. */
  function Prune(t: Tree, c: Byte): Tree
    requires t.Node? && c in Symbols(t)
  {
    if t.left == Leaf(c) then t.right
    else if t.right == Leaf(c) then t.left
    else if c in Symbols(t.left) then Node(Prune(t.left, c), t.right)
    else
      assert Symbols(t) == Symbols(t.left) + Symbols(t.right);
      Node(t.left, Prune(t.right, c))
  }

  lemma {:induction false} PruneSymbols(t: Tree, c: Byte)
    requires t.Node? && c in Symbols(t) && Distinct(Symbols(t))
    ensures Distinct(Symbols(Prune(t, c)))
    ensures forall s :: s in Symbols(Prune(t, c)) <==> s in Symbols(t) && s != c
  {
    DistinctParts(Symbols(t.left), Symbols(t.right));
    if t.left == Leaf(c) || t.right == Leaf(c) {
    } else if c in Symbols(t.left) {
      PruneSymbols(t.left, c);
      DistinctTogether(Symbols(Prune(t.left, c)), Symbols(t.right));
    } else {
      PruneSymbols(t.right, c);
      DistinctTogether(Symbols(t.left), Symbols(Prune(t.right, c)));
    }
  }

  lemma DistinctTogether(a: seq<Byte>, b: seq<Byte>)
    requires Distinct(a) && Distinct(b) && forall s :: s in a ==> s !in b
    ensures Distinct(a + b)
  {
    var s := a + b;
    forall i, j | 0 <= i < j < |s|
      ensures s[i] != s[j]
    {
      assert i < |a| ==> s[i] in a;
      assert j >= |a| ==> s[j] in b;
    }
  }

  lemma {:induction false} UsedWeighs(t: Tree, data: seq<Byte>)
    requires forall s :: s in Symbols(t) ==> s in data
    ensures WeightOf(t, data) >= 1
  {
    if t.Node? {
      UsedWeighs(t.left, data);
    } else {
      assert t.sym in Symbols(t);
    }
  }

  /** Without an unused leaf the tree weighs the same and its inner nodes less. */
  lemma {:induction false} PruneSaves(t: Tree, c: Byte, data: seq<Byte>)
    requires t.Node? && c in Symbols(t) && Distinct(Symbols(t)) && c !in data
    requires forall s :: s in Symbols(t) && s != c ==> s in data
    ensures WeightOf(Prune(t, c), data) == WeightOf(t, data) && Inner(Prune(t, c), data) < Inner(t, data)
  {
    DistinctParts(Symbols(t.left), Symbols(t.right));
    if t.left == Leaf(c) {
      UsedWeighs(t.right, data);
    } else if t.right == Leaf(c) {
      UsedWeighs(t.left, data);
    } else if c in Symbols(t.left) {
      PruneSaves(t.left, c, data);
    } else {
      PruneSaves(t.right, c, data);
    }
  }

  /** A tree with one unused leaf is the best one if and only if not more than one byte value occurs. */
  lemma UnusedLeafCostsIff(t: Tree, c: Byte, data: seq<Byte>)
    requires IsCarried(t) && c in Symbols(t) && Covers(t, data) && c !in data
    requires forall s :: s in Symbols(t) && s != c ==> s in data
    ensures IsBestTree(t, data) <==> OneValue(data)
  {
    hide Symbols, Encode, IsBestTree;
    if Leaves(t) == 2 {
      OneBitEach(t, c, data);
      AtLeastOneBitEach(t, data);
    } else {
      var x, y := TwoOthers(Symbols(t), c);
      assert !OneValue(data) by { TwoOccur(data, x, y); }
      UnusedLeafCosts(t, c, data, x, y);
    }
  }

  lemma TwoOthers(s: seq<Byte>, c: Byte) returns (x: Byte, y: Byte)
    requires Distinct(s) && |s| >= 3
    ensures x in s && y in s && x != y && x != c && y != c
  {
    x := if s[0] == c then s[1] else s[0];
    y := if s[2] == c then s[1] else s[2];
  }

  lemma TwoOccur(data: seq<Byte>, x: Byte, y: Byte)
    requires x in data && y in data && x != y
    ensures !OneValue(data)
  {
    var i :| 0 <= i < |data| && data[i] == x;
    var j :| 0 <= j < |data| && data[j] == y;
    assert i < j || j < i;
  }

  /** With two values in use the tree without that leaf is better. */
  lemma UnusedLeafCosts(t: Tree, c: Byte, data: seq<Byte>, x: Byte, y: Byte)
    requires IsCarried(t) && c in Symbols(t) && Covers(t, data) && c !in data
    requires forall s :: s in Symbols(t) && s != c ==> s in data
    requires x in data && y in data && x != y
    ensures !IsBestTree(t, data)
  {
    assert t.Node? by { CarriedIsNode(t); }
    hide Symbols, Leaves, Encode, Prune;
    var u := Prune(t, c);
    PruneSymbols(t, c);
    assert Covers(u, data) && x in Symbols(u) && y in Symbols(u);
    TwoLeaves(u, x, y);
    PruneSaves(t, c, data);
    InnerIsContent(t, data);
    InnerIsContent(u, data);
  }

  lemma CarriedIsNode(t: Tree)
    requires IsCarried(t)
    ensures t.Node?
  {
  }

  lemma TwoLeaves(u: Tree, x: Byte, y: Byte)
    requires Distinct(Symbols(u)) && x in Symbols(u) && y in Symbols(u) && x != y
    ensures IsCarried(u)
  {
  }

  /** With two leaves, one of them unused, there is one value and every byte takes one bit. */
  lemma OneBitEach(t: Tree, c: Byte, data: seq<Byte>)
    requires IsCarried(t) && Leaves(t) == 2 && c in Symbols(t) && Covers(t, data) && c !in data
    ensures OneValue(data) && |Encode(t, data)| == |data|
  {
    assert t.left.Leaf? && t.right.Leaf?;
    assert forall i :: 0 <= i < |data| ==> data[i] in Symbols(t) && data[i] != c;
    OneBitCodes(t, data);
  }

  lemma {:induction false} OneBitCodes(t: Tree, data: seq<Byte>)
    requires t.Node? && t.left.Leaf? && t.right.Leaf? && Covers(t, data)
    ensures |Encode(t, data)| == |data|
  {
    if data != [] {
      OneBitCodes(t, data[1..]);
      assert |Code(t, data[0])| == 1;
    }
  }

  lemma AtLeastOneBitEach(t: Tree, data: seq<Byte>)
    requires Covers(t, data) && |Encode(t, data)| == |data|
    ensures IsBestTree(t, data)
  {
    forall u | IsCarried(u) && Covers(u, data)
      ensures |Encode(t, data)| <= |Encode(u, data)|
    {
      EncodeAtLeastOneBitEach(u, data);
    }
  }
}
