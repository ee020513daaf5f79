/** Code trees, their preorder bit form, the codes they give, and the layout of a coded stream. */
module HuffmanTree {
  import opened Bits
  import opened Sequences

  datatype Tree = Leaf(sym: Byte) | Node(left: Tree, right: Tree)

  /** One slot of the tree arrays of both coder and decoder; -1 is "no child" (and, when decoding, "no symbol"). */
  datatype TreeEntry = TreeEntry(val: int, left: int, right: int)

  const BLANK := TreeEntry(-1, -1, -1)

  /** Leaf symbols from left to right. */
  function Symbols(t: Tree): (s: seq<Byte>)
    ensures |s| >= 1
  {
    match t
    case Leaf(c) => [c]
    case Node(l, r) => Symbols(l) + Symbols(r)
  }

  function Leaves(t: Tree): (n: nat)
    ensures n == |Symbols(t)|
  {
    match t
    case Leaf(_) => 1
    case Node(l, r) => Leaves(l) + Leaves(r)
  }

  function Nodes(t: Tree): (n: nat)
    ensures n == 2 * Leaves(t) - 1
  {
    match t
    case Leaf(_) => 1
    case Node(l, r) => 1 + Nodes(l) + Nodes(r)
  }

  function Height(t: Tree): nat {
    match t
    case Leaf(_) => 0
    case Node(l, r) => 1 + (if Height(l) > Height(r) then Height(l) else Height(r))
  }

  // ---------------------------------------------------------------- codes

  /** The path from the root to the leaf of a symbol: true = left, false = right. */
  function Code(t: Tree, s: Byte): seq<bool>
    requires s in Symbols(t)
  {
    match t
    case Leaf(_) => []
    case Node(l, r) => if s in Symbols(l) then [true] + Code(l, s) else [false] + Code(r, s)
  }

  predicate IsPath(t: Tree, path: seq<bool>) {
    path == [] || (t.Node? && IsPath(if path[0] then t.left else t.right, path[1..]))
  }

  /** The subtree a path leads to. */
  function Sub(t: Tree, path: seq<bool>): Tree
    requires IsPath(t, path)
  {
    if path == [] then t else Sub(if path[0] then t.left else t.right, path[1..])
  }

  lemma {:induction false} PathStep(t: Tree, path: seq<bool>, bit: bool)
    requires IsPath(t, path) && Sub(t, path).Node?
    ensures IsPath(t, path + [bit])
    ensures Sub(t, path + [bit]) == if bit then Sub(t, path).left else Sub(t, path).right
  {
    if path == [] {
      assert (path + [bit])[1..] == [];
    } else {
      PathStep(if path[0] then t.left else t.right, path[1..], bit);
      assert (path + [bit])[1..] == path[1..] + [bit];
    }
  }

  /** Every prefix of a code is a path, and the subtree it leads to is the symbol's leaf
      exactly when the prefix is the whole code. */
  lemma {:induction false} CodePrefix(t: Tree, s: Byte, k: nat)
    requires s in Symbols(t) && k <= |Code(t, s)|
    ensures IsPath(t, Code(t, s)[..k])
    ensures Sub(t, Code(t, s)[..k]).Node? <==> k < |Code(t, s)|
    ensures k == |Code(t, s)| ==> Sub(t, Code(t, s)[..k]) == Leaf(s)
  {
    if t.Node? && k > 0 {
      var u := if s in Symbols(t.left) then t.left else t.right;
      CodePrefix(u, s, k - 1);
      assert Code(t, s)[..k][1..] == Code(u, s)[..k - 1];
    }
  }

  lemma {:induction false} CodeAtMostHeight(t: Tree, s: Byte)
    requires s in Symbols(t)
    ensures |Code(t, s)| <= Height(t)
    ensures t.Node? ==> |Code(t, s)| >= 1
  {
    if t.Node? {
      CodeAtMostHeight(if s in Symbols(t.left) then t.left else t.right, s);
    }
  }

  lemma {:induction false} SubSymbols(t: Tree, path: seq<bool>, s: Byte)
    requires IsPath(t, path) && s in Symbols(Sub(t, path))
    ensures s in Symbols(t)
  {
    if path != [] {
      SubSymbols(if path[0] then t.left else t.right, path[1..], s);
    }
  }

  lemma DistinctParts(a: seq<Byte>, b: seq<Byte>)
    requires Distinct(a + b)
    ensures Distinct(a) && Distinct(b)
    ensures forall s :: s in a ==> s !in b
  {
    assert forall i :: 0 <= i < |a| ==> (a + b)[i] == a[i];
    assert forall i :: 0 <= i < |b| ==> (a + b)[|a| + i] == b[i];
  }

  /** With distinct leaves, a path that ends at a leaf is the code of its symbol. */
  lemma {:induction false} PathIsCode(t: Tree, path: seq<bool>)
    requires Distinct(Symbols(t)) && IsPath(t, path) && Sub(t, path).Leaf?
    ensures Sub(t, path).sym in Symbols(t) && Code(t, Sub(t, path).sym) == path
  {
    if path != [] {
      DistinctParts(Symbols(t.left), Symbols(t.right));
      PathIsCode(if path[0] then t.left else t.right, path[1..]);
    }
  }

  /** The codes are prefix free, and different symbols have different codes. */
  lemma PrefixFree(t: Tree, a: Byte, b: Byte)
    requires a in Symbols(t) && b in Symbols(t)
    requires Code(t, a) <= Code(t, b)
    ensures a == b
  {
    var k := |Code(t, a)|;
    CodePrefix(t, a, k);
    CodePrefix(t, b, k);
    assert Code(t, b)[..k] == Code(t, a) == Code(t, a)[..k];
    CodePrefix(t, b, |Code(t, b)|);
    assert Code(t, b)[..|Code(t, b)|] == Code(t, b);
  }

  // ---------------------------------------------------------------- content

  /** Every byte of the data has a leaf. */
  ghost predicate Covers(t: Tree, data: seq<Byte>) {
    forall i :: 0 <= i < |data| ==> data[i] in Symbols(t)
  }

  /** The content bits: the codes of the data bytes, one after the other. */
  function Encode(t: Tree, data: seq<Byte>): seq<bool>
    requires Covers(t, data)
  {
    if data == [] then [] else
      assert data[0] in Symbols(t);
      Code(t, data[0]) + Encode(t, data[1..])
  }

  lemma {:induction false} EncodeAppend(t: Tree, a: seq<Byte>, b: seq<Byte>)
    requires Covers(t, a) && Covers(t, b)
    ensures Covers(t, a + b) && Encode(t, a + b) == Encode(t, a) + Encode(t, b)
  {
    hide Code, Symbols;
    if a == [] {
      assert a + b == b;
    } else {
      EncodeAppend(t, a[1..], b);
      assert a + b == [a[0]] + (a[1..] + b);
      assert (a + b)[1..] == a[1..] + b;
    }
  }

  lemma CoversSlice(t: Tree, data: seq<Byte>, i: nat, j: nat)
    requires Covers(t, data) && i <= j <= |data|
    ensures Covers(t, data[i..j])
  {
    hide Symbols;
    assert forall k :: 0 <= k < j - i ==> data[i..j][k] == data[i + k];
  }

  /** Encoding one byte more. */
  lemma EncodeStep(t: Tree, data: seq<Byte>, i: nat)
    requires Covers(t, data) && i < |data|
    ensures Encode(t, data[..i + 1]) == Encode(t, data[..i]) + Code(t, data[i])
  {
    var one := [data[i]];
    assert Encode(t, one) == Code(t, one[0]) + Encode(t, one[1..]);
    assert data[..i + 1] == data[..i] + one;
    EncodeAppend(t, data[..i], one);
  }

  /** The code of the i-th byte stands right after the codes of those before it. */
  lemma EncodeSplit(t: Tree, data: seq<Byte>, i: nat)
    requires Covers(t, data) && i < |data|
    ensures Encode(t, data) == Encode(t, data[..i]) + Code(t, data[i]) + Encode(t, data[i + 1..])
  {
    hide Symbols, Code, Encode;
    EncodeStep(t, data, i);
    assert data == data[..i + 1] + data[i + 1..];
    CoversSlice(t, data, 0, i + 1);
    CoversSlice(t, data, i + 1, |data|);
    EncodeAppend(t, data[..i + 1], data[i + 1..]);
  }

  /** With at least two leaves every byte costs at least one bit. */
  lemma {:induction false} EncodeAtLeastOneBitEach(t: Tree, data: seq<Byte>)
    requires t.Node? && Covers(t, data)
    ensures |Encode(t, data)| >= |data|
  {
    if data != [] {
      CodeAtMostHeight(t, data[0]);
      EncodeAtLeastOneBitEach(t, data[1..]);
    }
  }

  lemma PrefixOfEither(a: seq<bool>, b: seq<bool>, u: seq<bool>, v: seq<bool>)
    requires a + u == b + v
    ensures a <= b || b <= a
  {
    assert forall i :: 0 <= i < |a| ==> (a + u)[i] == a[i];
    assert forall i :: 0 <= i < |b| ==> (b + v)[i] == b[i];
  }

  /** Two contents of the same length with the same bits are the same, whatever follows them. */
  lemma {:induction false} EncodeUnique(t: Tree, d: seq<Byte>, e: seq<Byte>, x: seq<bool>, y: seq<bool>)
    requires Covers(t, d) && Covers(t, e)
    requires |d| == |e| && Encode(t, d) + x == Encode(t, e) + y
    ensures d == e
  {
    hide Code, Symbols;
    if d != [] {
      var a, b := Code(t, d[0]), Code(t, e[0]);
      var u, v := Encode(t, d[1..]) + x, Encode(t, e[1..]) + y;
      assert Encode(t, d) + x == a + u;
      assert Encode(t, e) + y == b + v;
      PrefixOfEither(a, b, u, v);
      if a <= b { PrefixFree(t, d[0], e[0]); } else { PrefixFree(t, e[0], d[0]); }
      assert u == (a + u)[|a|..] && v == (b + v)[|a|..];
      EncodeUnique(t, d[1..], e[1..], x, y);
    }
  }

  // ---------------------------------------------------------------- preorder form

  /** Preorder: 0 for an inner node, 1 and the symbol for a leaf. */
  function TreeBits(t: Tree): (bits: seq<bool>)
    ensures |bits| == 10 * Leaves(t) - 1
  {
    match t
    case Leaf(c) => [true] + ByteBits(c)
    case Node(l, r) => [false] + TreeBits(l) + TreeBits(r)
  }

  lemma LeafHead(c: Byte, x: seq<bool>)
    ensures (TreeBits(Leaf(c)) + x)[0]
    ensures (TreeBits(Leaf(c)) + x)[1..9] == ByteBits(c) && (TreeBits(Leaf(c)) + x)[9..] == x
  {
    hide ByteBits;
  }

  lemma NodeHead(l: Tree, r: Tree, x: seq<bool>)
    ensures !(TreeBits(Node(l, r)) + x)[0]
    ensures (TreeBits(Node(l, r)) + x)[1..] == TreeBits(l) + (TreeBits(r) + x)
  {
    hide Leaves;
    assert TreeBits(Node(l, r)) + x == [false] + (TreeBits(l) + (TreeBits(r) + x));
  }

  /** The preorder form delimits itself: no other tree starts with the same bits. */
  lemma {:induction false} TreeBitsUnique(t: Tree, u: Tree, x: seq<bool>, y: seq<bool>)
    requires TreeBits(t) + x == TreeBits(u) + y
    ensures t == u && x == y
  {
    hide TreeBits, ByteBits, Leaves;
    match t {
      case Leaf(c) => LeafHead(c, x);
      case Node(l, r) => NodeHead(l, r, x);
    }
    match u {
      case Leaf(d) =>
        LeafHead(d, y);
        ByteBitsInjective(t.sym, d);
      case Node(l, r) =>
        NodeHead(l, r, y);
        TreeBitsUnique(t.left, l, TreeBits(t.right) + x, TreeBits(r) + y);
        TreeBitsUnique(t.right, r, x, y);
    }
  }

  // ---------------------------------------------------------------- stream layout

  const COMPRESSED_FLAG: int := 0x80
  const NOT_COMPRESSED_FLAG: int := 0x00

  /** Flag and padding, leaf count minus one, and the four bytes of the original size, high byte first. */
  function HeaderBits(padding: nat, leaves: nat, size: nat): (bits: seq<bool>)
    requires leaves >= 1
    ensures |bits| == 48
  {
    ByteBits(COMPRESSED_FLAG + padding) + ByteBits(leaves - 1)
    + ByteBits(size / 0x100_0000) + ByteBits(size / 0x1_0000) + ByteBits(size / 0x100) + ByteBits(size)
  }

  /** All a stream holds before the content bits, in bits. */
  function Prologue(t: Tree): nat {
    (1 + 1 + 4) * 8 + (10 * Leaves(t) - 1)
  }

  function CodedLength(t: Tree, data: seq<Byte>): nat
    requires Covers(t, data)
  {
    Prologue(t) + |Encode(t, data)|
  }

  function CodedBits(t: Tree, data: seq<Byte>): (bits: seq<bool>)
    requires Covers(t, data)
    ensures |bits| == CodedLength(t, data)
  {
    HeaderBits(CodedLength(t, data) % 8, Leaves(t), |data|) + TreeBits(t) + Encode(t, data)
  }

  /** `stream` is `data` coded with the tree t; coding is used only when it does not lose space. */
  ghost predicate IsCoded(stream: seq<Byte>, t: Tree, data: seq<Byte>) {
    && Covers(t, data)
    && 2 <= Leaves(t) <= 256
    && |data| <= INT_MAX
    && stream == Pack(CodedBits(t, data))
    && |stream| <= |data|
  }

  ghost predicate IsRaw(stream: seq<Byte>, data: seq<Byte>) {
    stream == [NOT_COMPRESSED_FLAG] + data
  }

  lemma HeaderSlices(padding: nat, leaves: nat, size: nat)
    requires leaves >= 1
    ensures var h := HeaderBits(padding, leaves, size);
            && h[0..8] == ByteBits(COMPRESSED_FLAG + padding) && h[8..16] == ByteBits(leaves - 1)
            && h[16..24] == ByteBits(size / 0x100_0000) && h[24..32] == ByteBits(size / 0x1_0000)
            && h[32..40] == ByteBits(size / 0x100) && h[40..48] == ByteBits(size)
  {
    hide ByteBits;
  }

  /** The header determines padding, leaf count and size. */
  lemma HeaderUnique(n: nat, m: nat, size: nat, size': nat, p: nat, p': nat)
    requires 1 <= n <= 256 && 1 <= m <= 256 && size <= INT_MAX && size' <= INT_MAX && p < 8 && p' < 8
    requires HeaderBits(p, n, size) == HeaderBits(p', m, size')
    ensures n == m && size == size' && p == p'
  {
    hide HeaderBits, ByteBits;
    HeaderSlices(p, n, size);
    HeaderSlices(p', m, size');
    ByteBitsInjective(0x80 + p, 0x80 + p');
    ByteBitsInjective(n - 1, m - 1);
    SizeUnique(size, size');
  }

  lemma SizeUnique(size: nat, size': nat)
    requires size <= INT_MAX && size' <= INT_MAX
    requires ByteBits(size / 0x100_0000) == ByteBits(size' / 0x100_0000)
    requires ByteBits(size / 0x1_0000) == ByteBits(size' / 0x1_0000)
    requires ByteBits(size / 0x100) == ByteBits(size' / 0x100) && ByteBits(size) == ByteBits(size')
    ensures size == size'
  {
    hide ByteBits;
    ByteBitsInjective(size / 0x100_0000, size' / 0x100_0000);
    ByteBitsInjective(size / 0x1_0000, size' / 0x1_0000);
    ByteBitsInjective(size / 0x100, size' / 0x100);
    ByteBitsInjective(size, size');
    FourBytes(size);
    FourBytes(size');
  }

  /** The four written bytes, read left to right, give back the size. */
  lemma FourBytes(size: nat)
    requires size <= INT_MAX
    ensures size == size / 0x100_0000 % 256 * 0x100_0000 + size / 0x1_0000 % 256 * 0x1_0000
                    + size / 0x100 % 256 * 0x100 + size % 256
  {
    assert size / 0x100_0000 == size / 0x1_0000 / 256;
    assert size / 0x1_0000 == size / 0x100 / 256;
  }

  /** What a coded stream reads as: header, tree, content, padding. */
  lemma CodedParts(stream: seq<Byte>, t: Tree, data: seq<Byte>)
    requires IsCoded(stream, t, data)
    ensures CodedLength(t, data) <= 8 * |stream| == |Unpack(stream)| < CodedLength(t, data) + 8
    ensures Unpack(stream)[..48] == HeaderBits(CodedLength(t, data) % 8, Leaves(t), |data|)
    ensures Unpack(stream)[48..] == TreeBits(t) + (Encode(t, data) + Unpack(stream)[CodedLength(t, data)..])
  {
    var bits, z := CodedBits(t, data), Unpack(stream);
    UnpackOfPack(bits);
    var h, b, e := HeaderBits(CodedLength(t, data) % 8, Leaves(t), |data|), TreeBits(t), Encode(t, data);
    assert bits == h + b + e;
    JoinedParts(z, h, b, e);
  }

  lemma JoinedParts(z: seq<bool>, h: seq<bool>, b: seq<bool>, e: seq<bool>)
    requires h + b + e <= z
    ensures z[..|h|] == h
    ensures z[|h|..] == b + (e + z[|h + b + e|..])
  {
    assert z == h + b + e + z[|h + b + e|..];
  }

  /** Unique decodability of whole streams: a stream codes at most one tree and one text. */
  lemma CodedUnique(stream: seq<Byte>, t: Tree, data: seq<Byte>, u: Tree, text: seq<Byte>)
    requires IsCoded(stream, t, data) && IsCoded(stream, u, text)
    ensures t == u && data == text
  {
    CodedParts(stream, t, data);
    CodedParts(stream, u, text);
    HeaderUnique(Leaves(t), Leaves(u), |data|, |text|, CodedLength(t, data) % 8, CodedLength(u, text) % 8);
    var x, y := Unpack(stream)[CodedLength(t, data)..], Unpack(stream)[CodedLength(u, text)..];
    TreeBitsUnique(t, u, Encode(t, data) + x, Encode(u, text) + y);
    EncodeUnique(t, data, text, x, y);
  }

  /** The first byte tells the two kinds apart. */
  lemma CodedFirstByte(stream: seq<Byte>, t: Tree, data: seq<Byte>)
    requires IsCoded(stream, t, data)
    ensures |stream| >= 9 && stream[0] == COMPRESSED_FLAG + CodedLength(t, data) % 8
  {
    FirstByte(CodedBits(t, data), COMPRESSED_FLAG + CodedLength(t, data) % 8);
  }

  lemma FirstByte(bits: seq<bool>, b: Byte)
    requires |bits| >= 8 && ByteBits(b) <= bits
    ensures Pack(bits)[0] == b
  {
    hide PackByte, ByteBits;
    assert Group(bits, 0) == bits[0..8] == ByteBits(b);
    PackOfByteBits(b);
  }
}
