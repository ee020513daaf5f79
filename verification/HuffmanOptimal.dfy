/** Why merging the two lightest roots gives the shortest content: no assignment of code lengths that satisfies
    Kraft's inequality, so no prefix code, costs fewer bits. */
module HuffmanOptimal {
  import opened Bits

  /** A weight and the length of its code. */
  datatype Item = Item(weight: int, len: nat)

  function HalfPow(e: nat): (p: real)
    ensures p > 0.0
  {
    if e == 0 then 1.0 else HalfPow(e - 1) / 2.0
  }

  /** Kraft's sum. */
  function Kraft(s: seq<Item>): (k: real)
    ensures k >= 0.0
  {
    if s == [] then 0.0 else HalfPow(s[0].len) + Kraft(s[1..])
  }

  /** Weight times length, added up. */
  function Cost(s: seq<Item>): int {
    if s == [] then 0 else s[0].weight * s[0].len + Cost(s[1..])
  }

  ghost function WeightBag(s: seq<Item>): multiset<int> {
    if s == [] then multiset{} else multiset{s[0].weight} + WeightBag(s[1..])
  }

  // ---------------------------------------------------------------- order does not matter

  lemma {:induction false} Concat(a: seq<Item>, b: seq<Item>)
    ensures Kraft(a + b) == Kraft(a) + Kraft(b) && Cost(a + b) == Cost(a) + Cost(b)
    ensures WeightBag(a + b) == WeightBag(a) + WeightBag(b)
  {
    if a == [] {
      assert a + b == b;
    } else {
      assert (a + b)[1..] == a[1..] + b;
      Concat(a[1..], b);
    }
  }

  /** Item i at the front, the others behind it. */
  function ToFront(s: seq<Item>, i: nat): seq<Item>
    requires i < |s|
  {
    [s[i]] + (s[..i] + s[i + 1..])
  }

  lemma FrontSame(s: seq<Item>, i: nat)
    requires i < |s|
    ensures Kraft(ToFront(s, i)) == Kraft(s) && Cost(ToFront(s, i)) == Cost(s)
            && WeightBag(ToFront(s, i)) == WeightBag(s)
    ensures forall x :: x in ToFront(s, i) <==> x in s
  {
    hide Kraft, Cost, WeightBag;
    var a, x, b := s[..i], [s[i]], s[i + 1..];
    assert s == a + x + b && ToFront(s, i) == x + (a + b);
    Concat(a, x);
    Concat(a + x, b);
    Concat(a, b);
    Concat(x, a + b);
  }

  // ---------------------------------------------------------------- the lightest weight gets the longest code

  ghost predicate AllAtLeast(s: seq<Item>, x: int) {
    forall i :: 0 <= i < |s| ==> x <= s[i].weight
  }

  ghost predicate AllWithin(s: seq<Item>, len: nat) {
    forall i :: 0 <= i < |s| ==> s[i].len <= len
  }

  lemma {:induction false} Longest(s: seq<Item>) returns (m: nat)
    requires s != []
    ensures m < |s| && AllWithin(s, s[m].len)
  {
    m := 0;
    if |s| > 1 {
      var r := Longest(s[1..]);
      m := if s[r + 1].len > s[0].len then r + 1 else 0;
      assert forall i :: 1 <= i < |s| ==> s[1..][i - 1] == s[i];
    }
  }

  lemma {:induction false} HasWeight(s: seq<Item>, x: int) returns (i: nat)
    requires x in WeightBag(s)
    ensures i < |s| && s[i].weight == x
  {
    if s[0].weight == x {
      i := 0;
    } else {
      i := HasWeight(s[1..], x);
      i := i + 1;
    }
  }

  lemma Swap(a: int, b: int, m: int, n: int)
    requires a <= b && m <= n
    ensures a * n + b * m <= a * m + b * n
  {
    assert (b - a) * (n - m) >= 0;
  }

  lemma FrontItem(x: Item, rest: seq<Item>)
    ensures Kraft([x] + rest) == HalfPow(x.len) + Kraft(rest) && Cost([x] + rest) == x.weight * x.len + Cost(rest)
    ensures WeightBag([x] + rest) == multiset{x.weight} + WeightBag(rest)
  {
    assert ([x] + rest)[1..] == rest;
  }

  /** Two items trade lengths. */
  lemma Trade(x: int, len: nat, rest: seq<Item>, m: nat) returns (traded: seq<Item>)
    requires m < |rest| && AllWithin(rest, rest[m].len) && AllAtLeast(rest, x) && len <= rest[m].len
    ensures Kraft([Item(x, rest[m].len)] + traded) == Kraft([Item(x, len)] + rest)
    ensures Cost([Item(x, rest[m].len)] + traded) <= Cost([Item(x, len)] + rest)
    ensures WeightBag(traded) == WeightBag(rest) && AllWithin(traded, rest[m].len) && AllAtLeast(traded, x)
  {
    hide Kraft, Cost, WeightBag, HalfPow;
    var other, r := rest[m], rest[..m] + rest[m + 1..];
    FrontSame(rest, m);
    FrontItem(other, r);
    FrontItem(Item(other.weight, len), r);
    Swap(x, other.weight, len, other.len);
    traded := [Item(other.weight, len)] + r;
    FrontItem(Item(x, other.len), traded);
    FrontItem(Item(x, len), rest);
  }

  /** The lightest weight can have the longest code, at no cost. */
  lemma Expose(s: seq<Item>, x: int) returns (len: nat, rest: seq<Item>)
    requires x in WeightBag(s) && AllAtLeast(s, x)
    ensures Kraft([Item(x, len)] + rest) == Kraft(s) && Cost([Item(x, len)] + rest) <= Cost(s)
    ensures multiset{x} + WeightBag(rest) == WeightBag(s)
    ensures AllWithin(rest, len) && AllAtLeast(rest, x)
    ensures exists i :: 0 <= i < |s| && s[i].len == len
  {
    hide Kraft, Cost, WeightBag, HalfPow;
    var i := HasWeight(s, x);
    var t := ToFront(s, i);
    FrontSame(s, i);
    assert forall j :: 0 <= j < |t| ==> t[j] in s;
    rest, len := t[1..], s[i].len;
    assert t == [Item(x, len)] + rest;
    FrontItem(t[0], rest);
    if rest != [] {
      var m := Longest(rest);
      if rest[m].len > len {
        assert rest[m] == t[m + 1] && rest[m] in s;
        var traded := Trade(x, len, rest, m);
        rest, len := traded, rest[m].len;
      }
    }
  }

  // ---------------------------------------------------------------- a longest code that is alone can be shortened

  lemma {:induction false} PowHalf(e: nat)
    ensures Pow2(e) as real * HalfPow(e) == 1.0
  {
    if e > 0 {
      PowHalf(e - 1);
      assert Pow2(e) as real == 2.0 * Pow2(e - 1) as real;
    }
  }

  /** A power of a half is a whole number of smaller ones. */
  lemma {:induction false} Whole(e: nat, f: nat)
    requires e <= f
    ensures HalfPow(e) == Pow2(f - e) as real * HalfPow(f)
    decreases f
  {
    if e < f {
      Whole(e, f - 1);
      var p := Pow2(f - 1 - e) as real;
      assert Pow2(f - e) as real == 2.0 * p;
      assert 2.0 * p * HalfPow(f) == p * HalfPow(f - 1);
    }
  }

  /** Lengths up to len give a Kraft sum in whole steps of that length. */
  lemma {:induction false} WholeSum(s: seq<Item>, len: nat) returns (n: nat)
    requires AllWithin(s, len)
    ensures Kraft(s) == n as real * HalfPow(len)
  {
    hide HalfPow;
    if s == [] {
      n := 0;
    } else {
      var rest := WholeSum(s[1..], len);
      Whole(s[0].len, len);
      var p := Pow2(len - s[0].len);
      n := p + rest;
      assert n as real * HalfPow(len) == p as real * HalfPow(len) + rest as real * HalfPow(len);
    }
  }

  lemma Fewer(n: nat, p: nat, h: real, more: real)
    requires h > 0.0 && more > 0.0 && n as real * h + more <= p as real * h
    ensures n < p
  {
  }

  lemma StepsBelow(n: nat, h: real, e: nat, more: real)
    requires h == HalfPow(e) && more > 0.0 && n as real * h + more <= 1.0
    ensures n as real * h + h <= 1.0
  {
    PowHalf(e);
    assert n < Pow2(e) by { Fewer(n, Pow2(e), h, more); }
    assert (n + 1) as real * h <= Pow2(e) as real * h;
    assert (n + 1) as real * h == n as real * h + h;
  }

  /** One code longer than all others can be cut down to the longest of them. */
  lemma Shorten(rest: seq<Item>, long: nat, len: nat)
    requires AllWithin(rest, len) && len <= long && HalfPow(long) + Kraft(rest) <= 1.0
    ensures HalfPow(len) + Kraft(rest) <= 1.0
  {
    hide Kraft, HalfPow;
    if len < long {
      var n := WholeSum(rest, len);
      StepsBelow(n, HalfPow(len), len, HalfPow(long));
    }
  }

  // ---------------------------------------------------------------- merging

  /** No assignment of code lengths to these weights costs less than c. */
  ghost predicate LowerBound(weights: multiset<int>, c: int) {
    forall s: seq<Item> :: WeightBag(s) == weights && Kraft(s) <= 1.0 ==> Cost(s) >= c
  }

  lemma {:induction false} BagAtLeast(s: seq<Item>, x: int)
    requires forall w :: w in WeightBag(s) ==> x <= w
    ensures AllAtLeast(s, x)
  {
    if s != [] {
      assert forall w :: w in WeightBag(s[1..]) ==> w in WeightBag(s);
      BagAtLeast(s[1..], x);
      assert s[0].weight in WeightBag(s);
      assert forall i :: 1 <= i < |s| ==> s[i] == s[1..][i - 1];
    }
  }

  /** The two lightest weights can share the longest codes, which makes them siblings. */
  lemma Siblings(s: seq<Item>, x: int, y: int) returns (len: nat, rest: seq<Item>)
    requires multiset{x, y} <= WeightBag(s) && Kraft(s) <= 1.0 && 0 <= x <= y
    requires AllAtLeast(s, x) && forall w :: w in WeightBag(s) - multiset{x} ==> y <= w
    ensures len > 0 && WeightBag(rest) == WeightBag(s) - multiset{x, y}
    ensures Kraft(rest) + HalfPow(len) + HalfPow(len) <= 1.0
    ensures Cost(rest) + (x + y) * len <= Cost(s)
  {
    hide Kraft, Cost, WeightBag, HalfPow, AllAtLeast, AllWithin;
    var long, others := Expose(s, x);
    FrontItem(Item(x, long), others);
    OneLess(WeightBag(s), x, y, WeightBag(others));
    BagAtLeast(others, y);
    var shorter, r := Expose(others, y);
    FrontItem(Item(y, shorter), r);
    len, rest := shorter, r;
    OneLess(WeightBag(others), y, y, WeightBag(rest));
    NoLonger(others, long, len);
    WithinToo(y, len, rest);
    Shorten([Item(y, len)] + rest, long, len);
    if len == 0 {
      ZeroLength();
    }
    CostOfTwo(x, y, len, long);
  }

  lemma OneLess(all: multiset<int>, x: int, y: int, others: multiset<int>)
    requires multiset{x} + others == all
    ensures others == all - multiset{x} && (multiset{x, y} <= all ==> y in others)
    ensures all - multiset{x, y} == others - multiset{y}
  {
  }

  lemma NoLonger(s: seq<Item>, long: nat, len: nat)
    requires AllWithin(s, long) && exists i :: 0 <= i < |s| && s[i].len == len
    ensures len <= long
  {
  }

  lemma WithinToo(y: int, len: nat, rest: seq<Item>)
    requires AllWithin(rest, len)
    ensures AllWithin([Item(y, len)] + rest, len)
  {
  }

  lemma CostOfTwo(x: int, y: int, len: nat, long: nat)
    requires 0 <= x && len <= long
    ensures (x + y) * len <= x * long + y * len
  {
    assert (x + y) * len == x * len + y * len && x * len <= x * long;
  }

  lemma ZeroLength()
    ensures HalfPow(0) == 1.0
  {
  }

  /** An assignment for the weights gives one for the merged weights that is cheaper by their sum. */
  lemma JoinTwo(s: seq<Item>, x: int, y: int) returns (merged: seq<Item>)
    requires multiset{x, y} <= WeightBag(s) && Kraft(s) <= 1.0 && 0 <= x <= y
    requires AllAtLeast(s, x) && forall w :: w in WeightBag(s) - multiset{x} ==> y <= w
    ensures WeightBag(merged) == WeightBag(s) - multiset{x, y} + multiset{x + y}
    ensures Kraft(merged) <= 1.0 && Cost(merged) + x + y <= Cost(s)
  {
    hide Kraft, Cost, WeightBag, AllAtLeast;
    var len, rest := Siblings(s, x, y);
    merged := [Item(x + y, len - 1)] + rest;
    FrontItem(Item(x + y, len - 1), rest);
    assert (x + y) * (len - 1) == (x + y) * len - (x + y);
  }

  /** Merging the two lightest weights costs their sum and loses nothing. */
  lemma MergeBound(weights: multiset<int>, x: int, y: int, c: int)
    requires multiset{x, y} <= weights && 0 <= x <= y
    requires (forall w :: w in weights ==> x <= w) && (forall w :: w in weights - multiset{x} ==> y <= w)
    requires LowerBound(weights - multiset{x, y} + multiset{x + y}, c)
    ensures LowerBound(weights, c + x + y)
  {
    hide Kraft, Cost, WeightBag, AllAtLeast;
    forall s: seq<Item> | WeightBag(s) == weights && Kraft(s) <= 1.0
      ensures Cost(s) >= c + x + y
    {
      BagAtLeast(s, x);
      var merged := JoinTwo(s, x, y);
    }
  }

  /** One weight alone costs nothing. */
  lemma SingleBound(w: int)
    requires w >= 0
    ensures LowerBound(multiset{w}, 0)
  {
    forall s: seq<Item> | WeightBag(s) == multiset{w} && Kraft(s) <= 1.0
      ensures Cost(s) >= 0
    {
      NonNegative(s);
    }
  }

  lemma {:induction false} NonNegative(s: seq<Item>)
    requires forall w :: w in WeightBag(s) ==> w >= 0
    ensures Cost(s) >= 0
  {
    if s != [] {
      assert forall w :: w in WeightBag(s[1..]) ==> w in WeightBag(s);
      NonNegative(s[1..]);
      assert s[0].weight in WeightBag(s);
      assert s[0].weight * s[0].len >= 0;
    }
  }
}
