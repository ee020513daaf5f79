/** Steps 1 to 4 of compress_data (common/src/huffman_encoding.c:83-105): counting, sorting, first unused symbol. */
module HuffmanDictionary {
  import opened Bits
  import opened Sequences
  import opened HuffmanBuild

  /** The dictionary after counting: entry i is byte i with its number of occurrences. */
  ghost function Counted(data: seq<Byte>): (s: seq<DictEntry>)
    ensures |s| == 256 && forall i :: 0 <= i < 256 ==> s[i] == DictEntry(multiset(data)[i], i)
  {
    seq(256, i requires 0 <= i < 256 => DictEntry(multiset(data)[i], i))
  }

  method CountFrequencies(data: seq<Byte>) returns (dictionary: array<DictEntry>)
    ensures fresh(dictionary) && dictionary[..] == Counted(data)
  {
    dictionary := new DictEntry[256](i requires 0 <= i < 256 => DictEntry(0, i));
    var i := 0;
    while i < |data|
      invariant 0 <= i <= |data|
      invariant dictionary[..] == Counted(data[..i])
    {
      assert data[..i + 1] == data[..i] + [data[i]];
      var c := data[i];
      dictionary[c] := dictionary[c].(freq := dictionary[c].freq + 1);
      i := i + 1;
    }
    assert data[..i] == data;
  }

  // ---------------------------------------------------------------- sorting

  /** cmp_dict_entries: unused symbols compare as if they occurred INT_MAX times. */
  function Cmp(a: DictEntry, b: DictEntry): int {
    (if a.freq == 0 then INT_MAX else a.freq) - (if b.freq == 0 then INT_MAX else b.freq)
  }

  ghost predicate SortedByCmp(s: seq<DictEntry>) {
    forall i, j :: 0 <= i < j < |s| ==> Cmp(s[i], s[j]) <= 0
  }

  /** All that is known of the result of qsort; equal entries may come out in any order. */
  ghost predicate IsQsortResult(s: seq<DictEntry>, original: seq<DictEntry>) {
    SortedByCmp(s) && multiset(s) == multiset(original)
  }

  method Insert(s: seq<DictEntry>, e: DictEntry) returns (r: seq<DictEntry>)
    requires SortedByCmp(s)
    ensures SortedByCmp(r) && multiset(r) == multiset(s) + multiset{e} && |r| == |s| + 1
  {
    var i := 0;
    while i < |s| && Cmp(s[i], e) <= 0
      invariant 0 <= i <= |s|
      invariant forall j :: 0 <= j < i ==> Cmp(s[j], e) <= 0
    {
      i := i + 1;
    }
    r := s[..i] + [e] + s[i..];
    ComesBefore(s, i, e);
    StaysSorted(s, i, e);
  }

  lemma ComesBefore(s: seq<DictEntry>, i: nat, e: DictEntry)
    requires SortedByCmp(s) && i <= |s| && (i < |s| ==> Cmp(s[i], e) > 0)
    ensures forall j :: i <= j < |s| ==> Cmp(e, s[j]) <= 0
  {
    forall j | i <= j < |s|
      ensures Cmp(e, s[j]) <= 0
    {
      assert i < j ==> Cmp(s[i], s[j]) <= 0;
    }
  }

  lemma StaysSorted(s: seq<DictEntry>, i: nat, e: DictEntry)
    requires SortedByCmp(s) && i <= |s|
    requires (forall j :: 0 <= j < i ==> Cmp(s[j], e) <= 0) && (forall j :: i <= j < |s| ==> Cmp(e, s[j]) <= 0)
    ensures SortedByCmp(s[..i] + [e] + s[i..]) && multiset(s[..i] + [e] + s[i..]) == multiset(s) + multiset{e}
  {
    hide Cmp;
    assert s == s[..i] + s[i..];
  }

  /** Stands for the C library's qsort; users only rely on what IsQsortResult says. */
  method Qsort(a: array<DictEntry>)
    modifies a
    ensures IsQsortResult(a[..], old(a[..]))
  {
    ghost var original := a[..];
    var sorted: seq<DictEntry> := [];
    var i := 0;
    while i < a.Length
      invariant 0 <= i <= a.Length && |sorted| == i && a[..] == original
      invariant SortedByCmp(sorted) && multiset(sorted) == multiset(original[..i])
    {
      assert original[..i + 1] == original[..i] + [original[i]];
      sorted := Insert(sorted, a[i]);
      i := i + 1;
    }
    assert original[..i] == original;
    i := 0;
    while i < a.Length
      invariant 0 <= i <= a.Length && a[..i] == sorted[..i]
    {
      a[i] := sorted[i];
      i := i + 1;
    }
    assert a[..] == sorted;
  }

  /** Step 4: one past the first symbol that does not occur, 256 when there is none (or it is the last one). */
  ghost predicate IsFirst0(d: seq<DictEntry>, n: int) {
    && |d| == 256 && 1 <= n <= 256
    && (forall i :: 0 <= i < n - 1 ==> d[i].freq != 0)
    && (n < 256 ==> d[n - 1].freq == 0)
  }

  method FindFirst0(dictionary: array<DictEntry>) returns (first0: int)
    requires dictionary.Length == 256
    ensures IsFirst0(dictionary[..], first0)
  {
    first0 := 256;
    var i := 0;
    while i < 256
      invariant 0 <= i <= 256 && first0 == 256
      invariant forall j :: 0 <= j < i ==> dictionary[j].freq != 0
    {
      if dictionary[i].freq == 0 {
        first0 := i + 1;
        break;
      }
      i := i + 1;
    }
  }

  // ---------------------------------------------------------------- what sorting gives

  function Sum(s: seq<DictEntry>): int {
    if s == [] then 0 else s[0].freq + Sum(s[1..])
  }

  lemma {:induction false} SumAppend(s: seq<DictEntry>, t: seq<DictEntry>)
    ensures Sum(s + t) == Sum(s) + Sum(t)
  {
    if s == [] {
      assert s + t == t;
    } else {
      assert (s + t)[1..] == s[1..] + t;
      SumAppend(s[1..], t);
    }
  }

  lemma SumWithout(t: seq<DictEntry>, j: nat)
    requires j < |t|
    ensures Sum(t) == t[j].freq + Sum(t[..j] + t[j + 1..])
  {
    assert t == t[..j] + t[j..] && t[j..][1..] == t[j + 1..];
    SumAppend(t[..j], t[j..]);
    SumAppend(t[..j], t[j + 1..]);
  }

  lemma {:induction false} SumOfPermutation(s: seq<DictEntry>, t: seq<DictEntry>)
    requires multiset(s) == multiset(t)
    ensures Sum(s) == Sum(t)
  {
    if s == [] {
      assert |multiset(t)| == 0;
    } else {
      assert s[0] in multiset(t);
      var j :| 0 <= j < |t| && t[j] == s[0];
      TakeOutOfBoth(s, 0, t, j);
      assert s[..0] + s[1..] == s[1..];
      SumOfPermutation(s[1..], t[..j] + t[j + 1..]);
      SumWithout(t, j);
    }
  }

  lemma {:induction false} TotalIsSum(d: seq<DictEntry>, n: nat)
    requires n <= |d|
    ensures Total(d, n) == Sum(d[..n])
  {
    if n > 0 {
      TotalIsSum(d, n - 1);
      assert d[..n] == d[..n - 1] + [d[n - 1]];
      SumAppend(d[..n - 1], [d[n - 1]]);
    }
  }

  /** Occurrences of the bytes below m, added up. */
  ghost function CountBelow(data: seq<Byte>, m: nat): int
    requires m <= 256
  {
    if m == 0 then 0 else CountBelow(data, m - 1) + multiset(data)[m - 1]
  }

  lemma {:induction false} CountBelowStep(data: seq<Byte>, c: Byte, m: nat)
    requires m <= 256
    ensures CountBelow(data + [c], m) == CountBelow(data, m) + if c < m then 1 else 0
  {
    if m > 0 {
      CountBelowStep(data, c, m - 1);
    }
  }

  lemma {:induction false} CountBelowAll(data: seq<Byte>)
    ensures CountBelow(data, 256) == |data|
  {
    if data == [] {
      CountBelowNone(256);
    } else {
      var n := |data| - 1;
      assert data == data[..n] + [data[n]];
      CountBelowAll(data[..n]);
      CountBelowStep(data[..n], data[n], 256);
    }
  }

  lemma {:induction false} CountBelowNone(m: nat)
    requires m <= 256
    ensures CountBelow([], m) == 0
  {
    if m > 0 {
      CountBelowNone(m - 1);
    }
  }

  lemma {:induction false} TotalIsCount(data: seq<Byte>, m: nat)
    requires m <= 256
    ensures Total(Counted(data), m) == CountBelow(data, m)
  {
    if m > 0 {
      TotalIsCount(data, m - 1);
    }
  }

  /** All occurrences add up to the size of the data, in any order of the dictionary. */
  lemma TotalOfAll(data: seq<Byte>, s: seq<DictEntry>)
    requires multiset(s) == multiset(Counted(data)) && |s| == 256
    ensures Total(s, 256) == |data|
  {
    TotalIsSum(s, 256);
    TotalIsSum(Counted(data), 256);
    assert s[..256] == s && Counted(data)[..256] == Counted(data);
    SumOfPermutation(s, Counted(data));
    TotalIsCount(data, 256);
    CountBelowAll(data);
  }

  // ---------------------------------------------------------------- the sorted dictionary is an alphabet

  /** Each entry of the sorted dictionary is a byte with its count, and no byte stands twice. */
  lemma EntryOf(data: seq<Byte>, s: seq<DictEntry>, i: nat)
    requires multiset(s) == multiset(Counted(data)) && i < |s|
    ensures s[i].freq == multiset(data)[s[i].chr]
  {
    assert s[i] in multiset(s);
    assert s[i] in Counted(data);
  }

  lemma NoByteTwice(data: seq<Byte>, s: seq<DictEntry>, i: nat, j: nat)
    requires multiset(s) == multiset(Counted(data)) && i < j < |s|
    ensures s[i].chr != s[j].chr
  {
    if s[i].chr == s[j].chr {
      EntryOf(data, s, i);
      EntryOf(data, s, j);
      Twice(s, i, j);
      Once(Counted(data), s[i]);
    }
  }

  lemma EveryByteThere(data: seq<Byte>, s: seq<DictEntry>, c: Byte) returns (i: nat)
    requires multiset(s) == multiset(Counted(data))
    ensures i < |s| && s[i] == DictEntry(multiset(data)[c], c)
  {
    var e := Counted(data)[c];
    assert e in multiset(Counted(data));
    assert e in s;
    i :| i < |s| && s[i] == e;
  }

  /** The one input the sort cannot handle: INT_MAX bytes, all the same. */
  ghost predicate OverlongRun(data: seq<Byte>) {
    |data| == INT_MAX && forall i :: 0 <= i < |data| ==> data[i] == data[0]
  }

  lemma {:induction false} CountAtMostSize(data: seq<Byte>, c: Byte)
    ensures multiset(data)[c] <= |data|
    ensures multiset(data)[c] == |data| ==> forall i :: 0 <= i < |data| ==> data[i] == c
  {
    if data != [] {
      var n := |data| - 1;
      assert data == data[..n] + [data[n]];
      CountAtMostSize(data[..n], c);
    }
  }

  lemma CountBelowIntMax(data: seq<Byte>, c: Byte)
    requires |data| <= INT_MAX && !OverlongRun(data)
    ensures multiset(data)[c] < INT_MAX
  {
    CountAtMostSize(data, c);
  }

  /** Used symbols stand before unused ones, in ascending order of frequency. */
  lemma UsedFirst(data: seq<Byte>, s: seq<DictEntry>, i: nat, j: nat)
    requires |data| <= INT_MAX && !OverlongRun(data) && IsQsortResult(s, Counted(data)) && i < j < |s|
    ensures s[j].freq > 0 ==> 0 < s[i].freq <= s[j].freq
    ensures s[i].freq >= 0 && s[j].freq >= 0
  {
    EntryOf(data, s, i);
    EntryOf(data, s, j);
    CountBelowIntMax(data, s[i].chr);
    CountBelowIntMax(data, s[j].chr);
    assert Cmp(s[i], s[j]) <= 0;
  }

  lemma {:induction false} TotalTail(s: seq<DictEntry>, n: nat, m: nat)
    requires n <= m <= |s| && forall i :: n <= i < m ==> s[i].freq == 0
    ensures Total(s, m) == Total(s, n)
    decreases m
  {
    if n < m {
      TotalTail(s, n, m - 1);
    }
  }

  /** How many symbols occur. */
  function UsedCount(s: seq<DictEntry>, n: int): int
    requires |s| == 256 && 1 <= n <= 256
  {
    if n < 256 || s[255].freq == 0 then n - 1 else 256
  }

  /** Steps 1 to 4 give the alphabet the merge needs, and every byte of the data is one of its used symbols. */
  lemma SortedDictionary(data: seq<Byte>, s: seq<DictEntry>, n: int)
    requires data != [] && |data| <= INT_MAX && !OverlongRun(data)
    requires IsQsortResult(s, Counted(data)) && IsFirst0(s, n)
    ensures Alphabet(s, n, UsedCount(s, n), |data|)
    ensures forall i :: 0 <= i < |data| ==> data[i] in Chars(s, n)
  {
    InOrder(data, s);
    var first := EveryByteThere(data, s, data[0]);
    assert s[first].freq > 0;
    TotalOfAll(data, s);
    hide IsQsortResult, IsFirst0, OverlongRun, Counted, Chars, Total, Alphabet;
    AlphabetOf(s, n, first, |data|);
    forall i | 0 <= i < |data|
      ensures data[i] in Chars(s, n)
    {
      UsedByte(data, s, n, data[i]);
    }
  }

  /** Bytes do not repeat, and those that occur come first, in ascending order. */
  ghost predicate UsedInOrder(s: seq<DictEntry>) {
    forall i, j :: 0 <= i < j < |s| ==>
      && s[i].chr != s[j].chr && (s[j].freq > 0 ==> 0 < s[i].freq <= s[j].freq)
      && s[i].freq >= 0 && s[j].freq >= 0
  }

  lemma AlphabetOf(s: seq<DictEntry>, n: int, first: nat, total: int)
    requires |s| == 256 && UsedInOrder(s) && IsFirst0(s, n) && first < 256 && s[first].freq > 0
    requires Total(s, 256) == total <= INT_MAX
    ensures Alphabet(s, n, UsedCount(s, n), total) && forall i :: n <= i < |s| ==> s[i].freq == 0
  {
    hide Total;
    assert forall i :: n <= i < 256 ==> s[i].freq == 0;
    TotalTail(s, n, 256);
  }

  lemma InOrder(data: seq<Byte>, s: seq<DictEntry>)
    requires |data| <= INT_MAX && !OverlongRun(data) && IsQsortResult(s, Counted(data))
    ensures UsedInOrder(s)
  {
    forall i, j | 0 <= i < j < |s|
      ensures s[i].chr != s[j].chr && (s[j].freq > 0 ==> 0 < s[i].freq <= s[j].freq) && s[i].freq >= 0 && s[j].freq >= 0
    {
      NoByteTwice(data, s, i, j);
      UsedFirst(data, s, i, j);
    }
  }

  lemma UsedByte(data: seq<Byte>, s: seq<DictEntry>, n: int, c: Byte)
    requires IsQsortResult(s, Counted(data)) && IsFirst0(s, n) && c in data
    requires forall i :: n <= i < |s| ==> s[i].freq == 0
    ensures c in Chars(s, n)
  {
    var j := EveryByteThere(data, s, c);
    hide IsQsortResult, Counted;
    assert s[j].freq > 0;
    assert Chars(s, n)[j] == c;
  }

  /** Such input exists for every byte. */
  lemma OverlongRunExists(c: Byte)
    ensures OverlongRun(seq(INT_MAX, _ => c))
  {
  }

  /** With INT_MAX equal bytes, qsort may put an unused symbol first; then first0 is 1 and the tree has one leaf. */
  lemma OverlongRunBreaks(data: seq<Byte>) returns (s: seq<DictEntry>)
    requires OverlongRun(data)
    ensures IsQsortResult(s, Counted(data)) && IsFirst0(s, 1)
  {
    var c := Counted(data);
    AllTheSame(data);
    if data[0] != 0 {
      s := c;
    } else {
      s := c[1..] + [c[0]];
      assert c == [c[0]] + c[1..];
    }
    assert forall i :: 0 <= i < 256 ==> s[i].freq == 0 || s[i].freq == INT_MAX;
  }

  lemma AllTheSame(data: seq<Byte>)
    requires OverlongRun(data)
    ensures forall c: Byte :: multiset(data)[c] == if c == data[0] then INT_MAX else 0
  {
    forall c: Byte
      ensures multiset(data)[c] == if c == data[0] then INT_MAX else 0
    {
      if c == data[0] {
        CountSame(data, c);
      } else {
        assert c !in data;
      }
    }
  }

  lemma {:induction false} CountSame(data: seq<Byte>, c: Byte)
    requires forall i :: 0 <= i < |data| ==> data[i] == c
    ensures multiset(data)[c] == |data|
  {
    if data != [] {
      var n := |data| - 1;
      assert data == data[..n] + [data[n]];
      CountSame(data[..n], c);
    }
  }

  /** Exactly when every outcome of the sort leaves the merge at least two leaves. */
  lemma SortWorksIff(data: seq<Byte>)
    requires 1 <= |data| <= INT_MAX
    ensures (forall s, n :: IsQsortResult(s, Counted(data)) && IsFirst0(s, n) ==> n >= 2) <==> !OverlongRun(data)
  {
    if OverlongRun(data) {
      var s := OverlongRunBreaks(data);
      assert IsQsortResult(s, Counted(data)) && IsFirst0(s, 1);
    } else {
      forall s, n | IsQsortResult(s, Counted(data)) && IsFirst0(s, n)
        ensures n >= 2
      {
        SortedDictionary(data, s, n);
      }
    }
  }
}
