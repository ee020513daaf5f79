/** What every file-system operation keeps, and what the two limits do. */
module StoreInvariant {
  import opened Store

  /** Lock bookkeeping of one entry: distinct waiters, only behind an owner, who is not one of them. */
  ghost predicate LockOk(e: Entry) {
    && (e.owner == EMPTY_OWNER ==> e.waiting == [])
    && e.owner !in e.waiting
    && |e.waiting| <= MAX_CLIENT_WAITING_ON_LOCK
    && EMPTY_OWNER !in e.waiting
    && forall i, j :: 0 <= i < j < |e.waiting| ==> e.waiting[i] != e.waiting[j]
  }

  ghost predicate LocksOk(cache: seq<Entry>) {
    forall i :: 0 <= i < |cache| ==> LockOk(cache[i])
  }

  /** The state between two operations: distinct keys, exact slot count, both limits respected. The byte counter
      can only stay over its limit when nothing is left to drop. */
  ghost predicate Inv(cfg: Config, st: State) {
    && ValidConfig(cfg)
    && KeysDistinct(cfg, st.cache)
    && st.slotUsed == |st.cache| <= cfg.slotMax
    && (st.bytesUsed <= cfg.bytesMax || st.cache == [])
    && LocksOk(st.cache)
  }

  /** A client that waits for a lock is in some queue. */
  ghost predicate IsWaiting(cache: seq<Entry>, client: int) {
    exists i :: 0 <= i < |cache| && client in cache[i].waiting
  }

  // ---------------------------------------------------------------- sequences of entries

  lemma DistinctReplace(cfg: Config, cache: seq<Entry>, i: nat, e: Entry)
    requires cfg.tableSize > 0 && KeysDistinct(cfg, cache) && i < |cache| && EntryKey(cfg, e) == EntryKey(cfg, cache[i])
    ensures KeysDistinct(cfg, MoveToTop(cache, i, e)) && KeysDistinct(cfg, cache[i := e])
    ensures KeysDistinct(cfg, cache[..i] + cache[i + 1..])
  {
    hide EntryKey;
  }

  lemma DistinctSuffix(cfg: Config, cache: seq<Entry>, k: nat)
    requires cfg.tableSize > 0 && KeysDistinct(cfg, cache) && k <= |cache|
    ensures KeysDistinct(cfg, cache[k..])
  {
    hide EntryKey;
  }

  lemma DistinctAppend(cfg: Config, cache: seq<Entry>, e: Entry)
    requires cfg.tableSize > 0 && KeysDistinct(cfg, cache)
    requires forall j :: 0 <= j < |cache| ==> EntryKey(cfg, cache[j]) != EntryKey(cfg, e)
    ensures KeysDistinct(cfg, cache + [e])
  {
    hide EntryKey;
  }

  lemma LocksMove(cache: seq<Entry>, i: nat, e: Entry)
    requires LocksOk(cache) && i < |cache| && LockOk(e)
    ensures LocksOk(MoveToTop(cache, i, e)) && LocksOk(cache[i := e]) && LocksOk(cache[..i] + cache[i + 1..])
  {
    hide LockOk;
  }

  lemma {:induction false} BytesConcat(a: seq<Entry>, b: seq<Entry>)
    ensures Bytes(a + b) == Bytes(a) + Bytes(b)
  {
    if a == [] {
      assert a + b == b;
    } else {
      assert (a + b)[1..] == a[1..] + b;
      BytesConcat(a[1..], b);
    }
  }

  lemma BytesMove(cache: seq<Entry>, i: nat, e: Entry)
    requires i < |cache|
    ensures Bytes(MoveToTop(cache, i, e)) == Bytes(cache) - Size(cache[i].file) + Size(e.file)
    ensures Bytes(cache[..i] + cache[i + 1..]) == Bytes(cache) - Size(cache[i].file)
    ensures Size(e.file) == Size(cache[i].file) ==> Bytes(cache[i := e]) == Bytes(cache)
  {
    var one, new1 := [cache[i]], [e];
    assert cache == cache[..i] + one + cache[i + 1..];
    assert cache[i := e] == cache[..i] + new1 + cache[i + 1..];
    assert Bytes(one) == Size(cache[i].file) && Bytes(new1) == Size(e.file);
    BytesConcat(cache[..i], one);
    BytesConcat(cache[..i] + one, cache[i + 1..]);
    BytesConcat(cache[..i], new1);
    BytesConcat(cache[..i] + new1, cache[i + 1..]);
    BytesConcat(cache[..i], cache[i + 1..]);
    BytesConcat(cache[..i] + cache[i + 1..], new1);
  }

  // ---------------------------------------------------------------- the byte limit

  /** The byte limit drops the shortest oldest-first run that brings the counter within its limit, or everything. */
  lemma {:induction false} EjectCountIsLeast(cfg: Config, cache: seq<Entry>, bytesUsed: int)
    ensures var k := EjectCount(cfg, cache, bytesUsed);
            && (k == |cache| || bytesUsed - Bytes(cache[..k]) <= cfg.bytesMax)
            && forall j :: 0 <= j < k ==> bytesUsed - Bytes(cache[..j]) > cfg.bytesMax
  {
    if bytesUsed > cfg.bytesMax && cache != [] {
      var k := EjectCount(cfg, cache, bytesUsed);
      var rest := bytesUsed - Size(cache[0].file);
      EjectCountIsLeast(cfg, cache[1..], rest);
      forall j | 1 <= j <= |cache|
        ensures Bytes(cache[..j]) == Size(cache[0].file) + Bytes(cache[1..][..j - 1])
      {
        assert cache[..j][1..] == cache[1..][..j - 1];
      }
      forall j | 0 <= j < k
        ensures bytesUsed - Bytes(cache[..j]) > cfg.bytesMax
      {
        if j > 0 {
          assert rest - Bytes(cache[1..][..j - 1]) > cfg.bytesMax;
        }
      }
    }
  }

  /** One slot too many at most is left before the limits are enforced, so the two of them never both drop files:
      the ejected files together with what stays are exactly what was there. */
  lemma NothingLost(cfg: Config, st: State)
    requires st.slotUsed == |st.cache| <= cfg.slotMax + 1 && 1 <= cfg.slotMax
    ensures var b := Balance(cfg, st);
            && b.ejected + b.state.cache == st.cache
            && b.state.slotUsed == |b.state.cache| <= cfg.slotMax
            && b.state.bytesUsed == st.bytesUsed - Bytes(b.ejected)
            && (b.state.bytesUsed <= cfg.bytesMax || b.state.cache == [])
            && (EjectCount(cfg, st.cache, st.bytesUsed) > 0 ==> |b.ejected| == EjectCount(cfg, st.cache, st.bytesUsed))
            && (EjectCount(cfg, st.cache, st.bytesUsed) == 0 ==> |b.ejected| <= 1)
  {
    var k := EjectCount(cfg, st.cache, st.bytesUsed);
    EjectCountIsLeast(cfg, st.cache, st.bytesUsed);
    assert st.cache == st.cache[..k] + st.cache[k..];
    if st.slotUsed - k > cfg.slotMax {
      assert k == 0 && st.cache[..0] == [] && st.cache[0..] == st.cache;
      assert st.cache == [st.cache[0]] + st.cache[1..];
      assert Bytes([st.cache[0]]) == Size(st.cache[0].file);
    }
  }

  /** Within both limits nothing is ejected. */
  lemma NothingToEject(cfg: Config, st: State)
    requires st.slotUsed <= cfg.slotMax && st.bytesUsed <= cfg.bytesMax
    ensures Balance(cfg, st) == Balanced(st, []) && AllGone([]) == [] && Files([]) == []
  {
    assert st.cache[0..] == st.cache && st.cache[..0] == [];
  }

  /** The counter's distance from the true size of all files. */
  function Drift(st: State): int {
    Bytes(st.cache) - st.bytesUsed
  }

  lemma BalanceKeepsDrift(cfg: Config, st: State)
    requires st.slotUsed == |st.cache| <= cfg.slotMax + 1 && 1 <= cfg.slotMax
    ensures Drift(Balance(cfg, st).state) == Drift(st)
  {
    NothingLost(cfg, st);
    var b := Balance(cfg, st);
    BytesConcat(b.ejected, b.state.cache);
  }

  /** Between two operations the counter is within its limit exactly when it would be with nothing cached. */
  lemma LimitIffDrift(cfg: Config, st: State)
    requires Inv(cfg, st)
    ensures st.bytesUsed <= cfg.bytesMax <==> -Drift(st) <= cfg.bytesMax
  {
    hide KeysDistinct, LocksOk;
  }

  /** Everything is ejected exactly when the byte limit asks for the newest file too. */
  lemma NothingStaysIff(cfg: Config, st: State)
    requires st.slotUsed == |st.cache| <= cfg.slotMax + 1 && 1 <= cfg.slotMax && st.cache != []
    ensures Balance(cfg, st).state.cache == [] <==> EjectCount(cfg, st.cache, st.bytesUsed) == |st.cache|
  {
    hide EjectCount;
    NothingLost(cfg, st);
  }

  /** The byte limit asks for the newest file exactly when the counter is over it without all the others. */
  lemma NewestGoesIff(cfg: Config, cache: seq<Entry>, bytesUsed: int)
    requires cache != []
    ensures EjectCount(cfg, cache, bytesUsed) == |cache| <==> bytesUsed - Bytes(cache[..|cache| - 1]) > cfg.bytesMax
  {
    var k, n := EjectCount(cfg, cache, bytesUsed), |cache| - 1;
    EjectCountIsLeast(cfg, cache, bytesUsed);
    hide EjectCount, Bytes;
    if k <= n {
      assert cache[..n] == cache[..k] + cache[k..n];
      BytesConcat(cache[..k], cache[k..n]);
    }
  }

  lemma BytesOfNewest(cache: seq<Entry>)
    requires cache != []
    ensures Bytes(cache) == Bytes(cache[..|cache| - 1]) + Size(cache[|cache| - 1].file)
  {
    hide Size;
    var n := |cache| - 1;
    assert cache == cache[..n] + [cache[n]];
    BytesConcat(cache[..n], [cache[n]]);
    assert Bytes([cache[n]]) == Size(cache[n].file);
  }

  /** Exactly when the file just written (the newest entry) is itself dropped: when it does not fit alone, counting
      with the counter's drift. */
  lemma NewestStaysIff(cfg: Config, st: State)
    requires st.slotUsed == |st.cache| <= cfg.slotMax + 1 && 1 <= cfg.slotMax && st.cache != []
    ensures Balance(cfg, st).state.cache != [] <==> Size(st.cache[|st.cache| - 1].file) - Drift(st) <= cfg.bytesMax
    ensures Balance(cfg, st).state.cache != [] ==>
              Balance(cfg, st).state.cache[|Balance(cfg, st).state.cache| - 1] == st.cache[|st.cache| - 1]
  {
    hide Balance, EjectCount, Bytes, Size;
    NothingStaysIff(cfg, st);
    NewestGoesIff(cfg, st.cache, st.bytesUsed);
    BytesOfNewest(st.cache);
    NothingLost(cfg, st);
    var b := Balance(cfg, st);
    assert (b.ejected + b.state.cache)[|st.cache| - 1] == st.cache[|st.cache| - 1];
  }
}
