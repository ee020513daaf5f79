/** What each operation of the file system does to the files, to their order and to the counters
    (server/src/file_system.c:132-574, 698-810). The effects are told by keys: which entry a key has before and after,
    which files are at its sides, and which files are handed out. */
module StoreEffects {
  import opened CircQueue
  import opened Store
  import opened StoreInvariant
  import opened StoreSteps
  import opened StoreClean
  import opened StoreStakes

  // ---------------------------------------------------------------- vocabulary

  /** The cache without the file of a key, in the same order. */
  function Others(cfg: Config, cache: seq<Entry>, key: nat): seq<Entry>
    requires cfg.tableSize > 0
  {
    if cache == [] then []
    else
      var n := |cache| - 1;
      Others(cfg, cache[..n], key) + if EntryKey(cfg, cache[n]) == key then [] else [cache[n]]
  }

  lemma {:induction false} OthersOfNone(cfg: Config, cache: seq<Entry>, key: nat)
    requires cfg.tableSize > 0 && forall j :: 0 <= j < |cache| ==> EntryKey(cfg, cache[j]) != key
    ensures Others(cfg, cache, key) == cache
  {
    hide EntryKey;
    if cache != [] {
      OthersOfNone(cfg, cache[..|cache| - 1], key);
    }
  }

  /** With distinct keys exactly one entry is left out. */
  lemma {:induction false} OthersOf(cfg: Config, cache: seq<Entry>, i: nat)
    requires cfg.tableSize > 0 && KeysDistinct(cfg, cache) && i < |cache|
    ensures Others(cfg, cache, EntryKey(cfg, cache[i])) == cache[..i] + cache[i + 1..]
  {
    hide EntryKey;
    var n := |cache| - 1;
    if i == n {
      OthersOfNone(cfg, cache[..n], EntryKey(cfg, cache[i]));
    } else {
      OthersOf(cfg, cache[..n], i);
      assert cache[..n][..i] + cache[..n][i + 1..] + [cache[n]] == cache[..i] + cache[i + 1..];
    }
  }

  /** What looking a key up says of its place. */
  lemma Found(cfg: Config, st: State, key: nat) returns (i: int)
    requires Inv(cfg, st)
    ensures i == Find(cfg, st.cache, key)
    ensures Lookup(cfg, st.cache, key) == if i < 0 then None else Some(st.cache[i])
    ensures i < 0 ==> Others(cfg, st.cache, key) == st.cache
    ensures i >= 0 ==> EntryKey(cfg, st.cache[i]) == key && LockOk(st.cache[i])
  {
    i := Find(cfg, st.cache, key);
    hide EntryKey, Find, LockOk, Others;
    if i < 0 {
      OthersOfNone(cfg, st.cache, key);
    }
  }

  /** Moving an entry to the top puts it behind the others. */
  lemma TopIs(cfg: Config, st: State, i: nat, e: Entry)
    requires Inv(cfg, st) && i < |st.cache|
    ensures MoveToTop(st.cache, i, e) == Others(cfg, st.cache, EntryKey(cfg, st.cache[i])) + [e]
  {
    hide EntryKey, LocksOk, KeysDistinct, Others;
    OthersOf(cfg, st.cache, i);
  }

  /** Nothing changed and nothing was handed out. */
  ghost predicate Unchanged(st: State, o: Outcome) {
    o.state == st && o.ejected == [] && o.notes == []
  }

  /** The file of this key is now the most recently used one and its entry is e; all others are as they were. */
  ghost predicate MadeNewest(cfg: Config, st: State, o: Outcome, key: nat, e: Entry)
    requires cfg.tableSize > 0
  {
    && o.state.cache == Others(cfg, st.cache, key) + [e]
    && o.state.slotUsed == st.slotUsed && o.state.bytesUsed == st.bytesUsed && o.ejected == []
  }

  /** The entry of this key is now e, where it was; all others are as they were. */
  ghost predicate RewrittenInPlace(cfg: Config, st: State, o: Outcome, key: nat, e: Entry)
    requires cfg.tableSize > 0
  {
    && |o.state.cache| == |st.cache|
    && (forall j :: 0 <= j < |st.cache| ==>
          o.state.cache[j] == if EntryKey(cfg, st.cache[j]) == key then e else st.cache[j])
    && o.state.slotUsed == st.slotUsed && o.state.bytesUsed == st.bytesUsed && o.ejected == []
  }

  lemma InPlace(cfg: Config, st: State, i: nat, e: Entry)
    requires Inv(cfg, st) && i < |st.cache|
    ensures var o := Outcome(st.(cache := st.cache[i := e]), FS_CLIENT_WAITING_ON_LOCK, [], []);
            RewrittenInPlace(cfg, st, o, EntryKey(cfg, st.cache[i]), e)
  {
    hide EntryKey, LocksOk;
  }

  // ---------------------------------------------------------------- operations that eject nothing

  /** fs_obtain and fs_exists: the file, if it is there, becomes the most recently used one, as it is. */
  lemma TouchEffect(cfg: Config, st: State, name: string)
    requires Inv(cfg, st)
    ensures var o, key := Touch(cfg, st, name), KeyOf(cfg, name);
            var l := Lookup(cfg, st.cache, key);
            if l.None? then o.res == FS_FILE_NOT_EXISTS && Unchanged(st, o)
            else o.res == 0 && MadeNewest(cfg, st, o, key, l.value) && o.notes == []
  {
    hide Inv, Find, Lookup, KeyOf, Others, EntryKey, LockOk, MoveToTop;
    InvConfig(cfg, st);
    var i := Found(cfg, st, KeyOf(cfg, name));
    if i >= 0 {
      TopIs(cfg, st, i, st.cache[i]);
    }
  }

  /** fs_trylock: whoever finds the file free or its own owns it; whoever does not is the last in its queue, or is
      refused when the queue is full. */
  lemma LockEffect(cfg: Config, st: State, client: int, name: string)
    requires Inv(cfg, st)
    ensures var o, key := TryLock(cfg, st, client, name), KeyOf(cfg, name);
            var l := Lookup(cfg, st.cache, key);
            if l.None? then o.res == FS_FILE_NOT_EXISTS && Unchanged(st, o)
            else
              var e := l.value;
              && o.notes == []
              && if e.owner == EMPTY_OWNER || e.owner == client then
                   o.res == 0 && MadeNewest(cfg, st, o, key, Entry(client, e.file, e.waiting))
                 else if |e.waiting| < MAX_CLIENT_WAITING_ON_LOCK then
                   && o.res == FS_CLIENT_WAITING_ON_LOCK
                   && RewrittenInPlace(cfg, st, o, key, Entry(e.owner, e.file, e.waiting + [client]))
                 else o.res == FS_CLIENT_NOT_ALLOWED && Unchanged(st, o)
  {
    hide Inv, Find, Lookup, KeyOf, Others, EntryKey, LockOk, RewrittenInPlace, MoveToTop;
    InvConfig(cfg, st);
    var i := Found(cfg, st, KeyOf(cfg, name));
    if i >= 0 {
      TopIs(cfg, st, i, st.cache[i].(owner := client));
      InPlace(cfg, st, i, st.cache[i].(waiting := st.cache[i].waiting + [client]));
    }
  }

  /** _inner_unlock: the owner's file goes to the client that waits first, which is told so, or to nobody. */
  lemma UnlockEffect(cfg: Config, st: State, client: int, key: nat)
    requires Inv(cfg, st)
    ensures var o, l := UnlockKey(cfg, st, client, key), Lookup(cfg, st.cache, key);
            if l.None? then o.res == FS_FILE_NOT_EXISTS && Unchanged(st, o)
            else if l.value.owner != client then o.res == FS_CLIENT_NOT_ALLOWED && Unchanged(st, o)
            else
              var e := l.value;
              && o.res == 0
              && (e.waiting == [] ==>
                    MadeNewest(cfg, st, o, key, Entry(EMPTY_OWNER, e.file, [])) && o.notes == [])
              && (e.waiting != [] ==>
                    && MadeNewest(cfg, st, o, key, Entry(e.waiting[0], e.file, e.waiting[1..]))
                    && o.notes == [Notification(e.waiting[0], 0)])
  {
    hide Inv, Find, Lookup, Others, EntryKey, MoveToTop;
    InvConfig(cfg, st);
    var i := Found(cfg, st, key);
    if i >= 0 {
      TopIs(cfg, st, i, Released(st.cache[i]));
    }
  }

  /** fs_remove: the owner's file is gone, its size leaves the counters and everybody waiting for it is told. */
  lemma RemoveEffect(cfg: Config, st: State, client: int, name: string)
    requires Inv(cfg, st)
    ensures var o, key := Remove(cfg, st, client, name), KeyOf(cfg, name);
            var l := Lookup(cfg, st.cache, key);
            if l.None? then o.res == FS_FILE_NOT_EXISTS && Unchanged(st, o)
            else if l.value.owner != client then o.res == FS_CLIENT_NOT_ALLOWED && Unchanged(st, o)
            else
              var e := l.value;
              && o.res == 0 && o.ejected == [] && o.state.cache == Others(cfg, st.cache, key)
              && o.state.slotUsed == st.slotUsed - 1
              && o.state.bytesUsed == st.bytesUsed - |e.file.name| - |e.file.content|
              && |o.notes| == |e.waiting|
              && forall j :: 0 <= j < |e.waiting| ==> o.notes[j] == Notification(e.waiting[j], FS_FILE_NOT_EXISTS)
  {
    hide Inv, Find, Lookup, KeyOf, Others, EntryKey, LockOk, Gone, Remove;
    InvConfig(cfg, st);
    var i := Found(cfg, st, KeyOf(cfg, name));
    if i >= 0 && st.cache[i].owner == client {
      RemovedIs(cfg, st, client, name);
    } else {
      OthersMayNot(cfg, st, client, name);
    }
  }

  lemma RemovedIs(cfg: Config, st: State, client: int, name: string)
    requires Inv(cfg, st) && Find(cfg, st.cache, KeyOf(cfg, name)) >= 0
    requires st.cache[Find(cfg, st.cache, KeyOf(cfg, name))].owner == client
    ensures var o, key := Remove(cfg, st, client, name), KeyOf(cfg, name);
            var e := st.cache[Find(cfg, st.cache, key)];
            && o.res == 0 && o.ejected == [] && o.state.cache == Others(cfg, st.cache, key)
            && o.state.slotUsed == st.slotUsed - 1
            && o.state.bytesUsed == st.bytesUsed - |e.file.name| - |e.file.content|
            && o.notes == Gone(e.waiting)
  {
    hide LocksOk, KeysDistinct, Find, KeyOf, Others, EntryKey, Gone;
    OthersOf(cfg, st.cache, Find(cfg, st.cache, KeyOf(cfg, name)));
  }

  // ---------------------------------------------------------------- operations that may eject

  /** Both limits hold for these files, for a counter that is this far below the true size. */
  ghost predicate Within(cfg: Config, cache: seq<Entry>, drift: int) {
    |cache| <= cfg.slotMax && Bytes(cache) - drift <= cfg.bytesMax
  }

  /** Of these files, oldest first, the fewest are dropped that bring the others within both limits, all of them when
      nothing less does. The dropped files are handed out in order, whoever waited for them is told in order, and the
      counters are those of what stays. */
  ghost predicate Evicts(cfg: Config, all: seq<Entry>, drift: int, o: Outcome) {
    var k := |all| - |o.state.cache|;
    && k >= 0 && o.state.cache == all[k..]
    && (o.state.cache == [] || Within(cfg, all[k..], drift))
    && (forall j :: 0 <= j < k ==> !Within(cfg, all[j..], drift))
    && o.state.slotUsed == |o.state.cache| && o.state.bytesUsed == Bytes(o.state.cache) - drift
    && |o.ejected| == k && (forall j :: 0 <= j < k ==> o.ejected[j] == all[j].file)
    && o.notes == AllGone(all[..k])
  }

  /** The size of files is the number of characters of their names and contents. */
  lemma BytesCount(a: seq<Entry>, e: Entry)
    ensures Bytes([]) == 0 && Bytes(a + [e]) == Bytes(a) + |e.file.name| + |e.file.content|
  {
    BytesConcat(a, [e]);
    assert [e][1..] == [];
  }

  lemma {:induction false} AllGoneConcat(a: seq<Entry>, b: seq<Entry>)
    ensures AllGone(a + b) == AllGone(a) + AllGone(b)
  {
    hide Gone;
    if a == [] {
      assert a + b == b;
    } else {
      assert (a + b)[1..] == a[1..] + b;
      AllGoneConcat(a[1..], b);
    }
  }

  /** Who is told that files are gone: everybody who waits for one of them, file by file, each queue in its order. */
  lemma ToldInOrder(a: seq<Entry>, e: Entry)
    ensures AllGone([]) == [] && |AllGone(a + [e])| == |AllGone(a)| + |e.waiting|
    ensures AllGone(a + [e])[..|AllGone(a)|] == AllGone(a)
    ensures forall j :: 0 <= j < |e.waiting| ==>
              AllGone(a + [e])[|AllGone(a)| + j] == Notification(e.waiting[j], FS_FILE_NOT_EXISTS)
  {
    hide Gone;
    assert [e][1..] == [] && AllGone([e]) == Gone(e.waiting) + AllGone([]);
    hide AllGone;
    AllGoneConcat(a, [e]);
  }

  lemma TailSize(cfg: Config, st: State, j: nat)
    requires j <= |st.cache|
    ensures Bytes(st.cache[j..]) - Drift(st) == st.bytesUsed - Bytes(st.cache[..j])
  {
    hide Bytes;
    assert st.cache == st.cache[..j] + st.cache[j..];
    BytesConcat(st.cache[..j], st.cache[j..]);
  }

  lemma {:induction false} EvictsIs(cfg: Config, gone: seq<Entry>, rest: seq<Entry>, drift: int, o: Outcome)
    requires o == Outcome(State(rest, |rest|, Bytes(rest) - drift), 0, Files(gone), AllGone(gone))
    requires rest == [] || Within(cfg, rest, drift)
    requires forall j :: 0 <= j < |gone| ==> !Within(cfg, (gone + rest)[j..], drift)
    ensures Evicts(cfg, gone + rest, drift, o)
  {
    hide Bytes, AllGone, Within;
    assert (gone + rest)[..|gone|] == gone && (gone + rest)[|gone|..] == rest;
  }

  /** updateCacheSize keeps to this. */
  lemma {:induction false} SettleEvicts(cfg: Config, st: State)
    requires ValidConfig(cfg) && st.slotUsed == |st.cache| <= cfg.slotMax + 1
    ensures Settle(cfg, st).res == 0 && Evicts(cfg, st.cache, Drift(st), Settle(cfg, st))
  {
    var b := Balance(cfg, st);
    NothingLost(cfg, st);
    BalanceKeepsDrift(cfg, st);
    assert b.state.bytesUsed == Bytes(b.state.cache) - Drift(st);
    hide Balance, EjectCount, Bytes, AllGone, Drift, Within, Evicts;
    KeptIsWithin(cfg, b.state.cache, b.state.bytesUsed, Drift(st));
    forall j | 0 <= j < |b.ejected|
      ensures !Within(cfg, st.cache[j..], Drift(st))
    {
      DroppedWasTooMuch(cfg, st, j);
    }
    EvictsIs(cfg, b.ejected, b.state.cache, Drift(st), Settle(cfg, st));
  }

  lemma KeptIsWithin(cfg: Config, cache: seq<Entry>, bytesUsed: int, drift: int)
    requires |cache| <= cfg.slotMax && bytesUsed == Bytes(cache) - drift && (bytesUsed <= cfg.bytesMax || cache == [])
    ensures cache == [] || Within(cfg, cache, drift)
  {
  }

  lemma DroppedWasTooMuch(cfg: Config, st: State, j: nat)
    requires ValidConfig(cfg) && st.slotUsed == |st.cache| <= cfg.slotMax + 1 && j < |Balance(cfg, st).ejected|
    ensures j <= |st.cache| && !Within(cfg, st.cache[j..], Drift(st))
  {
    hide Balance, EjectCount, Bytes;
    EjectCountIsLeast(cfg, st.cache, st.bytesUsed);
    NothingLost(cfg, st);
    TailSize(cfg, st, j);
    if EjectCount(cfg, st.cache, st.bytesUsed) == 0 {
      assert j == 0 && st.cache[0..] == st.cache;
      DropsForSlots(cfg, st);
    }
  }

  lemma DropsForSlots(cfg: Config, st: State)
    requires st.slotUsed == |st.cache| <= cfg.slotMax + 1 && 1 <= cfg.slotMax
    requires EjectCount(cfg, st.cache, st.bytesUsed) == 0 && Balance(cfg, st).ejected != []
    ensures |st.cache| > cfg.slotMax
  {
    assert st.cache[..0] == [] && st.cache[0..] == st.cache;
  }

  /** fs_insert: a key that is not cached gets the new file, on top and without waiters, locked or not; what the limits
      then ask for is ejected. */
  lemma InsertEffect(cfg: Config, st: State, client: int, file: File, lock: bool)
    requires Inv(cfg, st)
    ensures var o := Insert(cfg, st, client, file, lock);
            if Lookup(cfg, st.cache, KeyOf(cfg, file.name)).Some? then
              o.res == FS_FILE_ALREADY_EXISTS && Unchanged(st, o)
            else
              && o.res == 0
              && Evicts(cfg, st.cache + [Entry(if lock then client else EMPTY_OWNER, file, [])], Drift(st), o)
  {
    hide KeysDistinct, LocksOk, Find, Lookup, KeyOf, Others, Settle, Evicts, Drift;
    var i := Found(cfg, st, KeyOf(cfg, file.name));
    if i < 0 {
      var e := Entry(if lock then client else EMPTY_OWNER, file, []);
      DriftOfNew(st, e);
      SettleEvicts(cfg, State(st.cache + [e], st.slotUsed + 1, st.bytesUsed + Size(file)));
    }
  }

  lemma RewriteEvicts(cfg: Config, st: State, i: nat, e: Entry, bytesUsed: int)
    requires Inv(cfg, st) && i < |st.cache|
    ensures var o := Settle(cfg, State(MoveToTop(st.cache, i, e), st.slotUsed, bytesUsed));
            o.res == 0 && Evicts(cfg, Others(cfg, st.cache, EntryKey(cfg, st.cache[i])) + [e],
                                 Bytes(st.cache) - Size(st.cache[i].file) + Size(e.file) - bytesUsed, o)
  {
    hide KeysDistinct, LocksOk, EntryKey, Others, Settle, Evicts, Bytes, Size;
    OthersOf(cfg, st.cache, i);
    BytesMove(st.cache, i, e);
    SettleEvicts(cfg, State(MoveToTop(st.cache, i, e), st.slotUsed, bytesUsed));
  }

  /** fs_modify: the owner's file is replaced by the new one, which is then on top; what the limits then ask for is
      ejected. */
  lemma ModifyEffect(cfg: Config, st: State, client: int, file: File)
    requires Inv(cfg, st)
    ensures var o, key := Modify(cfg, st, client, file), KeyOf(cfg, file.name);
            var l := Lookup(cfg, st.cache, key);
            if l.None? then o.res == FS_FILE_NOT_EXISTS && Unchanged(st, o)
            else if l.value.owner != client then o.res == FS_CLIENT_NOT_ALLOWED && Unchanged(st, o)
            else if |file.name| + |file.content| > cfg.bytesMax then o.res == FS_FILE_TOO_BIG && Unchanged(st, o)
            else
              && o.res == 0
              && Evicts(cfg, Others(cfg, st.cache, key) + [Entry(client, file, l.value.waiting)], Drift(st), o)
  {
    hide Inv, Find, Lookup, KeyOf, Others, EntryKey, LockOk, Settle, Evicts, Bytes, MoveToTop;
    InvConfig(cfg, st);
    var i := Found(cfg, st, KeyOf(cfg, file.name));
    if i >= 0 {
      var e := st.cache[i];
      RewriteEvicts(cfg, st, i, e.(file := file), st.bytesUsed + Size(file) - Size(e.file));
    }
  }

  lemma AppendDrift(st: State, e: Entry, file: File, content: string)
    ensures Bytes(st.cache) - Size(e.file) + Size(File(e.file.name, content)) - (st.bytesUsed + Size(file) - |content|)
            == Drift(st) + |content| + |content| - |e.file.content| - Size(file)
    ensures Size(file) == |file.name| + |file.content|
  {
    hide Bytes;
  }

  /** fs_append: the content of a file that the client owns or nobody does is followed by the appended one, and the file
      is then on top. The counter moves away from the true size by the length of the new content less that of the name
      in the request; what the limits then ask for, by this counter, is ejected. */
  lemma AppendEffect(cfg: Config, st: State, client: int, file: File)
    requires Inv(cfg, st)
    ensures var o, key := Append(cfg, st, client, file), KeyOf(cfg, file.name);
            var l := Lookup(cfg, st.cache, key);
            if l.None? then o.res == FS_FILE_NOT_EXISTS && Unchanged(st, o)
            else if l.value.owner != client && l.value.owner != EMPTY_OWNER then
              o.res == FS_CLIENT_NOT_ALLOWED && Unchanged(st, o)
            else if |file.name| + |file.content| + |l.value.file.content| > cfg.bytesMax then
              o.res == FS_FILE_TOO_BIG && Unchanged(st, o)
            else
              var content := l.value.file.content + file.content;
              && o.res == 0
              && Evicts(cfg, Others(cfg, st.cache, key)
                             + [Entry(l.value.owner, File(l.value.file.name, content), l.value.waiting)],
                        Drift(st) + |content| - |file.name|, o)
  {
    hide Inv, Find, Lookup, KeyOf, Others, EntryKey, LockOk, Settle, Evicts, Bytes, MoveToTop, Size, Drift;
    InvConfig(cfg, st);
    var i := Found(cfg, st, KeyOf(cfg, file.name));
    if i >= 0 {
      var e := st.cache[i];
      var content := e.file.content + file.content;
      AppendDrift(st, e, file, content);
      RewriteEvicts(cfg, st, i, e.(file := File(e.file.name, content)), st.bytesUsed + Size(file) - |content|);
    }
  }

  // ---------------------------------------------------------------- which files are found afterwards

  /** Leaving a key out leaves the others as they are, with distinct keys. */
  lemma OthersLookup(cfg: Config, cache: seq<Entry>, at: nat, e: Entry, key: nat)
    requires cfg.tableSize > 0 && KeysDistinct(cfg, cache) && EntryKey(cfg, e) == at
    ensures KeysDistinct(cfg, Others(cfg, cache, at) + [e])
    ensures Lookup(cfg, Others(cfg, cache, at) + [e], key) == if key == at then Some(e) else Lookup(cfg, cache, key)
  {
    hide EntryKey, KeysDistinct, Lookup, Others, Find;
    var i := Find(cfg, cache, at);
    if i >= 0 {
      OthersOf(cfg, cache, i);
      assert MoveToTop(cache, i, e) == Others(cfg, cache, at) + [e];
      hide MoveToTop;
      DistinctReplace(cfg, cache, i, e);
      LookupMove(cfg, cache, i, e, key);
    } else {
      OthersOfNone(cfg, cache, at);
      LookupAppend(cfg, cache, e, key);
    }
  }

  /** The file of this key is cached as before, or it is not and was handed out. */
  ghost predicate SameOrEjected(cfg: Config, st: State, o: Outcome, key: nat)
    requires cfg.tableSize > 0
  {
    var before, after := Lookup(cfg, st.cache, key), Lookup(cfg, o.state.cache, key);
    after == before || (after.None? && before.Some? && before.value.file in o.ejected)
  }

  /** An entry written on top stays exactly when it fits the byte limit alone; every other file stays as it was or is
      handed out; and what is handed out is not cached any more. */
  lemma EvictsByKey(cfg: Config, st: State, e: Entry, drift: int, o: Outcome, key: nat)
    requires Inv(cfg, st) && Evicts(cfg, Others(cfg, st.cache, EntryKey(cfg, e)) + [e], drift, o)
    ensures KeysDistinct(cfg, o.state.cache)
    ensures Lookup(cfg, o.state.cache, EntryKey(cfg, e))
            == if |e.file.name| + |e.file.content| - drift <= cfg.bytesMax then Some(e) else None
    ensures key != EntryKey(cfg, e) ==> SameOrEjected(cfg, st, o, key)
    ensures forall j :: 0 <= j < |o.ejected| ==> Lookup(cfg, o.state.cache, KeyOf(cfg, o.ejected[j].name)).None?
  {
    hide EntryKey, KeysDistinct, LocksOk, Lookup, Others, Bytes, AllGone, KeyOf;
    var at := EntryKey(cfg, e);
    var all := Others(cfg, st.cache, at) + [e];
    var k := |o.ejected|;
    OthersLookup(cfg, st.cache, at, e, key);
    OthersLookup(cfg, st.cache, at, e, at);
    KeptIsFound(cfg, all, k, at);
    KeptIsFound(cfg, all, k, key);
    NewestAlone(cfg, all, e, drift);
    if k < |all| { WithinShrinks(cfg, all, k, |all| - 1, drift); }
    forall j | 0 <= j < k
      ensures Lookup(cfg, o.state.cache, KeyOf(cfg, o.ejected[j].name)).None?
    {
      KeyOfEntry(cfg, all[j]);
      DroppedIsNotFound(cfg, all, k, j);
    }
  }

  lemma WithinShrinks(cfg: Config, all: seq<Entry>, k: nat, j: nat, drift: int)
    requires k <= j <= |all| && Within(cfg, all[k..], drift)
    ensures Within(cfg, all[j..], drift)
  {
    hide Bytes;
    assert all[k..] == all[k..j] + all[j..];
    BytesConcat(all[k..j], all[j..]);
  }

  lemma NewestAlone(cfg: Config, all: seq<Entry>, e: Entry, drift: int)
    requires ValidConfig(cfg) && all != [] && all[|all| - 1] == e
    ensures Within(cfg, all[|all| - 1..], drift) <==> |e.file.name| + |e.file.content| - drift <= cfg.bytesMax
  {
    BytesCount([], e);
    assert all[|all| - 1..] == [] + [e];
  }

  /** What is found once the k oldest of these files are gone. */
  lemma KeptIsFound(cfg: Config, all: seq<Entry>, k: nat, key: nat)
    requires cfg.tableSize > 0 && KeysDistinct(cfg, all) && k <= |all|
    ensures KeysDistinct(cfg, all[k..])
    ensures var before, after := Lookup(cfg, all, key), Lookup(cfg, all[k..], key);
            && (after == before || after.None?)
            && (before.Some? && after.None? ==> exists j :: 0 <= j < k && all[j] == before.value)
            && (k < |all| && key == EntryKey(cfg, all[|all| - 1]) ==> after == before)
            && (k == |all| ==> after.None?)
  {
    hide EntryKey, KeysDistinct, Lookup;
    var before := Lookup(cfg, all, key);
    DistinctSuffix(cfg, all, k);
    assert all == all[..k] + all[k..];
    LookupSuffix(cfg, all[..k], all[k..], key);
    if before.Some? {
      LookupIff(cfg, all, key, before.value);
      LookupIff(cfg, all[k..], key, before.value);
      var j :| 0 <= j < |all| && all[j] == before.value;
      assert j >= k ==> all[k..][j - k] == before.value;
    }
    if k < |all| {
      var e := all[|all| - 1];
      assert all[k..][|all| - 1 - k] == e;
      LookupIff(cfg, all[k..], EntryKey(cfg, e), e);
    } else {
      NothingFound(cfg, key);
    }
  }

  lemma NothingFound(cfg: Config, key: nat)
    requires cfg.tableSize > 0
    ensures Lookup(cfg, [], key).None?
  {
  }

  lemma DroppedIsNotFound(cfg: Config, all: seq<Entry>, k: nat, j: nat)
    requires cfg.tableSize > 0 && KeysDistinct(cfg, all) && j < k <= |all|
    ensures Lookup(cfg, all[k..], EntryKey(cfg, all[j])).None?
  {
    hide EntryKey, Lookup;
    DistinctSuffix(cfg, all, k);
    LookupIff(cfg, all[k..], EntryKey(cfg, all[j]), all[j]);
  }

  /** What a write of an entry does to the files found, and to what is handed out. */
  ghost predicate Writes(cfg: Config, st: State, o: Outcome, e: Entry, drift: int)
    requires cfg.tableSize > 0
  {
    && Lookup(cfg, o.state.cache, EntryKey(cfg, e))
       == (if |e.file.name| + |e.file.content| - drift <= cfg.bytesMax then Some(e) else None)
    && (forall key :: key != EntryKey(cfg, e) ==> SameOrEjected(cfg, st, o, key))
    && forall f :: f in o.ejected ==> Lookup(cfg, o.state.cache, KeyOf(cfg, f.name)).None?
  }

  lemma EvictsWrites(cfg: Config, st: State, e: Entry, drift: int, o: Outcome)
    requires Inv(cfg, st) && Evicts(cfg, Others(cfg, st.cache, EntryKey(cfg, e)) + [e], drift, o)
    ensures Writes(cfg, st, o, e, drift)
  {
    hide Inv, EntryKey, Lookup, Others, Evicts, SameOrEjected, KeyOf;
    InvConfig(cfg, st);
    forall key
      ensures key != EntryKey(cfg, e) ==> SameOrEjected(cfg, st, o, key)
    {
      EvictsByKey(cfg, st, e, drift, o, key);
    }
    EvictsByKey(cfg, st, e, drift, o, EntryKey(cfg, e));
  }

  /** Writing succeeds exactly for the owner of a cached file and a new one within the limit. Then the file is found
      with exactly the new name and content, its owner and its waiters, if and only if it fits the limit alone by the
      counter; every other file is found as before or was handed out. */
  lemma ModifyByKey(cfg: Config, st: State, client: int, file: File)
    requires Inv(cfg, st)
    ensures var o, l := Modify(cfg, st, client, file), Lookup(cfg, st.cache, KeyOf(cfg, file.name));
            && (o.res == 0 <==>
                l.Some? && l.value.owner == client && |file.name| + |file.content| <= cfg.bytesMax)
            && (o.res == 0 ==> Writes(cfg, st, o, Entry(client, file, l.value.waiting), Drift(st)))
  {
    hide Inv, Lookup, KeyOf, Others, Evicts, Writes, Drift;
    InvConfig(cfg, st);
    var l := Lookup(cfg, st.cache, KeyOf(cfg, file.name));
    ModifyEffect(cfg, st, client, file);
    hide Modify;
    if Modify(cfg, st, client, file).res == 0 {
      var e := Entry(client, file, l.value.waiting);
      KeyOfEntry(cfg, e);
      EvictsWrites(cfg, st, e, Drift(st), Modify(cfg, st, client, file));
    }
  }

  /** Appending succeeds exactly for a cached file that the client owns or nobody does, when old and new content and the
      name in the request are within the limit. Then the old content, followed by the new one, is found. */
  lemma AppendByKey(cfg: Config, st: State, client: int, file: File)
    requires Inv(cfg, st)
    ensures var o, l := Append(cfg, st, client, file), Lookup(cfg, st.cache, KeyOf(cfg, file.name));
            && (o.res == 0 <==>
                && l.Some? && (l.value.owner == client || l.value.owner == EMPTY_OWNER)
                && |file.name| + |file.content| + |l.value.file.content| <= cfg.bytesMax)
            && (o.res == 0 ==>
                  var content := l.value.file.content + file.content;
                  var e := Entry(l.value.owner, File(l.value.file.name, content), l.value.waiting);
                  Writes(cfg, st, o, e, Drift(st) + |content| - |file.name|))
  {
    hide Inv, Lookup, KeyOf, Others, Evicts, Writes, Drift;
    InvConfig(cfg, st);
    var key := KeyOf(cfg, file.name);
    var l := Lookup(cfg, st.cache, key);
    AppendEffect(cfg, st, client, file);
    hide Append;
    if Append(cfg, st, client, file).res == 0 {
      var content := l.value.file.content + file.content;
      var e := Entry(l.value.owner, File(l.value.file.name, content), l.value.waiting);
      assert EntryKey(cfg, e) == key by { FoundKey(cfg, st, key, e); }
      EvictsWrites(cfg, st, e, Drift(st) + |content| - |file.name|, Append(cfg, st, client, file));
    }
  }

  lemma FoundKey(cfg: Config, st: State, key: nat, e: Entry)
    requires Inv(cfg, st) && Lookup(cfg, st.cache, key).Some?
    requires e.file.name == Lookup(cfg, st.cache, key).value.file.name
    ensures EntryKey(cfg, e) == key
  {
    var i := Found(cfg, st, key);
  }

  /** Inserting succeeds exactly for a key that is not cached. */
  lemma InsertByKey(cfg: Config, st: State, client: int, file: File, lock: bool)
    requires Inv(cfg, st)
    ensures var o, l := Insert(cfg, st, client, file, lock), Lookup(cfg, st.cache, KeyOf(cfg, file.name));
            && (o.res == 0 <==> l.None?)
            && (o.res == 0 ==> Writes(cfg, st, o, Entry(if lock then client else EMPTY_OWNER, file, []), Drift(st)))
  {
    hide Inv, Lookup, KeyOf, Others, Evicts, Writes, Drift;
    InvConfig(cfg, st);
    var key := KeyOf(cfg, file.name);
    InsertEffect(cfg, st, client, file, lock);
    hide Insert;
    if Insert(cfg, st, client, file, lock).res == 0 {
      var e := Entry(if lock then client else EMPTY_OWNER, file, []);
      KeyOfEntry(cfg, e);
      var i := Found(cfg, st, key);
      EvictsWrites(cfg, st, e, Drift(st), Insert(cfg, st, client, file, lock));
    }
  }

  // ---------------------------------------------------------------- what is handed out

  /** The files ejected by a write, followed by those still cached, are the files there were with the written one on
      top, in order. */
  lemma HandedOut(cfg: Config, all: seq<Entry>, drift: int, o: Outcome)
    requires Evicts(cfg, all, drift, o)
    ensures o.ejected + Files(o.state.cache) == Files(all)
    ensures AllGone(all) == o.notes + AllGone(o.state.cache)
  {
    var k := |o.ejected|;
    assert o.ejected == Files(all[..k]) && o.state.cache == all[k..] && o.notes == AllGone(all[..k]);
    hide *;
    assert all == all[..k] + all[k..];
    AllGoneConcat(all[..k], all[k..]);
    FilesConcat(all[..k], all[k..]);
  }

  lemma FilesConcat(a: seq<Entry>, b: seq<Entry>)
    ensures Files(a + b) == Files(a) + Files(b)
  {
    hide Files;
  }

  /** Only a write that succeeds hands files out. */
  lemma NothingHandedOut(cfg: Config, st: State, r: Request)
    requires Inv(cfg, st)
    ensures cfg.tableSize > 0
    ensures var o := Apply(cfg, st, r);
            !((r.InsertR? || r.ModifyR? || r.AppendR?) && o.res == 0) ==> o.ejected == []
  {
    hide Settle, Find, Gone, MoveToTop, KeyOf;
  }
}
