/** Who owns or waits for a file, and how each operation changes it. */
module StoreStakes {
  import opened CircQueue
  import opened Store
  import opened StoreInvariant
  import opened StoreSteps
  import opened StoreClean

  /** The client owns the file or waits for it. */
  ghost predicate Stake(e: Entry, client: int) {
    e.owner == client || client in e.waiting
  }

  ghost predicate HasStake(cfg: Config, cache: seq<Entry>, client: int, key: nat)
    requires cfg.tableSize > 0
  {
    Lookup(cfg, cache, key).Some? && Stake(Lookup(cfg, cache, key).value, client)
  }

  /** The operation asks for ownership. */
  predicate Claims(r: Request) {
    r.LockR? || (r.InsertR? && r.lock)
  }

  lemma LookupReplace(cfg: Config, cache: seq<Entry>, i: nat, e: Entry, key: nat)
    requires cfg.tableSize > 0 && KeysDistinct(cfg, cache) && i < |cache| && EntryKey(cfg, e) == EntryKey(cfg, cache[i])
    ensures Lookup(cfg, cache[i := e], key) == if key == EntryKey(cfg, e) then Some(e) else Lookup(cfg, cache, key)
  {
    hide EntryKey, KeysDistinct, Lookup;
    var next := cache[i := e];
    DistinctReplace(cfg, cache, i, e);
    assert next[i] == e;
    LookupIff(cfg, next, key, e);
    if key != EntryKey(cfg, e) {
      var l, l' := Lookup(cfg, cache, key), Lookup(cfg, next, key);
      LookupIff(cfg, cache, key, e);
      if l.Some? {
        var j :| 0 <= j < |cache| && cache[j] == l.value;
        assert next[j] == l.value;
        LookupIff(cfg, next, key, l.value);
      } else if l'.Some? {
        LookupIff(cfg, cache, key, l'.value);
      }
    }
  }

  /** Of a cache cut at its old end, every file is found as before or not at all. */
  lemma LookupSuffix(cfg: Config, gone: seq<Entry>, next: seq<Entry>, key: nat)
    requires cfg.tableSize > 0 && KeysDistinct(cfg, gone + next)
    ensures Lookup(cfg, next, key).None? || Lookup(cfg, next, key) == Lookup(cfg, gone + next, key)
  {
    hide EntryKey, KeysDistinct, Lookup;
    assert next == (gone + next)[|gone|..];
    DistinctSuffix(cfg, gone + next, |gone|);
    var l := Lookup(cfg, next, key);
    if l.Some? {
      LookupIff(cfg, next, key, l.value);
      LookupIff(cfg, gone + next, key, l.value);
    }
  }

  lemma LookupSettled(cfg: Config, st: State, key: nat)
    requires ValidConfig(cfg) && KeysDistinct(cfg, st.cache) && st.slotUsed == |st.cache| <= cfg.slotMax + 1
    ensures var l := Lookup(cfg, Settle(cfg, st).state.cache, key);
            l.None? || l == Lookup(cfg, st.cache, key)
  {
    hide EntryKey, KeysDistinct, Lookup, Balance;
    NothingLost(cfg, st);
    LookupSuffix(cfg, Balance(cfg, st).ejected, Balance(cfg, st).state.cache, key);
  }

  lemma LookupAppend(cfg: Config, cache: seq<Entry>, e: Entry, key: nat)
    requires cfg.tableSize > 0 && KeysDistinct(cfg, cache) && Find(cfg, cache, EntryKey(cfg, e)) < 0
    ensures KeysDistinct(cfg, cache + [e])
    ensures Lookup(cfg, cache + [e], key) == if key == EntryKey(cfg, e) then Some(e) else Lookup(cfg, cache, key)
  {
    hide EntryKey, KeysDistinct, Lookup;
    var next := cache + [e];
    DistinctAppend(cfg, cache, e);
    assert next[|cache|] == e;
    LookupIff(cfg, next, key, e);
    if key != EntryKey(cfg, e) {
      var l, l' := Lookup(cfg, cache, key), Lookup(cfg, next, key);
      LookupIff(cfg, cache, key, e);
      if l.Some? { LookupIff(cfg, next, key, l.value); }
      if l'.Some? { LookupIff(cfg, cache, key, l'.value); }
    }
  }

  lemma LookupRemoved(cfg: Config, cache: seq<Entry>, i: nat, key: nat)
    requires cfg.tableSize > 0 && KeysDistinct(cfg, cache) && i < |cache|
    ensures Lookup(cfg, cache[..i] + cache[i + 1..], key) == if key == EntryKey(cfg, cache[i]) then None
            else Lookup(cfg, cache, key)
  {
    hide EntryKey, Lookup;
    var next := cache[..i] + cache[i + 1..];
    DistinctReplace(cfg, cache, i, cache[i]);
    assert cache == cache[..i] + [cache[i]] + cache[i + 1..];
    var l, l' := Lookup(cfg, cache, key), Lookup(cfg, next, key);
    LookupIff(cfg, cache, key, cache[i]);
    LookupIff(cfg, next, key, cache[i]);
    if l'.Some? {
      LookupIff(cfg, cache, key, l'.value);
      RemovedKey(cfg, cache, i, l'.value);
    }
    if l.Some? && key != EntryKey(cfg, cache[i]) {
      LookupIff(cfg, next, key, l.value);
    }
  }

  lemma RemovedKey(cfg: Config, cache: seq<Entry>, i: nat, e: Entry)
    requires cfg.tableSize > 0 && KeysDistinct(cfg, cache) && i < |cache| && e in cache[..i] + cache[i + 1..]
    ensures EntryKey(cfg, e) != EntryKey(cfg, cache[i])
  {
    hide EntryKey;
    var j :| 0 <= j < |cache| - 1 && (cache[..i] + cache[i + 1..])[j] == e;
    assert e == cache[if j < i then j else j + 1];
  }

  // ---------------------------------------------------------------- operations

  /** Nobody gains a stake but the client that claims the file, in that file. */
  ghost predicate GainsOnlyClaim(cfg: Config, st: State, r: Request, client: int, key: nat)
    requires cfg.tableSize > 0
  {
    HasStake(cfg, Apply(cfg, st, r).state.cache, client, key) ==>
      || HasStake(cfg, st.cache, client, key)
      || (Claims(r) && client == r.client && key == RequestKey(cfg, r))
  }

  lemma InsertGains(cfg: Config, st: State, c: int, f: File, lock: bool, client: int, key: nat)
    requires Inv(cfg, st) && client != EMPTY_OWNER
    ensures GainsOnlyClaim(cfg, st, InsertR(c, f, lock), client, key)
  {
    hide EntryKey, KeysDistinct, LocksOk, Lookup, Settle;
    if Find(cfg, st.cache, KeyOf(cfg, f.name)) < 0 {
      var e := Entry(if lock then c else EMPTY_OWNER, f, []);
      assert EntryKey(cfg, e) == KeyOf(cfg, f.name) by { KeyOfEntry(cfg, e); }
      LookupAppend(cfg, st.cache, e, key);
      LookupSettled(cfg, State(st.cache + [e], st.slotUsed + 1, st.bytesUsed + Size(f)), key);
    }
  }

  lemma KeyOfEntry(cfg: Config, e: Entry)
    requires cfg.tableSize > 0
    ensures EntryKey(cfg, e) == KeyOf(cfg, e.file.name)
  {
  }

  lemma RemoveGains(cfg: Config, st: State, c: int, name: string, client: int, key: nat)
    requires Inv(cfg, st) && client != EMPTY_OWNER
    ensures GainsOnlyClaim(cfg, st, RemoveR(c, name), client, key)
  {
    hide EntryKey, KeysDistinct, LocksOk, Lookup;
    var i := Find(cfg, st.cache, KeyOf(cfg, name));
    if i >= 0 {
      LookupRemoved(cfg, st.cache, i, key);
    }
  }

  /** A write that keeps owner and waiting clients gives nobody a stake. */
  lemma RewriteGains(cfg: Config, st: State, i: nat, e: Entry, bytesUsed: int, client: int, key: nat)
    requires Inv(cfg, st) && i < |st.cache| && EntryKey(cfg, e) == EntryKey(cfg, st.cache[i])
    requires e.owner == st.cache[i].owner && e.waiting == st.cache[i].waiting
    ensures HasStake(cfg, MoveToTop(st.cache, i, e), client, key) ==> HasStake(cfg, st.cache, client, key)
    ensures var settled := Settle(cfg, State(MoveToTop(st.cache, i, e), st.slotUsed, bytesUsed)).state;
            HasStake(cfg, settled.cache, client, key) ==> HasStake(cfg, st.cache, client, key)
  {
    hide EntryKey, KeysDistinct, LocksOk, Lookup, Settle;
    DistinctReplace(cfg, st.cache, i, e);
    LookupMove(cfg, st.cache, i, e, key);
    LookupIff(cfg, st.cache, key, st.cache[i]);
    LookupSettled(cfg, State(MoveToTop(st.cache, i, e), st.slotUsed, bytesUsed), key);
  }

  lemma LockGains(cfg: Config, st: State, c: int, name: string, client: int, key: nat)
    requires Inv(cfg, st) && client != EMPTY_OWNER
    ensures GainsOnlyClaim(cfg, st, LockR(c, name), client, key)
    ensures var o := Apply(cfg, st, LockR(c, name));
            (o.res == 0 || o.res == FS_CLIENT_WAITING_ON_LOCK) ==> HasStake(cfg, o.state.cache, c, KeyOf(cfg, name))
  {
    hide EntryKey, KeysDistinct, LocksOk, Lookup, MoveToTop, KeyOf;
    var at := KeyOf(cfg, name);
    var i := Find(cfg, st.cache, at);
    if i >= 0 {
      var e := st.cache[i];
      var e1, e2 := e.(waiting := e.waiting + [c]), e.(owner := c);
      KeyOfEntry(cfg, e);
      KeyOfEntry(cfg, e1);
      KeyOfEntry(cfg, e2);
      LookupIff(cfg, st.cache, key, e);
      LookupReplace(cfg, st.cache, i, e1, key);
      LookupMove(cfg, st.cache, i, e2, key);
      LookupReplace(cfg, st.cache, i, e1, at);
      LookupMove(cfg, st.cache, i, e2, at);
      assert c in e1.waiting by { assert e1.waiting[|e.waiting|] == c; }
    }
  }

  lemma UnlockGains(cfg: Config, st: State, c: int, at: nat, client: int, key: nat)
    requires Inv(cfg, st) && client != EMPTY_OWNER
    ensures GainsOnlyClaim(cfg, st, UnlockR(c, at), client, key)
  {
    hide Lookup, Find, MoveToTop, LocksOk, KeysDistinct;
    UnlockLookup(cfg, st, c, at, key);
  }

  lemma ApplyGains(cfg: Config, st: State, r: Request, client: int, key: nat)
    requires Inv(cfg, st) && client != EMPTY_OWNER
    ensures GainsOnlyClaim(cfg, st, r, client, key)
  {
    hide GainsOnlyClaim, KeysDistinct, LocksOk;
    match r {
      case InsertR(c, f, lock) => InsertGains(cfg, st, c, f, lock, client, key);
      case RemoveR(c, n) => RemoveGains(cfg, st, c, n, client, key);
      case LockR(c, n) => LockGains(cfg, st, c, n, client, key);
      case UnlockR(c, at) => UnlockGains(cfg, st, c, at, client, key);
      case _ => WriteGains(cfg, st, r, client, key);
    }
  }

  lemma WriteGains(cfg: Config, st: State, r: Request, client: int, key: nat)
    requires Inv(cfg, st) && (r.TouchR? || r.ModifyR? || r.AppendR?)
    ensures GainsOnlyClaim(cfg, st, r, client, key)
  {
    hide KeysDistinct, LocksOk, Settle, Lookup, MoveToTop, Size;
    var i := Find(cfg, st.cache, RequestKey(cfg, r));
    if i >= 0 {
      var e := st.cache[i];
      match r {
        case TouchR(_, _) => RewriteGains(cfg, st, i, e, 0, client, key);
        case ModifyR(_, f) =>
          RewriteGains(cfg, st, i, e.(file := f), st.bytesUsed + Size(f) - Size(e.file), client, key);
        case AppendR(_, f) =>
          var content := e.file.content + f.content;
          RewriteGains(cfg, st, i, e.(file := File(e.file.name, content)), st.bytesUsed + Size(f) - |content|,
                       client, key);
      }
    }
  }

  lemma UnlockedIsGivenUp(cfg: Config, st: State, client: int, key: nat)
    requires Inv(cfg, st) && Lawful(st, client)
    ensures !HasStake(cfg, UnlockKey(cfg, st, client, key).state.cache, client, key)
  {
    hide KeysDistinct, LocksOk, UnlockKey, IsWaiting, EntryKey;
    UnlockLookup(cfg, st, client, key, key);
    var i := Find(cfg, st.cache, key);
    if i >= 0 {
      NotQueued(st.cache, i, client);
    }
  }

  lemma RemovedIsGivenUp(cfg: Config, st: State, client: int, name: string)
    requires Inv(cfg, st) && Lawful(st, client)
    ensures !HasStake(cfg, Remove(cfg, st, client, name).state.cache, client, KeyOf(cfg, name))
  {
    hide KeysDistinct, LocksOk, IsWaiting, EntryKey, KeyOf;
    var i := Find(cfg, st.cache, KeyOf(cfg, name));
    if i >= 0 {
      NotQueued(st.cache, i, client);
      LookupRemoved(cfg, st.cache, i, KeyOf(cfg, name));
    }
  }

  lemma OwnerRemoves(cfg: Config, st: State, client: int, name: string)
    requires Inv(cfg, st) && Find(cfg, st.cache, KeyOf(cfg, name)) >= 0
    requires st.cache[Find(cfg, st.cache, KeyOf(cfg, name))].owner == client
    ensures Lookup(cfg, Remove(cfg, st, client, name).state.cache, KeyOf(cfg, name)) == None
    ensures Remove(cfg, st, client, name).res == 0
  {
    hide KeysDistinct, LocksOk, EntryKey, KeyOf, Gone, Lookup, Find;
    LookupRemoved(cfg, st.cache, Find(cfg, st.cache, KeyOf(cfg, name)), KeyOf(cfg, name));
  }

  lemma OthersMayNot(cfg: Config, st: State, client: int, name: string)
    requires cfg.tableSize > 0
    ensures var i, o := Find(cfg, st.cache, KeyOf(cfg, name)), Remove(cfg, st, client, name);
            && (i < 0 ==> o == Refused(st, FS_FILE_NOT_EXISTS))
            && (i >= 0 && st.cache[i].owner != client ==> o == Refused(st, FS_CLIENT_NOT_ALLOWED))
  {
    hide KeyOf, Gone, Find;
  }

  lemma RefusedIs(st: State)
    ensures forall res :: Refused(st, res).state == st && Refused(st, res).res == res
  {
  }

  /** A file is removed exactly for its owner. */
  lemma RemoveCases(cfg: Config, st: State, client: int, name: string)
    requires Inv(cfg, st)
    ensures var o, key := Remove(cfg, st, client, name), KeyOf(cfg, name);
            var l := Lookup(cfg, st.cache, key);
            && Lookup(cfg, o.state.cache, key) == (if Owns(cfg, st.cache, client, key) then None else l)
            && o.res == if l.None? then FS_FILE_NOT_EXISTS else if l.value.owner == client then 0
            else FS_CLIENT_NOT_ALLOWED
  {
    var key := KeyOf(cfg, name);
    var i := Find(cfg, st.cache, key);
    assert Lookup(cfg, st.cache, key) == if i < 0 then None else Some(st.cache[i]);
    assert Owns(cfg, st.cache, client, key) <==> i >= 0 && st.cache[i].owner == client;
    hide *;
    RefusedIs(st);
    OthersMayNot(cfg, st, client, name);
    if i >= 0 && st.cache[i].owner == client {
      OwnerRemoves(cfg, st, client, name);
    }
  }

  /** Giving a file up or removing it leaves a client that does not wait without a stake in it, whether it is allowed
      or not. */
  lemma GivenUp(cfg: Config, st: State, r: Request)
    requires Inv(cfg, st) && Lawful(st, r.client) && (r.UnlockR? || r.RemoveR?)
    ensures !HasStake(cfg, Apply(cfg, st, r).state.cache, r.client, RequestKey(cfg, r))
  {
    hide Inv, Lawful, HasStake, UnlockKey, Remove, KeyOf;
    if r.UnlockR? { UnlockedIsGivenUp(cfg, st, r.client, r.key); } else { RemovedIsGivenUp(cfg, st, r.client, r.name); }
  }

  /** A locked file just created belongs to its creator, unless it is too big to stay. */
  lemma InsertedIsOwned(cfg: Config, st: State, client: int, f: File)
    requires Inv(cfg, st) && client != EMPTY_OWNER && Insert(cfg, st, client, f, true).res == 0
    ensures HasStake(cfg, Insert(cfg, st, client, f, true).state.cache, client, KeyOf(cfg, f.name))
            <==> Size(f) - Drift(st) <= cfg.bytesMax
  {
    hide KeysDistinct, LocksOk, Lookup, Balance, Size, Drift;
    var e := Entry(client, f, []);
    var st' := State(st.cache + [e], st.slotUsed + 1, st.bytesUsed + Size(f));
    var next := Settle(cfg, st').state.cache;
    var key := KeyOf(cfg, f.name);
    KeyOfEntry(cfg, e);
    LookupAppend(cfg, st.cache, e, key);
    LookupSettled(cfg, st', key);
    NewestStaysIff(cfg, st');
    DriftOfNew(st, e);
    SettleKeepsDistinct(cfg, st');
    if next != [] {
      assert next[|next| - 1] == e;
      LookupIff(cfg, next, key, e);
    } else {
      LookupIff(cfg, next, key, e);
    }
  }

  lemma SettleKeepsDistinct(cfg: Config, st: State)
    requires ValidConfig(cfg) && KeysDistinct(cfg, st.cache) && st.slotUsed == |st.cache| <= cfg.slotMax + 1
    ensures KeysDistinct(cfg, Settle(cfg, st).state.cache)
  {
    hide KeysDistinct, Balance;
    NothingLost(cfg, st);
    var b := Balance(cfg, st);
    assert b.state.cache == st.cache[|b.ejected|..];
    DistinctSuffix(cfg, st.cache, |b.ejected|);
  }

  lemma DriftOfNew(st: State, e: Entry)
    ensures Drift(State(st.cache + [e], st.slotUsed + 1, st.bytesUsed + Size(e.file))) == Drift(st)
  {
    BytesConcat(st.cache, [e]);
    assert [e][1..] == [];
  }
}
