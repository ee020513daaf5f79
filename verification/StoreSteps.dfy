/** The operations of the file system as requests of clients, and the invariant each of them keeps. */
module StoreSteps {
  import opened Store
  import opened StoreInvariant

  datatype Request =
    | InsertR(client: int, file: File, lock: bool)
    | RemoveR(client: int, name: string)
    | TouchR(client: int, name: string)
    | ModifyR(client: int, file: File)
    | AppendR(client: int, file: File)
    | LockR(client: int, name: string)
    | UnlockR(client: int, key: nat)

  function Apply(cfg: Config, st: State, r: Request): Outcome
    requires cfg.tableSize > 0
  {
    match r
    case InsertR(c, f, l) => Insert(cfg, st, c, f, l)
    case RemoveR(c, n) => Remove(cfg, st, c, n)
    case TouchR(c, n) => Touch(cfg, st, n)
    case ModifyR(c, f) => Modify(cfg, st, c, f)
    case AppendR(c, f) => Append(cfg, st, c, f)
    case LockR(c, n) => TryLock(cfg, st, c, n)
    case UnlockR(c, k) => UnlockKey(cfg, st, c, k)
  }

  /** The key of the file a request is about. */
  function RequestKey(cfg: Config, r: Request): nat
    requires cfg.tableSize > 0
  {
    match r
    case InsertR(_, f, _) => KeyOf(cfg, f.name)
    case ModifyR(_, f) => KeyOf(cfg, f.name)
    case AppendR(_, f) => KeyOf(cfg, f.name)
    case RemoveR(_, n) => KeyOf(cfg, n)
    case TouchR(_, n) => KeyOf(cfg, n)
    case LockR(_, n) => KeyOf(cfg, n)
    case UnlockR(_, k) => k
  }

  /** A request comes from a client that is not waiting for a lock. */
  ghost predicate Lawful(st: State, client: int) {
    client != EMPTY_OWNER && !IsWaiting(st.cache, client)
  }

  // ---------------------------------------------------------------- the invariant

  lemma LocksSuffix(cache: seq<Entry>, more: seq<Entry>)
    requires LocksOk(cache + more)
    ensures LocksOk(more)
  {
    hide LockOk;
    assert forall i :: 0 <= i < |more| ==> more[i] == (cache + more)[|cache| + i];
  }

  /** Enforcing the limits restores the invariant. */
  lemma SettleKeepsInv(cfg: Config, st: State)
    requires ValidConfig(cfg) && KeysDistinct(cfg, st.cache) && LocksOk(st.cache)
    requires st.slotUsed == |st.cache| <= cfg.slotMax + 1
    ensures Inv(cfg, Settle(cfg, st).state)
  {
    hide KeysDistinct, LocksOk;
    NothingLost(cfg, st);
    var b := Balance(cfg, st);
    assert b.state.cache == st.cache[|b.ejected|..];
    DistinctSuffix(cfg, st.cache, |b.ejected|);
    LocksSuffix(b.ejected, b.state.cache);
  }

  lemma InsertKeepsInv(cfg: Config, st: State, client: int, file: File, lock: bool)
    requires Inv(cfg, st) && client != EMPTY_OWNER
    ensures Inv(cfg, Insert(cfg, st, client, file, lock).state)
  {
    hide KeysDistinct, Balance;
    if Find(cfg, st.cache, KeyOf(cfg, file.name)) < 0 {
      var e := Entry(if lock then client else EMPTY_OWNER, file, []);
      DistinctAppend(cfg, st.cache, e);
      SettleKeepsInv(cfg, State(st.cache + [e], st.slotUsed + 1, st.bytesUsed + Size(file)));
    }
  }

  lemma RewriteKeepsInv(cfg: Config, st: State, i: nat, e: Entry, bytesUsed: int)
    requires Inv(cfg, st) && i < |st.cache| && LockOk(e) && EntryKey(cfg, e) == EntryKey(cfg, st.cache[i])
    ensures Inv(cfg, Settle(cfg, State(MoveToTop(st.cache, i, e), st.slotUsed, bytesUsed)).state)
    ensures bytesUsed == st.bytesUsed ==> Inv(cfg, State(MoveToTop(st.cache, i, e), st.slotUsed, bytesUsed))
    ensures Inv(cfg, st.(cache := st.cache[i := e]))
  {
    hide KeysDistinct, Balance, LocksOk, EntryKey, LockOk;
    DistinctReplace(cfg, st.cache, i, e);
    LocksMove(st.cache, i, e);
    SettleKeepsInv(cfg, State(MoveToTop(st.cache, i, e), st.slotUsed, bytesUsed));
  }

  lemma RemoveKeepsInv(cfg: Config, st: State, client: int, name: string)
    requires Inv(cfg, st)
    ensures Inv(cfg, Remove(cfg, st, client, name).state)
  {
    hide KeysDistinct, LocksOk, EntryKey;
    var i := Find(cfg, st.cache, KeyOf(cfg, name));
    if i >= 0 {
      DistinctReplace(cfg, st.cache, i, st.cache[i]);
      assert LockOk(st.cache[i]) by { ReadLock(st.cache, i); }
      LocksMove(st.cache, i, st.cache[i]);
    }
  }

  lemma ReadLock(cache: seq<Entry>, i: nat)
    requires LocksOk(cache) && i < |cache|
    ensures LockOk(cache[i])
  {
  }

  lemma NotQueued(cache: seq<Entry>, i: nat, client: int)
    requires i < |cache| && !IsWaiting(cache, client)
    ensures client !in cache[i].waiting
  {
  }

  lemma LockKeepsInv(cfg: Config, st: State, i: nat, e: Entry, c: int)
    requires Inv(cfg, st) && i < |st.cache| && e == st.cache[i] && LockOk(e) && c !in e.waiting && c != EMPTY_OWNER
    ensures e.owner != EMPTY_OWNER && e.owner != c && |e.waiting| < MAX_CLIENT_WAITING_ON_LOCK ==>
              Inv(cfg, st.(cache := st.cache[i := e.(waiting := e.waiting + [c])]))
    ensures e.owner == EMPTY_OWNER || e.owner == c ==> Inv(cfg, st.(cache := MoveToTop(st.cache, i, e.(owner := c))))
  {
    if e.owner != EMPTY_OWNER && e.owner != c && |e.waiting| < MAX_CLIENT_WAITING_ON_LOCK {
      RewriteKeepsInv(cfg, st, i, e.(waiting := e.waiting + [c]), st.bytesUsed);
    }
    if e.owner == EMPTY_OWNER || e.owner == c {
      RewriteKeepsInv(cfg, st, i, e.(owner := c), st.bytesUsed);
    }
  }

  lemma UnlockKeepsInv(cfg: Config, st: State, i: nat, e: Entry, c: int)
    requires Inv(cfg, st) && i < |st.cache| && e == st.cache[i] && LockOk(e)
    ensures e.waiting == [] ==> Inv(cfg, st.(cache := MoveToTop(st.cache, i, e.(owner := EMPTY_OWNER))))
    ensures e.waiting != [] ==>
              Inv(cfg, st.(cache := MoveToTop(st.cache, i, e.(owner := e.waiting[0], waiting := e.waiting[1..]))))
  {
    if e.waiting == [] {
      RewriteKeepsInv(cfg, st, i, e.(owner := EMPTY_OWNER), st.bytesUsed);
    } else {
      RewriteKeepsInv(cfg, st, i, e.(owner := e.waiting[0], waiting := e.waiting[1..]), st.bytesUsed);
    }
  }

  lemma TouchKeepsInv(cfg: Config, st: State, name: string)
    requires Inv(cfg, st)
    ensures Inv(cfg, Touch(cfg, st, name).state)
  {
    hide KeysDistinct, LocksOk, MoveToTop, KeyOf, EntryKey, LockOk;
    var i := Find(cfg, st.cache, KeyOf(cfg, name));
    if i >= 0 {
      ReadLock(st.cache, i);
      RewriteKeepsInv(cfg, st, i, st.cache[i], st.bytesUsed);
    }
  }

  lemma ModifyKeepsInv(cfg: Config, st: State, client: int, file: File)
    requires Inv(cfg, st)
    ensures Inv(cfg, Modify(cfg, st, client, file).state)
  {
    hide KeysDistinct, LocksOk, MoveToTop, Settle, KeyOf, Size;
    var i := Find(cfg, st.cache, KeyOf(cfg, file.name));
    if i >= 0 {
      var e := st.cache[i];
      ReadLock(st.cache, i);
      RewriteKeepsInv(cfg, st, i, e.(file := file), st.bytesUsed + Size(file) - Size(e.file));
    }
  }

  lemma AppendKeepsInv(cfg: Config, st: State, client: int, file: File)
    requires Inv(cfg, st)
    ensures Inv(cfg, Append(cfg, st, client, file).state)
  {
    hide KeysDistinct, LocksOk, MoveToTop, Settle, KeyOf, Size;
    var i := Find(cfg, st.cache, KeyOf(cfg, file.name));
    if i >= 0 {
      var e := st.cache[i];
      var content := e.file.content + file.content;
      ReadLock(st.cache, i);
      RewriteKeepsInv(cfg, st, i, e.(file := File(e.file.name, content)), st.bytesUsed + Size(file) - |content|);
    }
  }

  /** The client must not already be waiting. */
  lemma TryLockKeepsInv(cfg: Config, st: State, client: int, name: string)
    requires Inv(cfg, st) && Lawful(st, client)
    ensures Inv(cfg, TryLock(cfg, st, client, name).state)
  {
    hide KeysDistinct, LocksOk, MoveToTop, KeyOf, LockOk, IsWaiting;
    var i := Find(cfg, st.cache, KeyOf(cfg, name));
    if i >= 0 {
      ReadLock(st.cache, i);
      NotQueued(st.cache, i, client);
      LockKeepsInv(cfg, st, i, st.cache[i], client);
    }
  }

  lemma UnlockKeyKeepsInv(cfg: Config, st: State, client: int, key: nat)
    requires Inv(cfg, st)
    ensures Inv(cfg, UnlockKey(cfg, st, client, key).state)
  {
    hide KeysDistinct, LocksOk, MoveToTop, LockOk;
    var i := Find(cfg, st.cache, key);
    if i >= 0 {
      ReadLock(st.cache, i);
      UnlockKeepsInv(cfg, st, i, st.cache[i], client);
    }
  }

  /** Every operation keeps the invariant; for locking, the client must not already be waiting. */
  lemma ApplyKeepsInv(cfg: Config, st: State, r: Request)
    requires Inv(cfg, st) && Lawful(st, r.client)
    ensures Inv(cfg, Apply(cfg, st, r).state)
  {
    hide Inv, Insert, Remove, Touch, Modify, Append, TryLock, UnlockKey, IsWaiting;
    match r {
      case InsertR(c, f, lock) => InsertKeepsInv(cfg, st, c, f, lock);
      case RemoveR(c, n) => RemoveKeepsInv(cfg, st, c, n);
      case TouchR(_, n) => TouchKeepsInv(cfg, st, n);
      case ModifyR(c, f) => ModifyKeepsInv(cfg, st, c, f);
      case AppendR(c, f) => AppendKeepsInv(cfg, st, c, f);
      case LockR(c, n) => TryLockKeepsInv(cfg, st, c, n);
      case UnlockR(c, k) => UnlockKeyKeepsInv(cfg, st, c, k);
    }
  }
}
