/** The store forgets the least recently used file first (server/src/file_system.c:132-574, 676-768): over any run, the
    order of the cache is the order of last uses. */
module StoreRecency {
  import opened CircQueue
  import opened Store
  import opened StoreInvariant
  import opened StoreSteps
  import opened StoreClean
  import opened StoreStakes
  import opened StoreHistory
  import opened StoreEffects

  /** The request uses the file of its key: it succeeds and is no removal. */
  predicate Uses(cfg: Config, st: State, r: Request)
    requires cfg.tableSize > 0
  {
    !r.RemoveR? && Apply(cfg, st, r).res == 0
  }

  /** The file of key a is nearer to the old end than that of key b. */
  ghost predicate Older(cfg: Config, cache: seq<Entry>, a: nat, b: nat)
    requires cfg.tableSize > 0
  {
    exists i, j :: 0 <= i < j < |cache| && EntryKey(cfg, cache[i]) == a && EntryKey(cfg, cache[j]) == b
  }

  // ---------------------------------------------------------------- one operation

  lemma OlderOthers(cfg: Config, cache: seq<Entry>, key: nat, e: Entry, a: nat, b: nat)
    requires cfg.tableSize > 0 && KeysDistinct(cfg, cache) && EntryKey(cfg, e) == key
    requires Older(cfg, Others(cfg, cache, key) + [e], a, b)
    ensures a != key && (b == key || Older(cfg, cache, a, b))
  {
    hide EntryKey, Find, Others;
    var all, p := Others(cfg, cache, key) + [e], Find(cfg, cache, key);
    var i, j :| 0 <= i < j < |all| && EntryKey(cfg, all[i]) == a && EntryKey(cfg, all[j]) == b;
    if p < 0 {
      OthersOfNone(cfg, cache, key);
    } else {
      OthersOf(cfg, cache, p);
      assert all[i] == cache[if i < p then i else i + 1];
      assert j < |all| - 1 ==> all[j] == cache[if j < p then j else j + 1];
    }
  }

  lemma OlderSuffix(cfg: Config, all: seq<Entry>, k: nat, a: nat, b: nat)
    requires cfg.tableSize > 0 && k <= |all| && Older(cfg, all[k..], a, b)
    ensures Older(cfg, all, a, b)
  {
    hide EntryKey;
    var i, j :| 0 <= i < j < |all[k..]| && EntryKey(cfg, all[k..][i]) == a && EntryKey(cfg, all[k..][j]) == b;
    assert all[k + i] == all[k..][i] && all[k + j] == all[k..][j];
  }

  /** This cache holds the files of the other keys and on top of them e, without some of the oldest. */
  ghost predicate OnTop(cfg: Config, cache: seq<Entry>, key: nat, next: seq<Entry>, e: Entry, k: nat)
    requires cfg.tableSize > 0
  {
    var all := Others(cfg, cache, key) + [e];
    EntryKey(cfg, e) == key && k <= |all| && next == all[k..]
  }

  lemma WriteTops(cfg: Config, cache: seq<Entry>, key: nat, o: Outcome, e: Entry, drift: int) returns (k: nat)
    requires cfg.tableSize > 0 && EntryKey(cfg, e) == key && Evicts(cfg, Others(cfg, cache, key) + [e], drift, o)
    ensures OnTop(cfg, cache, key, o.state.cache, e, k)
  {
    hide Within, Others, AllGone, EntryKey, Bytes;
    k := |Others(cfg, cache, key) + [e]| - |o.state.cache|;
  }

  lemma NewestTops(cfg: Config, st: State, o: Outcome, key: nat, e: Entry)
    requires cfg.tableSize > 0 && EntryKey(cfg, e) == key && MadeNewest(cfg, st, o, key, e)
    ensures OnTop(cfg, st.cache, key, o.state.cache, e, 0)
  {
    hide Others, EntryKey;
  }

  lemma WrittenOnTop(cfg: Config, st: State, r: Request) returns (e: Entry, k: nat)
    requires Inv(cfg, st) && Uses(cfg, st, r) && (r.InsertR? || r.ModifyR? || r.AppendR?)
    ensures OnTop(cfg, st.cache, RequestKey(cfg, r), Apply(cfg, st, r).state.cache, e, k)
  {
    hide Inv, Find, Lookup, Others, Evicts, EntryKey, KeyOf, Drift, Insert, Modify, Append, OnTop;
    InvConfig(cfg, st);
    var key := RequestKey(cfg, r);
    var l := Lookup(cfg, st.cache, key);
    var i := Found(cfg, st, key);
    match r {
      case InsertR(c, f, lock) =>
        InsertEffect(cfg, st, c, f, lock);
        e := Entry(if lock then c else EMPTY_OWNER, f, []);
        SameName(cfg, e, r, l);
        k := WriteTops(cfg, st.cache, key, Insert(cfg, st, c, f, lock), e, Drift(st));
      case ModifyR(c, f) =>
        ModifyEffect(cfg, st, c, f);
        e := Entry(c, f, l.value.waiting);
        SameName(cfg, e, r, l);
        k := WriteTops(cfg, st.cache, key, Modify(cfg, st, c, f), e, Drift(st));
      case AppendR(c, f) =>
        AppendEffect(cfg, st, c, f);
        var content := l.value.file.content + f.content;
        e := Entry(l.value.owner, File(l.value.file.name, content), l.value.waiting);
        SameName(cfg, e, r, l);
        k := WriteTops(cfg, st.cache, key, Append(cfg, st, c, f), e, Drift(st) + |content| - |f.name|);
    }
  }

  lemma MovedOnTop(cfg: Config, st: State, r: Request) returns (e: Entry)
    requires Inv(cfg, st) && Uses(cfg, st, r) && (r.TouchR? || r.LockR? || r.UnlockR?)
    ensures OnTop(cfg, st.cache, RequestKey(cfg, r), Apply(cfg, st, r).state.cache, e, 0)
  {
    hide Inv, Find, Lookup, Others, EntryKey, KeyOf, Touch, TryLock, UnlockKey, OnTop, MadeNewest, RewrittenInPlace;
    InvConfig(cfg, st);
    var key := RequestKey(cfg, r);
    var l := Lookup(cfg, st.cache, key);
    var i := Found(cfg, st, key);
    match r {
      case TouchR(_, n) =>
        TouchEffect(cfg, st, n);
        e := l.value;
      case LockR(c, n) =>
        LockEffect(cfg, st, c, n);
        e := Entry(c, l.value.file, l.value.waiting);
      case UnlockR(c, at) =>
        UnlockEffect(cfg, st, c, at);
        e := if l.value.waiting == [] then Entry(EMPTY_OWNER, l.value.file, [])
             else Entry(l.value.waiting[0], l.value.file, l.value.waiting[1..]);
    }
    SameName(cfg, e, r, l);
    NewestTops(cfg, st, Apply(cfg, st, r), key, e);
  }

  /** A use leaves the file on top of all the others, and drops some of the oldest. */
  lemma UsedOnTop(cfg: Config, st: State, r: Request) returns (e: Entry, k: nat)
    requires Inv(cfg, st) && Uses(cfg, st, r)
    ensures OnTop(cfg, st.cache, RequestKey(cfg, r), Apply(cfg, st, r).state.cache, e, k)
  {
    hide Inv, Apply, OnTop, RequestKey;
    if r.InsertR? || r.ModifyR? || r.AppendR? {
      e, k := WrittenOnTop(cfg, st, r);
    } else {
      e := MovedOnTop(cfg, st, r);
      k := 0;
    }
  }

  lemma SameName(cfg: Config, e: Entry, r: Request, l: Option<Entry>)
    requires cfg.tableSize > 0
    requires (r.InsertR? || r.ModifyR?) ==> e.file.name == r.file.name
    requires !(r.InsertR? || r.ModifyR?) ==>
               l.Some? && EntryKey(cfg, l.value) == RequestKey(cfg, r) && e.file.name == l.value.file.name
    ensures EntryKey(cfg, e) == RequestKey(cfg, r)
  {
  }

  /** A request that uses no file leaves the order as it was. */
  lemma UnusedKeepsOrder(cfg: Config, st: State, r: Request, a: nat, b: nat)
    requires Inv(cfg, st) && !Uses(cfg, st, r) && Older(cfg, Apply(cfg, st, r).state.cache, a, b)
    ensures Older(cfg, st.cache, a, b)
  {
    hide Inv, Find, Lookup, Others, Evicts, EntryKey, KeyOf, Drift, Insert, Touch, Modify, Append, TryLock, UnlockKey,
         Remove, Older;
    InvConfig(cfg, st);
    match r {
      case InsertR(c, f, lock) => InsertEffect(cfg, st, c, f, lock);
      case ModifyR(c, f) => ModifyEffect(cfg, st, c, f);
      case AppendR(c, f) => AppendEffect(cfg, st, c, f);
      case TouchR(_, n) => TouchEffect(cfg, st, n);
      case UnlockR(c, at) => UnlockEffect(cfg, st, c, at);
      case LockR(c, n) =>
        LockEffect(cfg, st, c, n);
        var o := TryLock(cfg, st, c, n);
        if o.res == FS_CLIENT_WAITING_ON_LOCK {
          WaitingKeepsKeys(cfg, st, o, KeyOf(cfg, n), a, b);
        }
      case RemoveR(c, n) =>
        RemoveEffect(cfg, st, c, n);
        if Remove(cfg, st, c, n).res == 0 {
          RemovedKeepsOrder(cfg, st.cache, KeyOf(cfg, n), a, b);
        }
    }
  }

  lemma WaitingKeepsKeys(cfg: Config, st: State, o: Outcome, key: nat, a: nat, b: nat)
    requires Inv(cfg, st) && Lookup(cfg, st.cache, key).Some?
    requires exists e :: RewrittenInPlace(cfg, st, o, key, e)
                         && e.file == Lookup(cfg, st.cache, key).value.file
    requires Older(cfg, o.state.cache, a, b)
    ensures Older(cfg, st.cache, a, b)
  {
    var e :| RewrittenInPlace(cfg, st, o, key, e) && e.file == Lookup(cfg, st.cache, key).value.file;
    FoundKey(cfg, st, key, e);
    hide KeysDistinct, LocksOk, EntryKey, Lookup;
    assert forall j :: 0 <= j < |st.cache| ==> EntryKey(cfg, o.state.cache[j]) == EntryKey(cfg, st.cache[j]);
  }

  lemma RemovedKeepsOrder(cfg: Config, cache: seq<Entry>, key: nat, a: nat, b: nat)
    requires cfg.tableSize > 0 && KeysDistinct(cfg, cache) && Older(cfg, Others(cfg, cache, key), a, b)
    ensures Older(cfg, cache, a, b)
  {
    hide EntryKey, Find, Others;
    var rest, p := Others(cfg, cache, key), Find(cfg, cache, key);
    var i, j :| 0 <= i < j < |rest| && EntryKey(cfg, rest[i]) == a && EntryKey(cfg, rest[j]) == b;
    if p < 0 {
      OthersOfNone(cfg, cache, key);
    } else {
      OthersOf(cfg, cache, p);
      assert rest[i] == cache[if i < p then i else i + 1] && rest[j] == cache[if j < p then j else j + 1];
    }
  }

  /** One file is older than another after an operation when the other was just used, or it was older before and was
      not just used. */
  lemma StepOrder(cfg: Config, st: State, r: Request, a: nat, b: nat)
    requires Inv(cfg, st) && Older(cfg, Apply(cfg, st, r).state.cache, a, b)
    ensures Uses(cfg, st, r) ==> a != RequestKey(cfg, r) && (b == RequestKey(cfg, r) || Older(cfg, st.cache, a, b))
    ensures !Uses(cfg, st, r) ==> Older(cfg, st.cache, a, b)
  {
    hide Inv, Apply, Older, Others, EntryKey;
    InvConfig(cfg, st);
    if Uses(cfg, st, r) {
      var e, k := UsedOnTop(cfg, st, r);
      OlderSuffix(cfg, Others(cfg, st.cache, RequestKey(cfg, r)) + [e], k, a, b);
      OlderOthers(cfg, st.cache, RequestKey(cfg, r), e, a, b);
    } else {
      UnusedKeepsOrder(cfg, st, r, a, b);
    }
  }

  // ---------------------------------------------------------------- whole runs

  /** The state after the first n requests. */
  ghost function StateAt(cfg: Config, rs: seq<Request>, n: nat): State
    requires cfg.tableSize > 0 && n <= |rs|
  {
    RunAll(cfg, EMPTY_RUN, rs[..n]).state
  }

  /** Request t of the run uses the file of this key. */
  ghost predicate UsesAt(cfg: Config, rs: seq<Request>, t: nat, key: nat)
    requires cfg.tableSize > 0 && t < |rs|
  {
    Uses(cfg, StateAt(cfg, rs, t), rs[t]) && RequestKey(cfg, rs[t]) == key
  }

  /** Among the first n requests, the last use of the file of key b comes after the last one of key a. */
  ghost predicate UsedLater(cfg: Config, rs: seq<Request>, n: nat, a: nat, b: nat)
    requires cfg.tableSize > 0 && n <= |rs|
  {
    exists t :: 0 <= t < n && UsesAt(cfg, rs, t, b) && forall u :: t <= u < n ==> !UsesAt(cfg, rs, u, a)
  }

  lemma {:induction false} RunThen(cfg: Config, run: Run, rs: seq<Request>, r: Request)
    requires cfg.tableSize > 0
    ensures RunAll(cfg, run, rs + [r]) == Step(cfg, RunAll(cfg, run, rs), r)
    decreases |rs|
  {
    hide Step;
    if rs == [] {
      assert rs + [r] == [r] && [r][1..] == [];
      assert RunAll(cfg, Step(cfg, run, r), []) == Step(cfg, run, r);
    } else {
      assert (rs + [r])[1..] == rs[1..] + [r];
      RunThen(cfg, Step(cfg, run, rs[0]), rs[1..], r);
    }
  }

  lemma {:induction false} LawfulPrefix(cfg: Config, run: Run, rs: seq<Request>, n: nat)
    requires cfg.tableSize > 0 && LawfulRun(cfg, run, rs) && n <= |rs|
    ensures LawfulRun(cfg, run, rs[..n])
    decreases |rs|
  {
    hide Step, Lawful;
    if n > 0 {
      assert rs[..n][1..] == rs[1..][..n - 1];
      LawfulPrefix(cfg, Step(cfg, run, rs[0]), rs[1..], n - 1);
    }
  }

  lemma StateAtStep(cfg: Config, rs: seq<Request>, n: nat)
    requires ValidConfig(cfg) && LawfulRun(cfg, EMPTY_RUN, rs) && n < |rs|
    ensures Inv(cfg, StateAt(cfg, rs, n))
    ensures StateAt(cfg, rs, n + 1) == Apply(cfg, StateAt(cfg, rs, n), rs[n]).state
  {
    hide RunAll, Apply, RunInv, LawfulRun;
    EmptyRunInv(cfg);
    LawfulPrefix(cfg, EMPTY_RUN, rs, n);
    RunsKeepInv(cfg, EMPTY_RUN, rs[..n]);
    StoreOfRun(cfg, RunAll(cfg, EMPTY_RUN, rs[..n]));
    assert rs[..n + 1] == rs[..n] + [rs[n]];
    RunThen(cfg, EMPTY_RUN, rs[..n], rs[n]);
  }

  /** One request more: the last use of b stays the later one. */
  lemma StaysLater(cfg: Config, rs: seq<Request>, n: nat, a: nat, b: nat)
    requires cfg.tableSize > 0 && n < |rs| && !UsesAt(cfg, rs, n, a)
    requires UsesAt(cfg, rs, n, b) || UsedLater(cfg, rs, n, a, b)
    ensures UsedLater(cfg, rs, n + 1, a, b)
  {
    hide UsesAt;
    if !UsesAt(cfg, rs, n, b) {
      var t :| 0 <= t < n && UsesAt(cfg, rs, t, b) && forall u :: t <= u < n ==> !UsesAt(cfg, rs, u, a);
      assert forall u :: t <= u < n + 1 ==> !UsesAt(cfg, rs, u, a);
    }
  }

  /** After any run from the empty store: of two cached files, the one nearer to the old end was last used earlier. */
  lemma {:induction false} OrderIsRecency(cfg: Config, rs: seq<Request>, n: nat, a: nat, b: nat)
    requires ValidConfig(cfg) && LawfulRun(cfg, EMPTY_RUN, rs) && n <= |rs|
    requires Older(cfg, StateAt(cfg, rs, n).cache, a, b)
    ensures UsedLater(cfg, rs, n, a, b)
    decreases n
  {
    hide Inv, LawfulRun, Uses, Apply, RequestKey, UsedLater;
    if n == 0 {
      NothingOlder(cfg, rs, a, b);
    } else {
      StateAtStep(cfg, rs, n - 1);
      StepOrder(cfg, StateAt(cfg, rs, n - 1), rs[n - 1], a, b);
      hide Older, StateAt;
      if !UsesAt(cfg, rs, n - 1, b) {
        OrderIsRecency(cfg, rs, n - 1, a, b);
      }
      StaysLater(cfg, rs, n - 1, a, b);
    }
  }

  lemma NothingOlder(cfg: Config, rs: seq<Request>, a: nat, b: nat)
    requires cfg.tableSize > 0
    ensures !Older(cfg, StateAt(cfg, rs, 0).cache, a, b)
  {
    assert rs[..0] == [];
  }

  /** A file that leaves the cache without being removed was last used before every file that stays. */
  lemma EvictsLeastRecent(cfg: Config, rs: seq<Request>, n: nat, a: nat, b: nat)
    requires ValidConfig(cfg) && LawfulRun(cfg, EMPTY_RUN, rs) && n < |rs|
    requires Lookup(cfg, StateAt(cfg, rs, n).cache, a).Some? && Lookup(cfg, StateAt(cfg, rs, n + 1).cache, a).None?
    requires Lookup(cfg, StateAt(cfg, rs, n + 1).cache, b).Some? && !rs[n].RemoveR?
    ensures UsedLater(cfg, rs, n + 1, a, b)
  {
    hide Inv, LawfulRun, Apply, RequestKey, UsedLater, Lookup;
    StateAtStep(cfg, rs, n);
    var st, r := StateAt(cfg, rs, n), rs[n];
    hide StateAt;
    GoneIsOlder(cfg, st, r, a, b);
    if !UsesAt(cfg, rs, n, b) {
      OrderIsRecency(cfg, rs, n, a, b);
    }
    StaysLater(cfg, rs, n, a, b);
  }

  lemma GoneIsOlder(cfg: Config, st: State, r: Request, a: nat, b: nat)
    requires Inv(cfg, st) && !r.RemoveR?
    requires Lookup(cfg, st.cache, a).Some? && Lookup(cfg, Apply(cfg, st, r).state.cache, a).None?
    requires Lookup(cfg, Apply(cfg, st, r).state.cache, b).Some?
    ensures Uses(cfg, st, r) && a != RequestKey(cfg, r)
    ensures b == RequestKey(cfg, r) || Older(cfg, st.cache, a, b)
  {
    hide Inv, Apply, Older, Others, EntryKey, Lookup, RequestKey;
    InvConfig(cfg, st);
    if Uses(cfg, st, r) {
      var e, k := UsedOnTop(cfg, st, r);
      var key := RequestKey(cfg, r);
      var all := Others(cfg, st.cache, key) + [e];
      OthersLookup(cfg, st.cache, key, e, a);
      KeptIsFound(cfg, all, k, a);
      DroppedIsOlder(cfg, all, k, a, b);
      OlderOthers(cfg, st.cache, key, e, a, b);
    } else {
      UnusedKeepsFiles(cfg, st, r, a);
    }
  }

  lemma DroppedIsOlder(cfg: Config, all: seq<Entry>, k: nat, a: nat, b: nat)
    requires cfg.tableSize > 0 && KeysDistinct(cfg, all) && k <= |all|
    requires Lookup(cfg, all, a).Some? && Lookup(cfg, all[k..], a).None? && Lookup(cfg, all[k..], b).Some?
    ensures Older(cfg, all, a, b)
  {
    hide EntryKey, Lookup;
    KeptIsFound(cfg, all, k, a);
    var x, y := Lookup(cfg, all, a).value, Lookup(cfg, all[k..], b).value;
    LookupIff(cfg, all, a, x);
    LookupIff(cfg, all[k..], b, y);
    var i :| 0 <= i < k && all[i] == x;
    var j :| 0 <= j < |all[k..]| && all[k..][j] == y;
    assert all[k + j] == y;
  }

  /** A request that uses no file and removes none takes no file out of the cache. */
  lemma UnusedKeepsFiles(cfg: Config, st: State, r: Request, a: nat)
    requires Inv(cfg, st) && !Uses(cfg, st, r) && !r.RemoveR? && Lookup(cfg, st.cache, a).Some?
    ensures Lookup(cfg, Apply(cfg, st, r).state.cache, a).Some?
  {
    hide Inv, Find, Lookup, Others, Evicts, EntryKey, KeyOf, Drift, Insert, Touch, Modify, Append, TryLock, UnlockKey;
    InvConfig(cfg, st);
    match r {
      case InsertR(c, f, lock) => InsertEffect(cfg, st, c, f, lock);
      case ModifyR(c, f) => ModifyEffect(cfg, st, c, f);
      case AppendR(c, f) => AppendEffect(cfg, st, c, f);
      case TouchR(_, n) => TouchEffect(cfg, st, n);
      case UnlockR(c, at) => UnlockEffect(cfg, st, c, at);
      case LockR(c, n) =>
        LockEffect(cfg, st, c, n);
        if TryLock(cfg, st, c, n).res == FS_CLIENT_WAITING_ON_LOCK {
          WaitingKeepsFiles(cfg, st, TryLock(cfg, st, c, n), KeyOf(cfg, n), a);
        }
    }
  }

  lemma WaitingKeepsFiles(cfg: Config, st: State, o: Outcome, key: nat, a: nat)
    requires Inv(cfg, st) && Lookup(cfg, st.cache, key).Some? && Lookup(cfg, st.cache, a).Some?
    requires exists e :: RewrittenInPlace(cfg, st, o, key, e)
                         && e.file == Lookup(cfg, st.cache, key).value.file
    ensures Lookup(cfg, o.state.cache, a).Some?
  {
    var e :| RewrittenInPlace(cfg, st, o, key, e) && e.file == Lookup(cfg, st.cache, key).value.file;
    FoundKey(cfg, st, key, e);
    hide KeysDistinct, LocksOk, EntryKey;
    assert forall j :: 0 <= j < |st.cache| ==> EntryKey(cfg, o.state.cache[j]) == EntryKey(cfg, st.cache[j]);
  }

  /** In a full store with more than one file, a file just read survives the next new one: the oldest of the others is
      handed out. */
  lemma JustReadStays(cfg: Config, st: State, name: string, client: int, file: File, lock: bool)
    requires Inv(cfg, st) && |st.cache| == cfg.slotMax >= 2 && Lookup(cfg, st.cache, KeyOf(cfg, name)).Some?
    requires Lookup(cfg, st.cache, KeyOf(cfg, file.name)).None?
    requires st.bytesUsed + |file.name| + |file.content| <= cfg.bytesMax
    ensures var key := KeyOf(cfg, name);
            var o := Insert(cfg, Touch(cfg, st, name).state, client, file, lock);
            && o.res == 0 && |Others(cfg, st.cache, key)| == cfg.slotMax - 1
            && o.ejected == [Others(cfg, st.cache, key)[0].file]
            && Lookup(cfg, o.state.cache, key) == Lookup(cfg, st.cache, key)
  {
    hide KeysDistinct, LocksOk, Lookup, KeyOf, Others, EntryKey, Find, Touch, Insert, Bytes, AllGone;
    var key := KeyOf(cfg, name);
    var i := Found(cfg, st, key);
    TouchEffect(cfg, st, name);
    TouchKeepsInv(cfg, st, name);
    var s := Touch(cfg, st, name).state;
    var e, x := Entry(if lock then client else EMPTY_OWNER, file, []), Lookup(cfg, st.cache, key).value;
    KeyOfEntry(cfg, e);
    OthersLookup(cfg, st.cache, key, x, EntryKey(cfg, e));
    OthersLookup(cfg, st.cache, key, x, key);
    InsertEffect(cfg, s, client, file, lock);
    var o, all := Insert(cfg, s, client, file, lock), s.cache + [e];
    BytesCount(s.cache, e);
    OneMoreThanFits(cfg, all, Drift(s), o);
    var p := Found(cfg, s, EntryKey(cfg, e));
    LookupAppend(cfg, s.cache, e, key);
    KeptIsFound(cfg, all, 1, key);
    assert all[0] == Others(cfg, st.cache, key)[0];
    if Lookup(cfg, all[1..], key).None? {
      assert all[0] == x;
      NotFoundInOthers(cfg, st, key, x);
    }
  }

  lemma NotFoundInOthers(cfg: Config, st: State, key: nat, x: Entry)
    requires Inv(cfg, st) && Lookup(cfg, st.cache, key) == Some(x)
    ensures x !in Others(cfg, st.cache, key)
  {
    hide EntryKey, LocksOk, Find, Others;
    var i := Found(cfg, st, key);
    if x in Others(cfg, st.cache, key) {
      OthersOf(cfg, st.cache, i);
      RemovedKey(cfg, st.cache, i, x);
    }
  }

  /** With one file too many and bytes to spare, the oldest file is dropped. */
  lemma OneMoreThanFits(cfg: Config, all: seq<Entry>, drift: int, o: Outcome)
    requires Evicts(cfg, all, drift, o) && |all| == cfg.slotMax + 1 >= 2 && Bytes(all) - drift <= cfg.bytesMax
    ensures o.state.cache == all[1..] && o.ejected == [all[0].file]
  {
    var k := |all| - |o.state.cache|;
    assert all[0..] == all;
    assert Within(cfg, all[1..], drift) by {
      hide Bytes;
      assert all == all[..1] + all[1..];
      BytesConcat(all[..1], all[1..]);
    }
    assert k <= 1;
  }
}
