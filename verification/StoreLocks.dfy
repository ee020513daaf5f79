/** What one operation does to the byte counter, and to the clients that wait: whoever is told to wait is queued, and
    whoever leaves a queue is notified. */
module StoreLocks {
  import opened Store
  import opened StoreInvariant
  import opened StoreSteps

  // ---------------------------------------------------------------- the byte counter

  function AppendError(cfg: Config, st: State, file: File): int
    requires cfg.tableSize > 0 && Find(cfg, st.cache, KeyOf(cfg, file.name)) >= 0
  {
    |file.content| + |st.cache[Find(cfg, st.cache, KeyOf(cfg, file.name))].file.content| - |file.name|
  }

  lemma DriftOfRewrite(cfg: Config, st: State, i: nat, e: Entry, bytesUsed: int)
    requires Inv(cfg, st) && i < |st.cache|
    ensures Drift(Settle(cfg, State(MoveToTop(st.cache, i, e), st.slotUsed, bytesUsed)).state)
         == Bytes(st.cache) - Size(st.cache[i].file) + Size(e.file) - bytesUsed
  {
    hide KeysDistinct, LocksOk, Balance, Bytes, MoveToTop;
    BytesMove(st.cache, i, e);
    BalanceKeepsDrift(cfg, State(MoveToTop(st.cache, i, e), st.slotUsed, bytesUsed));
  }

  lemma DriftOfWrite(cfg: Config, st: State, r: Request)
    requires Inv(cfg, st) && (r.ModifyR? || r.AppendR?)
    ensures var o := Apply(cfg, st, r);
            Drift(o.state) == Drift(st) + if r.AppendR? && o.res == 0 then AppendError(cfg, st, r.file) else 0
  {
    hide KeysDistinct, LocksOk, Settle, Find, Bytes, MoveToTop;
    var i := Find(cfg, st.cache, KeyOf(cfg, r.file.name));
    if i >= 0 {
      var e := st.cache[i];
      var content := e.file.content + r.file.content;
      if r.ModifyR? {
        DriftOfRewrite(cfg, st, i, e.(file := r.file), st.bytesUsed + Size(r.file) - Size(e.file));
      } else {
        DriftOfRewrite(cfg, st, i, e.(file := File(e.file.name, content)), st.bytesUsed + Size(r.file) - |content|);
      }
    }
  }

  lemma DriftOfInsert(cfg: Config, st: State, c: int, f: File, l: bool)
    requires Inv(cfg, st)
    ensures Drift(Insert(cfg, st, c, f, l).state) == Drift(st)
  {
    hide KeysDistinct, LocksOk, Balance, Find;
    var e := Entry(if l then c else EMPTY_OWNER, f, []);
    var one := [e];
    BytesConcat(st.cache, one);
    assert Bytes(one) == Size(f);
    BalanceKeepsDrift(cfg, State(st.cache + [e], st.slotUsed + 1, st.bytesUsed + Size(f)));
  }

  lemma DriftOfRest(cfg: Config, st: State, r: Request)
    requires Inv(cfg, st) && (r.RemoveR? || r.TouchR? || r.UnlockR?)
    ensures Drift(Apply(cfg, st, r).state) == Drift(st)
  {
    hide KeysDistinct, LocksOk, Find, Bytes, MoveToTop;
    var i := Find(cfg, st.cache, if r.UnlockR? then r.key else KeyOf(cfg, r.name));
    if i >= 0 {
      var e := st.cache[i];
      if !r.UnlockR? {
        BytesMove(st.cache, i, e);
      } else if e.waiting == [] {
        BytesMove(st.cache, i, e.(owner := EMPTY_OWNER));
      } else {
        BytesMove(st.cache, i, e.(owner := e.waiting[0], waiting := e.waiting[1..]));
      }
    }
  }

  /** Only a successful append moves the counter away from the true size of the files, and by exactly this much. */
  lemma DriftOfRequest(cfg: Config, st: State, r: Request)
    requires Inv(cfg, st)
    ensures var o := Apply(cfg, st, r);
            Drift(o.state) == Drift(st) + if r.AppendR? && o.res == 0 then AppendError(cfg, st, r.file) else 0
  {
    hide Insert, Remove, Touch, Modify, Append, TryLock, UnlockKey, Drift, AppendError;
    match r {
      case InsertR(c, f, l) => DriftOfInsert(cfg, st, c, f, l);
      case RemoveR(_, _) => DriftOfRest(cfg, st, r);
      case TouchR(_, _) => DriftOfRest(cfg, st, r);
      case ModifyR(_, _) => DriftOfWrite(cfg, st, r);
      case AppendR(_, _) => DriftOfWrite(cfg, st, r);
      case LockR(c, n) => DriftOfLock(cfg, st, c, n);
      case UnlockR(_, _) => DriftOfRest(cfg, st, r);
    }
  }

  lemma DriftOfLock(cfg: Config, st: State, c: int, n: string)
    requires Inv(cfg, st)
    ensures Drift(TryLock(cfg, st, c, n).state) == Drift(st)
  {
    var i := Find(cfg, st.cache, KeyOf(cfg, n));
    if i >= 0 {
      var e := st.cache[i];
      BytesMove(st.cache, i, e.(owner := c));
      BytesMove(st.cache, i, e.(waiting := e.waiting + [c]));
    }
  }

  lemma FoundForAppend(cfg: Config, st: State, client: int, file: File)
    requires cfg.tableSize > 0 && Append(cfg, st, client, file).res == 0
    ensures Find(cfg, st.cache, KeyOf(cfg, file.name)) >= 0
  {
    hide Settle, Find, KeyOf;
  }

  /** The counter stays exact over an append exactly when the new content is as long as the name. */
  lemma AppendCountsIff(cfg: Config, st: State, client: int, file: File)
    requires Inv(cfg, st) && Drift(st) == 0 && Append(cfg, st, client, file).res == 0
    ensures Drift(Append(cfg, st, client, file).state) == 0
       <==> |st.cache[Find(cfg, st.cache, KeyOf(cfg, file.name))].file.content + file.content| == |file.name|
  {
    FoundForAppend(cfg, st, client, file);
    hide Append, Inv, Drift, Find, KeyOf;
    DriftOfRequest(cfg, st, AppendR(client, file));
    var content := st.cache[Find(cfg, st.cache, KeyOf(cfg, file.name))].file.content;
    assert |content + file.content| == |content| + |file.content|;
  }

  /** Three characters appended to an empty file with a one-character name: the counter grows by one. */
  lemma AppendMiscounts()
    ensures var cfg := Config(1, 1, 100, (_: string) => 0);
            var st := State([Entry(EMPTY_OWNER, File("f", ""), [])], 1, 1);
            Inv(cfg, st) && Drift(st) == 0
            && Append(cfg, st, 7, File("f", "abc")).res == 0
            && Append(cfg, st, 7, File("f", "abc")).state.bytesUsed == 2
            && Bytes(Append(cfg, st, 7, File("f", "abc")).state.cache) == 4
  {
    var cfg := Config(1, 1, 100, (_: string) => 0);
    var e := Entry(EMPTY_OWNER, File("f", ""), []);
    var st := State([e], 1, 1);
    assert Find(cfg, st.cache, KeyOf(cfg, "f")) == 0;
    var e' := e.(file := File("f", "" + "abc"));
    assert MoveToTop(st.cache, 0, e') == [e'];
    assert |"" + "abc"| == 3;
    assert Bytes([e']) == 4;
    assert Balance(cfg, State([e'], 1, 2)).state.cache == [e'];
  }

  // ---------------------------------------------------------------- who waits and who is told

  /** All waiting clients, with multiplicity. */
  ghost function Queued(cache: seq<Entry>): multiset<int> {
    if cache == [] then multiset{} else multiset(cache[0].waiting) + Queued(cache[1..])
  }

  ghost function Fds(notes: seq<Notification>): multiset<int> {
    if notes == [] then multiset{} else multiset{notes[0].fd} + Fds(notes[1..])
  }

  lemma {:induction false} QueuedConcat(a: seq<Entry>, b: seq<Entry>)
    ensures Queued(a + b) == Queued(a) + Queued(b)
  {
    if a == [] {
      assert a + b == b;
    } else {
      assert (a + b)[1..] == a[1..] + b;
      QueuedConcat(a[1..], b);
    }
  }

  lemma {:induction false} FdsConcat(a: seq<Notification>, b: seq<Notification>)
    ensures Fds(a + b) == Fds(a) + Fds(b)
  {
    if a == [] {
      assert a + b == b;
    } else {
      assert (a + b)[1..] == a[1..] + b;
      FdsConcat(a[1..], b);
    }
  }

  lemma {:induction false} FdsOfGone(waiting: seq<int>)
    ensures Fds(Gone(waiting)) == multiset(waiting)
  {
    if waiting != [] {
      FdsOfGone(waiting[1..]);
      assert waiting == [waiting[0]] + waiting[1..];
      assert Gone(waiting)[1..] == Gone(waiting[1..]);
    }
  }

  lemma {:induction false} FdsOfAllGone(entries: seq<Entry>)
    ensures Fds(AllGone(entries)) == Queued(entries)
  {
    if entries != [] {
      FdsOfGone(entries[0].waiting);
      FdsOfAllGone(entries[1..]);
      FdsConcat(Gone(entries[0].waiting), AllGone(entries[1..]));
    }
  }

  lemma QueuedOne(e: Entry)
    ensures Queued([e]) == multiset(e.waiting)
  {
    assert [e][1..] == [];
  }

  /** The queues of all entries but one. */
  ghost function Others(cache: seq<Entry>, i: nat): multiset<int>
    requires i < |cache|
  {
    Queued(cache[..i] + cache[i + 1..])
  }

  /** Replacing one entry, in place or at the top, changes the queues by that entry's. */
  lemma QueuedReplace(cache: seq<Entry>, i: nat, e: Entry)
    requires i < |cache|
    ensures Queued(cache) == Others(cache, i) + multiset(cache[i].waiting)
    ensures Queued(MoveToTop(cache, i, e)) == Others(cache, i) + multiset(e.waiting)
    ensures Queued(cache[i := e]) == Others(cache, i) + multiset(e.waiting)
  {
    hide Queued;
    var a, b, old1, new1 := cache[..i], cache[i + 1..], [cache[i]], [e];
    assert cache == a + old1 + b && cache[i := e] == a + new1 + b && MoveToTop(cache, i, e) == a + b + new1;
    QueuedOne(cache[i]);
    QueuedOne(e);
    QueuedConcat(a, old1);
    QueuedConcat(a + old1, b);
    QueuedConcat(a, new1);
    QueuedConcat(a + new1, b);
    QueuedConcat(a, b);
    QueuedConcat(a + b, new1);
  }

  /** The client this step tells to wait. */
  ghost function Told(r: Request, o: Outcome): multiset<int> {
    if o.res == FS_CLIENT_WAITING_ON_LOCK then multiset{r.client} else multiset{}
  }

  lemma SettleConserves(cfg: Config, st: State)
    requires 1 <= cfg.slotMax && st.slotUsed == |st.cache| <= cfg.slotMax + 1
    ensures Queued(st.cache) == Queued(Settle(cfg, st).state.cache) + Fds(Settle(cfg, st).notes)
  {
    hide Balance, Queued, Fds;
    NothingLost(cfg, st);
    var b := Balance(cfg, st);
    QueuedConcat(b.ejected, b.state.cache);
    FdsOfAllGone(b.ejected);
  }

  lemma FdsNone()
    ensures Fds([]) == multiset{}
  {
  }

  lemma FdsOne(n: Notification)
    ensures Fds([n]) == multiset{n.fd}
  {
    assert [n][1..] == [];
  }

  /** What conservation says of one step: whoever waits after it waited before or was just told to, and whoever
      stops waiting is notified. */
  ghost predicate Conserves(st: State, r: Request, o: Outcome) {
    Queued(st.cache) + Told(r, o) == Queued(o.state.cache) + Fds(o.notes)
  }

  lemma RefusalConserves(st: State, r: Request, res: int)
    requires res != FS_CLIENT_WAITING_ON_LOCK
    ensures Conserves(st, r, Refused(st, res))
  {
    FdsNone();
  }

  lemma InsertConserves(cfg: Config, st: State, c: int, f: File, l: bool)
    requires Inv(cfg, st)
    ensures Conserves(st, InsertR(c, f, l), Insert(cfg, st, c, f, l))
  {
    hide Find, Balance, Queued, Fds, KeysDistinct, LocksOk;
    RefusalConserves(st, InsertR(c, f, l), FS_FILE_ALREADY_EXISTS);
    var e := Entry(if l then c else EMPTY_OWNER, f, []);
    QueuedConcat(st.cache, [e]);
    QueuedOne(e);
    SettleConserves(cfg, State(st.cache + [e], st.slotUsed + 1, st.bytesUsed + Size(f)));
  }

  lemma RemoveConserves(cfg: Config, st: State, c: int, n: string)
    requires cfg.tableSize > 0
    ensures Conserves(st, RemoveR(c, n), Remove(cfg, st, c, n))
  {
    hide Find, Queued, Fds;
    RefusalConserves(st, RemoveR(c, n), FS_FILE_NOT_EXISTS);
    RefusalConserves(st, RemoveR(c, n), FS_CLIENT_NOT_ALLOWED);
    var i := Find(cfg, st.cache, KeyOf(cfg, n));
    if i >= 0 {
      QueuedReplace(st.cache, i, st.cache[i]);
      FdsOfGone(st.cache[i].waiting);
    }
  }

  lemma TouchConserves(cfg: Config, st: State, c: int, n: string)
    requires cfg.tableSize > 0
    ensures Conserves(st, TouchR(c, n), Touch(cfg, st, n))
  {
    hide Find, Queued, Others, Fds, MoveToTop;
    FdsNone();
    var i := Find(cfg, st.cache, KeyOf(cfg, n));
    if i >= 0 {
      QueuedReplace(st.cache, i, st.cache[i]);
    }
  }

  lemma RewriteConserves(cfg: Config, st: State, i: nat, e: Entry, bytesUsed: int, r: Request)
    requires Inv(cfg, st) && i < |st.cache| && e.waiting == st.cache[i].waiting
    ensures Conserves(st, r, Settle(cfg, State(MoveToTop(st.cache, i, e), st.slotUsed, bytesUsed)))
  {
    hide Balance, Queued, Fds, KeysDistinct, LocksOk, Others;
    QueuedReplace(st.cache, i, e);
    SettleConserves(cfg, State(MoveToTop(st.cache, i, e), st.slotUsed, bytesUsed));
  }

  lemma WriteConserves(cfg: Config, st: State, r: Request)
    requires Inv(cfg, st) && (r.ModifyR? || r.AppendR?)
    ensures Conserves(st, r, Apply(cfg, st, r))
  {
    hide Find, Queued, Fds, Settle, KeysDistinct, LocksOk, Conserves, MoveToTop, Size;
    RefusalConserves(st, r, FS_FILE_NOT_EXISTS);
    RefusalConserves(st, r, FS_CLIENT_NOT_ALLOWED);
    RefusalConserves(st, r, FS_FILE_TOO_BIG);
    var i := Find(cfg, st.cache, KeyOf(cfg, r.file.name));
    if i >= 0 {
      var e := st.cache[i];
      var content := e.file.content + r.file.content;
      RewriteConserves(cfg, st, i, e.(file := r.file), st.bytesUsed + Size(r.file) - Size(e.file), r);
      RewriteConserves(cfg, st, i, e.(file := File(e.file.name, content)), st.bytesUsed + Size(r.file) - |content|, r);
    }
  }

  lemma LockConserves(cfg: Config, st: State, c: int, n: string)
    requires cfg.tableSize > 0
    ensures Conserves(st, LockR(c, n), TryLock(cfg, st, c, n))
  {
    hide Find, Queued, Others, Fds, MoveToTop;
    FdsNone();
    RefusalConserves(st, LockR(c, n), FS_FILE_NOT_EXISTS);
    RefusalConserves(st, LockR(c, n), FS_CLIENT_NOT_ALLOWED);
    var i := Find(cfg, st.cache, KeyOf(cfg, n));
    if i >= 0 {
      var e := st.cache[i];
      QueuedReplace(st.cache, i, e.(owner := c));
      QueuedReplace(st.cache, i, e.(waiting := e.waiting + [c]));
      assert multiset(e.waiting + [c]) == multiset(e.waiting) + multiset{c};
    }
  }

  lemma UnlockConserves(cfg: Config, st: State, c: int, k: nat)
    requires cfg.tableSize > 0
    ensures Conserves(st, UnlockR(c, k), UnlockKey(cfg, st, c, k))
  {
    hide Find, Queued, Others, Fds, MoveToTop;
    FdsNone();
    RefusalConserves(st, UnlockR(c, k), FS_FILE_NOT_EXISTS);
    RefusalConserves(st, UnlockR(c, k), FS_CLIENT_NOT_ALLOWED);
    var i := Find(cfg, st.cache, k);
    if i >= 0 {
      var e := st.cache[i];
      QueuedReplace(st.cache, i, e.(owner := EMPTY_OWNER));
      if e.waiting != [] {
        QueuedReplace(st.cache, i, e.(owner := e.waiting[0], waiting := e.waiting[1..]));
        FdsOne(Notification(e.waiting[0], 0));
        assert e.waiting == [e.waiting[0]] + e.waiting[1..];
      }
    }
  }

  lemma ApplyConserves(cfg: Config, st: State, r: Request)
    requires Inv(cfg, st)
    ensures Conserves(st, r, Apply(cfg, st, r))
  {
    hide Conserves, Insert, Remove, Touch, Modify, Append, TryLock, UnlockKey;
    match r {
      case InsertR(c, f, l) => InsertConserves(cfg, st, c, f, l);
      case RemoveR(c, n) => RemoveConserves(cfg, st, c, n);
      case TouchR(c, n) => TouchConserves(cfg, st, c, n);
      case ModifyR(c, f) => WriteConserves(cfg, st, r);
      case AppendR(c, f) => WriteConserves(cfg, st, r);
      case LockR(c, n) => LockConserves(cfg, st, c, n);
      case UnlockR(c, k) => UnlockConserves(cfg, st, c, k);
    }
  }
}
