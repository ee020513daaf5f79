/** Whole runs with their history: who was told to wait, who was notified, and in which order. */
module StoreHistory {
  import opened Store
  import opened StoreInvariant
  import opened StoreSteps
  import opened StoreLocks

  /** A run so far. For every cached key, `arrived` lists the clients told to wait for it since its file was
      created, and `granted` those that were made owner by an unlock, both in order. */
  datatype Run = Run(state: State, told: multiset<int>, notes: seq<Notification>,
                     arrived: map<nat, seq<int>>, granted: map<nat, seq<int>>)

  ghost function Keys(cfg: Config, cache: seq<Entry>): set<nat>
    requires cfg.tableSize > 0
  {
    set i | 0 <= i < |cache| :: EntryKey(cfg, cache[i])
  }

  function Past(log: map<nat, seq<int>>, k: nat): seq<int> {
    if k in log then log[k] else []
  }

  /** Clients this step adds to the waiting queue of its key, and clients it makes owner. */
  function Arrivals(r: Request, o: Outcome): seq<int> {
    if o.res == FS_CLIENT_WAITING_ON_LOCK then [r.client] else []
  }

  function Grants(r: Request, o: Outcome): seq<int> {
    if r.UnlockR? && o.notes != [] then [o.notes[0].fd] else []
  }

  ghost function Step(cfg: Config, run: Run, r: Request): Run
    requires cfg.tableSize > 0
  {
    var o := Apply(cfg, run.state, r);
    var key := RequestKey(cfg, r);
    Run(o.state, run.told + Told(r, o), run.notes + o.notes,
        map k | k in Keys(cfg, o.state.cache) :: Past(run.arrived, k) + if k == key then Arrivals(r, o) else [],
        map k | k in Keys(cfg, o.state.cache) :: Past(run.granted, k) + if k == key then Grants(r, o) else [])
  }

  // ---------------------------------------------------------------- one step, entry by entry

  /** How the queue of a cached entry relates to the queue its key had before the step. */
  ghost predicate Follows(cfg: Config, cache: seq<Entry>, key: nat, arrivals: seq<int>, grants: seq<int>, e: Entry)
    requires cfg.tableSize > 0
  {
    var i := Find(cfg, cache, EntryKey(cfg, e));
    if i < 0 then e.waiting == [] && (EntryKey(cfg, e) == key ==> arrivals == [] && grants == [])
    else if EntryKey(cfg, e) == key then cache[i].waiting + arrivals == grants + e.waiting
    else cache[i].waiting == e.waiting
  }

  ghost predicate AllFollow(cfg: Config, cache: seq<Entry>, key: nat, arrivals: seq<int>, grants: seq<int>,
                            next: seq<Entry>)
    requires cfg.tableSize > 0
  {
    forall j :: 0 <= j < |next| ==> Follows(cfg, cache, key, arrivals, grants, next[j])
  }

  lemma FindUnique(cfg: Config, cache: seq<Entry>, i: nat)
    requires cfg.tableSize > 0 && KeysDistinct(cfg, cache) && i < |cache|
    ensures Find(cfg, cache, EntryKey(cfg, cache[i])) == i
  {
    hide EntryKey;
  }

  /** An untouched entry of another key, or of the key of a step that moves no waiter. */
  lemma SameFollows(cfg: Config, cache: seq<Entry>, i: nat, key: nat, arrivals: seq<int>, grants: seq<int>)
    requires cfg.tableSize > 0 && KeysDistinct(cfg, cache) && i < |cache|
    requires EntryKey(cfg, cache[i]) != key || (arrivals == [] && grants == [])
    ensures Follows(cfg, cache, key, arrivals, grants, cache[i])
  {
    hide EntryKey, Find;
    FindUnique(cfg, cache, i);
  }

  /** One entry rewritten, in place or at the top. */
  lemma RewriteFollows(cfg: Config, cache: seq<Entry>, i: nat, e: Entry, arrivals: seq<int>, grants: seq<int>)
    requires cfg.tableSize > 0 && KeysDistinct(cfg, cache) && i < |cache| && EntryKey(cfg, e) == EntryKey(cfg, cache[i])
    requires cache[i].waiting + arrivals == grants + e.waiting
    ensures AllFollow(cfg, cache, EntryKey(cfg, e), arrivals, grants, MoveToTop(cache, i, e))
    ensures AllFollow(cfg, cache, EntryKey(cfg, e), arrivals, grants, cache[i := e])
  {
    hide EntryKey, Find, Follows;
    var key := EntryKey(cfg, e);
    FindUnique(cfg, cache, i);
    assert Follows(cfg, cache, key, arrivals, grants, e) by { RewrittenFollows(cfg, cache, i, e, arrivals, grants); }
    forall k | 0 <= k < |cache| && k != i
      ensures Follows(cfg, cache, key, arrivals, grants, cache[k])
    {
      SameFollows(cfg, cache, k, key, arrivals, grants);
    }
  }

  lemma RewrittenFollows(cfg: Config, cache: seq<Entry>, i: nat, e: Entry, arrivals: seq<int>, grants: seq<int>)
    requires cfg.tableSize > 0 && KeysDistinct(cfg, cache) && i < |cache| && EntryKey(cfg, e) == EntryKey(cfg, cache[i])
    requires cache[i].waiting + arrivals == grants + e.waiting
    ensures Follows(cfg, cache, EntryKey(cfg, e), arrivals, grants, e)
  {
    hide EntryKey, Find;
    FindUnique(cfg, cache, i);
  }

  lemma SuffixFollows(cfg: Config, cache: seq<Entry>, key: nat, arrivals: seq<int>, grants: seq<int>,
                      gone: seq<Entry>, next: seq<Entry>)
    requires cfg.tableSize > 0 && AllFollow(cfg, cache, key, arrivals, grants, gone + next)
    ensures AllFollow(cfg, cache, key, arrivals, grants, next)
  {
    hide Follows;
    assert forall j :: 0 <= j < |next| ==> next[j] == (gone + next)[|gone| + j];
  }

  /** A step that moves no waiter leaves every remaining queue alone. */
  lemma SettleFollows(cfg: Config, cache: seq<Entry>, st: State, key: nat)
    requires ValidConfig(cfg) && st.slotUsed == |st.cache| <= cfg.slotMax + 1
    requires AllFollow(cfg, cache, key, [], [], st.cache)
    ensures AllFollow(cfg, cache, key, [], [], Settle(cfg, st).state.cache)
  {
    hide Follows, Balance, AllFollow;
    NothingLost(cfg, st);
    SuffixFollows(cfg, cache, key, [], [], Balance(cfg, st).ejected, Balance(cfg, st).state.cache);
  }

  ghost predicate StepFollows(cfg: Config, st: State, r: Request)
    requires cfg.tableSize > 0
  {
    var o := Apply(cfg, st, r);
    AllFollow(cfg, st.cache, RequestKey(cfg, r), Arrivals(r, o), Grants(r, o), o.state.cache)
  }

  lemma UnchangedFollows(cfg: Config, cache: seq<Entry>, key: nat)
    requires cfg.tableSize > 0 && KeysDistinct(cfg, cache)
    ensures AllFollow(cfg, cache, key, [], [], cache)
  {
    hide Follows;
    forall i | 0 <= i < |cache|
      ensures Follows(cfg, cache, key, [], [], cache[i])
    {
      SameFollows(cfg, cache, i, key, [], []);
    }
  }

  lemma InsertFollows(cfg: Config, st: State, r: Request)
    requires Inv(cfg, st) && r.InsertR?
    ensures StepFollows(cfg, st, r)
  {
    hide Follows, Balance, LocksOk, Settle, KeysDistinct;
    UnchangedFollows(cfg, st.cache, RequestKey(cfg, r));
    if Find(cfg, st.cache, KeyOf(cfg, r.file.name)) < 0 {
      var e := Entry(if r.lock then r.client else EMPTY_OWNER, r.file, []);
      NewFollows(cfg, st.cache, e);
      SettleFollows(cfg, st.cache, State(st.cache + [e], st.slotUsed + 1, st.bytesUsed + Size(r.file)),
                    RequestKey(cfg, r));
    }
  }

  lemma NewFollows(cfg: Config, cache: seq<Entry>, e: Entry)
    requires cfg.tableSize > 0 && Find(cfg, cache, EntryKey(cfg, e)) < 0 && e.waiting == []
    ensures Follows(cfg, cache, EntryKey(cfg, e), [], [], e)
  {
  }

  lemma RemoveFollows(cfg: Config, st: State, r: Request)
    requires Inv(cfg, st) && r.RemoveR?
    ensures StepFollows(cfg, st, r)
  {
    hide Follows, LocksOk, KeysDistinct;
    UnchangedFollows(cfg, st.cache, RequestKey(cfg, r));
  }

  /** A rewritten file keeps its queue. */
  lemma RewriteSettles(cfg: Config, st: State, i: nat, e: Entry, bytesUsed: int)
    requires Inv(cfg, st) && i < |st.cache| && EntryKey(cfg, e) == EntryKey(cfg, st.cache[i])
             && e.waiting == st.cache[i].waiting
    ensures var o := Settle(cfg, State(MoveToTop(st.cache, i, e), st.slotUsed, bytesUsed));
            AllFollow(cfg, st.cache, EntryKey(cfg, e), [], [], o.state.cache)
  {
    hide Follows, AllFollow, Settle, LocksOk, KeysDistinct, EntryKey;
    RewriteFollows(cfg, st.cache, i, e, [], []);
    SettleFollows(cfg, st.cache, State(MoveToTop(st.cache, i, e), st.slotUsed, bytesUsed), EntryKey(cfg, e));
  }

  lemma WriteFollows(cfg: Config, st: State, r: Request)
    requires Inv(cfg, st) && (r.ModifyR? || r.AppendR?)
    ensures StepFollows(cfg, st, r)
  {
    hide AllFollow, Settle, LocksOk, KeysDistinct, Find, MoveToTop;
    UnchangedFollows(cfg, st.cache, RequestKey(cfg, r));
    var i := Find(cfg, st.cache, KeyOf(cfg, r.file.name));
    if i >= 0 {
      var e := st.cache[i];
      var content := e.file.content + r.file.content;
      if r.ModifyR? {
        RewriteSettles(cfg, st, i, e.(file := r.file), st.bytesUsed + Size(r.file) - Size(e.file));
      } else {
        RewriteSettles(cfg, st, i, e.(file := File(e.file.name, content)), st.bytesUsed + Size(r.file) - |content|);
      }
    }
  }

  lemma TouchFollows(cfg: Config, st: State, r: Request)
    requires Inv(cfg, st) && r.TouchR?
    ensures StepFollows(cfg, st, r)
  {
    hide AllFollow, LocksOk, KeysDistinct, Find, MoveToTop;
    UnchangedFollows(cfg, st.cache, RequestKey(cfg, r));
    var i := Find(cfg, st.cache, RequestKey(cfg, r));
    if i >= 0 {
      RewriteFollows(cfg, st.cache, i, st.cache[i], [], []);
    }
  }

  lemma LockFollows(cfg: Config, st: State, r: Request)
    requires Inv(cfg, st) && r.LockR?
    ensures StepFollows(cfg, st, r)
  {
    hide AllFollow, LocksOk, KeysDistinct, Find, MoveToTop;
    UnchangedFollows(cfg, st.cache, RequestKey(cfg, r));
    var i := Find(cfg, st.cache, RequestKey(cfg, r));
    if i >= 0 {
      var e := st.cache[i];
      if e.owner != EMPTY_OWNER && e.owner != r.client {
        RewriteFollows(cfg, st.cache, i, e.(waiting := e.waiting + [r.client]), [r.client], []);
      } else {
        RewriteFollows(cfg, st.cache, i, e.(owner := r.client), [], []);
      }
    }
  }

  lemma UnlockFollows(cfg: Config, st: State, r: Request)
    requires Inv(cfg, st) && r.UnlockR?
    ensures StepFollows(cfg, st, r)
  {
    hide AllFollow, LocksOk, KeysDistinct, Find, MoveToTop;
    UnchangedFollows(cfg, st.cache, RequestKey(cfg, r));
    var i := Find(cfg, st.cache, RequestKey(cfg, r));
    if i >= 0 {
      var e := st.cache[i];
      if e.waiting == [] {
        RewriteFollows(cfg, st.cache, i, e.(owner := EMPTY_OWNER), [], []);
      } else {
        RewriteFollows(cfg, st.cache, i, e.(owner := e.waiting[0], waiting := e.waiting[1..]), [], [e.waiting[0]]);
      }
    }
  }

  lemma ApplyFollows(cfg: Config, st: State, r: Request)
    requires Inv(cfg, st)
    ensures StepFollows(cfg, st, r)
  {
    hide StepFollows;
    match r {
      case InsertR(_, _, _) => InsertFollows(cfg, st, r);
      case RemoveR(_, _) => RemoveFollows(cfg, st, r);
      case TouchR(_, _) => TouchFollows(cfg, st, r);
      case ModifyR(_, _) => WriteFollows(cfg, st, r);
      case AppendR(_, _) => WriteFollows(cfg, st, r);
      case LockR(_, _) => LockFollows(cfg, st, r);
      case UnlockR(_, _) => UnlockFollows(cfg, st, r);
    }
  }

  // ---------------------------------------------------------------- runs

  /** What holds after every step of a lawful run. */
  ghost predicate RunInv(cfg: Config, run: Run) {
    && Inv(cfg, run.state)
    && Queued(run.state.cache) + Fds(run.notes) == run.told
    && (forall c :: Queued(run.state.cache)[c] <= 1)
    && run.arrived.Keys == run.granted.Keys == Keys(cfg, run.state.cache)
    && forall i :: 0 <= i < |run.state.cache| ==> QueueHistory(cfg, run, run.state.cache[i])
  }

  /** Of those told to wait for a cached file, the first ones have been granted the lock and the rest wait, in order. */
  ghost predicate QueueHistory(cfg: Config, run: Run, e: Entry)
    requires cfg.tableSize > 0
  {
    Past(run.arrived, EntryKey(cfg, e)) == Past(run.granted, EntryKey(cfg, e)) + e.waiting
  }

  ghost predicate LawfulRun(cfg: Config, run: Run, rs: seq<Request>)
    requires cfg.tableSize > 0
    decreases |rs|
  {
    rs != [] ==> Lawful(run.state, rs[0].client) && LawfulRun(cfg, Step(cfg, run, rs[0]), rs[1..])
  }

  ghost function RunAll(cfg: Config, run: Run, rs: seq<Request>): Run
    requires cfg.tableSize > 0
    decreases |rs|
  {
    if rs == [] then run else RunAll(cfg, Step(cfg, run, rs[0]), rs[1..])
  }

  const EMPTY_RUN := Run(State([], 0, 0), multiset{}, [], map[], map[])

  lemma EmptyRunInv(cfg: Config)
    requires ValidConfig(cfg)
    ensures RunInv(cfg, EMPTY_RUN)
  {
  }

  lemma {:induction false} QueuedMember(cache: seq<Entry>, c: int)
    ensures Queued(cache)[c] > 0 <==> IsWaiting(cache, c)
  {
    if cache != [] {
      QueuedMember(cache[1..], c);
      if c in cache[0].waiting {
        assert c in multiset(cache[0].waiting);
      } else {
        assert c !in multiset(cache[0].waiting);
        if IsWaiting(cache, c) {
          var i :| 0 <= i < |cache| && c in cache[i].waiting;
          assert c in cache[1..][i - 1].waiting;
        }
        if IsWaiting(cache[1..], c) {
          var i :| 0 <= i < |cache[1..]| && c in cache[1..][i].waiting;
          assert c in cache[i + 1].waiting;
        }
      }
    }
  }

  lemma StepQueues(cfg: Config, st: State, r: Request)
    requires Inv(cfg, st) && Lawful(st, r.client) && forall c :: Queued(st.cache)[c] <= 1
    ensures forall c :: Queued(Apply(cfg, st, r).state.cache)[c] <= 1
  {
    hide Queued, Apply, Fds, KeysDistinct, LocksOk;
    ApplyConserves(cfg, st, r);
    QueuedMember(st.cache, r.client);
    var o := Apply(cfg, st, r);
    assert Queued(st.cache) + Told(r, o) == Queued(o.state.cache) + Fds(o.notes);
    assert forall c :: Queued(o.state.cache)[c] <= (Queued(st.cache) + Told(r, o))[c];
  }

  lemma KeyIsThere(cfg: Config, cache: seq<Entry>, k: nat)
    requires cfg.tableSize > 0
    ensures k in Keys(cfg, cache) <==> Find(cfg, cache, k) >= 0
  {
    hide EntryKey;
  }

  lemma StepHistory(cfg: Config, run: Run, r: Request, e: Entry)
    requires cfg.tableSize > 0 && run.arrived.Keys == run.granted.Keys == Keys(cfg, run.state.cache)
    requires forall i :: 0 <= i < |run.state.cache| ==> QueueHistory(cfg, run, run.state.cache[i])
    requires e in Apply(cfg, run.state, r).state.cache && StepFollows(cfg, run.state, r)
    ensures QueueHistory(cfg, Step(cfg, run, r), e)
  {
    hide Apply, EntryKey, Arrivals, Grants, Find, Keys;
    var o, next, key := Apply(cfg, run.state, r), Step(cfg, run, r), RequestKey(cfg, r);
    var k := EntryKey(cfg, e);
    var j :| 0 <= j < |o.state.cache| && o.state.cache[j] == e;
    KeyIsThere(cfg, o.state.cache, k);
    KeyIsThere(cfg, run.state.cache, k);
    assert Follows(cfg, run.state.cache, key, Arrivals(r, o), Grants(r, o), e);
    var i := Find(cfg, run.state.cache, k);
    if i < 0 {
      assert k !in run.arrived;
    } else {
      assert QueueHistory(cfg, run, run.state.cache[i]);
      if k == key {
        Regroup(Past(run.arrived, k), Past(run.granted, k), run.state.cache[i].waiting, Arrivals(r, o), Grants(r, o),
                e.waiting);
      }
    }
  }

  lemma Regroup(arrived: seq<int>, granted: seq<int>, waiting: seq<int>, more: seq<int>, served: seq<int>,
                left: seq<int>)
    requires arrived == granted + waiting && waiting + more == served + left
    ensures arrived + more == granted + served + left
  {
    assert arrived + more == granted + (waiting + more);
  }

  lemma AddNotices(q: multiset<int>, q': multiset<int>, t: multiset<int>, f: multiset<int>, f': multiset<int>)
    requires q + t == q' + f'
    ensures q' + (f + f') == (q + f) + t
  {
    assert q' + (f + f') == (q' + f') + f;
  }

  lemma StepKeepsRunInv(cfg: Config, run: Run, r: Request)
    requires RunInv(cfg, run) && Lawful(run.state, r.client)
    ensures RunInv(cfg, Step(cfg, run, r))
  {
    hide Apply, KeysDistinct, LocksOk, QueueHistory, Queued, Fds, StepFollows, Keys;
    var o, next := Apply(cfg, run.state, r), Step(cfg, run, r);
    ApplyKeepsInv(cfg, run.state, r);
    ApplyConserves(cfg, run.state, r);
    FdsConcat(run.notes, o.notes);
    StepQueues(cfg, run.state, r);
    var q, q', t, f, f' := Queued(run.state.cache), Queued(o.state.cache), Told(r, o), Fds(run.notes), Fds(o.notes);
    AddNotices(q, q', t, f, f');
    ApplyFollows(cfg, run.state, r);
    forall j | 0 <= j < |o.state.cache|
      ensures QueueHistory(cfg, next, o.state.cache[j])
    {
      StepHistory(cfg, run, r, o.state.cache[j]);
    }
  }

  lemma {:induction false} RunsKeepInv(cfg: Config, run: Run, rs: seq<Request>)
    requires RunInv(cfg, run) && LawfulRun(cfg, run, rs)
    ensures RunInv(cfg, RunAll(cfg, run, rs))
    decreases |rs|
  {
    hide RunInv, Step;
    assert ValidConfig(cfg) by { RunConfig(cfg, run); }
    if rs != [] {
      StepKeepsRunInv(cfg, run, rs[0]);
      RunsKeepInv(cfg, Step(cfg, run, rs[0]), rs[1..]);
    }
  }

  lemma RunConfig(cfg: Config, run: Run)
    requires RunInv(cfg, run)
    ensures ValidConfig(cfg)
  {
  }

  /** How far the successful appends of a run put the byte counter off. */
  ghost function AppendErrors(cfg: Config, run: Run, rs: seq<Request>): int
    requires cfg.tableSize > 0
    decreases |rs|
  {
    if rs == [] then 0
    else
      (if rs[0].AppendR? && Apply(cfg, run.state, rs[0]).res == 0 then AppendError(cfg, run.state, rs[0].file) else 0)
      + AppendErrors(cfg, Step(cfg, run, rs[0]), rs[1..])
  }

  lemma {:induction false} DriftOfRun(cfg: Config, run: Run, rs: seq<Request>)
    requires RunInv(cfg, run) && LawfulRun(cfg, run, rs)
    ensures cfg.tableSize > 0 && Drift(RunAll(cfg, run, rs).state) == Drift(run.state) + AppendErrors(cfg, run, rs)
    decreases |rs|
  {
    hide Inv, Drift, Apply, QueueHistory, AppendError;
    assert ValidConfig(cfg) by { RunConfig(cfg, run); }
    if rs != [] {
      StepKeepsRunInv(cfg, run, rs[0]);
      DriftOfRequest(cfg, run.state, rs[0]);
      DriftOfRun(cfg, Step(cfg, run, rs[0]), rs[1..]);
    }
  }

  /** The counters after any run from the empty cache. The slot count is exact and within its limit. The byte counter is
      the size of all files less the errors of the appends; it is within its limit if and only if these errors do not
      exceed the limit below zero, and nothing is cached otherwise. The files themselves are within the limit when the
      errors are not above zero. */
  lemma CountersOverRuns(cfg: Config, rs: seq<Request>)
    requires ValidConfig(cfg) && LawfulRun(cfg, EMPTY_RUN, rs)
    ensures var st, errors := RunAll(cfg, EMPTY_RUN, rs).state, AppendErrors(cfg, EMPTY_RUN, rs);
            && KeysDistinct(cfg, st.cache)
            && st.slotUsed == |st.cache| <= cfg.slotMax
            && st.bytesUsed == Bytes(st.cache) - errors
            && (st.bytesUsed <= cfg.bytesMax <==> -errors <= cfg.bytesMax)
            && (st.bytesUsed > cfg.bytesMax ==> st.cache == [])
            && (errors <= 0 ==> Bytes(st.cache) <= cfg.bytesMax)
  {
    hide *;
    EmptyRunInv(cfg);
    RunsKeepInv(cfg, EMPTY_RUN, rs);
    DriftOfRun(cfg, EMPTY_RUN, rs);
    EmptyIsExact();
    StoreOfRun(cfg, RunAll(cfg, EMPTY_RUN, rs));
    CountersOf(cfg, RunAll(cfg, EMPTY_RUN, rs).state, AppendErrors(cfg, EMPTY_RUN, rs));
  }

  lemma EmptyIsExact()
    ensures Drift(EMPTY_RUN.state) == 0
  {
  }

  lemma StoreOfRun(cfg: Config, run: Run)
    requires RunInv(cfg, run)
    ensures Inv(cfg, run.state)
  {
  }

  lemma CountersOf(cfg: Config, st: State, errors: int)
    requires Inv(cfg, st) && Drift(st) == errors
    ensures KeysDistinct(cfg, st.cache) && st.slotUsed == |st.cache| <= cfg.slotMax
    ensures st.bytesUsed == Bytes(st.cache) - errors
    ensures st.bytesUsed <= cfg.bytesMax <==> -errors <= cfg.bytesMax
    ensures st.bytesUsed > cfg.bytesMax ==> st.cache == []
    ensures errors <= 0 ==> Bytes(st.cache) <= cfg.bytesMax
  {
    hide KeysDistinct, LocksOk;
    LimitIffDrift(cfg, st);
  }

  /** From the empty cache, after any run in which waiting clients stay silent: every wait of a client has had
      exactly one notification, except the current one if it still waits, and then it stands in one queue, once. */
  lemma EveryWaitIsAnsweredOnce(cfg: Config, rs: seq<Request>, c: int)
    requires ValidConfig(cfg) && LawfulRun(cfg, EMPTY_RUN, rs)
    ensures var run := RunAll(cfg, EMPTY_RUN, rs);
            && run.told[c] == Fds(run.notes)[c] + (if IsWaiting(run.state.cache, c) then 1 else 0)
            && Queued(run.state.cache)[c] == (if IsWaiting(run.state.cache, c) then 1 else 0)
  {
    EmptyRunInv(cfg);
    RunsKeepInv(cfg, EMPTY_RUN, rs);
    hide RunAll;
    QueuedMember(RunAll(cfg, EMPTY_RUN, rs).state.cache, c);
  }

  /** Locks are granted in the order in which clients were told to wait, and a file nobody owns has no waiters. */
  lemma GrantsFollowArrivals(cfg: Config, rs: seq<Request>, i: nat)
    requires ValidConfig(cfg) && LawfulRun(cfg, EMPTY_RUN, rs)
    requires i < |RunAll(cfg, EMPTY_RUN, rs).state.cache|
    ensures var run := RunAll(cfg, EMPTY_RUN, rs);
            var e := run.state.cache[i];
            var k := EntryKey(cfg, e);
            && k in run.arrived && k in run.granted
            && run.granted[k] <= run.arrived[k] && run.arrived[k][|run.granted[k]|..] == e.waiting
            && (e.owner == EMPTY_OWNER ==> e.waiting == [])
  {
    EmptyRunInv(cfg);
    RunsKeepInv(cfg, EMPTY_RUN, rs);
    hide RunAll;
    var run := RunAll(cfg, EMPTY_RUN, rs);
    var e := run.state.cache[i];
    assert QueueHistory(cfg, run, e);
    assert LockOk(e);
    assert EntryKey(cfg, e) in Keys(cfg, run.state.cache);
  }

  // ---------------------------------------------------------------- notices tell the truth

  /** The client told that it now has the lock is the owner at that instant. */
  lemma GrantedIsOwner(cfg: Config, st: State, client: int, key: nat, n: Notification)
    requires Inv(cfg, st) && n in UnlockKey(cfg, st, client, key).notes
    ensures n.status == 0
    ensures exists e :: e in UnlockKey(cfg, st, client, key).state.cache && e.owner == n.fd && EntryKey(cfg, e) == key
  {
    var i := Find(cfg, st.cache, key);
    var e := st.cache[i];
    var e' := e.(owner := e.waiting[0], waiting := e.waiting[1..]);
    var next := MoveToTop(st.cache, i, e');
    assert next[|next| - 1] == e';
    assert EntryKey(cfg, e') == key;
  }

  /** Client fd waited for a file that `next` no longer has. */
  ghost predicate LostItsFile(cfg: Config, cache: seq<Entry>, next: seq<Entry>, fd: int)
    requires cfg.tableSize > 0
  {
    exists i :: 0 <= i < |cache| && fd in cache[i].waiting && EntryKey(cfg, cache[i]) !in Keys(cfg, next)
  }

  lemma {:induction false} AllGoneMember(entries: seq<Entry>, n: Notification) returns (j: nat)
    requires n in AllGone(entries)
    ensures j < |entries| && n.fd in entries[j].waiting && n.status == FS_FILE_NOT_EXISTS
  {
    if n in Gone(entries[0].waiting) {
      j := 0;
    } else {
      j := AllGoneMember(entries[1..], n);
      j := j + 1;
    }
  }

  /** A dropped entry's key is gone: keys are distinct. */
  lemma DroppedIsGone(cfg: Config, gone: seq<Entry>, next: seq<Entry>, j: nat)
    requires cfg.tableSize > 0 && KeysDistinct(cfg, gone + next) && j < |gone|
    ensures EntryKey(cfg, gone[j]) !in Keys(cfg, next)
  {
    hide EntryKey;
    assert (gone + next)[j] == gone[j];
    forall i | 0 <= i < |next|
      ensures EntryKey(cfg, next[i]) != EntryKey(cfg, gone[j])
    {
      assert (gone + next)[|gone| + i] == next[i];
    }
  }

  /** Whoever is notified while the limits are enforced waited for an entry that was dropped. */
  lemma SettleNotices(cfg: Config, st: State, n: Notification) returns (j: nat)
    requires ValidConfig(cfg) && KeysDistinct(cfg, st.cache) && st.slotUsed == |st.cache| <= cfg.slotMax + 1
    requires n in Settle(cfg, st).notes
    ensures n.status == FS_FILE_NOT_EXISTS
    ensures j < |st.cache| && n.fd in st.cache[j].waiting
    ensures EntryKey(cfg, st.cache[j]) !in Keys(cfg, Settle(cfg, st).state.cache)
  {
    hide EntryKey, KeysDistinct, Balance, Keys;
    NothingLost(cfg, st);
    var b := Balance(cfg, st);
    j := AllGoneMember(b.ejected, n);
    DroppedIsGone(cfg, b.ejected, b.state.cache, j);
    assert (b.ejected + b.state.cache)[j] == b.ejected[j];
  }

  lemma RewriteNotices(cfg: Config, st: State, i: nat, e: Entry, bytesUsed: int, n: Notification)
    requires Inv(cfg, st) && i < |st.cache| && EntryKey(cfg, e) == EntryKey(cfg, st.cache[i])
             && e.waiting == st.cache[i].waiting
    requires n in Settle(cfg, State(MoveToTop(st.cache, i, e), st.slotUsed, bytesUsed)).notes
    ensures n.status == FS_FILE_NOT_EXISTS
    ensures var settled := Settle(cfg, State(MoveToTop(st.cache, i, e), st.slotUsed, bytesUsed)).state;
            LostItsFile(cfg, st.cache, settled.cache, n.fd)
  {
    hide EntryKey, KeysDistinct, LocksOk, Settle, Keys;
    DistinctReplace(cfg, st.cache, i, e);
    var j := SettleNotices(cfg, State(MoveToTop(st.cache, i, e), st.slotUsed, bytesUsed), n);
    var k := if j < i then j else if j < |st.cache| - 1 then j + 1 else i;
    assert n.fd in st.cache[k].waiting;
  }

  lemma InsertNotices(cfg: Config, st: State, client: int, file: File, lock: bool, n: Notification)
    requires Inv(cfg, st) && n in Insert(cfg, st, client, file, lock).notes
    ensures n.status == FS_FILE_NOT_EXISTS
    ensures LostItsFile(cfg, st.cache, Insert(cfg, st, client, file, lock).state.cache, n.fd)
  {
    hide KeysDistinct, LocksOk, Settle, Keys;
    var e := Entry(if lock then client else EMPTY_OWNER, file, []);
    DistinctAppend(cfg, st.cache, e);
    var j := SettleNotices(cfg, State(st.cache + [e], st.slotUsed + 1, st.bytesUsed + Size(file)), n);
    assert n.fd in st.cache[j].waiting;
  }

  lemma RemoveNotices(cfg: Config, st: State, client: int, name: string, n: Notification)
    requires Inv(cfg, st) && n in Remove(cfg, st, client, name).notes
    ensures n.status == FS_FILE_NOT_EXISTS
    ensures LostItsFile(cfg, st.cache, Remove(cfg, st, client, name).state.cache, n.fd)
  {
    var i := Find(cfg, st.cache, KeyOf(cfg, name));
    var e := st.cache[i];
    var next := Remove(cfg, st, client, name).state.cache;
    assert n.fd in e.waiting;
    hide EntryKey;
    forall j | 0 <= j < |next|
      ensures EntryKey(cfg, next[j]) != EntryKey(cfg, e)
    {
      assert next[j] == st.cache[if j < i then j else j + 1];
    }
    assert EntryKey(cfg, st.cache[i]) !in Keys(cfg, next);
  }

  /** Every other notice says "file gone", and the file the client waited for is no longer cached. */
  lemma GoneMeansGone(cfg: Config, st: State, r: Request, n: Notification)
    requires Inv(cfg, st) && !r.UnlockR? && n in Apply(cfg, st, r).notes
    ensures n.status == FS_FILE_NOT_EXISTS
    ensures LostItsFile(cfg, st.cache, Apply(cfg, st, r).state.cache, n.fd)
  {
    hide LostItsFile, Settle, KeysDistinct, LocksOk, Insert, Remove, Find;
    match r {
      case InsertR(c, f, l) => InsertNotices(cfg, st, c, f, l, n);
      case RemoveR(c, name) => RemoveNotices(cfg, st, c, name, n);
      case ModifyR(c, f) =>
        var i := Find(cfg, st.cache, KeyOf(cfg, f.name));
        var e := st.cache[i];
        RewriteNotices(cfg, st, i, e.(file := f), st.bytesUsed + Size(f) - Size(e.file), n);
      case AppendR(c, f) =>
        var i := Find(cfg, st.cache, KeyOf(cfg, f.name));
        var e := st.cache[i];
        var content := e.file.content + f.content;
        RewriteNotices(cfg, st, i, e.(file := File(e.file.name, content)), st.bytesUsed + Size(f) - |content|, n);
      case LockR(_, _) =>
      case TouchR(_, _) =>
    }
  }
}
