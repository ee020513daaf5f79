/** When the byte limit holds: for the counter and for the files, over each operation and over whole runs
    (server/src/file_system.c:351-449, 698-768). */
module StoreLimits {
  import opened Store
  import opened StoreInvariant
  import opened StoreSteps
  import opened StoreLocks
  import opened StoreHistory

  // ---------------------------------------------------------------- the counter

  /** Every operation but an append keeps the byte counter within its limit. */
  lemma KeepsLimit(cfg: Config, st: State, r: Request)
    requires Inv(cfg, st) && Lawful(st, r.client) && st.bytesUsed <= cfg.bytesMax && !r.AppendR?
    ensures Apply(cfg, st, r).state.bytesUsed <= cfg.bytesMax
  {
    hide Inv, Lawful, Apply, Drift;
    LimitAfter(cfg, st, r);
  }

  lemma LimitAfter(cfg: Config, st: State, r: Request)
    requires Inv(cfg, st) && Lawful(st, r.client) && st.bytesUsed <= cfg.bytesMax
    ensures -Drift(st) <= cfg.bytesMax
    ensures cfg.tableSize > 0
    ensures var o := Apply(cfg, st, r);
            && Drift(o.state) == Drift(st) + (if r.AppendR? && o.res == 0 then AppendError(cfg, st, r.file) else 0)
            && (o.state.bytesUsed <= cfg.bytesMax <==> -Drift(o.state) <= cfg.bytesMax)
  {
    hide KeysDistinct, LocksOk, Lawful, Apply, Drift, AppendError;
    ApplyKeepsInv(cfg, st, r);
    DriftOfRequest(cfg, st, r);
    LimitIffDrift(cfg, st);
    LimitIffDrift(cfg, Apply(cfg, st, r).state);
  }

  /** A successful append keeps it exactly when its error, added to the errors so far, does not exceed the limit below
      zero. */
  lemma AppendKeepsLimitIff(cfg: Config, st: State, client: int, file: File)
    requires Inv(cfg, st) && Lawful(st, client) && st.bytesUsed <= cfg.bytesMax
    requires Append(cfg, st, client, file).res == 0
    ensures Append(cfg, st, client, file).state.bytesUsed <= cfg.bytesMax
            <==> -Drift(st) - AppendError(cfg, st, file) <= cfg.bytesMax
  {
    hide KeysDistinct, LocksOk, Lawful, Append, Drift, AppendError;
    LimitAfter(cfg, st, AppendR(client, file));
  }

  /** The name of the request is no longer than that of the cached file it is taken for; it is the same unless two names
      share a key. */
  predicate NameFits(cfg: Config, st: State, name: string)
    requires cfg.tableSize > 0
  {
    var i := Find(cfg, st.cache, KeyOf(cfg, name));
    i >= 0 ==> |name| <= |st.cache[i].file.name|
  }

  lemma {:induction false} BytesOfEntry(cache: seq<Entry>, i: nat)
    requires i < |cache|
    ensures Size(cache[i].file) <= Bytes(cache)
  {
    hide Size;
    if i > 0 {
      BytesOfEntry(cache[1..], i - 1);
    }
  }

  /** Then an append keeps the counter within its limit too. */
  lemma FittingNameKeepsLimit(cfg: Config, st: State, r: Request)
    requires Inv(cfg, st) && Lawful(st, r.client) && st.bytesUsed <= cfg.bytesMax
    requires r.AppendR? ==> NameFits(cfg, st, r.file.name)
    ensures Apply(cfg, st, r).state.bytesUsed <= cfg.bytesMax
  {
    hide KeysDistinct, LocksOk, Lawful, Settle, Bytes, KeyOf;
    if r.AppendR? && Append(cfg, st, r.client, r.file).res == 0 {
      AppendKeepsLimitIff(cfg, st, r.client, r.file);
      BytesOfEntry(st.cache, Find(cfg, st.cache, KeyOf(cfg, r.file.name)));
    } else if r.AppendR? {
      assert Append(cfg, st, r.client, r.file).state == st;
    } else {
      KeepsLimit(cfg, st, r);
    }
  }

  ghost predicate NamesFit(cfg: Config, run: Run, rs: seq<Request>)
    requires cfg.tableSize > 0
    decreases |rs|
  {
    rs != [] ==>
      && (rs[0].AppendR? ==> NameFits(cfg, run.state, rs[0].file.name))
      && NamesFit(cfg, Step(cfg, run, rs[0]), rs[1..])
  }

  /** Over every run whose appends have fitting names the counter is within its limit after every operation. */
  lemma {:induction false} LimitOverRuns(cfg: Config, run: Run, rs: seq<Request>)
    requires RunInv(cfg, run) && run.state.bytesUsed <= cfg.bytesMax && LawfulRun(cfg, run, rs)
    requires NamesFit(cfg, run, rs)
    ensures cfg.tableSize > 0 && RunAll(cfg, run, rs).state.bytesUsed <= cfg.bytesMax
    decreases |rs|
  {
    hide Inv, Apply, QueueHistory, NameFits;
    assert ValidConfig(cfg) by { RunConfig(cfg, run); }
    if rs != [] {
      FittingNameKeepsLimit(cfg, run.state, rs[0]);
      StepKeepsRunInv(cfg, run, rs[0]);
      LimitOverRuns(cfg, Step(cfg, run, rs[0]), rs[1..]);
    }
  }

  // ---------------------------------------------------------------- over the limit

  /** A counter over its limit stops the store for good: nothing is cached and no request changes that. */
  lemma OverLimitIsStuck(cfg: Config, st: State, r: Request)
    requires Inv(cfg, st) && st.bytesUsed > cfg.bytesMax
    ensures st.cache == [] && cfg.tableSize > 0 && Apply(cfg, st, r).state == st
  {
    hide KeysDistinct, LocksOk, KeyOf;
    if r.InsertR? {
      var e := Entry(if r.lock then r.client else EMPTY_OWNER, r.file, []);
      var next := State([] + [e], st.slotUsed + 1, st.bytesUsed + Size(r.file));
      assert next.cache[1..] == [] && EjectCount(cfg, next.cache, next.bytesUsed) == 1;
      assert next.cache[..1] == [e] && Bytes([e]) == Size(r.file);
    }
  }

  lemma {:induction false} StuckForever(cfg: Config, run: Run, rs: seq<Request>)
    requires cfg.tableSize > 0 && Inv(cfg, run.state) && run.state.bytesUsed > cfg.bytesMax
    ensures RunAll(cfg, run, rs).state == run.state
    decreases |rs|
  {
    hide Inv, Apply;
    if rs != [] {
      OverLimitIsStuck(cfg, run.state, rs[0]);
      StuckForever(cfg, Step(cfg, run, rs[0]), rs[1..]);
    }
  }

  /** The states of a run, without its history. */
  function States(cfg: Config, st: State, rs: seq<Request>): State
    requires cfg.tableSize > 0
    decreases |rs|
  {
    if rs == [] then st else States(cfg, Apply(cfg, st, rs[0]).state, rs[1..])
  }

  lemma {:induction false} RunStates(cfg: Config, run: Run, rs: seq<Request>)
    requires cfg.tableSize > 0
    ensures RunAll(cfg, run, rs).state == States(cfg, run.state, rs)
    decreases |rs|
  {
    hide Apply;
    if rs != [] {
      RunStates(cfg, Step(cfg, run, rs[0]), rs[1..]);
    }
  }

  /** None of these requests makes anybody wait. */
  predicate IsQuiet(rs: seq<Request>) {
    forall i :: 0 <= i < |rs| ==> (rs[i].InsertR? || rs[i].AppendR?) && rs[i].client != EMPTY_OWNER
  }

  /** A client that is nowhere waiting, in a run of operations that make nobody wait, may always ask. */
  lemma {:induction false} QuietRunIsLawful(cfg: Config, run: Run, rs: seq<Request>)
    requires cfg.tableSize > 0 && Queued(run.state.cache) == multiset{}
    requires IsQuiet(rs)
    requires RunInv(cfg, run)
    ensures LawfulRun(cfg, run, rs)
    decreases |rs|
  {
    hide Inv, Apply, QueueHistory, Queued, Fds, IsWaiting;
    if rs != [] {
      QueuedMember(run.state.cache, rs[0].client);
      StepKeepsRunInv(cfg, run, rs[0]);
      NobodyQueued(cfg, run.state, rs[0]);
      QuietRunIsLawful(cfg, Step(cfg, run, rs[0]), rs[1..]);
    }
  }

  lemma NobodyQueued(cfg: Config, st: State, r: Request)
    requires Inv(cfg, st) && Queued(st.cache) == multiset{} && (r.InsertR? || r.AppendR?)
    ensures Queued(Apply(cfg, st, r).state.cache) == multiset{}
  {
    hide Inv, Queued, Fds, Balance, Find, KeyOf, MoveToTop;
    ApplyConserves(cfg, st, r);
    var o := Apply(cfg, st, r);
    assert o.res != FS_CLIENT_WAITING_ON_LOCK;
    NothingIsSum(Queued(o.state.cache), Fds(o.notes));
  }

  lemma NothingIsSum(a: multiset<int>, b: multiset<int>)
    requires a + b == multiset{}
    ensures a == multiset{}
  {
    forall c
      ensures a[c] == 0
    {
      assert a[c] <= (a + b)[c];
    }
  }

  lemma QuietRun(cfg: Config, rs: seq<Request>)
    requires ValidConfig(cfg)
    requires IsQuiet(rs)
    ensures LawfulRun(cfg, EMPTY_RUN, rs) && RunAll(cfg, EMPTY_RUN, rs).state == States(cfg, State([], 0, 0), rs)
  {
    EmptyRunInv(cfg);
    QuietRunIsLawful(cfg, EMPTY_RUN, rs);
    RunStates(cfg, EMPTY_RUN, rs);
  }

  // ---------------------------------------------------------------- the files themselves

  lemma BytesCut(cache: seq<Entry>, i: nat, j: nat)
    requires i <= j <= |cache|
    ensures Bytes(cache[j..]) <= Bytes(cache[i..])
    ensures Bytes(cache) == Bytes(cache[..j]) + Bytes(cache[j..])
  {
    hide Bytes;
    assert cache[i..] == cache[i..j] + cache[j..];
    assert cache == cache[..j] + cache[j..];
    BytesConcat(cache[i..j], cache[j..]);
    BytesConcat(cache[..j], cache[j..]);
  }

  /** Any number of newest files that a counter too low by the shortfall takes to be within the limit is within it. */
  ghost predicate NothingHides(cfg: Config, cache: seq<Entry>, shortfall: int) {
    forall j :: 0 <= j <= |cache| && Bytes(cache[j..]) <= cfg.bytesMax + shortfall ==> Bytes(cache[j..]) <= cfg.bytesMax
  }

  lemma SettledFilesFitIff(cfg: Config, st: State)
    requires ValidConfig(cfg) && st.slotUsed == |st.cache| <= cfg.slotMax
    ensures Bytes(Settle(cfg, st).state.cache) <= cfg.bytesMax <==> NothingHides(cfg, st.cache, Drift(st))
  {
    var k := EjectCount(cfg, st.cache, st.bytesUsed);
    EjectCountIsLeast(cfg, st.cache, st.bytesUsed);
    hide EjectCount;
    assert Settle(cfg, st).state.cache == st.cache[k..];
    BytesCut(st.cache, k, k);
    if Bytes(st.cache[k..]) <= cfg.bytesMax {
      forall j | 0 <= j <= |st.cache| && Bytes(st.cache[j..]) <= cfg.bytesMax + Drift(st)
        ensures Bytes(st.cache[j..]) <= cfg.bytesMax
      {
        BytesCut(st.cache, j, j);
        BytesCut(st.cache, k, if j < k then k else j);
      }
    } else {
      assert Bytes(st.cache[k..]) <= cfg.bytesMax + Drift(st);
    }
  }

  /** After a successful append the files are within the byte limit if and only if nothing hides behind the counter, in
      the cache with the longer file on top; so they are whenever the counter is not below the true size. */
  lemma AppendFilesFitIff(cfg: Config, st: State, client: int, file: File)
    requires Inv(cfg, st) && Append(cfg, st, client, file).res == 0
    ensures var i := Find(cfg, st.cache, KeyOf(cfg, file.name));
            var e := st.cache[i];
            var longer := e.(file := File(e.file.name, e.file.content + file.content));
            Bytes(Append(cfg, st, client, file).state.cache) <= cfg.bytesMax
            <==> NothingHides(cfg, MoveToTop(st.cache, i, longer), Drift(st) + AppendError(cfg, st, file))
    ensures Drift(st) + AppendError(cfg, st, file) <= 0 ==>
              Bytes(Append(cfg, st, client, file).state.cache) <= cfg.bytesMax
  {
    hide KeysDistinct, LocksOk, Settle, Find, Bytes, KeyOf, MoveToTop, EjectCount;
    var i := Find(cfg, st.cache, KeyOf(cfg, file.name));
    var e := st.cache[i];
    var content := e.file.content + file.content;
    var longer := e.(file := File(e.file.name, content));
    var next := State(MoveToTop(st.cache, i, longer), st.slotUsed, st.bytesUsed + Size(file) - |content|);
    BytesMove(st.cache, i, longer);
    SettledFilesFitIff(cfg, next);
  }

  // ---------------------------------------------------------------- runs that break a limit

  /** An insert of a new file that stays within both limits. */
  lemma RoomToInsert(cfg: Config, st: State, file: File)
    requires cfg.tableSize > 0 && Find(cfg, st.cache, KeyOf(cfg, file.name)) < 0
    requires st.slotUsed < cfg.slotMax && st.bytesUsed + Size(file) <= cfg.bytesMax
    ensures Insert(cfg, st, 7, file, false).state
            == State(st.cache + [Entry(EMPTY_OWNER, file, [])], st.slotUsed + 1, st.bytesUsed + Size(file))
  {
    hide Find, KeyOf, Size;
    NothingToEject(cfg, State(st.cache + [Entry(EMPTY_OWNER, file, [])], st.slotUsed + 1, st.bytesUsed + Size(file)));
  }

  /** An append to the newest file, which nobody owns. */
  lemma AppendToNewest(cfg: Config, st: State, others: seq<Entry>, e: Entry, file: File)
    requires cfg.tableSize > 0 && st.cache == others + [e] && st.slotUsed <= cfg.slotMax
    requires e.owner == EMPTY_OWNER && EntryKey(cfg, e) == KeyOf(cfg, file.name)
    requires Size(file) + |e.file.content| <= cfg.bytesMax
    ensures var next := e.(file := File(e.file.name, e.file.content + file.content));
            Append(cfg, st, 7, file)
            == Settle(cfg, State(others + [next], st.slotUsed, st.bytesUsed + Size(file) - |next.file.content|))
  {
    hide KeyOf, EntryKey, Settle, Size;
    var n := |st.cache| - 1;
    assert Find(cfg, st.cache, KeyOf(cfg, file.name)) == n;
    var next := e.(file := File(e.file.name, e.file.content + file.content));
    assert MoveToTop(st.cache, n, next) == others + [next];
  }

  /** Two appends under another, long name of the same key: the counter ends over its limit, with nothing cached. */
  function Collision(short: string, long: string): seq<Request> {
    [InsertR(7, File(short, ""), false), AppendR(7, File(long, "x")), AppendR(7, File(long, "x"))]
  }

  lemma CollisionBreaksLimit(cfg: Config, short: string, long: string)
    requires ValidConfig(cfg) && cfg.bytesMax >= 8 && |short| == 1 && |long| == cfg.bytesMax - 2
    requires KeyOf(cfg, short) == KeyOf(cfg, long)
    ensures LawfulRun(cfg, EMPTY_RUN, Collision(short, long))
    ensures RunAll(cfg, EMPTY_RUN, Collision(short, long)).state == State([], 0, 2 * cfg.bytesMax - 7)
  {
    assert IsQuiet(Collision(short, long));
    hide IsQuiet, KeyOf, RunAll, LawfulRun, Apply, States, ValidConfig;
    QuietRun(cfg, Collision(short, long));
    CreatesFile(cfg, short);
    CollisionSteps(cfg, short, long);
    var rs := Collision(short, long);
    StatesOfThree(cfg, State([], 0, 0), rs[0], rs[1], rs[2]);
  }

  /** An empty file without owner, with this content appended to it. */
  function Grown(name: string, content: string): Entry {
    Entry(EMPTY_OWNER, File(name, content), [])
  }

  lemma KeyOfGrown(cfg: Config, name: string, content: string)
    requires cfg.tableSize > 0
    ensures EntryKey(cfg, Grown(name, content)) == KeyOf(cfg, name)
  {
  }

  lemma CreatesFile(cfg: Config, name: string)
    requires ValidConfig(cfg) && |name| <= cfg.bytesMax
    ensures Apply(cfg, State([], 0, 0), InsertR(7, File(name, ""), false)).state == State([Grown(name, "")], 1, |name|)
  {
    hide Insert, KeyOf, Find;
    assert Find(cfg, [], KeyOf(cfg, name)) < 0;
    RoomToInsert(cfg, State([], 0, 0), File(name, ""));
    assert [] + [Grown(name, "")] == [Grown(name, "")];
  }

  /** An append that grows the newest file and stays within the limit. */
  lemma Grows(cfg: Config, others: seq<Entry>, name: string, content: string, bytesUsed: int,
              asName: string, more: string)
    requires ValidConfig(cfg) && KeyOf(cfg, asName) == KeyOf(cfg, name) && |others| < cfg.slotMax
    requires |asName| + |more| + |content| <= cfg.bytesMax && bytesUsed + |asName| - |content| <= cfg.bytesMax
    ensures var st := State(others + [Grown(name, content)], |others| + 1, bytesUsed);
            Apply(cfg, st, AppendR(7, File(asName, more))).state
            == State(others + [Grown(name, content + more)], |others| + 1, bytesUsed + |asName| - |content|)
  {
    hide Append, Settle, KeyOf, EntryKey;
    KeyOfGrown(cfg, name, content);
    var st := State(others + [Grown(name, content)], |others| + 1, bytesUsed);
    AppendToNewest(cfg, st, others, Grown(name, content), File(asName, more));
    WithinStays(cfg, State(others + [Grown(name, content + more)], |others| + 1, bytesUsed + |asName| - |content|));
  }

  lemma CollisionSteps(cfg: Config, short: string, long: string)
    requires ValidConfig(cfg) && cfg.bytesMax >= 8 && |short| == 1 && |long| == cfg.bytesMax - 2
    requires KeyOf(cfg, short) == KeyOf(cfg, long)
    ensures var r := AppendR(7, File(long, "x"));
            && Apply(cfg, State([Grown(short, "")], 1, 1), r).state == State([Grown(short, "x")], 1, cfg.bytesMax - 1)
            && Apply(cfg, State([Grown(short, "x")], 1, cfg.bytesMax - 1), r).state
               == State([], 0, 2 * cfg.bytesMax - 7)
  {
    hide Apply, KeyOf;
    assert "" + "x" == "x";
    assert [] + [Grown(short, "")] == [Grown(short, "")] && [] + [Grown(short, "x")] == [Grown(short, "x")];
    Grows(cfg, [], short, "", 1, long, "x");
    Overflows(cfg, short, long);
  }

  lemma Overflows(cfg: Config, short: string, long: string)
    requires ValidConfig(cfg) && cfg.bytesMax >= 8 && |short| == 1 && |long| == cfg.bytesMax - 2
    requires KeyOf(cfg, short) == KeyOf(cfg, long)
    ensures Apply(cfg, State([Grown(short, "x")], 1, cfg.bytesMax - 1), AppendR(7, File(long, "x"))).state
            == State([], 0, 2 * cfg.bytesMax - 7)
  {
    hide Append, Settle, KeyOf, EntryKey;
    KeyOfGrown(cfg, short, "x");
    assert "x" + "x" == "xx";
    assert [] + [Grown(short, "x")] == [Grown(short, "x")] && [] + [Grown(short, "xx")] == [Grown(short, "xx")];
    AppendToNewest(cfg, State([Grown(short, "x")], 1, cfg.bytesMax - 1), [], Grown(short, "x"), File(long, "x"));
    OnlyFileGoes(cfg, Grown(short, "xx"), 2 * cfg.bytesMax - 4);
  }

  lemma WithinStays(cfg: Config, st: State)
    requires st.slotUsed <= cfg.slotMax && st.bytesUsed <= cfg.bytesMax
    ensures Settle(cfg, st).state == st
  {
    NothingToEject(cfg, st);
  }

  lemma OnlyFileGoes(cfg: Config, e: Entry, bytesUsed: int)
    requires bytesUsed > cfg.bytesMax && cfg.slotMax >= 1
    ensures Settle(cfg, State([e], 1, bytesUsed)).state == State([], 0, bytesUsed - Size(e.file))
  {
    assert [e][1..] == [] && [e][..1] == [e] && Bytes([e]) == Size(e.file);
    assert EjectCount(cfg, [e], bytesUsed) == 1;
  }

  lemma StatesOfThree(cfg: Config, st: State, a: Request, b: Request, c: Request)
    requires cfg.tableSize > 0
    ensures States(cfg, st, [a, b, c]) == Apply(cfg, Apply(cfg, Apply(cfg, st, a).state, b).state, c).state
  {
    hide Apply;
    var s1 := Apply(cfg, st, a).state;
    var s2 := Apply(cfg, s1, b).state;
    assert [a, b, c][1..] == [b, c] && [b, c][1..] == [c] && [c][1..] == [];
    assert States(cfg, s2, [c]) == Apply(cfg, s2, c).state;
    assert States(cfg, s1, [b, c]) == States(cfg, s2, [c]);
  }

  /** Two small files made long by appends: nothing is ejected and the counter stays small. */
  function Growth(one: string, more: string, two: string, evenMore: string): seq<Request> {
    GrowthOfOne(one, more, two) + [AppendR(7, File(two, evenMore))]
  }

  function GrowthOfOne(one: string, more: string, two: string): seq<Request> {
    [InsertR(7, File(one, ""), false), AppendR(7, File(one, more)), InsertR(7, File(two, ""), false)]
  }

  lemma GrowthExceedsLimit(cfg: Config, one: string, more: string, two: string, evenMore: string)
    requires ValidConfig(cfg) && cfg.slotMax >= 2 && cfg.bytesMax >= 6 && KeyOf(cfg, one) != KeyOf(cfg, two)
    requires |one| == 1 && |more| == cfg.bytesMax - 2 && |two| == 2 && |evenMore| == cfg.bytesMax - 3
    ensures LawfulRun(cfg, EMPTY_RUN, Growth(one, more, two, evenMore))
    ensures var st := RunAll(cfg, EMPTY_RUN, Growth(one, more, two, evenMore)).state;
            st.bytesUsed == 6 && |st.cache| == 2 && Bytes(st.cache) == 2 * cfg.bytesMax - 2
  {
    assert IsQuiet(Growth(one, more, two, evenMore));
    hide IsQuiet, KeyOf, RunAll, LawfulRun, Apply, States, GrowthOfOne, Bytes;
    QuietRun(cfg, Growth(one, more, two, evenMore));
    StatesThen(cfg, State([], 0, 0), GrowthOfOne(one, more, two), AppendR(7, File(two, evenMore)));
    GrownOne(cfg, one, more, two);
    GrownTwo(cfg, Grown(one, more), two, evenMore);
    BytesOfTwo(Grown(one, more), Grown(two, evenMore));
  }

  lemma BytesOfTwo(e: Entry, f: Entry)
    ensures Bytes([e, f]) == Size(e.file) + Size(f.file)
  {
    assert [e, f][1..] == [f] && [f][1..] == [] && Bytes([f]) == Size(f.file);
  }

  lemma GrownOne(cfg: Config, one: string, more: string, two: string)
    requires ValidConfig(cfg) && cfg.slotMax >= 2 && cfg.bytesMax >= 6 && KeyOf(cfg, one) != KeyOf(cfg, two)
    requires |one| == 1 && |more| == cfg.bytesMax - 2 && |two| == 2
    ensures States(cfg, State([], 0, 0), GrowthOfOne(one, more, two)) == State([Grown(one, more), Grown(two, "")], 2, 4)
  {
    hide KeyOf, EntryKey, Apply, States;
    StatesOfThree(cfg, State([], 0, 0), InsertR(7, File(one, ""), false), AppendR(7, File(one, more)),
                  InsertR(7, File(two, ""), false));
    CreatesFile(cfg, one);
    assert "" + more == more && [] + [Grown(one, "")] == [Grown(one, "")];
    assert [] + [Grown(one, more)] == [Grown(one, more)];
    Grows(cfg, [], one, "", 1, one, more);
    KeyOfGrown(cfg, one, more);
    SecondFile(cfg, Grown(one, more), one, two);
  }

  lemma GrownTwo(cfg: Config, f: Entry, two: string, evenMore: string)
    requires ValidConfig(cfg) && cfg.slotMax >= 2 && cfg.bytesMax >= 6 && |two| == 2 && |evenMore| == cfg.bytesMax - 3
    ensures Apply(cfg, State([f, Grown(two, "")], 2, 4), AppendR(7, File(two, evenMore))).state
            == State([f, Grown(two, evenMore)], 2, 6)
  {
    hide KeyOf, Apply;
    assert "" + evenMore == evenMore;
    assert [f] + [Grown(two, "")] == [f, Grown(two, "")] && [f] + [Grown(two, evenMore)] == [f, Grown(two, evenMore)];
    Grows(cfg, [f], two, "", 4, two, evenMore);
  }

  lemma SecondFile(cfg: Config, f: Entry, one: string, two: string)
    requires ValidConfig(cfg) && cfg.slotMax >= 2 && cfg.bytesMax >= 6 && KeyOf(cfg, one) != KeyOf(cfg, two)
    requires |two| == 2 && EntryKey(cfg, f) == KeyOf(cfg, one)
    ensures Apply(cfg, State([f], 1, 2), InsertR(7, File(two, ""), false)).state == State([f, Grown(two, "")], 2, 4)
  {
    hide KeyOf, EntryKey, Insert;
    RoomToInsert(cfg, State([f], 1, 2), File(two, ""));
    assert [f] + [Grown(two, "")] == [f, Grown(two, "")];
  }

  lemma {:induction false} StatesThen(cfg: Config, st: State, rs: seq<Request>, r: Request)
    requires cfg.tableSize > 0
    ensures States(cfg, st, rs + [r]) == Apply(cfg, States(cfg, st, rs), r).state
    decreases |rs|
  {
    hide Apply;
    if rs == [] {
      assert rs + [r] == [r] && [r][1..] == [];
      assert States(cfg, Apply(cfg, st, r).state, []) == Apply(cfg, st, r).state;
    } else {
      assert (rs + [r])[1..] == rs[1..] + [r];
      StatesThen(cfg, Apply(cfg, st, rs[0]).state, rs[1..], r);
    }
  }
}
