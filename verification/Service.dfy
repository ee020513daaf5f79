/** The file system in memory from its start on: it serves any run of requests as the runs of StoreHistory say,
    while the lock thread takes the notifications (server/src/file_system.c:83-620, server/src/server.c:600-655). */
module Service {
  import opened CircQueue
  import opened Store
  import opened StoreInvariant
  import opened StoreSteps
  import opened StoreLocks
  import opened StoreHistory
  import opened Cache
  import opened FileSystem
  import opened Protocol
  import opened Session
  import opened Handler
  import Worker

  /** Everything the file system may change is new, so whoever created it may call its methods. */
  twostate predicate IsOwn(new fs: FileSystem)
    reads fs.gCache`list
  {
    && fresh(fs.gHashmap) && fresh(fs.gCache) && fresh(fs.gLockQueue) && fresh(fs.gLockQueue.data)
    && OnlyNew([], fs.gCache.list)
  }

  /** The notification queue has room for what each request of the run puts there. */
  ghost predicate RoomFor(cfg: Config, run: Run, rs: seq<Request>, capacity: nat)
    requires cfg.tableSize > 0
    decreases |rs|
  {
    rs != [] ==>
      && |Apply(cfg, run.state, rs[0]).notes| <= capacity
      && RoomFor(cfg, Step(cfg, run, rs[0]), rs[1..], capacity)
  }

  /** One request: the file-system operation it stands for. */
  method Perform(fs: FileSystem, r: Request)
    requires fs.Valid() && Inv(fs.cfg, fs.Abs())
    requires r.UnlockR? ==> r.key < fs.cfg.tableSize
    requires |fs.gLockQueue.items| + |Apply(fs.cfg, fs.Abs(), r).notes| <= fs.gLockQueue.data.Length
    modifies fs.gHashmap, fs.gCache, fs.gCache.list, QueuesOf(fs.gCache.list), BuffersOf(fs.gCache.list)
    modifies fs.gLockQueue, fs.gLockQueue.data
    ensures fs.Valid() && OnlyNew(old(fs.gCache.list), fs.gCache.list)
    ensures var o := Apply(fs.cfg, old(fs.Abs()), r);
            fs.Abs() == o.state && fs.gLockQueue.items == old(fs.gLockQueue.items) + o.notes
  {
    hide FileSystem.Valid, FileSystem.Abs, Inv, Insert, Remove, Touch, Modify, Append, TryLock, UnlockKey;
    var res, ejected, outFile;
    fs.ValidParts();
    QuietRequests(fs.cfg, fs.Abs(), r);
    match r {
      case InsertR(c, f, lock) => res, ejected := fs.InsertFile(c, f, lock);
      case RemoveR(c, n) => res := fs.RemoveFile(c, File(n, ""));
      case TouchR(c, n) => res, outFile := fs.Obtain(File(n, ""));
      case ModifyR(c, f) => res, ejected := fs.ModifyFile(c, f);
      case AppendR(c, f) => res, ejected := fs.AppendFile(c, f);
      case LockR(c, n) => res := fs.LockFile(c, File(n, ""));
      case UnlockR(c, k) => res := fs.InnerUnlock(c, k);
    }
  }

  /** Looking up and locking notify nobody. */
  lemma QuietRequests(cfg: Config, st: State, r: Request)
    requires cfg.tableSize > 0
    ensures r.TouchR? || r.LockR? ==> Apply(cfg, st, r).notes == []
  {
  }

  /** The lock thread takes every notification that is there and sends it. */
  method SendAll(fs: FileSystem, sent: seq<Notification>) returns (more: seq<Notification>)
    requires fs.Valid()
    modifies fs.gLockQueue`tail, fs.gLockQueue`size, fs.gLockQueue`items
    ensures fs.Valid() && fs.Abs() == old(fs.Abs())
    ensures fs.gLockQueue.items == [] && more == sent + old(fs.gLockQueue.items)
  {
    hide FileSystem.Valid, FileSystem.Abs;
    more := sent;
    var item := fs.TakeNotification();
    while item.Some?
      invariant fs.Valid() && fs.Abs() == old(fs.Abs())
      invariant item.None? ==> fs.gLockQueue.items == []
      invariant sent + old(fs.gLockQueue.items) == more + (if item.None? then [] else [item.value])
                + fs.gLockQueue.items
      decreases item.Some?, |fs.gLockQueue.items|
    {
      more := more + [item.value];
      item := fs.TakeNotification();
    }
  }

  /** A request on a quiet notification queue, and the sending of its notifications. */
  method PerformAndSend(fs: FileSystem, r: Request, sent: seq<Notification>) returns (more: seq<Notification>)
    requires fs.Valid() && Inv(fs.cfg, fs.Abs())
    requires r.UnlockR? ==> r.key < fs.cfg.tableSize
    requires fs.gLockQueue.items == [] && |Apply(fs.cfg, fs.Abs(), r).notes| <= fs.gLockQueue.data.Length
    modifies fs.gHashmap, fs.gCache, fs.gCache.list, QueuesOf(fs.gCache.list), BuffersOf(fs.gCache.list)
    modifies fs.gLockQueue, fs.gLockQueue.data
    ensures fs.Valid() && OnlyNew(old(fs.gCache.list), fs.gCache.list) && fs.gLockQueue.items == []
    ensures var o := Apply(fs.cfg, old(fs.Abs()), r);
            fs.Abs() == o.state && more == sent + o.notes
  {
    hide FileSystem.Valid, FileSystem.Abs, Inv, Apply;
    Perform(fs, r);
    more := SendAll(fs, sent);
  }

  ghost predicate KeysInTable(cfg: Config, rs: seq<Request>) {
    forall i :: 0 <= i < |rs| && rs[i].UnlockR? ==> rs[i].key < cfg.tableSize
  }

  lemma NextRequest(cfg: Config, run: Run, rs: seq<Request>, i: nat, capacity: nat)
    requires ValidConfig(cfg) && i < |rs| && LawfulRun(cfg, run, rs[i..]) && RoomFor(cfg, run, rs[i..], capacity)
    ensures var o, next := Apply(cfg, run.state, rs[i]), Step(cfg, run, rs[i]);
            && Lawful(run.state, rs[i].client) && |o.notes| <= capacity
            && next.state == o.state && next.notes == run.notes + o.notes
            && LawfulRun(cfg, next, rs[i + 1..]) && RoomFor(cfg, next, rs[i + 1..], capacity)
            && RunAll(cfg, run, rs[i..]) == RunAll(cfg, next, rs[i + 1..])
  {
    assert rs[i..][0] == rs[i] && rs[i..][1..] == rs[i + 1..];
  }

  /** From an empty file system, any run in which waiting clients stay silent ends in the state the run says, and
      the lock thread has sent exactly its notifications, in order. */
  method Serve(cfg: Config, capacity: nat, rs: seq<Request>) returns (fs: FileSystem, sent: seq<Notification>)
    requires ValidConfig(cfg) && LawfulRun(cfg, EMPTY_RUN, rs) && KeysInTable(cfg, rs)
             && RoomFor(cfg, EMPTY_RUN, rs, capacity)
    ensures fs.Valid() && fs.cfg == cfg && IsOwn(fs)
    ensures fs.Abs() == RunAll(cfg, EMPTY_RUN, rs).state
    ensures sent == RunAll(cfg, EMPTY_RUN, rs).notes
  {
    hide FileSystem.Valid, FileSystem.Abs, Inv, Apply, Lawful, QueueHistory, Queued, Fds, LawfulRun, RoomFor, Step;
    var lockQueue := new CircQueue<Notification>(capacity);
    fs := new FileSystem(cfg, lockQueue);
    sent := [];
    ghost var run := EMPTY_RUN;
    EmptyRunInv(cfg);
    var i := 0;
    assert rs[0..] == rs;
    while i < |rs|
      invariant i <= |rs| && fs.Valid() && fs.cfg == cfg && IsOwn(fs)
      invariant fs.gLockQueue.data.Length == capacity && fs.gLockQueue.items == []
      invariant RunInv(cfg, run) && fs.Abs() == run.state && sent == run.notes
      invariant LawfulRun(cfg, run, rs[i..]) && RoomFor(cfg, run, rs[i..], capacity)
      invariant RunAll(cfg, run, rs[i..]) == RunAll(cfg, EMPTY_RUN, rs)
    {
      NextRequest(cfg, run, rs, i, capacity);
      StepKeepsRunInv(cfg, run, rs[i]);
      sent := PerformAndSend(fs, rs[i], sent);
      run := Step(cfg, run, rs[i]);
      i := i + 1;
    }
  }

  // ---------------------------------------------------------------- requests of clients with sessions

  datatype Call = Call(client: int, msg: Message)

  /** The file system, the session of every client, and the notifications so far. */
  datatype Hub = Hub(fs: State, sessions: seq<Session>, notes: seq<Notification>)

  /** Handling one request of a client; requests of others than the clients of the table do not occur. */
  function CallOne(cfg: Config, hub: Hub, call: Call): Hub
    requires cfg.tableSize > 0
  {
    if 0 <= call.client < |hub.sessions| then
      var h := Handler.HandleWork(cfg, hub.fs, hub.sessions[call.client], call.client, call.msg, []);
      Hub(h.fs, hub.sessions[call.client := h.session], hub.notes + h.notes)
    else hub
  }

  function CallAll(cfg: Config, hub: Hub, calls: seq<Call>): Hub
    requires cfg.tableSize > 0
  {
    if calls == [] then hub
    else CallOne(cfg, CallAll(cfg, hub, calls[..|calls| - 1]), calls[|calls| - 1])
  }

  function EmptyHub(clients: nat): Hub {
    Hub(State([], 0, 0), seq(clients, _ => NO_SESSION), [])
  }

  /** A request a worker can get: from a client that does not wait, asking for no negative number of files, with
      room for the notifications it leads to. */
  ghost predicate CallOk(cfg: Config, hub: Hub, call: Call, capacity: nat)
    requires cfg.tableSize > 0
  {
    && 0 <= call.client < |hub.sessions| && Lawful(hub.fs, call.client)
    && (call.msg.kind == MSG_REQ_READ_N_FILES ==> call.msg.flags >= 0)
    && |Handler.HandleWork(cfg, hub.fs, hub.sessions[call.client], call.client, call.msg, []).notes| <= capacity
  }

  /** The answer to a request: the handler's, with some choice of files for a request to read any of them. */
  ghost predicate IsAnswer(cfg: Config, hub: Hub, call: Call, response: Response)
    requires cfg.tableSize > 0
  {
    0 <= call.client < |hub.sessions| && exists sample ::
      && response == Handler.HandleWork(cfg, hub.fs, hub.sessions[call.client], call.client, call.msg, sample).response
      && (call.msg.kind == MSG_REQ_READ_N_FILES && call.msg.flags >= 0
          ==> Worker.IsSample(hub.fs, call.msg.flags, sample))
  }

  /** gSessionTable: every client's session, apart from all others. */
  ghost predicate TableOk(table: seq<ClientSession>)
    reads table, Names(table), Flags(table)
  {
    && (forall k :: 0 <= k < |table| ==> table[k].Valid())
    && TableApart(table)
  }

  ghost function TableAbs(table: seq<ClientSession>): (sessions: seq<Session>)
    requires TableOk(table)
    reads table, Names(table), Flags(table)
    ensures |sessions| == |table| && forall k :: 0 <= k < |table| ==> sessions[k] == table[k].Abs()
  {
    seq(|table|, k requires 0 <= k < |table| && TableOk(table) reads table, Names(table), Flags(table)
                 => table[k].Abs())
  }

  ghost predicate TableApart(table: seq<ClientSession>) {
    forall j, k :: 0 <= j < k < |table| ==>
      table[j] != table[k] && table[j].filenames != table[k].filenames && table[j].flags != table[k].flags
  }

  ghost function Names(table: seq<ClientSession>): set<array<nat>> {
    set s | s in table :: s.filenames
  }

  ghost function Flags(table: seq<ClientSession>): set<array<int>> {
    set s | s in table :: s.flags
  }

  /** One request of the client at place c of the table; the other sessions stay as they are. */
  method Handle(fs: FileSystem, table: seq<ClientSession>, c: nat, msg: Message, rand: nat -> nat)
    returns (response: Response, ghost sample: seq<File>)
    requires fs.Valid() && TableOk(table) && Inv(fs.cfg, fs.Abs()) && c < |table|
    requires msg.kind == MSG_REQ_READ_N_FILES ==> msg.flags >= 0
    requires var h := Handler.HandleWork(fs.cfg, fs.Abs(), TableAbs(table)[c], c, msg, []);
             |fs.gLockQueue.items| + |h.notes| <= fs.gLockQueue.data.Length
    modifies fs.gHashmap, fs.gCache, fs.gCache.list, QueuesOf(fs.gCache.list), BuffersOf(fs.gCache.list)
    modifies fs.gLockQueue, fs.gLockQueue.data, table[c], table[c].filenames, table[c].flags
    ensures fs.Valid() && TableOk(table) && OnlyNew(old(fs.gCache.list), fs.gCache.list)
    ensures var h := Handler.HandleWork(fs.cfg, old(fs.Abs()), old(TableAbs(table))[c], c, msg, sample);
            && fs.Abs() == h.fs && TableAbs(table) == old(TableAbs(table))[c := h.session] && response == h.response
            && fs.gLockQueue.items == old(fs.gLockQueue.items) + h.notes
    ensures msg.kind == MSG_REQ_READ_N_FILES ==> Worker.IsSample(old(fs.Abs()), msg.flags, response.files)
  {
    hide FileSystem.Valid, FileSystem.Abs, ClientSession.Valid, ClientSession.Abs, Inv, Handler.HandleWork,
         Worker.IsSample;
    forall k | 0 <= k < |table|
      ensures forall e :: e in fs.gCache.list ==>
                && e.waitingLockQueue.data != table[k].flags
                && e.waitingLockQueue.data as object != table[k].filenames as object
    {
      Worker.Apart(fs, table[k]);
    }
    response, sample := Worker.HandleWork(fs, table[c], c, msg, rand);
  }

  /** The same on a quiet notification queue, with the sending of the notifications. */
  method HandleAndSend(fs: FileSystem, table: seq<ClientSession>, call: Call, rand: nat -> nat, sent: seq<Notification>,
                       ghost hub: Hub)
    returns (response: Response, more: seq<Notification>)
    requires fs.Valid() && TableOk(table) && Inv(fs.cfg, fs.Abs()) && hub == Hub(fs.Abs(), TableAbs(table), sent)
    requires CallOk(fs.cfg, hub, call, fs.gLockQueue.data.Length) && 0 <= call.client < |table|
             && fs.gLockQueue.items == []
    modifies fs.gHashmap, fs.gCache, fs.gCache.list, QueuesOf(fs.gCache.list), BuffersOf(fs.gCache.list)
    modifies fs.gLockQueue, fs.gLockQueue.data
    modifies table[call.client], table[call.client].filenames, table[call.client].flags
    ensures fs.Valid() && TableOk(table) && OnlyNew(old(fs.gCache.list), fs.gCache.list) && fs.gLockQueue.items == []
    ensures Hub(fs.Abs(), TableAbs(table), more) == CallOne(fs.cfg, hub, call)
    ensures IsAnswer(fs.cfg, hub, call, response) && Inv(fs.cfg, fs.Abs())
  {
    hide FileSystem.Valid, FileSystem.Abs, ClientSession.Valid, ClientSession.Abs, Inv, Lawful, HandleWork,
         Worker.IsSample, KeepsOrder;
    fs.ValidParts();
    var c, msg := call.client, call.msg;
    ghost var sample;
    response, sample := Handle(fs, table, c, msg, rand);
    more := SendAll(fs, sent);
    SampleIsAnswered(fs.cfg, hub.fs, hub.sessions[c], c, msg, sample);
    KeepsInv(fs.cfg, hub.fs, hub.sessions[c], c, msg, sample);
  }

  lemma KeepsInv(cfg: Config, fs: State, s: Session, client: int, msg: Message, sample: seq<File>)
    requires Inv(cfg, fs) && Lawful(fs, client)
    ensures cfg.tableSize > 0 && Inv(cfg, HandleWork(cfg, fs, s, client, msg, sample).fs)
  {
    hide HandleWork, Inv, Lawful;
    HandleKeepsInv(cfg, fs, s, client, msg, sample);
  }

  twostate predicate IsOwnTable(new table: seq<ClientSession>) {
    forall k :: 0 <= k < |table| ==> fresh(table[k]) && fresh(table[k].filenames) && fresh(table[k].flags)
  }

  /** initSessionSystem: a table of sessions that are not there yet. */
  method NewTable(clients: nat) returns (table: seq<ClientSession>)
    ensures TableOk(table) && TableAbs(table) == seq(clients, _ => NO_SESSION)
    ensures IsOwnTable(table)
  {
    hide ClientSession.Abs;
    table := [];
    while |table| < clients
      invariant |table| <= clients && TableOk(table)
      invariant forall k :: 0 <= k < |table| ==> table[k].Abs() == NO_SESSION
      invariant IsOwnTable(table)
    {
      var session := new ClientSession();
      table := table + [session];
    }
  }

  /** The objects in memory at the start. */
  method NewServer(cfg: Config, capacity: nat, clients: nat) returns (fs: FileSystem, table: seq<ClientSession>)
    requires ValidConfig(cfg)
    ensures fs.Valid() && fs.cfg == cfg && IsOwn(fs) && fs.Abs() == State([], 0, 0)
    ensures fs.gLockQueue.data.Length == capacity && fs.gLockQueue.items == []
    ensures TableOk(table) && TableAbs(table) == seq(clients, _ => NO_SESSION)
    ensures IsOwnTable(table)
  {
    hide ClientSession.Abs, ClientSession.Valid, FileSystem.Valid, FileSystem.Abs, CircQueue.Valid, TableAbs;
    table := NewTable(clients);
    var lockQueue := new CircQueue<Notification>(capacity);
    fs := new FileSystem(cfg, lockQueue);
  }

  /** The first requests have led here, and these were the answers. */
  ghost predicate Answered(cfg: Config, start: Hub, calls: seq<Call>, responses: seq<Response>, hub: Hub)
    requires cfg.tableSize > 0
  {
    && |responses| <= |calls| && hub == CallAll(cfg, start, calls[..|responses|])
    && forall j :: 0 <= j < |responses| ==> IsAnswer(cfg, CallAll(cfg, start, calls[..j]), calls[j], responses[j])
  }

  lemma AnsweredNext(cfg: Config, start: Hub, calls: seq<Call>, responses: seq<Response>, hub: Hub, response: Response)
    requires cfg.tableSize > 0 && Answered(cfg, start, calls, responses, hub) && |responses| < |calls|
    requires IsAnswer(cfg, hub, calls[|responses|], response)
    ensures Answered(cfg, start, calls, responses + [response], CallOne(cfg, hub, calls[|responses|]))
  {
    hide IsAnswer, CallOne;
    var i := |responses|;
    assert calls[..i + 1][..i] == calls[..i];
  }

  lemma AnsweredOk(cfg: Config, start: Hub, calls: seq<Call>, responses: seq<Response>, hub: Hub, capacity: nat)
    requires cfg.tableSize > 0 && Answered(cfg, start, calls, responses, hub)
    requires CallsOk(cfg, start, calls, capacity)
    ensures |responses| < |calls| ==>
              CallOk(cfg, hub, calls[|responses|], capacity) && 0 <= calls[|responses|].client < |hub.sessions|
    ensures |responses| == |calls| ==> hub == CallAll(cfg, start, calls)
  {
    hide IsAnswer, CallAll;
    assert calls[..|calls|] == calls;
  }

  ghost predicate CallsOk(cfg: Config, start: Hub, calls: seq<Call>, capacity: nat)
    requires cfg.tableSize > 0
  {
    forall i :: 0 <= i < |calls| ==> CallOk(cfg, CallAll(cfg, start, calls[..i]), calls[i], capacity)
  }

  lemma NothingCached(cfg: Config)
    requires ValidConfig(cfg)
    ensures Inv(cfg, State([], 0, 0))
  {
  }

  /** The files chosen for a request to read any matter to its answer only. */
  lemma SampleIsAnswered(cfg: Config, fs: State, s: Session, client: int, msg: Message, sample: seq<File>)
    requires cfg.tableSize > 0
    ensures var h, g := HandleWork(cfg, fs, s, client, msg, sample), HandleWork(cfg, fs, s, client, msg, []);
            h.fs == g.fs && h.session == g.session && h.notes == g.notes
    ensures msg.kind == MSG_REQ_READ_N_FILES ==> HandleWork(cfg, fs, s, client, msg, sample).response.files == sample
  {
    hide HandleFile, Clean;
  }

  /** From an empty file system and a table without sessions, the objects in memory go through the requests of all
      clients as the handler says: store, sessions, answers and, in the order in which the lock thread sends them,
      notifications. */
  method ServeCalls(cfg: Config, capacity: nat, clients: nat, calls: seq<Call>, rand: nat -> nat)
    returns (fs: FileSystem, table: seq<ClientSession>, responses: seq<Response>, sent: seq<Notification>)
    requires ValidConfig(cfg) && CallsOk(cfg, EmptyHub(clients), calls, capacity)
    ensures fs.Valid() && fs.cfg == cfg && TableOk(table)
    ensures Hub(fs.Abs(), TableAbs(table), sent) == CallAll(cfg, EmptyHub(clients), calls)
    ensures |responses| == |calls|
    ensures forall i :: 0 <= i < |calls| ==>
              IsAnswer(cfg, CallAll(cfg, EmptyHub(clients), calls[..i]), calls[i], responses[i])
  {
    hide FileSystem.Valid, FileSystem.Abs, ClientSession.Valid, ClientSession.Abs, Inv, IsAnswer, TableOk, TableAbs,
         CallOne, CallsOk, CallOk;
    fs, table := NewServer(cfg, capacity, clients);
    responses, sent := [], [];
    ghost var hub := EmptyHub(clients);
    assert Inv(cfg, hub.fs) by { NothingCached(cfg); }
    AnsweredNone(cfg, hub, calls);
    AnsweredOk(cfg, hub, calls, responses, hub, capacity);
    while |responses| < |calls|
      invariant fs.Valid() && fs.cfg == cfg && IsOwn(fs) && IsOwnTable(table) && TableOk(table)
      invariant fs.gLockQueue.data.Length == capacity && fs.gLockQueue.items == []
      invariant Inv(cfg, hub.fs) && hub == Hub(fs.Abs(), TableAbs(table), sent)
      invariant Answered(cfg, EmptyHub(clients), calls, responses, hub)
    {
      var call := calls[|responses|];
      AnsweredOk(cfg, EmptyHub(clients), calls, responses, hub, capacity);
      var response;
      response, sent := HandleAndSend(fs, table, call, rand, sent, hub);
      AnsweredNext(cfg, EmptyHub(clients), calls, responses, hub, response);
      responses := responses + [response];
      hub := CallOne(cfg, hub, call);
    }
    AnsweredOk(cfg, EmptyHub(clients), calls, responses, hub, capacity);
  }

  lemma AnsweredNone(cfg: Config, start: Hub, calls: seq<Call>)
    requires cfg.tableSize > 0
    ensures Answered(cfg, start, calls, [], start)
  {
    assert calls[..0] == [];
  }
}
