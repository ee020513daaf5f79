/** Runs of the server from its start that show what the exact conditions of Server and ServerSessions leave out
    (server/src/server.c:381-658). */
module ServerRuns {
  import opened CircQueue
  import opened Store
  import opened StoreLocks
  import opened StoreClean
  import opened StoreStakes
  import opened Protocol
  import opened Session
  import opened Handler
  import opened Server
  import opened ServerSessions

  /** These events lead from s to t. */
  ghost predicate Reaches(cfg: Config, s: Server, es: seq<Event>, t: Server)
    requires cfg.tableSize > 0
  {
    IsRun(cfg, s, es) && RunServer(cfg, s, es) == t
  }

  lemma {:induction false} ReachesJoin(cfg: Config, s: Server, es: seq<Event>, t: Server, more: seq<Event>, u: Server)
    requires cfg.tableSize > 0 && Reaches(cfg, s, es, t) && Reaches(cfg, t, more, u)
    ensures Reaches(cfg, s, es + more, u)
    decreases |es|
  {
    hide Next, Enabled;
    if es == [] {
      assert es + more == more;
    } else {
      assert (es + more)[1..] == es[1..] + more;
      ReachesJoin(cfg, Next(cfg, s, es[0]), es[1..], t, more, u);
    }
  }

  lemma ReachesOne(cfg: Config, s: Server, e: Event)
    requires cfg.tableSize > 0 && Enabled(s, e)
    ensures Reaches(cfg, s, [e], Next(cfg, s, e))
  {
    hide Next, Enabled;
    var t := Next(cfg, s, e);
    assert [e][1..] == [] && IsRun(cfg, t, []) && RunServer(cfg, t, []) == t;
  }

  lemma ReachesThen(cfg: Config, s: Server, es: seq<Event>, t: Server, e: Event)
    requires cfg.tableSize > 0 && Reaches(cfg, s, es, t) && Enabled(t, e)
    ensures Reaches(cfg, s, es + [e], Next(cfg, t, e))
  {
    hide Next, Enabled, Reaches;
    ReachesOne(cfg, t, e);
    ReachesJoin(cfg, s, es, t, [e], Next(cfg, t, e));
  }

  // ---------------------------------------------------------------- what one client does

  /** One worker, with nothing to do. */
  ghost predicate AtRest(s: Server) {
    s.workers == [Idle] && s.work == [] && s.pipe == []
  }

  function Joining(fd: int): seq<Event> {
    [Connect(fd)] + [ReadPipe]
  }

  lemma Joins(cfg: Config, s: Server, fd: int)
    requires cfg.tableSize > 0 && AtRest(s) && fd > 0 && fd !in s.live
    ensures Reaches(cfg, s, Joining(fd), s.(live := s.live + {fd}, watched := s.watched + {fd}))
  {
    hide Reaches;
    ReachesOne(cfg, s, Connect(fd));
    var t := Next(cfg, s, Connect(fd));
    ReachesThen(cfg, s, [Connect(fd)], t, ReadPipe);
    assert Next(cfg, t, ReadPipe).pipe == [];
  }

  function Reaching(fd: int): seq<Event> {
    [Ready(fd)] + [Take(0)]
  }

  /** The worker reads from this client. */
  function Attending(s: Server, fd: int): Server {
    s.(watched := s.watched - {fd}, workers := [Reading(fd)])
  }

  lemma Attends(cfg: Config, s: Server, fd: int)
    requires cfg.tableSize > 0 && AtRest(s) && fd in s.watched
    ensures Reaches(cfg, s, Reaching(fd), Attending(s, fd))
  {
    hide Reaches;
    ReachesOne(cfg, s, Ready(fd));
    var t := Next(cfg, s, Ready(fd));
    ReachesThen(cfg, s, [Ready(fd)], t, Take(0));
    assert Next(cfg, t, Take(0)).work == [] && [Idle][0 := Reading(fd)] == [Reading(fd)];
  }

  function Asking(fd: int, msg: Message): seq<Event> {
    Reaching(fd) + [Ask(0, msg, [])] + [Reply(0)] + [ReadPipe]
  }

  /** A request of this client, read, handled and answered. */
  function Served(s: Server, fd: int, h: Handled): Server {
    s.(fs := h.fs, sessions := s.sessions[fd := h.session], lockQueue := s.lockQueue + h.notes,
       watched := s.watched - {fd} + {fd}, requests := s.requests + multiset{fd}, replies := s.replies + multiset{fd})
  }

  lemma Serves(cfg: Config, s: Server, fd: int, msg: Message)
    requires cfg.tableSize > 0 && AtRest(s) && fd in s.watched
    requires !Waits(HandleWork(cfg, s.fs, SessionOf(s, fd), fd, msg, []))
    ensures Reaches(cfg, s, Asking(fd, msg), Served(s, fd, HandleWork(cfg, s.fs, SessionOf(s, fd), fd, msg, [])))
  {
    hide Reaches, HandleWork;
    var h := HandleWork(cfg, s.fs, SessionOf(s, fd), fd, msg, []);
    Attends(cfg, s, fd);
    var t := Attending(s, fd);
    ReachesThen(cfg, s, Reaching(fd), t, Ask(0, msg, []));
    var u := Next(cfg, t, Ask(0, msg, []));
    assert u.workers == [Answering(fd, h.response)];
    ReachesThen(cfg, s, Reaching(fd) + [Ask(0, msg, [])], u, Reply(0));
    var v := Next(cfg, u, Reply(0));
    assert v.workers == [Idle] && v.pipe == [SetConnection(fd)];
    ReachesThen(cfg, s, Reaching(fd) + [Ask(0, msg, [])] + [Reply(0)], v, ReadPipe);
    assert Next(cfg, v, ReadPipe).pipe == [];
  }

  function HangingUp(fd: int): seq<Event> {
    Reaching(fd) + [HangUp(0)] + [ReadPipe]
  }

  lemma HangsUp(cfg: Config, s: Server, fd: int)
    requires cfg.tableSize > 0 && AtRest(s) && fd in s.watched
    ensures Reaches(cfg, s, HangingUp(fd),
                    CleanedUp(cfg, s, fd).(live := s.live - {fd}, watched := s.watched - {fd}))
  {
    hide Reaches, Clean, OpenedHashes;
    Attends(cfg, s, fd);
    var t := Attending(s, fd);
    ReachesThen(cfg, s, Reaching(fd), t, HangUp(0));
    var u := Next(cfg, t, HangUp(0));
    assert u.workers == [Idle] && u.pipe == [RemConnection(fd)];
    ReachesThen(cfg, s, Reaching(fd) + [HangUp(0)], u, ReadPipe);
    assert Next(cfg, u, ReadPipe).pipe == [];
  }

  function Breaking(fd: int): seq<Event> {
    Reaching(fd) + [Broken(0)] + [ReadPipe]
  }

  lemma Breaks(cfg: Config, s: Server, fd: int)
    requires cfg.tableSize > 0 && AtRest(s) && fd in s.watched
    ensures Reaches(cfg, s, Breaking(fd), s.(live := s.live - {fd}, watched := s.watched - {fd}))
  {
    hide Reaches;
    Attends(cfg, s, fd);
    var t := Attending(s, fd);
    ReachesThen(cfg, s, Reaching(fd), t, Broken(0));
    var u := Next(cfg, t, Broken(0));
    assert u.workers == [Idle] && u.pipe == [RemConnection(fd)];
    ReachesThen(cfg, s, Reaching(fd) + [Broken(0)], u, ReadPipe);
    assert Next(cfg, u, ReadPipe).pipe == [];
  }

  function Notifying(): seq<Event> {
    [TakeNotice] + [SendNotice] + [ReadPipe]
  }

  lemma Notifies(cfg: Config, s: Server, n: Notification)
    requires cfg.tableSize > 0 && AtRest(s) && s.lockQueue == [n] && s.lockThread == []
    ensures Reaches(cfg, s, Notifying(),
                    s.(lockQueue := [], watched := s.watched + {n.fd}, replies := s.replies + multiset{n.fd}))
  {
    hide Reaches;
    ReachesOne(cfg, s, TakeNotice);
    var t := Next(cfg, s, TakeNotice);
    assert t.lockQueue == [] && t.lockThread == [n];
    ReachesThen(cfg, s, [TakeNotice], t, SendNotice);
    var u := Next(cfg, t, SendNotice);
    assert u.lockThread == [] && u.pipe == [SetConnection(n.fd)];
    ReachesThen(cfg, s, [TakeNotice] + [SendNotice], u, ReadPipe);
    assert Next(cfg, u, ReadPipe).pipe == [];
  }

  // ---------------------------------------------------------------- two clients and one file

  const ONE := 7
  const TWO := 8

  function OpenRequest(file: File, flags: int): Message {
    Message(MSG_REQ_OPEN_FILE, flags, file)
  }

  const OPEN_SESSION := Message(MSG_REQ_OPEN_SESSION, 0, File("", ""))

  /** Client ONE connects, opens a session and creates a file with these flags. */
  function Creating(file: File, flags: int): seq<Event> {
    Joining(ONE) + Asking(ONE, OPEN_SESSION) + Asking(ONE, OpenRequest(file, flags))
  }

  function Created(cfg: Config, file: File, flags: int): Server {
    Server({ONE}, {ONE}, [], [Idle],
           State([Entry(if HasLock(flags) then ONE else EMPTY_OWNER, file, [])], 1, Size(file)),
           map[ONE := Session(true, [Opened(cfg.hash(file.name), flags)])], [], [], [],
           multiset{ONE, ONE}, multiset{ONE, ONE})
  }

  lemma StartsAtRest()
    ensures AtRest(Started(1))
  {
    assert Started(1).workers == [Idle];
  }

  /** Opening a session that is not there, and creating a file that fits in an empty cache. */
  lemma FirstRequests(cfg: Config, fs: State, client: int, file: File, flags: int)
    requires ValidConfig(cfg) && Size(file) <= cfg.bytesMax && HasCreate(flags)
    ensures HandleWork(cfg, fs, NO_SESSION, client, OPEN_SESSION, [])
            == Handled(fs, Session(true, []), Answer(RESP_STATUS_OK, []), [])
    ensures HandleWork(cfg, State([], 0, 0), Session(true, []), client, OpenRequest(file, flags), [])
         == Handled(State([Entry(if HasLock(flags) then client else EMPTY_OWNER, file, [])], 1, Size(file)),
                    Session(true, [Opened(cfg.hash(file.name), flags)]), Answer(RESP_STATUS_OK, []), [])
  {
    hide KeyOf, Size, HasLock, HasCreate;
    var e := Entry(if HasLock(flags) then client else EMPTY_OWNER, file, []);
    var st := State([] + [e], 1, Size(file));
    assert EjectCount(cfg, st.cache, st.bytesUsed) == 0;
    assert Balance(cfg, st) == Balanced(State([e], 1, Size(file)), []);
  }

  lemma Creates(cfg: Config, file: File, flags: int)
    requires ValidConfig(cfg) && Size(file) <= cfg.bytesMax && HasCreate(flags)
    ensures Reaches(cfg, Started(1), Creating(file, flags), Created(cfg, file, flags))
  {
    hide Reaches, HandleWork, Size, HasLock, HasCreate;
    var s := Started(1);
    StartsAtRest();
    FirstRequests(cfg, State([], 0, 0), ONE, file, flags);
    Joins(cfg, s, ONE);
    var t := s.(live := s.live + {ONE}, watched := s.watched + {ONE});
    Serves(cfg, t, ONE, OPEN_SESSION);
    var u := Served(t, ONE, HandleWork(cfg, t.fs, SessionOf(t, ONE), ONE, OPEN_SESSION, []));
    ReachesJoin(cfg, s, Joining(ONE), t, Asking(ONE, OPEN_SESSION), u);
    Serves(cfg, u, ONE, OpenRequest(file, flags));
    var v := Served(u, ONE, HandleWork(cfg, u.fs, SessionOf(u, ONE), ONE, OpenRequest(file, flags), []));
    ReachesJoin(cfg, s, Joining(ONE) + Asking(ONE, OPEN_SESSION), u, Asking(ONE, OpenRequest(file, flags)), v);
    assert v == Created(cfg, file, flags);
  }

  /** Client TWO connects too and opens a session, while ONE has the file locked. */
  function Meeting(file: File): seq<Event> {
    Creating(file, FLAG_CREATE + FLAG_LOCK) + Joining(TWO) + Asking(TWO, OPEN_SESSION)
  }

  function Met(cfg: Config, file: File): Server {
    Server({ONE, TWO}, {ONE, TWO}, [], [Idle], State([Entry(ONE, file, [])], 1, Size(file)),
           map[ONE := Session(true, [Opened(cfg.hash(file.name), FLAG_CREATE + FLAG_LOCK)]), TWO := Session(true, [])],
           [], [], [], multiset{ONE, ONE, TWO}, multiset{ONE, ONE, TWO})
  }

  lemma Meets(cfg: Config, file: File)
    requires ValidConfig(cfg) && Size(file) <= cfg.bytesMax
    ensures Reaches(cfg, Started(1), Meeting(file), Met(cfg, file))
  {
    hide Reaches, HandleWork, Size;
    var s, t := Started(1), Created(cfg, file, FLAG_CREATE + FLAG_LOCK);
    Creates(cfg, file, FLAG_CREATE + FLAG_LOCK);
    Joins(cfg, t, TWO);
    var u := t.(live := t.live + {TWO}, watched := t.watched + {TWO});
    ReachesJoin(cfg, s, Creating(file, FLAG_CREATE + FLAG_LOCK), t, Joining(TWO), u);
    FirstRequests(cfg, u.fs, TWO, file, FLAG_CREATE + FLAG_LOCK);
    Serves(cfg, u, TWO, OPEN_SESSION);
    var v := Served(u, TWO, HandleWork(cfg, u.fs, SessionOf(u, TWO), TWO, OPEN_SESSION, []));
    ReachesJoin(cfg, s, Creating(file, FLAG_CREATE + FLAG_LOCK) + Joining(TWO), u, Asking(TWO, OPEN_SESSION), v);
    assert v == Met(cfg, file);
  }

  /** Client TWO asks for the lock as it opens the file. */
  function Contending(file: File, flags: int): seq<Event> {
    Meeting(file) + Reaching(TWO) + [Ask(0, OpenRequest(file, flags), [])]
  }

  /** TWO waits, and the worker is done with it or not, as its flags are the lock flag alone or not. */
  function Contended(cfg: Config, file: File, flags: int): Server {
    Met(cfg, file).(
      fs := State([Entry(ONE, file, [TWO])], 1, Size(file)), watched := {ONE},
      workers := [if flags == FLAG_LOCK then Idle else Answering(TWO, NO_RESPONSE)],
      requests := multiset{ONE, ONE, TWO, TWO})
  }

  lemma LockHeld(cfg: Config, file: File, flags: int)
    requires ValidConfig(cfg) && HasLock(flags) && !HasCreate(flags)
    ensures HandleWork(cfg, State([Entry(ONE, file, [])], 1, Size(file)), Session(true, []), TWO,
                       OpenRequest(file, flags), [])
         == Handled(State([Entry(ONE, file, [TWO])], 1, Size(file)), Session(true, []), NO_RESPONSE, [])
  {
    hide Size, HasLock, HasCreate, KeyOf;
    assert [Entry(ONE, file, [])][0 := Entry(ONE, file, [TWO])] == [Entry(ONE, file, [TWO])];
    assert [] + [TWO] == [TWO];
  }

  lemma Contends(cfg: Config, file: File, flags: int)
    requires ValidConfig(cfg) && Size(file) <= cfg.bytesMax && HasLock(flags) && !HasCreate(flags)
    ensures Reaches(cfg, Started(1), Contending(file, flags), Contended(cfg, file, flags))
  {
    hide Reaches, HandleWork, Size, HasLock, HasCreate;
    var s, t := Started(1), Met(cfg, file);
    Meets(cfg, file);
    Attends(cfg, t, TWO);
    var u := Attending(t, TWO);
    ReachesJoin(cfg, s, Meeting(file), t, Reaching(TWO), u);
    LockHeld(cfg, file, flags);
    ReachesThen(cfg, s, Meeting(file) + Reaching(TWO), u, Ask(0, OpenRequest(file, flags), []));
    assert Next(cfg, u, Ask(0, OpenRequest(file, flags), [])) == Contended(cfg, file, flags);
  }

  /** With the lock bit, without the create bit and with any other bit, 6 for example, a client that has to wait is also
      answered: in every configuration there is a run that leaves it in two places. */
  lemma OtherFlagsSplitClient(cfg: Config, file: File, flags: int)
    requires ValidConfig(cfg) && Size(file) <= cfg.bytesMax && HasLock(flags) && !HasCreate(flags) && flags != FLAG_LOCK
    ensures IsRun(cfg, Started(1), Contending(file, flags))
    ensures var s := RunServer(cfg, Started(1), Contending(file, flags));
            TWO in s.live && Places(s, TWO) == 2 && !Settled(s, TWO)
  {
    hide HandleWork, Size, HasLock, HasCreate, IsRun, RunServer, Contending;
    Contends(cfg, file, flags);
    var s := Contended(cfg, file, flags);
    assert s.fs.cache[1..] == [];
    assert Queued(s.fs.cache)[TWO] == 1;
    FdsNone();
    OneWorker(s.workers[0], TWO);
  }

  lemma OneWorker(w: Worker, fd: int)
    ensures AnsweringAt([w], fd) == One(w.Answering? && w.fd == fd) && ReadingAt([w], fd) == One(w == Reading(fd))
  {
    assert [w][1..] == [] && AnsweringAt([], fd) == 0 && ReadingAt([], fd) == 0;
  }

  /** With the lock flag alone it waits in one place, but its session does not list the file. */
  lemma WaitingOpenIsNotRecorded(cfg: Config, file: File)
    requires ValidConfig(cfg) && Size(file) <= cfg.bytesMax
    ensures IsRun(cfg, Started(1), Contending(file, FLAG_LOCK))
    ensures !Covered(cfg, RunServer(cfg, Started(1), Contending(file, FLAG_LOCK)))
  {
    hide HandleWork, Size, IsRun, RunServer, Contending, KeyOf;
    Contends(cfg, file, FLAG_LOCK);
    var s, key := Contended(cfg, file, FLAG_LOCK), KeyOf(cfg, file.name);
    assert Lookup(cfg, s.fs.cache, key) == Some(s.fs.cache[0]);
    assert TWO in s.fs.cache[0].waiting && HasStake(cfg, s.fs.cache, TWO, key);
    assert SessionOf(s, TWO).files == [] && !Lists(cfg, [], key);
    assert !CoveredBy(cfg, s.fs, SessionOf(s, TWO).files, TWO);
  }

  /** And the lock outlives the client: ONE hangs up, TWO is granted the lock and told so, and hangs up as well. */
  function Outliving(file: File): seq<Event> {
    Contending(file, FLAG_LOCK) + HangingUp(ONE) + Notifying() + HangingUp(TWO)
  }

  lemma PassedOn(cfg: Config, file: File, flags: int)
    requires ValidConfig(cfg)
    ensures Clean(cfg, State([Entry(ONE, file, [TWO])], 1, Size(file)), ONE,
                  OpenedHashes([Opened(cfg.hash(file.name), flags)]))
         == Outcome(State([Entry(TWO, file, [])], 1, Size(file)), 0, [], [Notification(TWO, 0)])
  {
    hide Size;
    var hash, e := cfg.hash(file.name), Entry(ONE, file, [TWO]);
    assert OpenedHashes([Opened(hash, flags)]) == [hash];
    assert EntryKey(cfg, e) == hash % cfg.tableSize;
    assert e.waiting[1..] == [] && [hash][1..] == [];
    assert MoveToTop([e], 0, Entry(TWO, file, [])) == [Entry(TWO, file, [])];
    assert Clean(cfg, State([Entry(TWO, file, [])], 1, Size(file)), ONE, [])
           == Refused(State([Entry(TWO, file, [])], 1, Size(file)), 0);
  }

  lemma LockOutlivesClients(cfg: Config, file: File)
    requires ValidConfig(cfg) && Size(file) <= cfg.bytesMax
    ensures IsRun(cfg, Started(1), Outliving(file))
    ensures var s := RunServer(cfg, Started(1), Outliving(file));
            s.live == {} && s.lockQueue == [] && s.fs.cache == [Entry(TWO, file, [])]
  {
    hide Size, Reaches, Clean, OpenedHashes, CleanedUp;
    var s, t := Started(1), Contended(cfg, file, FLAG_LOCK);
    Contends(cfg, file, FLAG_LOCK);
    HangsUp(cfg, t, ONE);
    var u := CleanedUp(cfg, t, ONE).(live := t.live - {ONE}, watched := t.watched - {ONE});
    ReachesJoin(cfg, s, Contending(file, FLAG_LOCK), t, HangingUp(ONE), u);
    assert u.lockQueue == [Notification(TWO, 0)] && u.fs == State([Entry(TWO, file, [])], 1, Size(file))
           && u.live == {TWO} && AtRest(u) && u.lockThread == [] && u.watched == {}
           && SessionOf(u, TWO) == Session(true, []) by {
      PassedOn(cfg, file, FLAG_CREATE + FLAG_LOCK);
      AfterCleaning(cfg, t, ONE);
    }
    Notifies(cfg, u, Notification(TWO, 0));
    var v := u.(lockQueue := [], watched := u.watched + {TWO}, replies := u.replies + multiset{TWO});
    ReachesJoin(cfg, s, Contending(file, FLAG_LOCK) + HangingUp(ONE), u, Notifying(), v);
    HangsUp(cfg, v, TWO);
    var w := CleanedUp(cfg, v, TWO).(live := v.live - {TWO}, watched := v.watched - {TWO});
    ReachesJoin(cfg, s, Contending(file, FLAG_LOCK) + HangingUp(ONE) + Notifying(), v, HangingUp(TWO), w);
    assert w.live == {} && w.lockQueue == [] && w.fs == v.fs by {
      AfterCleaning(cfg, v, TWO);
      NothingListed(cfg, v.fs, TWO);
    }
    assert RunServer(cfg, s, Outliving(file)) == w by { ReadReaches(cfg, s, Outliving(file), w); }
  }

  lemma ReadReaches(cfg: Config, s: Server, es: seq<Event>, t: Server)
    requires cfg.tableSize > 0 && Reaches(cfg, s, es, t)
    ensures IsRun(cfg, s, es) && RunServer(cfg, s, es) == t
  {
  }

  lemma AfterCleaning(cfg: Config, s: Server, fd: int)
    requires cfg.tableSize > 0 && SessionOf(s, fd).valid
    ensures var o := Clean(cfg, s.fs, fd, OpenedHashes(SessionOf(s, fd).files));
            CleanedUp(cfg, s, fd) == s.(fs := o.state, sessions := s.sessions[fd := NO_SESSION],
                                        lockQueue := s.lockQueue + o.notes)
  {
  }

  lemma NothingListed(cfg: Config, fs: State, client: int)
    requires cfg.tableSize > 0
    ensures Clean(cfg, fs, client, OpenedHashes([])) == Refused(fs, 0)
  {
  }

  /** A client whose connection breaks leaves its lock and its session behind, and the next client with its descriptor
      has both. */
  lemma BrokenLeavesLock(cfg: Config, file: File)
    requires ValidConfig(cfg) && Size(file) <= cfg.bytesMax
    ensures var es := Creating(file, FLAG_CREATE + FLAG_LOCK) + Breaking(ONE);
            && IsRun(cfg, Started(1), es + Joining(ONE))
            && IsRun(cfg, Started(1), es)
            && var s, t := RunServer(cfg, Started(1), es), RunServer(cfg, Started(1), es + Joining(ONE));
               && s.live == {} && t.live == {ONE} && t.fs == s.fs
               && s.fs.cache == [Entry(ONE, file, [])]
               && SessionOf(s, ONE) == SessionOf(t, ONE)
               && SessionOf(t, ONE) == Session(true, [Opened(cfg.hash(file.name), FLAG_CREATE + FLAG_LOCK)])
  {
    hide Size, Reaches, Creating;
    var flags := FLAG_CREATE + FLAG_LOCK;
    var s, t, es := Started(1), Created(cfg, file, flags), Creating(file, flags) + Breaking(ONE);
    Creates(cfg, file, flags);
    Breaks(cfg, t, ONE);
    var u := t.(live := t.live - {ONE}, watched := t.watched - {ONE});
    ReachesJoin(cfg, s, Creating(file, flags), t, Breaking(ONE), u);
    Joins(cfg, u, ONE);
    var v := u.(live := u.live + {ONE}, watched := u.watched + {ONE});
    ReachesJoin(cfg, s, es, u, Joining(ONE), v);
    ReadReaches(cfg, s, es, u);
    ReadReaches(cfg, s, es + Joining(ONE), v);
    assert t.fs.cache == [Entry(ONE, file, [])];
  }

  /** A client that may not remove a file has it closed, while the file stays cached. */
  lemma RefusedRemovalCloses(cfg: Config, file: File)
    requires ValidConfig(cfg) && Size(file) <= cfg.bytesMax
    ensures var es := Creating(file, FLAG_CREATE);
            var msg := Message(MSG_REQ_REMOVE_FILE, 0, file);
            && IsRun(cfg, Started(1), es) && IsRun(cfg, Started(1), es + Asking(ONE, msg))
            && var s, t := RunServer(cfg, Started(1), es), RunServer(cfg, Started(1), es + Asking(ONE, msg));
               && Closed(SessionOf(s, ONE), SessionOf(t, ONE), cfg.hash(file.name))
               && s.fs.cache == t.fs.cache == [Entry(EMPTY_OWNER, file, [])]
  {
    hide Size, Reaches, Creating, HandleWork;
    var s, t, msg := Started(1), Created(cfg, file, FLAG_CREATE), Message(MSG_REQ_REMOVE_FILE, 0, file);
    Creates(cfg, file, FLAG_CREATE);
    RemovalRefused(cfg, file);
    Serves(cfg, t, ONE, msg);
    var u := Served(t, ONE, HandleWork(cfg, t.fs, SessionOf(t, ONE), ONE, msg, []));
    ReachesJoin(cfg, s, Creating(file, FLAG_CREATE), t, Asking(ONE, msg), u);
    ReadReaches(cfg, s, Creating(file, FLAG_CREATE), t);
    ReadReaches(cfg, s, Creating(file, FLAG_CREATE) + Asking(ONE, msg), u);
  }

  lemma RemovalRefused(cfg: Config, file: File)
    requires ValidConfig(cfg)
    ensures var st := State([Entry(EMPTY_OWNER, file, [])], 1, Size(file));
            var o := Session(true, [Opened(cfg.hash(file.name), FLAG_CREATE)]);
            && HandleWork(cfg, st, o, ONE, Message(MSG_REQ_REMOVE_FILE, 0, file), [])
               == Handled(st, Session(true, []), Answer(RESP_STATUS_NOT_PERMITTED, []), [])
            && Closed(o, Session(true, []), cfg.hash(file.name))
  {
    hide Size, KeyOf;
    var files := [Opened(cfg.hash(file.name), FLAG_CREATE)];
    assert Place(files, cfg.hash(file.name)) == 0 && Without(files, 0) == [];
  }
}
