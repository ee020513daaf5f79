/** The threads of the server as a state machine: the steps by which a client's descriptor travels between the
    select thread, the workers, the waiting queues and the lock thread (server/src/server.c:366-658). */
module Server {
  import opened Store
  import opened StoreInvariant
  import opened StoreSteps
  import opened StoreLocks
  import opened StoreClean
  import opened StoreHistory
  import opened Protocol
  import opened Session
  import opened Handler

  const RING_BUFFER_SIZE: nat := 64

  datatype Worker = Idle | Reading(fd: int) | Answering(fd: int, response: Response)

  datatype PipeMessage = NewConnection(fd: int) | SetConnection(fd: int) | RemConnection(fd: int)

  /** `live` are the open client descriptors. `requests` and `replies` count, for each descriptor, what was read
      from it and written to it. */
  datatype Server = Server(
    live: set<int>, watched: set<int>, work: seq<int>, workers: seq<Worker>, fs: State, sessions: map<int, Session>,
    lockQueue: seq<Notification>, lockThread: seq<Notification>, pipe: seq<PipeMessage>,
    requests: multiset<int>, replies: multiset<int>)

  datatype Event =
    | Connect(fd: int)                                  // accept, and a message to the select thread
    | ReadPipe                                          // the select thread takes the oldest message
    | Ready(fd: int)                                    // a watched descriptor has input or was closed by the client
    | Take(worker: nat)                                 // a worker takes the oldest work
    | Broken(worker: nat)                               // reading the request fails
    | HangUp(worker: nat)                               // the client has disconnected
    | Ask(worker: nat, msg: Message, sample: seq<File>) // a request is read and handled
    | Reply(worker: nat)                                // its answer is sent
    | TakeNotice                                        // the lock thread takes the oldest notification
    | SendNotice                                        // and sends it as the answer

  function SessionOf(s: Server, fd: int): Session {
    if fd in s.sessions then s.sessions[fd] else NO_SESSION
  }

  predicate Enabled(s: Server, e: Event) {
    match e
    case Connect(fd) => fd > 0 && fd !in s.live
    case ReadPipe => s.pipe != []
    case Ready(fd) => fd in s.watched
    case Take(w) => w < |s.workers| && s.workers[w].Idle? && s.work != []
    case Broken(w) => w < |s.workers| && s.workers[w].Reading?
    case HangUp(w) => w < |s.workers| && s.workers[w].Reading?
    case Ask(w, _, _) => w < |s.workers| && s.workers[w].Reading?
    case Reply(w) => w < |s.workers| && s.workers[w].Answering?
    case TakeNotice => s.lockThread == [] && s.lockQueue != []
    case SendNotice => s.lockThread != []
  }

  /** The worker's own test whether the client is left waiting: any lock request, but only those open requests
      whose flags are the lock flag and nothing else. */
  predicate Recognised(msg: Message) {
    msg.kind == MSG_REQ_LOCK_FILE || (msg.kind == MSG_REQ_OPEN_FILE && msg.flags == FLAG_LOCK)
  }

  function Connected(s: Server, fd: int): Server {
    s.(live := s.live + {fd}, pipe := s.pipe + [NewConnection(fd)])
  }

  /** REM_CONNECTION closes the descriptor, the others put it (back) into the watched set. */
  function PipeRead(s: Server): Server
    requires s.pipe != []
  {
    var m := s.pipe[0];
    if m.RemConnection? then s.(pipe := s.pipe[1..], live := s.live - {m.fd})
    else s.(pipe := s.pipe[1..], watched := s.watched + {m.fd})
  }

  /** The descriptor leaves the watched set and becomes work; it is closed when the work queue is full. */
  function MadeWork(s: Server, fd: int): Server {
    if |s.work| < RING_BUFFER_SIZE then s.(watched := s.watched - {fd}, work := s.work + [fd])
    else s.(watched := s.watched - {fd}, live := s.live - {fd})
  }

  function Taken(s: Server, w: nat): Server
    requires w < |s.workers| && s.work != []
  {
    s.(work := s.work[1..], workers := s.workers[w := Reading(s.work[0])])
  }

  /** Worker w is done with its client and sends a message to the select thread. */
  function Dismissed(s: Server, w: nat, m: PipeMessage): Server
    requires w < |s.workers|
  {
    s.(workers := s.workers[w := Idle], pipe := s.pipe + [m])
  }

  /** The files and the session of a client are cleaned up, if it has one. */
  function CleanedUp(cfg: Config, s: Server, fd: int): Server
    requires cfg.tableSize > 0
  {
    if SessionOf(s, fd).valid then
      var o := Clean(cfg, s.fs, fd, OpenedHashes(SessionOf(s, fd).files));
      s.(fs := o.state, sessions := s.sessions[fd := NO_SESSION], lockQueue := s.lockQueue + o.notes)
    else s
  }

  function HandleAsk(cfg: Config, s: Server, w: nat, msg: Message, sample: seq<File>): Handled
    requires cfg.tableSize > 0 && w < |s.workers| && s.workers[w].Reading?
  {
    var fd := s.workers[w].fd;
    HandleWork(cfg, s.fs, SessionOf(s, fd), fd, msg, sample)
  }

  /** The request of worker w is handled; the worker goes on to answer it unless it sees the client waiting. */
  function Handle(s: Server, w: nat, h: Handled, left: bool): Server
    requires w < |s.workers| && s.workers[w].Reading?
  {
    var fd := s.workers[w].fd;
    s.(workers := s.workers[w := if left then Idle else Answering(fd, h.response)], fs := h.fs,
       sessions := s.sessions[fd := h.session], lockQueue := s.lockQueue + h.notes,
       requests := s.requests + multiset{fd})
  }

  function NoticeTaken(s: Server): Server
    requires s.lockQueue != []
  {
    s.(lockQueue := s.lockQueue[1..], lockThread := [s.lockQueue[0]])
  }

  function NoticeSent(s: Server): Server
    requires s.lockThread != []
  {
    var fd := s.lockThread[0].fd;
    s.(lockThread := s.lockThread[1..], pipe := s.pipe + [SetConnection(fd)], replies := s.replies + multiset{fd})
  }

  function Next(cfg: Config, s: Server, e: Event): Server
    requires cfg.tableSize > 0 && Enabled(s, e)
  {
    match e
    case Connect(fd) => Connected(s, fd)
    case ReadPipe => PipeRead(s)
    case Ready(fd) => MadeWork(s, fd)
    case Take(w) => Taken(s, w)
    case Broken(w) => Dismissed(s, w, RemConnection(s.workers[w].fd))
    case HangUp(w) => Dismissed(CleanedUp(cfg, s, s.workers[w].fd), w, RemConnection(s.workers[w].fd))
    case Ask(w, msg, sample) =>
      var h := HandleAsk(cfg, s, w, msg, sample);
      Handle(s, w, h, Waits(h) && Recognised(msg))
    case Reply(w) =>
      var fd := s.workers[w].fd;
      Dismissed(s, w, SetConnection(fd)).(replies := s.replies + multiset{fd})
    case TakeNotice => NoticeTaken(s)
    case SendNotice => NoticeSent(s)
  }

  // ---------------------------------------------------------------- where descriptors are

  function One(b: bool): nat {
    if b then 1 else 0
  }

  /** How many workers are reading a request from this descriptor, and how many are answering it. */
  ghost function ReadingAt(workers: seq<Worker>, fd: int): nat {
    if workers == [] then 0 else One(workers[0] == Reading(fd)) + ReadingAt(workers[1..], fd)
  }

  ghost function AnsweringAt(workers: seq<Worker>, fd: int): nat {
    if workers == [] then 0 else One(workers[0].Answering? && workers[0].fd == fd) + AnsweringAt(workers[1..], fd)
  }

  ghost function PipeAt(pipe: seq<PipeMessage>, fd: int): nat {
    if pipe == [] then 0 else One(pipe[0].fd == fd) + PipeAt(pipe[1..], fd)
  }

  /** The requests of this descriptor that are not answered yet: being answered, waiting for a lock, or about to be
      notified. */
  ghost function Pending(s: Server, fd: int): nat {
    AnsweringAt(s.workers, fd) + Queued(s.fs.cache)[fd] + Fds(s.lockQueue)[fd] + Fds(s.lockThread)[fd]
  }

  /** In how many places this descriptor is. */
  ghost function Places(s: Server, fd: int): nat {
    One(fd in s.watched) + multiset(s.work)[fd] + ReadingAt(s.workers, fd) + Pending(s, fd) + PipeAt(s.pipe, fd)
  }

  /** A live descriptor is in one place, any other is nowhere, and every request but the pending one has been
      answered once. */
  ghost predicate Settled(s: Server, fd: int) {
    Places(s, fd) == One(fd in s.live) && s.requests[fd] == s.replies[fd] + Pending(s, fd)
  }

  ghost predicate ServerInv(cfg: Config, s: Server) {
    && Inv(cfg, s.fs)
    && (forall fd :: Settled(s, fd))
    && (forall fd :: fd in s.live ==> fd > 0)
  }

  /** An open request the worker would not recognise as waiting. */
  predicate Misjudged(msg: Message) {
    msg.kind == MSG_REQ_OPEN_FILE && HasLock(msg.flags) && !HasCreate(msg.flags) && msg.flags != FLAG_LOCK
  }

  // ---------------------------------------------------------------- counting

  lemma {:induction false} WorkerChange(workers: seq<Worker>, w: nat, x: Worker, fd: int)
    requires w < |workers|
    ensures var y := workers[w];
            && ReadingAt(workers[w := x], fd) + One(y == Reading(fd)) == ReadingAt(workers, fd) + One(x == Reading(fd))
            && AnsweringAt(workers[w := x], fd) + One(y.Answering? && y.fd == fd)
               == AnsweringAt(workers, fd) + One(x.Answering? && x.fd == fd)
  {
    var next := workers[w := x];
    if w == 0 {
      assert next[1..] == workers[1..];
    } else {
      assert next[1..] == workers[1..][w - 1 := x] && next[0] == workers[0];
      WorkerChange(workers[1..], w - 1, x, fd);
    }
  }

  lemma {:induction false} PipeGrows(pipe: seq<PipeMessage>, m: PipeMessage, fd: int)
    ensures PipeAt(pipe + [m], fd) == PipeAt(pipe, fd) + One(m.fd == fd)
  {
    if pipe == [] {
      assert pipe + [m] == [m];
    } else {
      assert (pipe + [m])[1..] == pipe[1..] + [m];
      PipeGrows(pipe[1..], m, fd);
    }
  }

  lemma WorkCount(work: seq<int>, added: int, fd: int)
    ensures multiset(work + [added])[fd] == multiset(work)[fd] + One(added == fd)
    ensures work != [] ==> multiset(work)[fd] == One(work[0] == fd) + multiset(work[1..])[fd]
  {
    if work != [] {
      assert work == [work[0]] + work[1..];
    }
  }

  /** A descriptor a worker is reading from is live and waits for nothing. */
  lemma ReaderIsLawful(cfg: Config, s: Server, w: nat)
    requires ServerInv(cfg, s) && w < |s.workers| && s.workers[w].Reading?
    ensures s.workers[w].fd in s.live && Lawful(s.fs, s.workers[w].fd)
  {
    hide Inv, Queued, Fds, IsWaiting, PipeAt;
    var fd := s.workers[w].fd;
    WorkerChange(s.workers, w, Idle, fd);
    assert Settled(s, fd);
    QueuedMember(s.fs.cache, fd);
  }

  // ---------------------------------------------------------------- one step

  lemma ConnectMoves(s: Server, c: int, fd: int)
    requires Settled(s, fd) && c !in s.live
    ensures Settled(Connected(s, c), fd)
  {
    hide Queued, Fds, ReadingAt, AnsweringAt, PipeAt;
    PipeGrows(s.pipe, NewConnection(c), fd);
  }

  lemma PipeMoves(s: Server, fd: int)
    requires Settled(s, fd) && s.pipe != []
    ensures Settled(PipeRead(s), fd)
  {
    hide Queued, Fds, ReadingAt, AnsweringAt;
  }

  lemma ReadyMoves(s: Server, c: int, fd: int)
    requires Settled(s, fd) && c in s.watched
    ensures Settled(MadeWork(s, c), fd)
  {
    hide Queued, Fds, ReadingAt, AnsweringAt, PipeAt;
    WorkCount(s.work, c, fd);
  }

  lemma TakeMoves(s: Server, w: nat, fd: int)
    requires Settled(s, fd) && w < |s.workers| && s.workers[w].Idle? && s.work != []
    ensures Settled(Taken(s, w), fd)
  {
    hide Queued, Fds, ReadingAt, AnsweringAt, PipeAt;
    WorkCount(s.work, fd, fd);
    WorkerChange(s.workers, w, Reading(s.work[0]), fd);
  }

  lemma DismissMoves(s: Server, w: nat, m: PipeMessage, fd: int)
    requires Settled(s, fd) && w < |s.workers| && s.workers[w] == Reading(m.fd)
    ensures Settled(Dismissed(s, w, m), fd)
  {
    hide Queued, Fds, ReadingAt, AnsweringAt, PipeAt;
    WorkerChange(s.workers, w, Idle, fd);
    PipeGrows(s.pipe, m, fd);
  }

  lemma ReplyMoves(s: Server, w: nat, fd: int)
    requires Settled(s, fd) && w < |s.workers| && s.workers[w].Answering?
    ensures var c := s.workers[w].fd;
            Settled(Dismissed(s, w, SetConnection(c)).(replies := s.replies + multiset{c}), fd)
  {
    hide Queued, Fds, ReadingAt, AnsweringAt, PipeAt;
    WorkerChange(s.workers, w, Idle, fd);
    PipeGrows(s.pipe, SetConnection(s.workers[w].fd), fd);
  }

  lemma TakeNoticeMoves(s: Server, fd: int)
    requires Settled(s, fd) && s.lockThread == [] && s.lockQueue != []
    ensures Settled(NoticeTaken(s), fd)
  {
    hide Queued, ReadingAt, AnsweringAt, PipeAt;
    FdsOne(s.lockQueue[0]);
  }

  lemma SendNoticeMoves(s: Server, fd: int)
    requires Settled(s, fd) && s.lockThread != []
    ensures Settled(NoticeSent(s), fd)
  {
    hide Queued, ReadingAt, AnsweringAt, PipeAt;
    PipeGrows(s.pipe, SetConnection(s.lockThread[0].fd), fd);
  }

  lemma CleanMoves(cfg: Config, s: Server, c: int, fd: int)
    requires Settled(s, fd) && Inv(cfg, s.fs) && Lawful(s.fs, c)
    ensures Settled(CleanedUp(cfg, s, c), fd) && Inv(cfg, CleanedUp(cfg, s, c).fs)
  {
    hide Inv, Lawful, Queued, Fds, ReadingAt, AnsweringAt, PipeAt, Clean;
    InvConfig(cfg, s.fs);
    var hashes := OpenedHashes(SessionOf(s, c).files);
    CleanKeepsInv(cfg, s.fs, c, hashes);
    FdsConcat(s.lockQueue, Clean(cfg, s.fs, c, hashes).notes);
  }

  /** Handling a request keeps every descriptor in one place, unless the worker answers a client that waits: then
      that client, and no other, is in two places. */
  lemma AskMoves(cfg: Config, s: Server, w: nat, msg: Message, sample: seq<File>, left: bool, fd: int)
    requires Settled(s, fd) && Inv(cfg, s.fs) && w < |s.workers| && s.workers[w].Reading?
             && Lawful(s.fs, s.workers[w].fd)
    ensures var h := HandleAsk(cfg, s, w, msg, sample);
            var t := Handle(s, w, h, left);
            Inv(cfg, t.fs) && (Settled(t, fd) <==> fd != s.workers[w].fd || left == Waits(h))
  {
    hide Inv, Lawful, Queued, Fds, ReadingAt, AnsweringAt, PipeAt, HandleWork;
    InvConfig(cfg, s.fs);
    var c := s.workers[w].fd;
    var h := HandleAsk(cfg, s, w, msg, sample);
    HandleKeepsInv(cfg, s.fs, SessionOf(s, c), c, msg, sample);
    FdsConcat(s.lockQueue, h.notes);
    WorkerChange(s.workers, w, if left then Idle else Answering(c, h.response), fd);
    assert (Queued(s.fs.cache) + (if Waits(h) then multiset{c} else multiset{}))[fd]
           == (Queued(h.fs.cache) + Fds(h.notes))[fd];
  }

  /** Every step but a request keeps the invariant. */
  lemma MoveKeepsInv(cfg: Config, s: Server, e: Event)
    requires ServerInv(cfg, s) && Enabled(s, e) && !e.Ask? && cfg.tableSize > 0
    ensures ServerInv(cfg, Next(cfg, s, e))
  {
    hide Inv, Lawful, Settled, Connected, PipeRead, MadeWork, Taken, Dismissed, CleanedUp, NoticeTaken, NoticeSent;
    var t := Next(cfg, s, e);
    if e.HangUp? { ReaderIsLawful(cfg, s, e.worker); }
    forall fd
      ensures Settled(t, fd)
    {
      assert Settled(s, fd);
      match e {
        case Connect(c) => ConnectMoves(s, c, fd);
        case ReadPipe => PipeMoves(s, fd);
        case Ready(c) => ReadyMoves(s, c, fd);
        case Take(w) => TakeMoves(s, w, fd);
        case Broken(w) => DismissMoves(s, w, RemConnection(s.workers[w].fd), fd);
        case HangUp(w) =>
          var c := s.workers[w].fd;
          CleanMoves(cfg, s, c, fd);
          SameWorkers(cfg, s, c);
          DismissMoves(CleanedUp(cfg, s, c), w, RemConnection(c), fd);
        case Reply(w) => ReplyMoves(s, w, fd);
        case TakeNotice => TakeNoticeMoves(s, fd);
        case SendNotice => SendNoticeMoves(s, fd);
      }
    }
    assert Inv(cfg, t.fs) && forall fd :: fd in t.live ==>
           fd in s.live || (e.Connect? && fd == e.fd) by { MoveFrame(cfg, s, e); }
  }

  lemma SameWorkers(cfg: Config, s: Server, c: int)
    requires cfg.tableSize > 0
    ensures CleanedUp(cfg, s, c).workers == s.workers
  {
  }

  lemma MoveFrame(cfg: Config, s: Server, e: Event)
    requires ServerInv(cfg, s) && Enabled(s, e) && !e.Ask? && cfg.tableSize > 0
    ensures Inv(cfg, Next(cfg, s, e).fs)
    ensures forall fd :: fd in Next(cfg, s, e).live ==> fd in s.live || (e.Connect? && fd == e.fd)
  {
    hide Inv, Lawful, Settled, Clean;
    if e.HangUp? {
      ReaderIsLawful(cfg, s, e.worker);
      var c := s.workers[e.worker].fd;
      CleanKeepsInv(cfg, s.fs, c, OpenedHashes(SessionOf(s, c).files));
    }
  }

  /** A request keeps the invariant if and only if it is not an open request that has to wait while its flags are
      not the lock flag alone: such a client is put back among the watched ones while it waits. */
  lemma AskKeepsInvIff(cfg: Config, s: Server, w: nat, msg: Message, sample: seq<File>)
    requires ServerInv(cfg, s) && w < |s.workers| && s.workers[w].Reading? && cfg.tableSize > 0
    ensures var fd := s.workers[w].fd;
            ServerInv(cfg, Next(cfg, s, Ask(w, msg, sample)))
            <==> !(Misjudged(msg) && Objection(SessionOf(s, fd), msg.kind, cfg.hash(msg.file.name)) == 0
                   && IsHeldByAnother(cfg, s.fs, fd, msg.file.name))
  {
    hide Inv, Lawful, Settled, HandleWork, Objection, IsHeldByAnother;
    var c := s.workers[w].fd;
    var h := HandleAsk(cfg, s, w, msg, sample);
    var t := Next(cfg, s, Ask(w, msg, sample));
    ReaderIsLawful(cfg, s, w);
    WaitsIff(cfg, s.fs, SessionOf(s, c), c, msg, sample);
    var left := Waits(h) && Recognised(msg);
    assert left == Waits(h) <==> !(Misjudged(msg) && Waits(h));
    forall fd
      ensures Settled(t, fd) <==> fd != c || left == Waits(h)
    {
      assert Settled(s, fd);
      AskMoves(cfg, s, w, msg, sample, left, fd);
    }
    AskMoves(cfg, s, w, msg, sample, left, c) by { assert Settled(s, c); }
    assert Settled(t, c) <==> left == Waits(h);
    assert t.live == s.live && Inv(cfg, t.fs);
  }

  // ---------------------------------------------------------------- whole runs

  ghost predicate IsRun(cfg: Config, s: Server, es: seq<Event>)
    requires cfg.tableSize > 0
    decreases |es|
  {
    es != [] ==> Enabled(s, es[0]) && IsRun(cfg, Next(cfg, s, es[0]), es[1..])
  }

  function RunServer(cfg: Config, s: Server, es: seq<Event>): Server
    requires cfg.tableSize > 0
    requires IsRun(cfg, s, es)
    decreases |es|
  {
    if es == [] then s else RunServer(cfg, Next(cfg, s, es[0]), es[1..])
  }

  /** The server as it starts. */
  function Started(numWorkers: nat): Server {
    Server({}, {}, [], seq(numWorkers, _ => Idle), State([], 0, 0), map[], [], [], [], multiset{}, multiset{})
  }

  /** The documented open flags. */
  ghost predicate GoodFlags(es: seq<Event>) {
    forall i :: 0 <= i < |es| && es[i].Ask? && es[i].msg.kind == MSG_REQ_OPEN_FILE ==> 0 <= es[i].msg.flags <= 3
  }

  lemma {:induction false} NobodyAtWork(workers: seq<Worker>, fd: int)
    requires forall i :: 0 <= i < |workers| ==> workers[i].Idle?
    ensures ReadingAt(workers, fd) == AnsweringAt(workers, fd) == 0
  {
    if workers != [] {
      NobodyAtWork(workers[1..], fd);
    }
  }

  lemma StartedInv(cfg: Config, numWorkers: nat)
    requires ValidConfig(cfg)
    ensures ServerInv(cfg, Started(numWorkers))
  {
    hide ReadingAt, AnsweringAt;
    forall fd
      ensures Settled(Started(numWorkers), fd)
    {
      NobodyAtWork(Started(numWorkers).workers, fd);
    }
  }

  lemma {:induction false} RunKeepsInv(cfg: Config, s: Server, es: seq<Event>)
    requires cfg.tableSize > 0 && ServerInv(cfg, s) && IsRun(cfg, s, es) && GoodFlags(es)
    ensures ServerInv(cfg, RunServer(cfg, s, es))
    decreases |es|
  {
    hide ServerInv, Next, Objection, IsHeldByAnother;
    if es != [] {
      var e := es[0];
      match e {
        case Ask(w, msg, sample) =>
          assert !Misjudged(msg);
          AskKeepsInvIff(cfg, s, w, msg, sample);
        case _ => MoveKeepsInv(cfg, s, e);
      }
      RunKeepsInv(cfg, Next(cfg, s, e), es[1..]);
    }
  }

  /** Over every run with the documented flags, each live descriptor is in exactly one place and no other is in any;
      every request has been answered exactly once, except one that is still pending, and a descriptor that is closed
      has no pending request. */
  lemma OnePlaceOneReply(cfg: Config, numWorkers: nat, es: seq<Event>, fd: int)
    requires ValidConfig(cfg) && IsRun(cfg, Started(numWorkers), es) && GoodFlags(es)
    ensures var s := RunServer(cfg, Started(numWorkers), es);
            && Places(s, fd) == One(fd in s.live)
            && s.requests[fd] == s.replies[fd] + Pending(s, fd) && Pending(s, fd) <= 1
            && (fd !in s.live ==> s.requests[fd] == s.replies[fd])
  {
    StartedInv(cfg, numWorkers);
    RunKeepsInv(cfg, Started(numWorkers), es);
    hide RunServer, Started, Inv;
    assert Settled(RunServer(cfg, Started(numWorkers), es), fd);
  }
}
