/** Which answers reach a client (server/src/server.c:437-450, 605-640): its own ones, each once and in order. */
module ServerAnswers {
  import opened Store
  import opened StoreInvariant
  import opened StoreLocks
  import opened Protocol
  import opened Handler
  import opened Server

  // ---------------------------------------------------------------- what is owed and what is sent

  /** What the lock thread sends for a notification. */
  function NoticeAnswer(n: Notification): Response {
    Response(MSG_RESP_SIMPLE, StatusOf(n.status), [])
  }

  /** Whoever is made owner is told that all is well; whoever waited for a file that is gone, that it is not. */
  lemma NoticesSay(fd: int)
    ensures NoticeAnswer(Notification(fd, 0)) == Response(MSG_RESP_SIMPLE, RESP_STATUS_OK, [])
    ensures NoticeAnswer(Notification(fd, FS_FILE_NOT_EXISTS)) == Response(MSG_RESP_SIMPLE, RESP_STATUS_INVALID_ARG, [])
  {
  }

  /** The answers in these notifications to one client. */
  function NoticesTo(notes: seq<Notification>, fd: int): seq<Response> {
    if notes == [] then []
    else (if notes[0].fd == fd then [NoticeAnswer(notes[0])] else []) + NoticesTo(notes[1..], fd)
  }

  /** The answers workers are about to send to one client. */
  function AnswersAt(workers: seq<Worker>, fd: int): seq<Response> {
    if workers == [] then []
    else
      (if workers[0].Answering? && workers[0].fd == fd then [workers[0].response] else [])
      + AnswersAt(workers[1..], fd)
  }

  /** The answers to one client that are ready and not sent yet. */
  function InFlight(s: Server, fd: int): seq<Response> {
    AnswersAt(s.workers, fd) + NoticesTo(s.lockThread + s.lockQueue, fd)
  }

  /** The answers this step sends to one client. */
  function Sent(s: Server, e: Event, fd: int): seq<Response>
    requires Enabled(s, e)
  {
    match e
    case Reply(w) => if s.workers[w].fd == fd then [s.workers[w].response] else []
    case SendNotice => if s.lockThread[0].fd == fd then [NoticeAnswer(s.lockThread[0])] else []
    case _ => []
  }

  /** The answers this step owes one client: that to the request it handles, unless its client has to wait, and those to
      the waiting requests that it ends. */
  function Owed(cfg: Config, s: Server, e: Event, fd: int): seq<Response>
    requires cfg.tableSize > 0 && Enabled(s, e)
  {
    match e
    case Ask(w, msg, sample) =>
      var c := s.workers[w].fd;
      var h := HandleWork(cfg, s.fs, SessionOf(s, c), c, msg, sample);
      (if c == fd && !Waits(h) then [h.response] else []) + NoticesTo(h.notes, fd)
    case HangUp(w) =>
      var c := s.workers[w].fd;
      if SessionOf(s, c).valid then
        NoticesTo(Clean(cfg, s.fs, c, OpenedHashes(SessionOf(s, c).files)).notes, fd)
      else []
    case _ => []
  }

  /** All answers sent to one client in a run, in order. */
  function Outbox(cfg: Config, s: Server, es: seq<Event>, fd: int): seq<Response>
    requires cfg.tableSize > 0 && IsRun(cfg, s, es)
    decreases |es|
  {
    if es == [] then [] else Sent(s, es[0], fd) + Outbox(cfg, Next(cfg, s, es[0]), es[1..], fd)
  }

  /** All answers owed to one client in a run, in order. */
  function Due(cfg: Config, s: Server, es: seq<Event>, fd: int): seq<Response>
    requires cfg.tableSize > 0 && IsRun(cfg, s, es)
    decreases |es|
  {
    if es == [] then [] else Owed(cfg, s, es[0], fd) + Due(cfg, Next(cfg, s, es[0]), es[1..], fd)
  }

  // ---------------------------------------------------------------- counting

  lemma {:induction false} NoticesCount(notes: seq<Notification>, fd: int)
    ensures |NoticesTo(notes, fd)| == Fds(notes)[fd]
  {
    if notes != [] {
      NoticesCount(notes[1..], fd);
    }
  }

  lemma {:induction false} NoticesConcat(a: seq<Notification>, b: seq<Notification>, fd: int)
    ensures NoticesTo(a + b, fd) == NoticesTo(a, fd) + NoticesTo(b, fd)
  {
    hide NoticeAnswer;
    if a == [] {
      assert a + b == b;
    } else {
      assert (a + b)[1..] == a[1..] + b && (a + b)[0] == a[0];
      NoticesConcat(a[1..], b, fd);
      var first := if a[0].fd == fd then [NoticeAnswer(a[0])] else [];
      assert NoticesTo(a + b, fd) == first + NoticesTo(a[1..] + b, fd);
      assert NoticesTo(a, fd) == first + NoticesTo(a[1..], fd);
      hide NoticesTo;
      Associates(first, NoticesTo(a[1..], fd), NoticesTo(b, fd));
    }
  }

  lemma {:induction false} Associates(a: seq<Response>, b: seq<Response>, c: seq<Response>)
    ensures a + (b + c) == a + b + c
  {
  }

  lemma {:induction false} AnswersCount(workers: seq<Worker>, fd: int)
    ensures |AnswersAt(workers, fd)| == AnsweringAt(workers, fd)
  {
    if workers != [] {
      AnswersCount(workers[1..], fd);
    }
  }

  /** A worker that answers nobody, or another client, does not matter. */
  lemma {:induction false} AnswersChange(workers: seq<Worker>, w: nat, x: Worker, fd: int)
    requires w < |workers| && !(x.Answering? && x.fd == fd) && !(workers[w].Answering? && workers[w].fd == fd)
    ensures AnswersAt(workers[w := x], fd) == AnswersAt(workers, fd)
  {
    var next := workers[w := x];
    if w == 0 {
      assert next[1..] == workers[1..];
    } else {
      assert next[1..] == workers[1..][w - 1 := x];
      AnswersChange(workers[1..], w - 1, x, fd);
    }
  }

  /** The only answer to a client is that of the worker that answers it. */
  lemma {:induction false} AnswersOne(workers: seq<Worker>, w: nat, fd: int)
    requires w < |workers| && workers[w].Answering? && workers[w].fd == fd && AnsweringAt(workers, fd) <= 1
    ensures AnswersAt(workers, fd) == [workers[w].response]
  {
    if w == 0 {
      AnswersCount(workers[1..], fd);
    } else {
      assert workers[1..][w - 1] == workers[w];
      AnswersSome(workers[1..], w - 1, fd);
      AnswersOne(workers[1..], w - 1, fd);
    }
  }

  lemma {:induction false} AnswersSome(workers: seq<Worker>, w: nat, fd: int)
    requires w < |workers| && workers[w].Answering? && workers[w].fd == fd
    ensures AnsweringAt(workers, fd) >= 1
  {
    if w > 0 {
      AnswersSome(workers[1..], w - 1, fd);
    }
  }

  /** At most one answer to a client is under way, and none while a worker reads its request. */
  lemma InFlightAtMostOne(cfg: Config, s: Server, fd: int)
    requires ServerInv(cfg, s)
    ensures |InFlight(s, fd)| <= Pending(s, fd) <= 1
    ensures |InFlight(s, fd)| == AnsweringAt(s.workers, fd) + Fds(s.lockThread)[fd] + Fds(s.lockQueue)[fd]
    ensures ReadingAt(s.workers, fd) >= 1 ==> InFlight(s, fd) == []
  {
    hide Inv, Queued, Fds, ReadingAt, AnsweringAt, PipeAt, NoticesTo, AnswersAt;
    assert Settled(s, fd);
    NoticesCount(s.lockThread, fd);
    NoticesCount(s.lockQueue, fd);
    NoticesConcat(s.lockThread, s.lockQueue, fd);
    AnswersCount(s.workers, fd);
  }

  // ---------------------------------------------------------------- one step

  /** What was under way and what the step owes is what the step sends and what is then under way. */
  ghost predicate Delivers(cfg: Config, s: Server, e: Event, fd: int)
    requires cfg.tableSize > 0 && Enabled(s, e)
  {
    InFlight(s, fd) + Owed(cfg, s, e, fd) == Sent(s, e, fd) + InFlight(Next(cfg, s, e), fd)
  }

  lemma ReadingThere(workers: seq<Worker>, w: nat, fd: int)
    requires w < |workers| && workers[w] == Reading(fd)
    ensures ReadingAt(workers, fd) >= 1
  {
    hide ReadingAt, AnsweringAt;
    WorkerChange(workers, w, Idle, fd);
  }

  /** A client the worker takes for waiting is one that waits, and the other way round. */
  lemma LeftIffWaits(cfg: Config, s: Server, w: nat, msg: Message, sample: seq<File>)
    requires cfg.tableSize > 0 && w < |s.workers| && s.workers[w].Reading? && !Misjudged(msg)
    ensures Waits(HandleAsk(cfg, s, w, msg, sample)) ==> Recognised(msg)
  {
    hide HandleWork, Objection, IsHeldByAnother;
    var c := s.workers[w].fd;
    WaitsIff(cfg, s.fs, SessionOf(s, c), c, msg, sample);
  }

  lemma AskDelivers(cfg: Config, s: Server, w: nat, msg: Message, sample: seq<File>, fd: int)
    requires ServerInv(cfg, s) && Enabled(s, Ask(w, msg, sample)) && cfg.tableSize > 0 && !Misjudged(msg)
    ensures Delivers(cfg, s, Ask(w, msg, sample), fd)
  {
    var c := s.workers[w].fd;
    assert w < |s.workers| && s.workers[w] == Reading(c);
    hide *;
    var h := HandleAsk(cfg, s, w, msg, sample);
    var left := Waits(h) && Recognised(msg);
    LeftIffWaits(cfg, s, w, msg, sample);
    ReadingThere(s.workers, w, c);
    InFlightAtMostOne(cfg, s, c);
    AskedWorkers(s.workers, w, if left then Idle else Answering(c, h.response), fd);
    NoticesGrow(s, h.notes, fd);
    AskInFlight(cfg, s, w, msg, sample, fd, left);
  }

  lemma NoticesGrow(s: Server, notes: seq<Notification>, fd: int)
    ensures NoticesTo(s.lockThread + (s.lockQueue + notes), fd)
            == NoticesTo(s.lockThread + s.lockQueue, fd) + NoticesTo(notes, fd)
  {
    hide NoticesTo;
    NoticesConcat(s.lockThread + s.lockQueue, notes, fd);
    assert s.lockThread + s.lockQueue + notes == s.lockThread + (s.lockQueue + notes);
  }

  /** The worker that has read a request of c goes on to answer it or not. */
  lemma AskedWorkers(workers: seq<Worker>, w: nat, x: Worker, fd: int)
    requires w < |workers| && workers[w].Reading? && (x == Idle || (x.Answering? && x.fd == workers[w].fd))
    ensures fd != workers[w].fd || x == Idle ==> AnswersAt(workers[w := x], fd) == AnswersAt(workers, fd)
    ensures fd == workers[w].fd && x.Answering? && AnswersAt(workers, fd) == [] ==>
              AnswersAt(workers[w := x], fd) == [x.response]
  {
    hide AnswersAt, AnsweringAt, ReadingAt;
    if fd != workers[w].fd || x == Idle {
      AnswersChange(workers, w, x, fd);
    } else if AnswersAt(workers, fd) == [] {
      AnswersCount(workers, fd);
      WorkerChange(workers, w, x, fd);
      AnswersOne(workers[w := x], w, fd);
    }
  }

  lemma AskInFlight(cfg: Config, s: Server, w: nat, msg: Message, sample: seq<File>, fd: int, left: bool)
    requires cfg.tableSize > 0 && Enabled(s, Ask(w, msg, sample))
    requires var c, h := s.workers[w].fd, HandleAsk(cfg, s, w, msg, sample);
             var x := if left then Idle else Answering(c, h.response);
             && left == (Waits(h) && Recognised(msg)) == Waits(h)
             && (fd == c ==> InFlight(s, c) == [])
             && NoticesTo(s.lockThread + (s.lockQueue + h.notes), fd)
                == NoticesTo(s.lockThread + s.lockQueue, fd) + NoticesTo(h.notes, fd)
             && (fd != c || left ==> AnswersAt(s.workers[w := x], fd) == AnswersAt(s.workers, fd))
             && (fd == c && !left && AnswersAt(s.workers, fd) == [] ==>
                   AnswersAt(s.workers[w := x], fd) == [h.response])
    ensures Delivers(cfg, s, Ask(w, msg, sample), fd)
  {
    hide HandleWork, AnswersAt, NoticesTo, Recognised, Waits;
    var h := HandleAsk(cfg, s, w, msg, sample);
    var t := Next(cfg, s, Ask(w, msg, sample));
    assert InFlight(t, fd) == AnswersAt(t.workers, fd) + NoticesTo(s.lockThread + (s.lockQueue + h.notes), fd);
  }

  lemma ReplyDelivers(cfg: Config, s: Server, w: nat, fd: int)
    requires ServerInv(cfg, s) && Enabled(s, Reply(w)) && cfg.tableSize > 0
    ensures Delivers(cfg, s, Reply(w), fd)
  {
    hide Inv, AnswersAt, AnsweringAt, NoticesTo, Settled;
    InFlightAtMostOne(cfg, s, fd);
    AnsweredWorkers(s.workers, w, fd);
  }

  /** The worker that has answered a client is not answering it any more. */
  lemma AnsweredWorkers(workers: seq<Worker>, w: nat, fd: int)
    requires w < |workers| && workers[w].Answering? && AnsweringAt(workers, fd) <= 1
    ensures workers[w].fd != fd ==> AnswersAt(workers[w := Idle], fd) == AnswersAt(workers, fd)
    ensures workers[w].fd == fd ==> AnswersAt(workers, fd) == [workers[w].response] && AnsweringAt(workers, fd) == 1
    ensures workers[w].fd == fd ==> AnswersAt(workers[w := Idle], fd) == []
  {
    hide AnswersAt, AnsweringAt, ReadingAt;
    if workers[w].fd == fd {
      AnswersSome(workers, w, fd);
      AnswersOne(workers, w, fd);
      AnswersCount(workers[w := Idle], fd);
      WorkerChange(workers, w, Idle, fd);
    } else {
      AnswersChange(workers, w, Idle, fd);
    }
  }

  lemma SendDelivers(cfg: Config, s: Server, fd: int)
    requires ServerInv(cfg, s) && Enabled(s, SendNotice) && cfg.tableSize > 0
    ensures Delivers(cfg, s, SendNotice, fd)
  {
    hide Inv, AnswersAt, AnsweringAt, Settled, Queued, Fds;
    InFlightAtMostOne(cfg, s, fd);
    var n := s.lockThread[0];
    assert s.lockThread + s.lockQueue == [n] + (s.lockThread[1..] + s.lockQueue);
    assert (s.lockThread + s.lockQueue)[1..] == s.lockThread[1..] + s.lockQueue;
  }

  lemma HangUpDelivers(cfg: Config, s: Server, w: nat, fd: int)
    requires Enabled(s, HangUp(w)) && cfg.tableSize > 0
    ensures Delivers(cfg, s, HangUp(w), fd)
  {
    hide AnswersAt, NoticesTo, Clean;
    var c := s.workers[w].fd;
    var t := CleanedUp(cfg, s, c);
    SameWorkers(cfg, s, c);
    AnswersChange(s.workers, w, Idle, fd);
    if SessionOf(s, c).valid {
      var notes := Clean(cfg, s.fs, c, OpenedHashes(SessionOf(s, c).files)).notes;
      NoticesGrow(s, notes, fd);
    }
  }

  lemma MoveDelivers(cfg: Config, s: Server, e: Event, fd: int)
    requires ServerInv(cfg, s) && Enabled(s, e) && !e.Ask? && cfg.tableSize > 0
    ensures Delivers(cfg, s, e, fd)
  {
    hide Inv, Settled, AnswersAt, NoticesTo, CleanedUp;
    match e {
      case HangUp(w) => HangUpDelivers(cfg, s, w, fd);
      case Reply(w) => ReplyDelivers(cfg, s, w, fd);
      case SendNotice => SendDelivers(cfg, s, fd);
      case Take(w) => AnswersChange(s.workers, w, Reading(s.work[0]), fd);
      case Broken(w) => AnswersChange(s.workers, w, Idle, fd);
      case TakeNotice =>
        assert s.lockThread + s.lockQueue == [s.lockQueue[0]] + s.lockQueue[1..];
      case _ =>
    }
  }

  // ---------------------------------------------------------------- whole runs

  lemma {:induction false} RunDelivers(cfg: Config, s: Server, es: seq<Event>, fd: int)
    requires cfg.tableSize > 0 && ServerInv(cfg, s) && IsRun(cfg, s, es) && GoodFlags(es)
    ensures InFlight(s, fd) + Due(cfg, s, es, fd) == Outbox(cfg, s, es, fd) + InFlight(RunServer(cfg, s, es), fd)
    decreases |es|
  {
    hide ServerInv, Next, Objection, IsHeldByAnother, InFlight, Sent, Owed;
    if es != [] {
      var e := es[0];
      assert Delivers(cfg, s, e, fd) && ServerInv(cfg, Next(cfg, s, e)) by {
        match e {
          case Ask(w, msg, sample) =>
            assert !Misjudged(msg);
            AskDelivers(cfg, s, w, msg, sample, fd);
            AskKeepsInvIff(cfg, s, w, msg, sample);
          case _ =>
            MoveDelivers(cfg, s, e, fd);
            MoveKeepsInv(cfg, s, e);
        }
      }
      RunDelivers(cfg, Next(cfg, s, e), es[1..], fd);
      Regroup(InFlight(s, fd), Owed(cfg, s, e, fd), Due(cfg, Next(cfg, s, e), es[1..], fd), Sent(s, e, fd),
              InFlight(Next(cfg, s, e), fd));
    }
  }

  lemma Regroup(a: seq<Response>, b: seq<Response>, c: seq<Response>, d: seq<Response>, e: seq<Response>)
    requires a + b == d + e
    ensures a + (b + c) == d + (e + c)
  {
    assert a + (b + c) == a + b + c && d + (e + c) == d + e + c;
  }

  /** Over every run with the documented flags, the answers sent to a client are, in order, those it is owed: the
      handler's answers to its requests and, for requests that had to wait, the notification that ended the wait. At
      most the last one is still under way, and none when the descriptor is closed. */
  lemma AnswersInOrder(cfg: Config, numWorkers: nat, es: seq<Event>, fd: int)
    requires ValidConfig(cfg) && IsRun(cfg, Started(numWorkers), es) && GoodFlags(es)
    ensures var s, due := RunServer(cfg, Started(numWorkers), es), Due(cfg, Started(numWorkers), es, fd);
            && Outbox(cfg, Started(numWorkers), es, fd) + InFlight(s, fd) == due
            && |InFlight(s, fd)| <= 1 && (fd !in s.live ==> InFlight(s, fd) == [])
  {
    var s := RunServer(cfg, Started(numWorkers), es);
    StartedInv(cfg, numWorkers);
    RunKeepsInv(cfg, Started(numWorkers), es);
    RunDelivers(cfg, Started(numWorkers), es, fd);
    NothingInFlight(numWorkers, fd);
    InFlightAtMostOne(cfg, s, fd);
    hide RunServer, Started, Inv, InFlight;
    assert Settled(s, fd);
  }

  lemma NothingInFlight(numWorkers: nat, fd: int)
    ensures InFlight(Started(numWorkers), fd) == []
  {
    NobodyAtWork(Started(numWorkers).workers, fd);
    AnswersCount(Started(numWorkers).workers, fd);
    hide AnswersAt;
  }
}
