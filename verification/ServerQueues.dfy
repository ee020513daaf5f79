/** The three queues between the threads (server/src/server.c:381-658): work for the workers, messages for the select
    thread, notifications for the lock thread. Each gives out what was put in, all of it, once and in order. */
module ServerQueues {
  import opened Store
  import opened Handler
  import opened Server

  /** Descriptors to work on, messages in the pipe, and notifications. */
  datatype Flow = Flow(work: seq<int>, pipe: seq<PipeMessage>, notices: seq<Notification>)

  const NO_FLOW := Flow([], [], [])

  function Then(a: Flow, b: Flow): Flow {
    Flow(a.work + b.work, a.pipe + b.pipe, a.notices + b.notices)
  }

  /** What the queues hold; a notification the lock thread has taken and not sent yet counts. */
  function Held(s: Server): Flow {
    Flow(s.work, s.pipe, s.lockThread + s.lockQueue)
  }

  /** What a step puts into the queues. A full work queue takes nothing. */
  function PutIn(cfg: Config, s: Server, e: Event): Flow
    requires cfg.tableSize > 0 && Enabled(s, e)
  {
    match e
    case Connect(fd) => NO_FLOW.(pipe := [NewConnection(fd)])
    case Ready(fd) => if |s.work| < RING_BUFFER_SIZE then NO_FLOW.(work := [fd]) else NO_FLOW
    case Broken(w) => NO_FLOW.(pipe := [RemConnection(s.workers[w].fd)])
    case HangUp(w) =>
      var c := s.workers[w].fd;
      Flow([], [RemConnection(c)],
           if SessionOf(s, c).valid then Clean(cfg, s.fs, c, OpenedHashes(SessionOf(s, c).files)).notes else [])
    case Ask(w, msg, sample) =>
      var c := s.workers[w].fd;
      NO_FLOW.(notices := HandleWork(cfg, s.fs, SessionOf(s, c), c, msg, sample).notes)
    case Reply(w) => NO_FLOW.(pipe := [SetConnection(s.workers[w].fd)])
    case SendNotice => NO_FLOW.(pipe := [SetConnection(s.lockThread[0].fd)])
    case _ => NO_FLOW
  }

  /** What a step takes out of them: what a worker begins to work on, what the select thread reads, and what the lock
      thread sends. */
  function TakenOut(s: Server, e: Event, t: Server): Flow
    requires Enabled(s, e)
  {
    match e
    case ReadPipe => NO_FLOW.(pipe := [s.pipe[0]])
    case Take(w) => if w < |t.workers| && t.workers[w].Reading? then NO_FLOW.(work := [t.workers[w].fd]) else NO_FLOW
    case SendNotice => NO_FLOW.(notices := [s.lockThread[0]])
    case _ => NO_FLOW
  }

  function AllIn(cfg: Config, s: Server, es: seq<Event>): Flow
    requires cfg.tableSize > 0 && IsRun(cfg, s, es)
    decreases |es|
  {
    if es == [] then NO_FLOW else Then(PutIn(cfg, s, es[0]), AllIn(cfg, Next(cfg, s, es[0]), es[1..]))
  }

  function AllOut(cfg: Config, s: Server, es: seq<Event>): Flow
    requires cfg.tableSize > 0 && IsRun(cfg, s, es)
    decreases |es|
  {
    if es == [] then NO_FLOW
    else Then(TakenOut(s, es[0], Next(cfg, s, es[0])), AllOut(cfg, Next(cfg, s, es[0]), es[1..]))
  }

  /** Before and after this step the flows agree. */
  ghost predicate Flows(cfg: Config, s: Server, e: Event)
    requires cfg.tableSize > 0 && Enabled(s, e)
  {
    Then(Held(s), PutIn(cfg, s, e)) == Then(TakenOut(s, e, Next(cfg, s, e)), Held(Next(cfg, s, e)))
  }

  lemma HangUpFlows(cfg: Config, s: Server, w: nat)
    requires cfg.tableSize > 0 && Enabled(s, HangUp(w))
    ensures Flows(cfg, s, HangUp(w))
  {
    hide Clean, OpenedHashes;
    var notes := PutIn(cfg, s, HangUp(w)).notices;
    assert s.lockThread + s.lockQueue + notes == s.lockThread + (s.lockQueue + notes);
  }

  lemma AskFlows(cfg: Config, s: Server, w: nat, msg: Message, sample: seq<File>)
    requires cfg.tableSize > 0 && Enabled(s, Ask(w, msg, sample))
    ensures Flows(cfg, s, Ask(w, msg, sample))
  {
    hide HandleWork, Recognised, Waits;
    var notes := PutIn(cfg, s, Ask(w, msg, sample)).notices;
    assert s.lockThread + s.lockQueue + notes == s.lockThread + (s.lockQueue + notes);
  }

  lemma TakeFlows(cfg: Config, s: Server, e: Event)
    requires cfg.tableSize > 0 && Enabled(s, e) && (e.ReadPipe? || e.Take? || e.TakeNotice? || e.SendNotice?)
    ensures Flows(cfg, s, e)
  {
    match e {
      case ReadPipe => assert s.pipe == [s.pipe[0]] + s.pipe[1..];
      case Take(_) => assert s.work == [s.work[0]] + s.work[1..];
      case TakeNotice => assert s.lockQueue == [s.lockQueue[0]] + s.lockQueue[1..];
      case SendNotice =>
        assert s.lockThread + s.lockQueue == [s.lockThread[0]] + (s.lockThread[1..] + s.lockQueue);
    }
  }

  lemma PutFlows(cfg: Config, s: Server, e: Event)
    requires cfg.tableSize > 0 && Enabled(s, e) && (e.Connect? || e.Ready? || e.Broken? || e.Reply?)
    ensures Flows(cfg, s, e)
  {
  }

  lemma StepFlows(cfg: Config, s: Server, e: Event)
    requires cfg.tableSize > 0 && Enabled(s, e)
    ensures Flows(cfg, s, e)
  {
    hide Flows, Enabled;
    match e {
      case HangUp(w) => HangUpFlows(cfg, s, w);
      case Ask(w, msg, sample) => AskFlows(cfg, s, w, msg, sample);
      case Connect(_) => PutFlows(cfg, s, e);
      case Ready(_) => PutFlows(cfg, s, e);
      case Broken(_) => PutFlows(cfg, s, e);
      case Reply(_) => PutFlows(cfg, s, e);
      case _ => TakeFlows(cfg, s, e);
    }
  }

  lemma ThenAssociates(a: Flow, b: Flow, c: Flow)
    ensures Then(Then(a, b), c) == Then(a, Then(b, c))
  {
    assert a.work + b.work + c.work == a.work + (b.work + c.work);
    assert a.pipe + b.pipe + c.pipe == a.pipe + (b.pipe + c.pipe);
    assert a.notices + b.notices + c.notices == a.notices + (b.notices + c.notices);
  }

  lemma ThenNothing(a: Flow)
    ensures Then(a, NO_FLOW) == a && Then(NO_FLOW, a) == a
  {
  }

  lemma {:induction false} RunFlows(cfg: Config, s: Server, es: seq<Event>)
    requires cfg.tableSize > 0 && IsRun(cfg, s, es)
    ensures Then(Held(s), AllIn(cfg, s, es)) == Then(AllOut(cfg, s, es), Held(RunServer(cfg, s, es)))
    decreases |es|
  {
    hide Then, Held, PutIn, TakenOut, Next, Enabled;
    if es == [] {
      ThenNothing(Held(s));
    } else {
      var t := Next(cfg, s, es[0]);
      var put, taken := PutIn(cfg, s, es[0]), TakenOut(s, es[0], t);
      StepFlows(cfg, s, es[0]);
      RunFlows(cfg, t, es[1..]);
      ThenAssociates(Held(s), put, AllIn(cfg, t, es[1..]));
      ThenAssociates(taken, Held(t), AllIn(cfg, t, es[1..]));
      ThenAssociates(taken, AllOut(cfg, t, es[1..]), Held(RunServer(cfg, t, es[1..])));
    }
  }

  /** Over any run from the start, what came out of each queue, followed by what it still holds, is what was put in. */
  lemma QueuesAreFair(cfg: Config, numWorkers: nat, es: seq<Event>)
    requires cfg.tableSize > 0 && IsRun(cfg, Started(numWorkers), es)
    ensures Then(AllOut(cfg, Started(numWorkers), es), Held(RunServer(cfg, Started(numWorkers), es)))
            == AllIn(cfg, Started(numWorkers), es)
  {
    RunFlows(cfg, Started(numWorkers), es);
    ThenNothing(AllIn(cfg, Started(numWorkers), es));
    assert Held(Started(numWorkers)) == NO_FLOW;
  }
}
