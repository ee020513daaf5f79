/** What clients leave behind that are gone without hanging up: a request that cannot be read and a full work queue
    close the descriptor without cleaning up (server/src/server.c:412-433, 561-566). */
module ServerDepartures {
  import opened Store
  import opened StoreInvariant
  import opened StoreLocks
  import opened StoreStakes
  import opened Session
  import opened Handler
  import opened Server
  import opened ServerSessions

  /** The descriptor owns nothing, waits for nothing and has no session. */
  ghost predicate LeavesNothing(cfg: Config, s: Server, fd: int)
    requires cfg.tableSize > 0
  {
    !SessionOf(s, fd).valid && forall key :: !HasStake(cfg, s.fs.cache, fd, key)
  }

  /** The client of this descriptor is gone: the descriptor is closed, or the select thread has been told to close
      it. */
  ghost predicate HasLeft(s: Server, fd: int) {
    fd !in s.live || RemConnection(fd) in s.pipe
  }

  /** Whom an event makes leave without hanging up while it has a session; connecting or hanging up settles that. */
  function Abandon(s: Server, e: Event, left: set<int>): set<int>
    requires Enabled(s, e)
  {
    match e
    case Connect(fd) => left - {fd}
    case HangUp(w) => left - {s.workers[w].fd}
    case Broken(w) => if SessionOf(s, s.workers[w].fd).valid then left + {s.workers[w].fd} else left
    case Ready(fd) => if |s.work| >= RING_BUFFER_SIZE && SessionOf(s, fd).valid then left + {fd} else left
    case _ => left
  }

  /** The descriptors whose last client left, in this run, without hanging up and while it had a session. */
  function Abandoned(cfg: Config, s: Server, es: seq<Event>, left: set<int>): set<int>
    requires cfg.tableSize > 0 && IsRun(cfg, s, es)
    decreases |es|
  {
    if es == [] then left else Abandoned(cfg, Next(cfg, s, es[0]), es[1..], Abandon(s, es[0], left))
  }

  ghost predicate Remembered(s: Server, left: set<int>) {
    forall fd :: fd in left <==> HasLeft(s, fd) && SessionOf(s, fd).valid
  }

  lemma {:induction false} InPipe(pipe: seq<PipeMessage>, fd: int)
    ensures RemConnection(fd) in pipe ==> PipeAt(pipe, fd) > 0
  {
    if pipe != [] {
      assert pipe == [pipe[0]] + pipe[1..];
      InPipe(pipe[1..], fd);
    }
  }

  /** A descriptor that is elsewhere is not about to be closed. */
  lemma NotInPipe(s: Server, fd: int)
    requires Settled(s, fd)
    requires fd in s.live ==> fd in s.watched || ReadingAt(s.workers, fd) > 0
    ensures RemConnection(fd) !in s.pipe
  {
    hide Queued, Fds, PipeAt, ReadingAt, AnsweringAt;
    InPipe(s.pipe, fd);
  }

  /** A descriptor that is watched, read from or not open is not about to be closed. */
  lemma Elsewhere(s: Server, e: Event)
    requires Enabled(s, e) && forall fd :: Settled(s, fd)
    ensures e.Connect? || e.Ready? ==> RemConnection(e.fd) !in s.pipe
    ensures e.Broken? || e.HangUp? || e.Ask? ==>
              s.workers[e.worker].fd in s.live && RemConnection(s.workers[e.worker].fd) !in s.pipe
    ensures e.Ready? ==> e.fd in s.live
  {
    hide Queued, Fds, PipeAt, AnsweringAt;
    if e.Connect? || e.Ready? {
      assert Settled(s, e.fd);
      NotInPipe(s, e.fd);
    } else if e.Broken? || e.HangUp? || e.Ask? {
      var fd := s.workers[e.worker].fd;
      assert Settled(s, fd);
      WorkerChange(s.workers, e.worker, Idle, fd);
      NotInPipe(s, fd);
    }
  }

  lemma StepRemembers(cfg: Config, s: Server, e: Event, left: set<int>)
    requires cfg.tableSize > 0 && Enabled(s, e) && (forall fd :: Settled(s, fd)) && Remembered(s, left)
    ensures Remembered(Next(cfg, s, e), Abandon(s, e, left))
  {
    hide Settled, HandleWork, Clean, OpenedHashes;
    Elsewhere(s, e);
    var t := Next(cfg, s, e);
    forall fd
      ensures fd in Abandon(s, e, left) <==> HasLeft(t, fd) && SessionOf(t, fd).valid
    {
      assert fd in left <==> HasLeft(s, fd) && SessionOf(s, fd).valid;
      if e.ReadPipe? {
        assert s.pipe == [s.pipe[0]] + s.pipe[1..];
      }
    }
  }

  lemma {:induction false} RunRemembers(cfg: Config, s: Server, es: seq<Event>, left: set<int>)
    requires cfg.tableSize > 0 && ServerInv(cfg, s) && IsRun(cfg, s, es) && GoodFlags(es) && Remembered(s, left)
    ensures Remembered(RunServer(cfg, s, es), Abandoned(cfg, s, es, left))
    decreases |es|
  {
    hide Inv, Settled, Next, Remembered, Abandon, Objection, IsHeldByAnother;
    if es != [] {
      var e := es[0];
      StepRemembers(cfg, s, e, left);
      match e {
        case Ask(w, msg, sample) =>
          assert !Misjudged(msg);
          AskKeepsInvIff(cfg, s, w, msg, sample);
        case _ => MoveKeepsInv(cfg, s, e);
      }
      RunRemembers(cfg, Next(cfg, s, e), es[1..], Abandon(s, e, left));
    }
  }

  /** After any orderly run from the start, a descriptor that is not open owns nothing, waits for nothing and has no
      session if and only if its last client, if it had any, hung up or had no session when it left. */
  lemma GoneLeavesNothingIff(cfg: Config, numWorkers: nat, es: seq<Event>, fd: int)
    requires ValidConfig(cfg) && IsRun(cfg, Started(numWorkers), es) && GoodFlags(es)
             && Orderly(cfg, Started(numWorkers), es)
    requires fd != EMPTY_OWNER && fd !in RunServer(cfg, Started(numWorkers), es).live
    ensures LeavesNothing(cfg, RunServer(cfg, Started(numWorkers), es), fd)
            <==> fd !in Abandoned(cfg, Started(numWorkers), es, {})
  {
    StartedInv(cfg, numWorkers);
    StartedCovers(cfg, numWorkers);
    OrderlyRunCovers(cfg, Started(numWorkers), es);
    assert Remembered(Started(numWorkers), {});
    RunRemembers(cfg, Started(numWorkers), es, {});
    hide RunServer, Started, Abandoned, Inv, Settled, HasStake, Lists;
    var s := RunServer(cfg, Started(numWorkers), es);
    assert CoveredBy(cfg, s.fs, SessionOf(s, fd).files, fd) && WellFormed(SessionOf(s, fd));
    if !SessionOf(s, fd).valid {
      forall key
        ensures !HasStake(cfg, s.fs.cache, fd, key)
      {
        NoSessionNoStake(cfg, s.fs, SessionOf(s, fd), fd, key);
      }
    }
  }
}
