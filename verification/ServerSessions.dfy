/** Sessions and locks together: when the session of a client lists every file it owns or waits for, so that hanging up
    frees them all (server/src/server.c:419-433, 716-840, 983-990). */
module ServerSessions {
  import opened CircQueue
  import opened Store
  import opened StoreInvariant
  import opened StoreSteps
  import opened StoreClean
  import opened StoreStakes
  import opened Protocol
  import opened Session
  import opened Handler
  import opened Server

  ghost predicate Lists(cfg: Config, files: seq<Opened>, key: nat)
    requires cfg.tableSize > 0
  {
    Listed(cfg, OpenedHashes(files), key)
  }

  /** The session lists everything the client owns or waits for. */
  ghost predicate CoveredBy(cfg: Config, fs: State, files: seq<Opened>, client: int)
    requires cfg.tableSize > 0
  {
    forall key :: HasStake(cfg, fs.cache, client, key) ==> Lists(cfg, files, key)
  }

  // ---------------------------------------------------------------- what a session lists

  lemma ListsIff(cfg: Config, files: seq<Opened>, key: nat)
    requires cfg.tableSize > 0
    ensures Lists(cfg, files, key) <==> exists i :: 0 <= i < |files| && files[i].hash % cfg.tableSize == key
  {
    var hashes := OpenedHashes(files);
    if i :| 0 <= i < |files| && files[i].hash % cfg.tableSize == key {
      assert hashes[i] % cfg.tableSize == key;
    }
    if Listed(cfg, hashes, key) {
      var i :| 0 <= i < |hashes| && hashes[i] % cfg.tableSize == key;
      assert files[i].hash % cfg.tableSize == key;
    }
  }

  lemma ListsMore(cfg: Config, files: seq<Opened>, o: Opened, key: nat)
    requires cfg.tableSize > 0
    ensures Lists(cfg, files + [o], key) <==> Lists(cfg, files, key) || o.hash % cfg.tableSize == key
  {
    hide Lists;
    var more := files + [o];
    ListsIff(cfg, files, key);
    ListsIff(cfg, more, key);
    if i :| 0 <= i < |files| && files[i].hash % cfg.tableSize == key {
      assert more[i] == files[i];
    }
    assert more[|files|] == o;
  }

  lemma ListsLess(cfg: Config, files: seq<Opened>, i: nat, key: nat)
    requires cfg.tableSize > 0 && i < |files| && Lists(cfg, files, key) && files[i].hash % cfg.tableSize != key
    ensures Lists(cfg, Without(files, i), key)
  {
    hide Lists;
    var less := Without(files, i);
    ListsIff(cfg, files, key);
    ListsIff(cfg, less, key);
    var j :| 0 <= j < |files| && files[j].hash % cfg.tableSize == key;
    assert less[if j < i then j else j - 1] == files[j];
  }

  /** A file a session lists stays listed while its flags are recorded or another file is closed. */
  lemma RecordLists(cfg: Config, s: Session, kind: int, hash: nat, flags: int, res: int, key: nat)
    requires cfg.tableSize > 0 && Lists(cfg, s.files, key)
    requires kind == MSG_REQ_CLOSE_FILE || kind == MSG_REQ_REMOVE_FILE ==> hash % cfg.tableSize != key
    ensures Lists(cfg, Record(s, kind, hash, flags, res).session.files, key)
  {
    hide Lists, Place, Without;
    ListsMore(cfg, s.files, Opened(hash, flags), key);
    var i := Place(s.files, hash);
    if i >= 0 && hash % cfg.tableSize != key {
      ListsLess(cfg, s.files, i, key);
    }
  }

  // ---------------------------------------------------------------- one request

  /** An open request that ends with the client owning or waiting for a file its session does not list: it has to
      wait, or the session is full when the file is locked. */
  ghost predicate Unrecorded(cfg: Config, fs: State, s: Session, client: int, msg: Message)
    requires cfg.tableSize > 0
  {
    var key := KeyOf(cfg, msg.file.name);
    var i := Find(cfg, fs.cache, key);
    && msg.kind == MSG_REQ_OPEN_FILE && HasLock(msg.flags)
    && Objection(s, msg.kind, cfg.hash(msg.file.name)) == 0 && !Lists(cfg, s.files, key)
    && if HasCreate(msg.flags) then
         |s.files| >= MAX_CLIENT_OPENED_FILES && i < 0 && Size(msg.file) - Drift(fs) <= cfg.bytesMax
       else
         || IsHeldByAnother(cfg, fs, client, msg.file.name)
         || (|s.files| >= MAX_CLIENT_OPENED_FILES && i >= 0 && fs.cache[i].owner == EMPTY_OWNER)
  }

  /** The client ends with a stake its session does not list. */
  ghost predicate Strays(cfg: Config, h: Handled, client: int, key: nat)
    requires cfg.tableSize > 0
  {
    HasStake(cfg, h.fs.cache, client, key) && !Lists(cfg, h.session.files, key)
  }

  lemma CallKey(cfg: Config, client: int, msg: Message)
    requires cfg.tableSize > 0 && IsFileRequest(msg.kind)
    ensures RequestKey(cfg, FsCall(cfg, client, msg)) == KeyOf(cfg, msg.file.name)
            == cfg.hash(msg.file.name) % cfg.tableSize
    ensures FsCall(cfg, client, msg).client == client
  {
  }

  /** Only the requester can stray, and only in the file of an open request that claims it. */
  lemma StraysOnlyByOpen(cfg: Config, fs: State, s: Session, client: int, msg: Message, key: nat)
    requires Inv(cfg, fs) && Lawful(fs, client) && CoveredBy(cfg, fs, s.files, client) && IsFileRequest(msg.kind)
    requires Strays(cfg, HandleFile(cfg, fs, s, client, msg), client, key)
    ensures msg.kind == MSG_REQ_OPEN_FILE && HasLock(msg.flags) && key == KeyOf(cfg, msg.file.name)
    ensures Objection(s, msg.kind, cfg.hash(msg.file.name)) == 0
  {
    hide Inv, Lawful, Apply, Lists, HasStake, Record, Attached, Place, GainsOnlyClaim, KeyOf;
    assert cfg.tableSize > 0 by { InvConfig(cfg, fs); }
    var r, hash := FsCall(cfg, client, msg), cfg.hash(msg.file.name);
    CallKey(cfg, client, msg);
    assert client != EMPTY_OWNER by { LawfulIsSomebody(fs, client); }
    if Objection(s, msg.kind, hash) == 0 {
      var o := Apply(cfg, fs, r);
      assert HasStake(cfg, o.state.cache, client, key);
      if msg.kind == MSG_REQ_CLOSE_FILE || msg.kind == MSG_REQ_REMOVE_FILE {
        GivenUp(cfg, fs, r);
      }
      if HasStake(cfg, fs.cache, client, key) {
        assert Lists(cfg, s.files, key);
        RecordLists(cfg, s, msg.kind, hash, msg.flags, o.res, key);
      } else {
        Gained(cfg, fs, r, client, key);
        if msg.kind == MSG_REQ_LOCK_FILE {
          OpenedIsListed(cfg, s, hash);
          RecordLists(cfg, s, msg.kind, hash, msg.flags, o.res, key);
        }
      }
    }
  }

  lemma LawfulIsSomebody(fs: State, client: int)
    requires Lawful(fs, client)
    ensures client != EMPTY_OWNER
  {
  }

  lemma Gained(cfg: Config, fs: State, r: Request, client: int, key: nat)
    requires Inv(cfg, fs) && client != EMPTY_OWNER
    requires !HasStake(cfg, fs.cache, client, key) && HasStake(cfg, Apply(cfg, fs, r).state.cache, client, key)
    ensures Claims(r) && client == r.client && key == RequestKey(cfg, r)
  {
    hide HasStake, Apply, Inv;
    ApplyGains(cfg, fs, r, client, key);
  }

  lemma OpenedIsListed(cfg: Config, s: Session, hash: nat)
    requires cfg.tableSize > 0 && HasOpened(s, hash) == SESSION_FILE_ALREADY_OPENED
    ensures Lists(cfg, s.files, hash % cfg.tableSize)
  {
    hide Lists, Place;
    ListsIff(cfg, s.files, hash % cfg.tableSize);
    assert s.files[Place(s.files, hash)].hash == hash;
  }

  /** Of a request to open a file locked, exactly the unrecorded ones make the client stray. */
  lemma OpenStraysIff(cfg: Config, fs: State, s: Session, client: int, msg: Message)
    requires Inv(cfg, fs) && Lawful(fs, client) && CoveredBy(cfg, fs, s.files, client)
    requires msg.kind == MSG_REQ_OPEN_FILE && HasLock(msg.flags) && Objection(s, msg.kind, cfg.hash(msg.file.name)) == 0
    ensures Strays(cfg, HandleFile(cfg, fs, s, client, msg), client, KeyOf(cfg, msg.file.name))
            <==> Unrecorded(cfg, fs, s, client, msg)
  {
    hide Inv, Lawful, Lists, HasStake, Find, Insert, TryLock, KeyOf, Attached, Size, Drift;
    assert cfg.tableSize > 0 by { InvConfig(cfg, fs); }
    var hash, key := cfg.hash(msg.file.name), KeyOf(cfg, msg.file.name);
    LawfulIsSomebody(fs, client);
    CallKey(cfg, client, msg);
    ListsMore(cfg, s.files, Opened(hash, msg.flags), key);
    assert HasStake(cfg, fs.cache, client, key) ==> Lists(cfg, s.files, key);
    if HasCreate(msg.flags) {
      InsertCases(cfg, fs, client, msg.file);
    } else {
      LockCases(cfg, fs, client, msg.file.name);
      LockGains(cfg, fs, client, msg.file.name, client, key);
    }
  }

  lemma InsertCases(cfg: Config, fs: State, client: int, file: File)
    requires Inv(cfg, fs) && client != EMPTY_OWNER
    ensures var o := Insert(cfg, fs, client, file, true);
            var key := KeyOf(cfg, file.name);
            if Find(cfg, fs.cache, key) >= 0 then o == Refused(fs, FS_FILE_ALREADY_EXISTS)
            else o.res == 0 && (HasStake(cfg, o.state.cache, client, key) <==> Size(file) - Drift(fs) <= cfg.bytesMax)
  {
    hide HasStake, Find, Settle, Size, Drift;
    if Find(cfg, fs.cache, KeyOf(cfg, file.name)) < 0 {
      InsertedIsOwned(cfg, fs, client, file);
    }
  }

  lemma LockCases(cfg: Config, fs: State, client: int, name: string)
    requires cfg.tableSize > 0
    ensures var o := TryLock(cfg, fs, client, name);
            var i := Find(cfg, fs.cache, KeyOf(cfg, name));
            && (IsHeldByAnother(cfg, fs, client, name) <==> o.res == FS_CLIENT_WAITING_ON_LOCK)
            && (i >= 0 && (fs.cache[i].owner == EMPTY_OWNER || fs.cache[i].owner == client) <==> o.res == 0)
            && (o.res != 0 && o.res != FS_CLIENT_WAITING_ON_LOCK ==> o == Refused(fs, o.res))
            && (i >= 0 && fs.cache[i].owner == client ==> HasStake(cfg, fs.cache, client, KeyOf(cfg, name)))
  {
    hide Find, MoveToTop, KeyOf;
  }

  /** Cleaning up after a client whose session lists everything leaves it with nothing, and gives nobody a new stake. */
  lemma CleanLeavesNothing(cfg: Config, fs: State, files: seq<Opened>, client: int, key: nat)
    requires Inv(cfg, fs) && Lawful(fs, client) && CoveredBy(cfg, fs, files, client)
    ensures !HasStake(cfg, Clean(cfg, fs, client, OpenedHashes(files)).state.cache, client, key)
  {
    hide Inv, Clean, Lookup, Listed, IsWaiting;
    assert cfg.tableSize > 0 by { InvConfig(cfg, fs); }
    CleanLookup(cfg, fs, client, OpenedHashes(files), key);
    if HasStake(cfg, fs.cache, client, key) {
      StakeIsOwnership(cfg, fs, client, key);
      ReleasedIsNot(cfg, fs, client, key);
      var e := Lookup(cfg, fs.cache, key).value;
      assert client !in Released(e).waiting by { NotReleasedTo(cfg, fs, client, key); }
    }
  }

  /** A client that does not wait has no other stake than ownership. */
  lemma StakeIsOwnership(cfg: Config, fs: State, client: int, key: nat)
    requires Inv(cfg, fs) && Lawful(fs, client) && HasStake(cfg, fs.cache, client, key)
    ensures Lookup(cfg, fs.cache, key).value.owner == client
  {
    hide Inv;
    NotQueued(fs.cache, Find(cfg, fs.cache, key), client) by { InvConfig(cfg, fs); }
    InvConfig(cfg, fs);
  }

  lemma NotReleasedTo(cfg: Config, fs: State, client: int, key: nat)
    requires Inv(cfg, fs) && Lawful(fs, client) && HasStake(cfg, fs.cache, client, key)
    ensures client !in Released(Lookup(cfg, fs.cache, key).value).waiting
  {
    hide Inv;
    InvConfig(cfg, fs);
    NotQueued(fs.cache, Find(cfg, fs.cache, key), client);
  }

  lemma CleanGivesNobody(cfg: Config, fs: State, client: int, hashes: seq<nat>, other: int, key: nat)
    requires Inv(cfg, fs) && Lawful(fs, client) && other != EMPTY_OWNER
    ensures HasStake(cfg, Clean(cfg, fs, client, hashes).state.cache, other, key) ==>
            HasStake(cfg, fs.cache, other, key)
  {
    hide Inv, Clean, Lookup, Listed, IsWaiting;
    assert cfg.tableSize > 0 by { InvConfig(cfg, fs); }
    CleanLookup(cfg, fs, client, hashes, key);
  }

  /** The session of the requester lists all its stakes after a request if and only if the request is not an
      unrecorded one. */
  lemma HandleCoversIff(cfg: Config, fs: State, s: Session, client: int, msg: Message, sample: seq<File>)
    requires Inv(cfg, fs) && Lawful(fs, client) && CoveredBy(cfg, fs, s.files, client) && WellFormed(s)
    ensures var h := HandleWork(cfg, fs, s, client, msg, sample);
            CoveredBy(cfg, h.fs, h.session.files, client) <==> !Unrecorded(cfg, fs, s, client, msg)
  {
    hide Inv, Lawful, HandleFile, HasStake, Lists, IsHeldByAnother, Clean, Objection, KeyOf;
    assert cfg.tableSize > 0 by { InvConfig(cfg, fs); }
    var h := HandleWork(cfg, fs, s, client, msg, sample);
    if msg.kind == MSG_REQ_CLOSE_SESSION {
      forall key | s.valid
        ensures !HasStake(cfg, h.fs.cache, client, key)
      {
        CleanLeavesNothing(cfg, fs, s.files, client, key);
      }
    } else if IsFileRequest(msg.kind) {
      if key :| HasStake(cfg, h.fs.cache, client, key) && !Lists(cfg, h.session.files, key) {
        StraysOnlyByOpen(cfg, fs, s, client, msg, key);
        OpenStraysIff(cfg, fs, s, client, msg);
      } else if Unrecorded(cfg, fs, s, client, msg) {
        OpenStraysIff(cfg, fs, s, client, msg);
      }
    } else if msg.kind == MSG_REQ_OPEN_SESSION {
      CreateLists(cfg, fs, s, client);
    }
  }

  /** Opening a session that was not there lists nothing, and nothing needs listing. */
  lemma CreateLists(cfg: Config, fs: State, s: Session, client: int)
    requires cfg.tableSize > 0 && CoveredBy(cfg, fs, s.files, client) && WellFormed(s)
    ensures CoveredBy(cfg, fs, Create(s).session.files, client)
  {
  }

  /** A request gives no other client a stake. */
  lemma HandleGivesNobody(cfg: Config, fs: State, s: Session, client: int, msg: Message, sample: seq<File>,
                          other: int, key: nat)
    requires Inv(cfg, fs) && Lawful(fs, client) && other != client && other != EMPTY_OWNER
    requires HasStake(cfg, HandleWork(cfg, fs, s, client, msg, sample).fs.cache, other, key)
    ensures HasStake(cfg, fs.cache, other, key)
  {
    hide Inv, Lawful, HasStake, Clean, Apply, Objection, Record, Attached, FsCall, KeyOf;
    assert cfg.tableSize > 0 by { InvConfig(cfg, fs); }
    if msg.kind == MSG_REQ_CLOSE_SESSION {
      CleanGivesNobody(cfg, fs, client, OpenedHashes(s.files), other, key);
    } else if IsFileRequest(msg.kind) && !HasStake(cfg, fs.cache, other, key) {
      CallKey(cfg, client, msg);
      if HasStake(cfg, Apply(cfg, fs, FsCall(cfg, client, msg)).state.cache, other, key) {
        Gained(cfg, fs, FsCall(cfg, client, msg), other, key);
      }
    }
  }

  // ---------------------------------------------------------------- the whole server

  /** Every session is well formed and lists all its client owns or waits for. */
  ghost predicate Covered(cfg: Config, s: Server)
    requires cfg.tableSize > 0
  {
    && (forall fd :: WellFormed(SessionOf(s, fd)))
    && (forall fd :: fd != EMPTY_OWNER ==> CoveredBy(cfg, s.fs, SessionOf(s, fd).files, fd))
  }

  /** A request keeps this if and only if it is not an unrecorded one. */
  lemma AskCoversIff(cfg: Config, s: Server, w: nat, msg: Message, sample: seq<File>)
    requires ServerInv(cfg, s) && w < |s.workers| && s.workers[w].Reading? && cfg.tableSize > 0 && Covered(cfg, s)
    ensures var fd := s.workers[w].fd;
            Covered(cfg, Next(cfg, s, Ask(w, msg, sample))) <==> !Unrecorded(cfg, s.fs, SessionOf(s, fd), fd, msg)
  {
    hide Inv, Settled, Lawful, WellFormed, HasStake, Lists, HandleWork, Unrecorded;
    var c := s.workers[w].fd;
    var t, h := Next(cfg, s, Ask(w, msg, sample)), HandleAsk(cfg, s, w, msg, sample);
    ReaderIsLawful(cfg, s, w);
    LawfulIsSomebody(s.fs, c);
    HandleKeepsSession(cfg, s.fs, SessionOf(s, c), c, msg, sample);
    HandleCoversIff(cfg, s.fs, SessionOf(s, c), c, msg, sample);
    assert SessionOf(t, c) == h.session && t.fs == h.fs;
    forall fd | fd != c
      ensures SessionOf(t, fd) == SessionOf(s, fd)
    {
    }
    forall fd, key | fd != c && fd != EMPTY_OWNER && HasStake(cfg, t.fs.cache, fd, key)
      ensures Lists(cfg, SessionOf(t, fd).files, key)
    {
      HandleGivesNobody(cfg, s.fs, SessionOf(s, c), c, msg, sample, fd, key);
    }
  }

  /** Every other step keeps it, and a client that has hung up is left with nothing. */
  lemma MoveCovers(cfg: Config, s: Server, e: Event)
    requires ServerInv(cfg, s) && Enabled(s, e) && !e.Ask? && cfg.tableSize > 0 && Covered(cfg, s)
    ensures Covered(cfg, Next(cfg, s, e))
  {
    hide Inv, Settled, Lawful, WellFormed, HasStake, Lists;
    if e.HangUp? {
      HangUpCovers(cfg, s, e.worker);
      SameCover(cfg, CleanedUp(cfg, s, s.workers[e.worker].fd), Next(cfg, s, e));
    } else {
      SameCover(cfg, s, Next(cfg, s, e));
    }
  }

  lemma SameCover(cfg: Config, s: Server, t: Server)
    requires cfg.tableSize > 0 && Covered(cfg, s) && t.fs == s.fs && t.sessions == s.sessions
    ensures Covered(cfg, t)
  {
    hide WellFormed, CoveredBy;
    forall fd
      ensures WellFormed(SessionOf(t, fd)) && (fd != EMPTY_OWNER ==> CoveredBy(cfg, t.fs, SessionOf(t, fd).files, fd))
    {
      assert SessionOf(t, fd) == SessionOf(s, fd);
    }
  }

  lemma HangUpCovers(cfg: Config, s: Server, w: nat)
    requires ServerInv(cfg, s) && w < |s.workers| && s.workers[w].Reading? && cfg.tableSize > 0 && Covered(cfg, s)
    ensures Covered(cfg, CleanedUp(cfg, s, s.workers[w].fd))
    ensures forall key :: !HasStake(cfg, CleanedUp(cfg, s, s.workers[w].fd).fs.cache, s.workers[w].fd, key)
  {
    hide Inv, Settled, Lawful, WellFormed, HasStake, Lists, Clean;
    var c := s.workers[w].fd;
    var t := CleanedUp(cfg, s, c);
    ReaderIsLawful(cfg, s, w);
    LawfulIsSomebody(s.fs, c);
    EmptyIsWellFormed();
    forall key
      ensures !HasStake(cfg, t.fs.cache, c, key)
    {
      if SessionOf(s, c).valid {
        CleanLeavesNothing(cfg, s.fs, SessionOf(s, c).files, c, key);
      } else {
        NoSessionNoStake(cfg, s.fs, SessionOf(s, c), c, key);
      }
    }
    forall fd, key | fd != c && fd != EMPTY_OWNER && HasStake(cfg, t.fs.cache, fd, key)
      ensures Lists(cfg, SessionOf(t, fd).files, key)
    {
      CleanGivesNobody(cfg, s.fs, c, OpenedHashes(SessionOf(s, c).files), fd, key);
      assert CoveredBy(cfg, s.fs, SessionOf(s, fd).files, fd);
    }
    forall fd
      ensures WellFormed(SessionOf(t, fd))
    {
      assert fd != c ==> SessionOf(t, fd) == SessionOf(s, fd);
    }
  }

  lemma NoSessionNoStake(cfg: Config, fs: State, s: Session, client: int, key: nat)
    requires cfg.tableSize > 0 && WellFormed(s) && !s.valid && CoveredBy(cfg, fs, s.files, client)
    ensures !HasStake(cfg, fs.cache, client, key)
  {
  }

  // ---------------------------------------------------------------- whole runs

  /** Every request of the run has documented flags and is recorded. */
  ghost predicate Orderly(cfg: Config, s: Server, es: seq<Event>)
    requires cfg.tableSize > 0 && IsRun(cfg, s, es)
    decreases |es|
  {
    es != [] ==>
      && (es[0].Ask? ==> var fd := s.workers[es[0].worker].fd; !Unrecorded(cfg, s.fs, SessionOf(s, fd), fd, es[0].msg))
      && Orderly(cfg, Next(cfg, s, es[0]), es[1..])
  }

  lemma {:induction false} OrderlyRunCovers(cfg: Config, s: Server, es: seq<Event>)
    requires cfg.tableSize > 0 && ServerInv(cfg, s) && Covered(cfg, s) && IsRun(cfg, s, es) && GoodFlags(es)
             && Orderly(cfg, s, es)
    ensures ServerInv(cfg, RunServer(cfg, s, es)) && Covered(cfg, RunServer(cfg, s, es))
    decreases |es|
  {
    hide ServerInv, Covered, Next, Unrecorded, Objection, IsHeldByAnother;
    if es != [] {
      var e := es[0];
      match e {
        case Ask(w, msg, sample) =>
          assert !Misjudged(msg);
          AskKeepsInvIff(cfg, s, w, msg, sample);
          AskCoversIff(cfg, s, w, msg, sample);
        case _ =>
          MoveKeepsInv(cfg, s, e);
          MoveCovers(cfg, s, e);
      }
      OrderlyRunCovers(cfg, Next(cfg, s, e), es[1..]);
    }
  }

  /** After any orderly run from the start, a client that hangs up owns nothing and waits for nothing, and what it
      owned is its first waiter's, or nobody's with nobody waiting; no other file is touched. */
  lemma HangUpFreesEverything(cfg: Config, numWorkers: nat, es: seq<Event>, w: nat, key: nat)
    requires ValidConfig(cfg) && IsRun(cfg, Started(numWorkers), es) && GoodFlags(es)
             && Orderly(cfg, Started(numWorkers), es)
    requires Enabled(RunServer(cfg, Started(numWorkers), es), HangUp(w))
    ensures var s := RunServer(cfg, Started(numWorkers), es);
            var t := Next(cfg, s, HangUp(w));
            var before, after := Lookup(cfg, s.fs.cache, key), Lookup(cfg, t.fs.cache, key);
            && !HasStake(cfg, t.fs.cache, s.workers[w].fd, key)
            && after == if before.Some? && before.value.owner == s.workers[w].fd then Some(Released(before.value))
            else before
  {
    StartedInv(cfg, numWorkers);
    StartedCovers(cfg, numWorkers);
    OrderlyRunCovers(cfg, Started(numWorkers), es);
    hide RunServer, Started, Inv, Settled, Clean, HasStake, Lookup, Lists;
    var s := RunServer(cfg, Started(numWorkers), es);
    HangUpCovers(cfg, s, w);
    HangUpReleases(cfg, s, w, key);
  }

  lemma StartedCovers(cfg: Config, numWorkers: nat)
    requires cfg.tableSize > 0
    ensures Covered(cfg, Started(numWorkers))
  {
    EmptyIsWellFormed();
  }

  lemma HangUpReleases(cfg: Config, s: Server, w: nat, key: nat)
    requires ServerInv(cfg, s) && w < |s.workers| && s.workers[w].Reading? && cfg.tableSize > 0 && Covered(cfg, s)
    ensures var before, after := Lookup(cfg, s.fs.cache, key),
            Lookup(cfg, CleanedUp(cfg, s, s.workers[w].fd).fs.cache, key);
            after == if before.Some? && before.value.owner == s.workers[w].fd then Some(Released(before.value))
                else before
  {
    hide Inv, Settled, Lawful, Clean, Lookup, Listed;
    var c := s.workers[w].fd;
    ReaderIsLawful(cfg, s, w);
    LawfulIsSomebody(s.fs, c);
    var before := Lookup(cfg, s.fs.cache, key);
    if before.Some? && before.value.owner == c {
      assert HasStake(cfg, s.fs.cache, c, key);
      assert CoveredBy(cfg, s.fs, SessionOf(s, c).files, c);
      assert Lists(cfg, SessionOf(s, c).files, key);
    }
    if SessionOf(s, c).valid {
      CleanLookup(cfg, s.fs, c, OpenedHashes(SessionOf(s, c).files), key);
    } else if before.Some? && before.value.owner == c {
      NoSessionNoStake(cfg, s.fs, SessionOf(s, c), c, key);
    }
  }
}
