/** What a worker does with one request: the session is consulted, then the file system
    (server/src/server.c:686-1070). */
module Handler {
  import opened Store
  import opened StoreInvariant
  import opened StoreSteps
  import opened StoreLocks
  import opened StoreClean
  import opened StoreStakes
  import opened Protocol
  import opened Session

  datatype Message = Message(kind: int, flags: int, file: File)

  datatype Response = Response(kind: int, status: int, files: seq<File>)

  datatype Handled = Handled(fs: State, session: Session, response: Response, notes: seq<Notification>)

  /** flags & FLAG_CREATE and flags & FLAG_LOCK, in two's complement. */
  function HasCreate(flags: int): bool {
    flags % 2 == 1
  }

  function HasLock(flags: int): bool {
    (flags / 2) % 2 == 1
  }

  /** handleError: the status for an error, success when there is none. */
  function StatusOf(res: int): int {
    if res == FS_FILE_ALREADY_EXISTS || res == FS_FILE_NOT_EXISTS || res == FS_FILE_TOO_BIG
        || res == SESSION_FILE_ALREADY_OPENED
    then RESP_STATUS_INVALID_ARG
    else if res == SESSION_FILE_NEVER_OPENED then RESP_STATUS_NOT_FOUND
    else if res == SESSION_OUT_OF_MEMORY then RESP_STATUS_GENERIC_ERROR
    else if res == FS_CLIENT_NOT_ALLOWED || res == SESSION_ALREADY_EXIST || res == SESSION_NOT_EXIST
        || res == SESSION_CANNOT_WRITE_FILE
    then RESP_STATUS_NOT_PERMITTED
    else RESP_STATUS_OK
  }

  /** A response with files attached, when there are any. */
  function Answer(status: int, files: seq<File>): Response {
    Response(if files == [] then MSG_RESP_SIMPLE else MSG_RESP_WITH_FILES, status, files)
  }

  /** The response that is not sent: the client waits for a lock. */
  const NO_RESPONSE := Response(MSG_NONE, RESP_STATUS_OK, [])

  /** The session's objection to a file request, 0 when it has none. */
  function Objection(s: Session, kind: int, hash: nat): int {
    if !s.valid then SESSION_NOT_EXIST
    else if kind == MSG_REQ_WRITE_FILE then CanWrite(s, hash)
    else
      var wanted := if kind == MSG_REQ_OPEN_FILE then SESSION_FILE_NEVER_OPENED else SESSION_FILE_ALREADY_OPENED;
      if HasOpened(s, hash) == wanted then 0 else HasOpened(s, hash)
  }

  /** The file-system call a file request leads to. */
  function FsCall(cfg: Config, client: int, msg: Message): Request
    requires cfg.tableSize > 0 && IsFileRequest(msg.kind)
  {
    var name := msg.file.name;
    if msg.kind == MSG_REQ_OPEN_FILE then
      if HasCreate(msg.flags) then InsertR(client, msg.file, HasLock(msg.flags))
      else if HasLock(msg.flags) then LockR(client, name)
      else TouchR(client, name)
    else if msg.kind == MSG_REQ_READ_FILE then TouchR(client, name)
    else if msg.kind == MSG_REQ_LOCK_FILE then LockR(client, name)
    else if msg.kind == MSG_REQ_REMOVE_FILE then RemoveR(client, name)
    else if msg.kind == MSG_REQ_WRITE_FILE then ModifyR(client, msg.file)
    else if msg.kind == MSG_REQ_APPEND_TO_FILE then AppendR(client, msg.file)
    else UnlockR(client, KeyOf(cfg, name))
  }

  /** The session after the file-system call and the error it adds: a file opened or closed is recorded. A refused
      removal closes the file all the same. */
  function Record(s: Session, kind: int, hash: nat, flags: int, res: int): Change {
    if kind == MSG_REQ_OPEN_FILE then
      if res == 0 then AddOpened(s, hash, flags) else Change(s, res)
    else if kind == MSG_REQ_CLOSE_FILE then RemOpened(s, hash)
    else if kind == MSG_REQ_REMOVE_FILE then
      var c := RemOpened(s, hash);
      if c.res == 0 then Change(c.session, res) else c
    else Change(s, res)
  }

  /** The files attached to the answer: the file read, or the files ejected. */
  function Attached(cfg: Config, fs: State, kind: int, name: string, o: Outcome): seq<File>
    requires cfg.tableSize > 0
  {
    var i := Find(cfg, fs.cache, KeyOf(cfg, name));
    if kind == MSG_REQ_READ_FILE && i >= 0 then [fs.cache[i].file] else o.ejected
  }

  function HandleFile(cfg: Config, fs: State, s: Session, client: int, msg: Message): Handled
    requires cfg.tableSize > 0 && IsFileRequest(msg.kind)
  {
    var hash := cfg.hash(msg.file.name);
    var objection := Objection(s, msg.kind, hash);
    if objection != 0 then Handled(fs, s, Answer(StatusOf(objection), []), [])
    else
      var o := Apply(cfg, fs, FsCall(cfg, client, msg));
      if o.res == FS_CLIENT_WAITING_ON_LOCK then Handled(o.state, s, NO_RESPONSE, o.notes)
      else
        var c := Record(s, msg.kind, hash, msg.flags, o.res);
        Handled(o.state, c.session, Answer(StatusOf(c.res), Attached(cfg, fs, msg.kind, msg.file.name, o)), o.notes)
  }

  /** The hashes a session lists. */
  function OpenedHashes(files: seq<Opened>): (hashes: seq<nat>)
    ensures |hashes| == |files| && forall i :: 0 <= i < |files| ==> hashes[i] == files[i].hash
  {
    if files == [] then [] else [files[0].hash] + OpenedHashes(files[1..])
  }

  /** handleWork. `sample` is what fs_obtain_n returns. Closing a session that is not there is answered with
      success. */
  function HandleWork(cfg: Config, fs: State, s: Session, client: int, msg: Message, sample: seq<File>): Handled
    requires cfg.tableSize > 0
  {
    if msg.kind == MSG_REQ_OPEN_SESSION then
      var c := Create(s);
      Handled(fs, c.session, Answer(StatusOf(c.res), []), [])
    else if msg.kind == MSG_REQ_CLOSE_SESSION then
      if s.valid then
        var o := Clean(cfg, fs, client, OpenedHashes(s.files));
        Handled(o.state, NO_SESSION, Answer(RESP_STATUS_OK, []), o.notes)
      else Handled(fs, s, Answer(RESP_STATUS_OK, []), [])
    else if msg.kind == MSG_REQ_READ_N_FILES then Handled(fs, s, Answer(RESP_STATUS_OK, sample), [])
    else if IsFileRequest(msg.kind) then HandleFile(cfg, fs, s, client, msg)
    else Handled(fs, s, Answer(RESP_STATUS_INVALID_ARG, []), [])
  }

  /** The client now waits for a lock and gets its answer later. */
  predicate Waits(h: Handled) {
    h.response.kind == MSG_NONE
  }

  // ---------------------------------------------------------------- one request

  /** The file system stays in order, exactly the requester starts to wait when it is told to, and whoever stops
      waiting is notified. */
  ghost predicate KeepsOrder(cfg: Config, fs: State, client: int, h: Handled) {
    && Inv(cfg, h.fs)
    && Queued(fs.cache) + (if Waits(h) then multiset{client} else multiset{}) == Queued(h.fs.cache) + Fds(h.notes)
  }

  lemma FileKeepsOrder(cfg: Config, fs: State, s: Session, client: int, msg: Message)
    requires Inv(cfg, fs) && Lawful(fs, client) && cfg.tableSize > 0 && IsFileRequest(msg.kind)
    ensures KeepsOrder(cfg, fs, client, HandleFile(cfg, fs, s, client, msg))
  {
    hide Inv, Lawful, Queued, Fds, Apply, FsCall, Objection, Record, Attached;
    FdsNone();
    var r := FsCall(cfg, client, msg);
    ApplyKeepsInv(cfg, fs, r) by { CallIsBy(cfg, client, msg); }
    ApplyConserves(cfg, fs, r);
    CallIsBy(cfg, client, msg);
  }

  lemma CallIsBy(cfg: Config, client: int, msg: Message)
    requires cfg.tableSize > 0 && IsFileRequest(msg.kind)
    ensures FsCall(cfg, client, msg).client == client
  {
  }

  lemma HandleKeepsInv(cfg: Config, fs: State, s: Session, client: int, msg: Message, sample: seq<File>)
    requires Inv(cfg, fs) && Lawful(fs, client)
    ensures cfg.tableSize > 0 && KeepsOrder(cfg, fs, client, HandleWork(cfg, fs, s, client, msg, sample))
  {
    hide Inv, Lawful, Queued, Fds, Clean, HandleFile;
    InvConfig(cfg, fs);
    FdsNone();
    if msg.kind == MSG_REQ_CLOSE_SESSION {
      CleanKeepsInv(cfg, fs, client, OpenedHashes(s.files));
    } else if IsFileRequest(msg.kind) {
      FileKeepsOrder(cfg, fs, s, client, msg);
    }
  }

  /** A request for a lock on an existing file: a lock request, or an open request with the lock flag and without
      the create flag. */
  predicate AsksForLock(msg: Message) {
    msg.kind == MSG_REQ_LOCK_FILE || (msg.kind == MSG_REQ_OPEN_FILE && HasLock(msg.flags) && !HasCreate(msg.flags))
  }

  /** Another client owns the file and its waiting queue has room. */
  predicate IsHeldByAnother(cfg: Config, fs: State, client: int, name: string)
    requires cfg.tableSize > 0
  {
    var i := Find(cfg, fs.cache, KeyOf(cfg, name));
    && i >= 0 && fs.cache[i].owner != EMPTY_OWNER && fs.cache[i].owner != client
    && |fs.cache[i].waiting| < MAX_CLIENT_WAITING_ON_LOCK
  }

  /** Exactly when a client is told to wait. */
  lemma WaitsIff(cfg: Config, fs: State, s: Session, client: int, msg: Message, sample: seq<File>)
    requires cfg.tableSize > 0
    ensures var h := HandleWork(cfg, fs, s, client, msg, sample);
            && (Waits(h) <==> AsksForLock(msg) && Objection(s, msg.kind, cfg.hash(msg.file.name)) == 0
                              && IsHeldByAnother(cfg, fs, client, msg.file.name))
            && (Waits(h) ==> h.session == s)
  {
    hide Find, Balance, MoveToTop, Clean, Objection, KeyOf;
  }

  /** Sessions stay well formed. */
  lemma HandleKeepsSession(cfg: Config, fs: State, s: Session, client: int, msg: Message, sample: seq<File>)
    requires cfg.tableSize > 0 && WellFormed(s)
    ensures WellFormed(HandleWork(cfg, fs, s, client, msg, sample).session)
  {
    hide Apply, Clean, WellFormed, AddOpened, RemOpened, Place;
    var hash := cfg.hash(msg.file.name);
    AddIsUpdate(s, hash, msg.flags);
    RemIsDelete(s, hash);
    assert WellFormed(NO_SESSION) && WellFormed(Session(true, [])) by { EmptyIsWellFormed(); }
  }

  lemma EmptyIsWellFormed()
    ensures WellFormed(NO_SESSION) && WellFormed(Session(true, []))
  {
  }

  // ---------------------------------------------------------------- answers that do not tell what happened

  /** Closing a session is always answered with success, so the answer is the one destroySession earns exactly when
      there is a session. */
  lemma CloseAnswersIff(cfg: Config, fs: State, s: Session, client: int, msg: Message, sample: seq<File>)
    requires cfg.tableSize > 0 && WellFormed(s) && msg.kind == MSG_REQ_CLOSE_SESSION
    ensures var h := HandleWork(cfg, fs, s, client, msg, sample);
            && h.session == NO_SESSION
            && (h.response == Answer(StatusOf(Destroy(s).res), []) <==> s.valid)
  {
  }

  /** Without a session nothing is closed, and the client is told that it was. */
  lemma ClosesNothing(cfg: Config, client: int)
    requires cfg.tableSize > 0
    ensures var msg := Message(MSG_REQ_CLOSE_SESSION, 0, File("", ""));
            var h := HandleWork(cfg, State([], 0, 0), NO_SESSION, client, msg, []);
            && Destroy(NO_SESSION).res == SESSION_NOT_EXIST && StatusOf(SESSION_NOT_EXIST) == RESP_STATUS_NOT_PERMITTED
            && h.response == Answer(RESP_STATUS_OK, [])
  {
  }

  /** The session listed the file before and does not any more. */
  ghost predicate Closed(before: Session, after: Session, hash: nat) {
    hash in FlagsOf(before.files) && hash !in FlagsOf(after.files)
  }

  /** The file was cached before and is not any more. */
  ghost predicate Dropped(cfg: Config, before: State, after: State, key: nat)
    requires cfg.tableSize > 0
  {
    Lookup(cfg, before.cache, key).Some? && Lookup(cfg, after.cache, key).None?
  }

  lemma RemovalCloses(s: Session, hash: nat)
    requires WellFormed(s)
    ensures Objection(s, MSG_REQ_REMOVE_FILE, hash) == 0 ==>
            RemOpened(s, hash).res == 0 && Closed(s, RemOpened(s, hash).session, hash)
  {
    hide Place, FlagsOf;
    RemIsDelete(s, hash);
    WritableIff(s, hash);
  }

  lemma RemovalDrops(cfg: Config, fs: State, client: int, name: string)
    requires Inv(cfg, fs)
    ensures var o, key := Remove(cfg, fs, client, name), KeyOf(cfg, name);
            && (Dropped(cfg, fs, o.state, key) <==> Owns(cfg, fs.cache, client, key))
            && (Lookup(cfg, o.state.cache, key).Some? <==>
                Lookup(cfg, fs.cache, key).Some? && !Owns(cfg, fs.cache, client, key))
            && (StatusOf(o.res) == RESP_STATUS_OK <==> Owns(cfg, fs.cache, client, key))
            && o.res != FS_CLIENT_WAITING_ON_LOCK
  {
    hide Inv, Lookup, Remove, KeyOf;
    RemoveCases(cfg, fs, client, name);
  }

  /** A removal the session lets through closes the file in every case, but takes it out of the cache, and is answered
      with success, exactly when the client owns it: then, and only then, session and cache do the same. */
  lemma RemovalAgreesIff(cfg: Config, fs: State, s: Session, client: int, msg: Message)
    requires Inv(cfg, fs) && WellFormed(s) && msg.kind == MSG_REQ_REMOVE_FILE && cfg.tableSize > 0
    requires Objection(s, msg.kind, cfg.hash(msg.file.name)) == 0
    ensures var hash, key := cfg.hash(msg.file.name), KeyOf(cfg, msg.file.name);
            var h := HandleFile(cfg, fs, s, client, msg);
            && Closed(s, h.session, hash)
            && (Dropped(cfg, fs, h.fs, key) <==> Owns(cfg, fs.cache, client, key))
            && ((Closed(s, h.session, hash) <==> Dropped(cfg, fs, h.fs, key)) <==> Owns(cfg, fs.cache, client, key))
            && (Lookup(cfg, h.fs.cache, key).Some? <==>
                Lookup(cfg, fs.cache, key).Some? && !Owns(cfg, fs.cache, client, key))
            && (h.response.status == RESP_STATUS_OK <==> Owns(cfg, fs.cache, client, key))
  {
    hide Inv, Closed, Dropped, Owns, Lookup, Remove, RemOpened, Objection, KeyOf;
    RemovalCloses(s, cfg.hash(msg.file.name));
    RemovalDrops(cfg, fs, client, msg.file.name);
  }
}
