/** What each request does for its client, kind by kind (server/src/server.c:686-1070): to the files, to the session,
    and in the answer. */
module HandlerEffects {
  import opened CircQueue
  import opened Store
  import opened StoreInvariant
  import opened StoreSteps
  import opened StoreClean
  import opened StoreStakes
  import opened StoreEffects
  import opened Protocol
  import opened Session
  import opened Handler

  // ---------------------------------------------------------------- vocabulary

  /** The session lets the request through: to open, a file that is not open; to write, one opened with both flags; for
      anything else, one that is open. */
  ghost predicate Admits(s: Session, kind: int, hash: nat) {
    && s.valid
    && if kind == MSG_REQ_OPEN_FILE then hash !in FlagsOf(s.files)
       else
         && hash in FlagsOf(s.files)
         && (kind == MSG_REQ_WRITE_FILE ==> FlagsOf(s.files)[hash] == FLAG_CREATE + FLAG_LOCK)
  }

  /** The client is answered with this status and these files. */
  ghost predicate Says(h: Handled, status: int, files: seq<File>) {
    h.response == Response(if files == [] then MSG_RESP_SIMPLE else MSG_RESP_WITH_FILES, status, files)
  }

  /** The store is as it was and nobody is told anything. */
  ghost predicate Idles(fs: State, h: Handled) {
    h.fs == fs && h.notes == []
  }

  /** What happened to the store, with these files handed out. */
  ghost function Effect(h: Handled, files: seq<File>): Outcome {
    Outcome(h.fs, 0, files, h.notes)
  }

  /** The owner of this entry gives it up: its first waiter owns it and is told, or nobody owns it; the file is then the
      most recently used one. */
  ghost predicate GivenUpTo(cfg: Config, fs: State, h: Handled, key: nat, e: Entry)
    requires cfg.tableSize > 0
  {
    && (e.waiting == [] ==>
          MadeNewest(cfg, fs, Effect(h, []), key, Entry(EMPTY_OWNER, e.file, [])) && h.notes == [])
    && (e.waiting != [] ==>
          && MadeNewest(cfg, fs, Effect(h, []), key, Entry(e.waiting[0], e.file, e.waiting[1..]))
          && h.notes == [Notification(e.waiting[0], 0)])
    && forall k :: Lookup(cfg, h.fs.cache, k) == if k == key then Some(Released(e)) else Lookup(cfg, fs.cache, k)
  }

  /** The session lists the file with these flags, if it has room; the status tells. */
  ghost predicate Lists(s: Session, after: Session, hash: nat, flags: int) {
    if |s.files| < MAX_CLIENT_OPENED_FILES then after.valid && FlagsOf(after.files) == FlagsOf(s.files)[hash := flags]
    else after == s
  }

  function ListedStatus(s: Session): int {
    if |s.files| < MAX_CLIENT_OPENED_FILES then RESP_STATUS_OK else RESP_STATUS_GENERIC_ERROR
  }

  // ---------------------------------------------------------------- refusals of the session

  lemma ObjectionIff(s: Session, kind: int, hash: nat)
    requires WellFormed(s)
    ensures Objection(s, kind, hash) == 0 <==> Admits(s, kind, hash)
    ensures !Admits(s, kind, hash) ==>
              StatusOf(Objection(s, kind, hash))
              == if !s.valid then RESP_STATUS_NOT_PERMITTED
                 else if kind == MSG_REQ_OPEN_FILE then RESP_STATUS_INVALID_ARG
                 else if hash !in FlagsOf(s.files) then RESP_STATUS_NOT_FOUND
                 else RESP_STATUS_NOT_PERMITTED
  {
    hide Place, FlagsOf, WellFormed;
    if s.valid { SessionAnswers(s, hash); }
  }

  lemma SessionAnswers(s: Session, hash: nat)
    requires WellFormed(s) && s.valid
    ensures HasOpened(s, hash) == if hash in FlagsOf(s.files) then SESSION_FILE_ALREADY_OPENED
            else SESSION_FILE_NEVER_OPENED
    ensures CanWrite(s, hash) == if hash !in FlagsOf(s.files) then SESSION_FILE_NEVER_OPENED
            else if FlagsOf(s.files)[hash] == FLAG_CREATE + FLAG_LOCK then 0 else SESSION_CANNOT_WRITE_FILE
  {
    hide Place;
    FlagsAt(s.files, hash);
  }

  /** A request the session does not let through changes nothing; the status tells why. */
  lemma HandlesRefused(cfg: Config, fs: State, s: Session, client: int, msg: Message, sample: seq<File>)
    requires cfg.tableSize > 0 && WellFormed(s) && IsFileRequest(msg.kind)
    requires !Admits(s, msg.kind, cfg.hash(msg.file.name))
    ensures var h := HandleWork(cfg, fs, s, client, msg, sample);
            && Idles(fs, h) && h.session == s
            && Says(h, if !s.valid then RESP_STATUS_NOT_PERMITTED
                       else if msg.kind == MSG_REQ_OPEN_FILE then RESP_STATUS_INVALID_ARG
                       else if cfg.hash(msg.file.name) !in FlagsOf(s.files) then RESP_STATUS_NOT_FOUND
                       else RESP_STATUS_NOT_PERMITTED, [])
  {
    hide Objection, FlagsOf, WellFormed, Apply, FsCall, Record, Attached;
    ObjectionIff(s, msg.kind, cfg.hash(msg.file.name));
  }

  // ---------------------------------------------------------------- requests on an open file

  /** Reading answers with exactly the cached file, which is then the most recently used one. */
  lemma HandlesRead(cfg: Config, fs: State, s: Session, client: int, msg: Message, sample: seq<File>)
    requires Inv(cfg, fs) && WellFormed(s) && msg.kind == MSG_REQ_READ_FILE
    requires Admits(s, msg.kind, cfg.hash(msg.file.name))
    ensures cfg.tableSize > 0
    ensures var h, key := HandleWork(cfg, fs, s, client, msg, sample), KeyOf(cfg, msg.file.name);
            var l := Lookup(cfg, fs.cache, key);
            && h.session == s && h.notes == []
            && if l.None? then Idles(fs, h) && Says(h, RESP_STATUS_INVALID_ARG, [])
               else Says(h, RESP_STATUS_OK, [l.value.file]) && MadeNewest(cfg, fs, Effect(h, []), key, l.value)
  {
    hide Inv, Objection, WellFormed, Touch, KeyOf, Find, MadeNewest;
    InvConfig(cfg, fs);
    ObjectionIff(s, msg.kind, cfg.hash(msg.file.name));
    TouchEffect(cfg, fs, msg.file.name);
    NewestWithout(cfg, fs, Touch(cfg, fs, msg.file.name), KeyOf(cfg, msg.file.name));
  }

  /** Only the state counts for what is on top. */
  lemma NewestWithout(cfg: Config, fs: State, o: Outcome, key: nat)
    requires cfg.tableSize > 0
    ensures forall e, notes ::
              MadeNewest(cfg, fs, o, key, e) ==> MadeNewest(cfg, fs, Outcome(o.state, 0, [], notes), key, e)
  {
  }

  /** Unlocking lets the owner give the file up and refuses everybody else. */
  lemma HandlesUnlock(cfg: Config, fs: State, s: Session, client: int, msg: Message, sample: seq<File>)
    requires Inv(cfg, fs) && WellFormed(s) && msg.kind == MSG_REQ_UNLOCK_FILE
    requires Admits(s, msg.kind, cfg.hash(msg.file.name))
    ensures cfg.tableSize > 0
    ensures var h, key := HandleWork(cfg, fs, s, client, msg, sample), KeyOf(cfg, msg.file.name);
            var l := Lookup(cfg, fs.cache, key);
            && h.session == s
            && if l.None? then Idles(fs, h) && Says(h, RESP_STATUS_INVALID_ARG, [])
               else if l.value.owner != client then Idles(fs, h) && Says(h, RESP_STATUS_NOT_PERMITTED, [])
               else Says(h, RESP_STATUS_OK, []) && GivenUpTo(cfg, fs, h, key, l.value)
  {
    hide Inv, Objection, WellFormed, UnlockKey, KeyOf, Find, GivenUpTo, Others;
    InvConfig(cfg, fs);
    ObjectionIff(s, msg.kind, cfg.hash(msg.file.name));
    UnlockEffect(cfg, fs, client, KeyOf(cfg, msg.file.name));
    if Owns(cfg, fs.cache, client, KeyOf(cfg, msg.file.name)) {
      UnlockGivesUp(cfg, fs, client, KeyOf(cfg, msg.file.name), HandleWork(cfg, fs, s, client, msg, sample));
    }
  }

  lemma UnlockGivesUp(cfg: Config, fs: State, client: int, key: nat, h: Handled)
    requires Inv(cfg, fs) && Owns(cfg, fs.cache, client, key)
    requires h.fs == UnlockKey(cfg, fs, client, key).state && h.notes == UnlockKey(cfg, fs, client, key).notes
    ensures GivenUpTo(cfg, fs, h, key, Lookup(cfg, fs.cache, key).value)
  {
    hide Inv, UnlockKey, Lookup;
    InvConfig(cfg, fs);
    UnlockEffect(cfg, fs, client, key);
    forall k
      ensures Lookup(cfg, h.fs.cache, k)
              == if k == key then Some(Released(Lookup(cfg, fs.cache, key).value)) else Lookup(cfg, fs.cache, k)
    {
      UnlockLookup(cfg, fs, client, key, k);
    }
  }

  /** Locking a free file or one's own makes its client the owner; a client that finds it locked is the last in the
      queue and gets no answer yet, or is refused when the queue is full. */
  lemma HandlesLock(cfg: Config, fs: State, s: Session, client: int, msg: Message, sample: seq<File>)
    requires Inv(cfg, fs) && WellFormed(s) && msg.kind == MSG_REQ_LOCK_FILE
    requires Admits(s, msg.kind, cfg.hash(msg.file.name))
    ensures cfg.tableSize > 0
    ensures var h := HandleWork(cfg, fs, s, client, msg, sample);
            h.session == s && Locks(cfg, fs, client, msg.file.name, h, RESP_STATUS_OK)
  {
    hide Inv, Objection, WellFormed, TryLock, KeyOf, Find, Lookup, Others, EntryKey, Locks;
    InvConfig(cfg, fs);
    ObjectionIff(s, msg.kind, cfg.hash(msg.file.name));
    LockEffect(cfg, fs, client, msg.file.name);
    LockCases(cfg, fs, client, msg.file.name, HandleWork(cfg, fs, s, client, msg, sample), RESP_STATUS_OK);
  }

  /** What asking for a lock does to the store, and the answer; `granted` is the status when the lock is given. */
  ghost predicate Locks(cfg: Config, fs: State, client: int, name: string, h: Handled, granted: int)
    requires cfg.tableSize > 0
  {
    var key := KeyOf(cfg, name);
    var l := Lookup(cfg, fs.cache, key);
    if l.None? then Idles(fs, h) && Says(h, RESP_STATUS_INVALID_ARG, [])
    else
      var e := l.value;
      if e.owner == EMPTY_OWNER || e.owner == client then
        && Says(h, granted, []) && h.notes == []
        && MadeNewest(cfg, fs, Effect(h, []), key, Entry(client, e.file, e.waiting))
      else if |e.waiting| < MAX_CLIENT_WAITING_ON_LOCK then
        && h.response == NO_RESPONSE && h.notes == []
        && RewrittenInPlace(cfg, fs, Effect(h, []), key, Entry(e.owner, e.file, e.waiting + [client]))
      else Idles(fs, h) && Says(h, RESP_STATUS_NOT_PERMITTED, [])
  }

  lemma LockCases(cfg: Config, fs: State, client: int, name: string, h: Handled, granted: int)
    requires Inv(cfg, fs)
    requires var o := TryLock(cfg, fs, client, name);
             && h.fs == o.state && h.notes == o.notes
             && h.response == (if o.res == FS_CLIENT_WAITING_ON_LOCK then NO_RESPONSE
                               else Answer(if o.res == 0 then granted else StatusOf(o.res), []))
    ensures cfg.tableSize > 0 && Locks(cfg, fs, client, name, h, granted)
  {
    hide Inv, TryLock, KeyOf, Find, Lookup, Others, EntryKey;
    InvConfig(cfg, fs);
    LockEffect(cfg, fs, client, name);
  }

  /** Removing takes the owner's file out of the store and tells everybody who waits for it. The session forgets the
      file in every case. */
  lemma HandlesRemove(cfg: Config, fs: State, s: Session, client: int, msg: Message, sample: seq<File>)
    requires Inv(cfg, fs) && WellFormed(s) && msg.kind == MSG_REQ_REMOVE_FILE
    requires Admits(s, msg.kind, cfg.hash(msg.file.name))
    ensures cfg.tableSize > 0
    ensures var h, key := HandleWork(cfg, fs, s, client, msg, sample), KeyOf(cfg, msg.file.name);
            var l := Lookup(cfg, fs.cache, key);
            && h.session.valid && FlagsOf(h.session.files) == FlagsOf(s.files) - {cfg.hash(msg.file.name)}
            && if l.None? then Idles(fs, h) && Says(h, RESP_STATUS_INVALID_ARG, [])
               else if l.value.owner != client then Idles(fs, h) && Says(h, RESP_STATUS_NOT_PERMITTED, [])
               else
                 var e := l.value;
                 && Says(h, RESP_STATUS_OK, []) && h.fs.cache == Others(cfg, fs.cache, key)
                 && h.fs.slotUsed == fs.slotUsed - 1
                 && h.fs.bytesUsed == fs.bytesUsed - |e.file.name| - |e.file.content|
                 && |h.notes| == |e.waiting|
                 && forall j :: 0 <= j < |e.waiting| ==> h.notes[j] == Notification(e.waiting[j], FS_FILE_NOT_EXISTS)
  {
    hide Inv, Objection, WellFormed, Remove, KeyOf, Find, Others, RemOpened, FlagsOf, Place;
    InvConfig(cfg, fs);
    ObjectionIff(s, msg.kind, cfg.hash(msg.file.name));
    RemIsDelete(s, cfg.hash(msg.file.name));
    RemStaysValid(s, cfg.hash(msg.file.name));
    RemoveEffect(cfg, fs, client, msg.file.name);
  }

  lemma RemStaysValid(s: Session, hash: nat)
    ensures RemOpened(s, hash).session.valid == s.valid
  {
    hide Place, Without;
  }

  /** Closing lets the owner give the file up and leaves the store alone for everybody else. It always succeeds, and the
      session forgets the file. */
  lemma HandlesClose(cfg: Config, fs: State, s: Session, client: int, msg: Message, sample: seq<File>)
    requires Inv(cfg, fs) && WellFormed(s) && msg.kind == MSG_REQ_CLOSE_FILE
    requires Admits(s, msg.kind, cfg.hash(msg.file.name))
    ensures cfg.tableSize > 0
    ensures var h, key := HandleWork(cfg, fs, s, client, msg, sample), KeyOf(cfg, msg.file.name);
            && h.session.valid && FlagsOf(h.session.files) == FlagsOf(s.files) - {cfg.hash(msg.file.name)}
            && Says(h, RESP_STATUS_OK, [])
            && if Owns(cfg, fs.cache, client, key) then GivenUpTo(cfg, fs, h, key, Lookup(cfg, fs.cache, key).value)
               else Idles(fs, h)
  {
    hide Inv, Objection, WellFormed, UnlockKey, KeyOf, Find, GivenUpTo, Others, RemOpened, FlagsOf, Place;
    InvConfig(cfg, fs);
    var key := KeyOf(cfg, msg.file.name);
    ObjectionIff(s, msg.kind, cfg.hash(msg.file.name));
    RemIsDelete(s, cfg.hash(msg.file.name));
    RemStaysValid(s, cfg.hash(msg.file.name));
    UnlockEffect(cfg, fs, client, key);
    if Owns(cfg, fs.cache, client, key) {
      UnlockGivesUp(cfg, fs, client, key, HandleWork(cfg, fs, s, client, msg, sample));
    }
  }

  // ---------------------------------------------------------------- requests that may eject files

  /** This entry is written on top of the other files, by a counter this far below the true size; what the limits then
      ask for is attached to the answer, in order, and whoever waited for it is told. */
  ghost predicate WritesAndAnswers(cfg: Config, fs: State, h: Handled, status: int, e: Entry, drift: int)
    requires cfg.tableSize > 0
  {
    && Says(h, status, h.response.files)
    && Evicts(cfg, Others(cfg, fs.cache, EntryKey(cfg, e)) + [e], drift, Effect(h, h.response.files))
    && Writes(cfg, fs, Effect(h, h.response.files), e, drift)
    && h.response.files + Files(h.fs.cache) == Files(Others(cfg, fs.cache, EntryKey(cfg, e))) + [e.file]
  }

  lemma EvictsAndAnswers(cfg: Config, fs: State, o: Outcome, h: Handled, status: int, e: Entry, drift: int)
    requires Inv(cfg, fs) && Evicts(cfg, Others(cfg, fs.cache, EntryKey(cfg, e)) + [e], drift, o)
    requires h.fs == o.state && h.notes == o.notes && h.response == Answer(status, o.ejected)
    ensures cfg.tableSize > 0 && WritesAndAnswers(cfg, fs, h, status, e, drift)
  {
    hide Inv, Writes, Others, EntryKey, Within;
    InvConfig(cfg, fs);
    var p := Effect(h, h.response.files);
    assert Evicts(cfg, Others(cfg, fs.cache, EntryKey(cfg, e)) + [e], drift, p);
    hide Evicts;
    EvictsWrites(cfg, fs, e, drift, p);
    HandedOut(cfg, Others(cfg, fs.cache, EntryKey(cfg, e)) + [e], drift, p);
    FilesConcat(Others(cfg, fs.cache, EntryKey(cfg, e)), [e]);
  }

  /** Writing replaces name and content of the client's own file. */
  lemma HandlesWrite(cfg: Config, fs: State, s: Session, client: int, msg: Message, sample: seq<File>)
    requires Inv(cfg, fs) && WellFormed(s) && msg.kind == MSG_REQ_WRITE_FILE
    requires Admits(s, msg.kind, cfg.hash(msg.file.name))
    ensures cfg.tableSize > 0
    ensures var h := HandleWork(cfg, fs, s, client, msg, sample);
            var l := Lookup(cfg, fs.cache, KeyOf(cfg, msg.file.name));
            && h.session == s
            && if l.None? then Idles(fs, h) && Says(h, RESP_STATUS_INVALID_ARG, [])
               else if l.value.owner != client then Idles(fs, h) && Says(h, RESP_STATUS_NOT_PERMITTED, [])
               else if |msg.file.name| + |msg.file.content| > cfg.bytesMax then
                 Idles(fs, h) && Says(h, RESP_STATUS_INVALID_ARG, [])
               else
                 WritesAndAnswers(cfg, fs, h, RESP_STATUS_OK, Entry(client, msg.file, l.value.waiting), Drift(fs))
  {
    hide Inv, Objection, WellFormed, Modify, KeyOf, Find, Lookup, Others, Evicts, WritesAndAnswers, EntryKey, Drift;
    InvConfig(cfg, fs);
    var o, h := Modify(cfg, fs, client, msg.file), HandleWork(cfg, fs, s, client, msg, sample);
    ObjectionIff(s, msg.kind, cfg.hash(msg.file.name));
    ModifyEffect(cfg, fs, client, msg.file);
    if o.res == 0 {
      var e := Entry(client, msg.file, Lookup(cfg, fs.cache, KeyOf(cfg, msg.file.name)).value.waiting);
      KeyOfEntry(cfg, e);
      EvictsAndAnswers(cfg, fs, o, h, RESP_STATUS_OK, e, Drift(fs));
    }
  }

  /** Appending lets the content in the request follow that of a file the client owns or nobody does. */
  lemma HandlesAppend(cfg: Config, fs: State, s: Session, client: int, msg: Message, sample: seq<File>)
    requires Inv(cfg, fs) && WellFormed(s) && msg.kind == MSG_REQ_APPEND_TO_FILE
    requires Admits(s, msg.kind, cfg.hash(msg.file.name))
    ensures cfg.tableSize > 0
    ensures var h := HandleWork(cfg, fs, s, client, msg, sample);
            var l := Lookup(cfg, fs.cache, KeyOf(cfg, msg.file.name));
            && h.session == s
            && if l.None? then Idles(fs, h) && Says(h, RESP_STATUS_INVALID_ARG, [])
               else if l.value.owner != client && l.value.owner != EMPTY_OWNER then
                 Idles(fs, h) && Says(h, RESP_STATUS_NOT_PERMITTED, [])
               else if |msg.file.name| + |msg.file.content| + |l.value.file.content| > cfg.bytesMax then
                 Idles(fs, h) && Says(h, RESP_STATUS_INVALID_ARG, [])
               else
                 var content := l.value.file.content + msg.file.content;
                 WritesAndAnswers(cfg, fs, h, RESP_STATUS_OK,
                                  Entry(l.value.owner, File(l.value.file.name, content), l.value.waiting),
                                  Drift(fs) + |content| - |msg.file.name|)
  {
    hide Inv, Objection, WellFormed, Append, KeyOf, Find, Lookup, Others, Evicts, WritesAndAnswers, EntryKey, Drift;
    InvConfig(cfg, fs);
    var o, h := Append(cfg, fs, client, msg.file), HandleWork(cfg, fs, s, client, msg, sample);
    var key := KeyOf(cfg, msg.file.name);
    ObjectionIff(s, msg.kind, cfg.hash(msg.file.name));
    AppendEffect(cfg, fs, client, msg.file);
    if o.res == 0 {
      var l := Lookup(cfg, fs.cache, key).value;
      var content := l.file.content + msg.file.content;
      var e := Entry(l.owner, File(l.file.name, content), l.waiting);
      FoundKey(cfg, fs, key, e);
      EvictsAndAnswers(cfg, fs, o, h, RESP_STATUS_OK, e, Drift(fs) + |content| - |msg.file.name|);
    }
  }

  // ---------------------------------------------------------------- opening

  /** Opening without flags succeeds exactly for a cached file, which is then the most recently used one and listed by
      the session. */
  lemma HandlesOpen(cfg: Config, fs: State, s: Session, client: int, msg: Message, sample: seq<File>)
    requires Inv(cfg, fs) && WellFormed(s) && msg.kind == MSG_REQ_OPEN_FILE
    requires !HasCreate(msg.flags) && !HasLock(msg.flags) && Admits(s, msg.kind, cfg.hash(msg.file.name))
    ensures cfg.tableSize > 0
    ensures var h, key := HandleWork(cfg, fs, s, client, msg, sample), KeyOf(cfg, msg.file.name);
            var l := Lookup(cfg, fs.cache, key);
            if l.None? then Idles(fs, h) && h.session == s && Says(h, RESP_STATUS_INVALID_ARG, [])
            else
              && MadeNewest(cfg, fs, Effect(h, []), key, l.value) && h.notes == []
              && Lists(s, h.session, cfg.hash(msg.file.name), msg.flags) && Says(h, ListedStatus(s), [])
  {
    hide Inv, Objection, WellFormed, Touch, KeyOf, Find, Lookup, Others, AddOpened, FlagsOf;
    InvConfig(cfg, fs);
    ObjectionIff(s, msg.kind, cfg.hash(msg.file.name));
    OpenIsListed(s, cfg.hash(msg.file.name), msg.flags);
    TouchEffect(cfg, fs, msg.file.name);
  }

  lemma OpenIsListed(s: Session, hash: nat, flags: int)
    requires WellFormed(s) && Admits(s, MSG_REQ_OPEN_FILE, hash)
    ensures var c := AddOpened(s, hash, flags);
            Lists(s, c.session, hash, flags) && StatusOf(c.res) == ListedStatus(s) && c.res != FS_CLIENT_WAITING_ON_LOCK
  {
    hide Place, FlagsOf;
    AddIsUpdate(s, hash, flags);
    FlagsAt(s.files, hash);
  }

  /** Opening with the lock flag and without the create flag asks for the lock; a client that waits is not listed. */
  lemma HandlesOpenLock(cfg: Config, fs: State, s: Session, client: int, msg: Message, sample: seq<File>)
    requires Inv(cfg, fs) && WellFormed(s) && msg.kind == MSG_REQ_OPEN_FILE
    requires !HasCreate(msg.flags) && HasLock(msg.flags) && Admits(s, msg.kind, cfg.hash(msg.file.name))
    ensures cfg.tableSize > 0
    ensures var h, l := HandleWork(cfg, fs, s, client, msg, sample), Lookup(cfg, fs.cache, KeyOf(cfg, msg.file.name));
            && Locks(cfg, fs, client, msg.file.name, h, ListedStatus(s))
            && if l.Some? && (l.value.owner == EMPTY_OWNER || l.value.owner == client) then
                 Lists(s, h.session, cfg.hash(msg.file.name), msg.flags)
               else h.session == s
  {
    hide Inv, Objection, WellFormed, TryLock, KeyOf, Find, Lookup, Others, AddOpened, FlagsOf, Locks;
    InvConfig(cfg, fs);
    ObjectionIff(s, msg.kind, cfg.hash(msg.file.name));
    OpenIsListed(s, cfg.hash(msg.file.name), msg.flags);
    LockEffect(cfg, fs, client, msg.file.name);
    LockCases(cfg, fs, client, msg.file.name, HandleWork(cfg, fs, s, client, msg, sample), ListedStatus(s));
  }

  /** Opening with the create flag creates a file that is not cached, empty or not, locked when the lock flag is set. */
  lemma HandlesCreate(cfg: Config, fs: State, s: Session, client: int, msg: Message, sample: seq<File>)
    requires Inv(cfg, fs) && WellFormed(s) && msg.kind == MSG_REQ_OPEN_FILE
    requires HasCreate(msg.flags) && Admits(s, msg.kind, cfg.hash(msg.file.name))
    ensures cfg.tableSize > 0
    ensures var h := HandleWork(cfg, fs, s, client, msg, sample);
            if Lookup(cfg, fs.cache, KeyOf(cfg, msg.file.name)).Some? then
              Idles(fs, h) && h.session == s && Says(h, RESP_STATUS_INVALID_ARG, [])
            else
              && Lists(s, h.session, cfg.hash(msg.file.name), msg.flags)
              && WritesAndAnswers(cfg, fs, h, ListedStatus(s),
                                  Entry(if HasLock(msg.flags) then client else EMPTY_OWNER, msg.file, []), Drift(fs))
  {
    hide Inv, Objection, WellFormed, Insert, KeyOf, Find, Lookup, Others, Evicts, WritesAndAnswers, EntryKey, Drift,
         AddOpened, FlagsOf;
    InvConfig(cfg, fs);
    var key, h := KeyOf(cfg, msg.file.name), HandleWork(cfg, fs, s, client, msg, sample);
    ObjectionIff(s, msg.kind, cfg.hash(msg.file.name));
    OpenIsListed(s, cfg.hash(msg.file.name), msg.flags);
    InsertEffect(cfg, fs, client, msg.file, HasLock(msg.flags));
    var o := Insert(cfg, fs, client, msg.file, HasLock(msg.flags));
    if o.res == 0 {
      var e := Entry(if HasLock(msg.flags) then client else EMPTY_OWNER, msg.file, []);
      KeyOfEntry(cfg, e);
      var i := Found(cfg, fs, key);
      EvictsAndAnswers(cfg, fs, o, h, ListedStatus(s), e, Drift(fs));
    }
  }

  // ---------------------------------------------------------------- sessions, and everything else

  /** Opening a session gives a client without one an empty session; closing it releases every listed file the client
      owns, keeps all files, and is answered with success. */
  lemma HandlesSession(cfg: Config, fs: State, s: Session, client: int, msg: Message, sample: seq<File>, key: nat)
    requires Inv(cfg, fs) && Lawful(fs, client) && WellFormed(s)
    requires msg.kind == MSG_REQ_OPEN_SESSION || msg.kind == MSG_REQ_CLOSE_SESSION
    ensures cfg.tableSize > 0
    ensures var h := HandleWork(cfg, fs, s, client, msg, sample);
            && (msg.kind == MSG_REQ_OPEN_SESSION ==>
                  && Idles(fs, h) && h.session.valid
                  && (if s.valid then h.session == s else FlagsOf(h.session.files) == map[])
                  && Says(h, if s.valid then RESP_STATUS_NOT_PERMITTED else RESP_STATUS_OK, []))
            && (msg.kind == MSG_REQ_CLOSE_SESSION ==>
                  && !h.session.valid && FlagsOf(h.session.files) == map[] && Says(h, RESP_STATUS_OK, [])
                  && var l, hashes := Lookup(cfg, fs.cache, key), OpenedHashes(s.files);
                     Lookup(cfg, h.fs.cache, key)
                     == if Listed(cfg, hashes, key) && l.Some? && l.value.owner == client then Some(Released(l.value))
                        else l)
  {
    hide Inv, Lawful, Clean, Find, Lookup, Listed;
    InvConfig(cfg, fs);
    if msg.kind == MSG_REQ_CLOSE_SESSION {
      CleanLookup(cfg, fs, client, OpenedHashes(s.files), key);
      NothingListed(cfg, key);
    }
  }

  lemma NothingListed(cfg: Config, key: nat)
    requires cfg.tableSize > 0
    ensures !Listed(cfg, [], key)
  {
  }

  /** A message that is no request is refused; reading n files answers with the sample and changes nothing. */
  lemma HandlesOther(cfg: Config, fs: State, s: Session, client: int, msg: Message, sample: seq<File>)
    requires cfg.tableSize > 0 && !IsFileRequest(msg.kind)
    requires msg.kind != MSG_REQ_OPEN_SESSION && msg.kind != MSG_REQ_CLOSE_SESSION
    ensures var h := HandleWork(cfg, fs, s, client, msg, sample);
            && Idles(fs, h) && h.session == s
            && if msg.kind == MSG_REQ_READ_N_FILES then Says(h, RESP_STATUS_OK, sample)
               else Says(h, RESP_STATUS_INVALID_ARG, [])
  {
  }
}
