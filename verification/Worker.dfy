/** handleWork over the session and the file system in memory (server/src/server.c:686-1029). */
module Worker {
  import opened CircQueue
  import opened Store
  import opened StoreInvariant
  import opened StoreSteps
  import opened Cache
  import opened Protocol
  import opened Session
  import opened Handler
  import FS = FileSystem

  /** The session's arrays are none of the waiting queues' buffers: they are shorter. */
  lemma Apart(fs: FS.FileSystem, session: ClientSession)
    requires fs.Valid() && session.Valid()
    ensures forall e :: e in fs.gCache.list ==>
              && e.waitingLockQueue.data != session.flags
              && e.waitingLockQueue.data as object != session.filenames as object
  {
  }

  /** The session's objection to a request; the file system is not involved. */
  method Consult(fs: FS.FileSystem, session: ClientSession, kind: int, hash: nat) returns (res: int)
    requires fs.Valid() && session.Valid()
    ensures fs.Valid() && session.Valid()
    ensures fs.Abs() == old(fs.Abs()) && session.Abs() == old(session.Abs())
            && fs.gLockQueue.items == old(fs.gLockQueue.items)
    ensures res == Objection(session.Abs(), kind, hash)
  {
    hide FSCache.IsList, FS.AbsCache, FS.FileSystem.TableOk, CircQueue.Valid, FS.QueuesApart, CanWrite, HasOpened;
    Apart(fs, session);
    ghost var list, cache, table := fs.gCache.list, FS.AbsCache(fs.gCache.list), fs.gHashmap[..];
    if !session.isValid {
      res := SESSION_NOT_EXIST;
    } else if kind == MSG_REQ_WRITE_FILE {
      res := session.CanWriteIntoFile(hash);
    } else {
      var wanted := if kind == MSG_REQ_OPEN_FILE then SESSION_FILE_NEVER_OPENED else SESSION_FILE_ALREADY_OPENED;
      res := session.HasOpenedFile(hash);
      if res == wanted { res := 0; }
    }
    forall e | e in list
      ensures e.waitingLockQueue.Valid()
    {
    }
    assert fs.gHashmap[..] == table && FS.AbsCache(list) == cache;
  }

  /** addFileOpened, seen from the file system. */
  method Record(fs: FS.FileSystem, session: ClientSession, key: nat, flags: int) returns (res: int)
    requires fs.Valid() && session.Valid()
    modifies session, session.filenames, session.flags
    ensures fs.Valid() && session.Valid() && fs.Abs() == old(fs.Abs())
            && fs.gLockQueue.items == old(fs.gLockQueue.items)
    ensures Change(session.Abs(), res) == AddOpened(old(session.Abs()), key, flags)
  {
    hide FSCache.IsList, FS.AbsCache, FS.FileSystem.TableOk, CircQueue.Valid, FS.QueuesApart, ClientSession.Valid,
         AddOpened;
    Apart(fs, session);
    ghost var list, cache, table := fs.gCache.list, FS.AbsCache(fs.gCache.list), fs.gHashmap[..];
    res := session.AddFileOpened(key, flags);
    forall e | e in list
      ensures e.waitingLockQueue.Valid()
    {
    }
    assert fs.gHashmap[..] == table && FS.AbsCache(list) == cache;
  }

  /** remFileOpened, seen from the file system. */
  method Forget(fs: FS.FileSystem, session: ClientSession, key: nat) returns (res: int)
    requires fs.Valid() && session.Valid()
    modifies session, session.filenames, session.flags
    ensures fs.Valid() && session.Valid() && fs.Abs() == old(fs.Abs())
            && fs.gLockQueue.items == old(fs.gLockQueue.items)
    ensures Change(session.Abs(), res) == RemOpened(old(session.Abs()), key)
  {
    hide FSCache.IsList, FS.AbsCache, FS.FileSystem.TableOk, CircQueue.Valid, FS.QueuesApart, ClientSession.Valid,
         RemOpened;
    Apart(fs, session);
    ghost var list, cache, table := fs.gCache.list, FS.AbsCache(fs.gCache.list), fs.gHashmap[..];
    res := session.RemFileOpened(key);
    forall e | e in list
      ensures e.waitingLockQueue.Valid()
    {
    }
    assert fs.gHashmap[..] == table && FS.AbsCache(list) == cache;
  }

  /** Locking and looking up eject nothing and tell nobody anything. */
  lemma Quiet(cfg: Config, st: State, client: int, name: string)
    requires cfg.tableSize > 0
    ensures TryLock(cfg, st, client, name).ejected == [] && TryLock(cfg, st, client, name).notes == []
    ensures Touch(cfg, st, name).ejected == [] && Touch(cfg, st, name).notes == []
    ensures Touch(cfg, st, name).res == if Find(cfg, st.cache, KeyOf(cfg, name)) >= 0 then 0 else FS_FILE_NOT_EXISTS
  {
  }

  /** The call of an open request. */
  method OpenCall(fs: FS.FileSystem, client: int, msg: Message) returns (res: int, outFiles: seq<File>)
    requires fs.Valid() && Inv(fs.cfg, fs.Abs()) && fs.cfg.tableSize > 0 && msg.kind == MSG_REQ_OPEN_FILE
    requires var o := Apply(fs.cfg, fs.Abs(), FsCall(fs.cfg, client, msg));
             |fs.gLockQueue.items| + |o.notes| <= fs.gLockQueue.data.Length
    modifies fs.gHashmap, fs.gCache, fs.gCache.list, FS.QueuesOf(fs.gCache.list), FS.BuffersOf(fs.gCache.list)
    modifies fs.gLockQueue, fs.gLockQueue.data
    ensures fs.Valid() && OnlyNew(old(fs.gCache.list), fs.gCache.list)
    ensures var o := Apply(fs.cfg, old(fs.Abs()), FsCall(fs.cfg, client, msg));
            && fs.Abs() == o.state && res == o.res && fs.gLockQueue.items == old(fs.gLockQueue.items) + o.notes
            && outFiles == Attached(fs.cfg, old(fs.Abs()), msg.kind, msg.file.name, o)
  {
    hide FS.FileSystem.Valid, FS.FileSystem.Abs, Insert, TryLock, Touch, Inv;
    Quiet(fs.cfg, fs.Abs(), client, msg.file.name);
    outFiles := [];
    if HasCreate(msg.flags) {
      res, outFiles := fs.InsertFile(client, msg.file, HasLock(msg.flags));
    } else if HasLock(msg.flags) {
      res := fs.LockFile(client, msg.file);
    } else {
      res := fs.Exists(msg.file);
    }
  }

  /** MSG_REQ_OPEN_FILE */
  method OpenFile(fs: FS.FileSystem, session: ClientSession, client: int, msg: Message) returns (response: Response)
    requires fs.Valid() && session.Valid() && Inv(fs.cfg, fs.Abs()) && msg.kind == MSG_REQ_OPEN_FILE
    requires var h := HandleFile(fs.cfg, fs.Abs(), session.Abs(), client, msg);
             |fs.gLockQueue.items| + |h.notes| <= fs.gLockQueue.data.Length
    modifies fs.gHashmap, fs.gCache, fs.gCache.list, FS.QueuesOf(fs.gCache.list), FS.BuffersOf(fs.gCache.list)
    modifies fs.gLockQueue, fs.gLockQueue.data, session, session.filenames, session.flags
    ensures fs.Valid() && session.Valid() && OnlyNew(old(fs.gCache.list), fs.gCache.list)
    ensures var h := HandleFile(fs.cfg, old(fs.Abs()), old(session.Abs()), client, msg);
            && fs.Abs() == h.fs && session.Abs() == h.session && response == h.response
            && fs.gLockQueue.items == old(fs.gLockQueue.items) + h.notes
  {
    hide FS.FileSystem.Valid, FS.FileSystem.Abs, ClientSession.Valid;
    hide Apply, FsCall, AddOpened, Objection, Inv, Attached;
    var hash := fs.cfg.hash(msg.file.name);
    fs.ValidParts();
    var res := Consult(fs, session, msg.kind, hash);
    if res != 0 { return Answer(StatusOf(res), []); }
    Apart(fs, session);
    var outFiles;
    res, outFiles := OpenCall(fs, client, msg);
    if res == FS_CLIENT_WAITING_ON_LOCK { return NO_RESPONSE; }
    if res == 0 {
      res := Record(fs, session, hash, msg.flags);
    }
    response := Answer(StatusOf(res), outFiles);
  }

  /** MSG_REQ_CLOSE_FILE: the file is unlocked if it can be, and closed in any case. */
  method CloseFile(fs: FS.FileSystem, session: ClientSession, client: int, msg: Message) returns (response: Response)
    requires fs.Valid() && session.Valid() && msg.kind == MSG_REQ_CLOSE_FILE && fs.cfg.tableSize > 0
    requires var h := HandleFile(fs.cfg, fs.Abs(), session.Abs(), client, msg);
             |fs.gLockQueue.items| + |h.notes| <= fs.gLockQueue.data.Length
    modifies fs.gHashmap, fs.gCache, fs.gCache.list, FS.QueuesOf(fs.gCache.list)
    modifies fs.gLockQueue, fs.gLockQueue.data, session, session.filenames, session.flags
    ensures fs.Valid() && session.Valid() && OnlyNew(old(fs.gCache.list), fs.gCache.list)
    ensures var h := HandleFile(fs.cfg, old(fs.Abs()), old(session.Abs()), client, msg);
            && fs.Abs() == h.fs && session.Abs() == h.session && response == h.response
            && fs.gLockQueue.items == old(fs.gLockQueue.items) + h.notes
  {
    hide FS.FileSystem.Valid, FS.FileSystem.Abs, ClientSession.Valid, UnlockKey, RemOpened, Objection, KeyOf;
    var hash := fs.cfg.hash(msg.file.name);
    UnlockQuiet(fs.cfg, fs.Abs(), client, KeyOf(fs.cfg, msg.file.name));
    var res := Consult(fs, session, msg.kind, hash);
    if res != 0 { return Answer(StatusOf(res), []); }
    var ignored := fs.Unlock(client, msg.file);
    res := Forget(fs, session, hash);
    response := Answer(StatusOf(res), []);
  }

  lemma UnlockQuiet(cfg: Config, st: State, client: int, key: nat)
    requires cfg.tableSize > 0
    ensures UnlockKey(cfg, st, client, key).ejected == []
            && UnlockKey(cfg, st, client, key).res != FS_CLIENT_WAITING_ON_LOCK
  {
  }

  lemma RemoveQuiet(cfg: Config, st: State, client: int, name: string)
    requires cfg.tableSize > 0
    ensures Remove(cfg, st, client, name).ejected == []
            && Remove(cfg, st, client, name).res != FS_CLIENT_WAITING_ON_LOCK
  {
    hide Gone;
  }

  /** The requests on a file that is open, but for closing it. */
  predicate UsesFile(kind: int) {
    IsFileRequest(kind) && kind != MSG_REQ_OPEN_FILE && kind != MSG_REQ_CLOSE_FILE
  }

  /** A request that leaves the files as they are. */
  predicate KeepsFiles(kind: int) {
    kind == MSG_REQ_READ_FILE || kind == MSG_REQ_LOCK_FILE || kind == MSG_REQ_UNLOCK_FILE
  }

  /** The call of a request to read, lock or unlock. */
  method KeepCall(fs: FS.FileSystem, client: int, msg: Message) returns (res: int, outFiles: seq<File>)
    requires fs.Valid() && Inv(fs.cfg, fs.Abs()) && fs.cfg.tableSize > 0 && KeepsFiles(msg.kind)
    requires var o := Apply(fs.cfg, fs.Abs(), FsCall(fs.cfg, client, msg));
             |fs.gLockQueue.items| + |o.notes| <= fs.gLockQueue.data.Length
    modifies fs.gHashmap, fs.gCache, fs.gCache.list, FS.QueuesOf(fs.gCache.list), FS.BuffersOf(fs.gCache.list)
    modifies fs.gLockQueue, fs.gLockQueue.data
    ensures fs.Valid() && OnlyNew(old(fs.gCache.list), fs.gCache.list)
    ensures var o := Apply(fs.cfg, old(fs.Abs()), FsCall(fs.cfg, client, msg));
            && fs.Abs() == o.state && res == o.res && fs.gLockQueue.items == old(fs.gLockQueue.items) + o.notes
            && outFiles == Attached(fs.cfg, old(fs.Abs()), msg.kind, msg.file.name, o)
  {
    hide FS.FileSystem.Valid, FS.FileSystem.Abs, TryLock, Touch, UnlockKey, Inv, KeyOf;
    Quiet(fs.cfg, fs.Abs(), client, msg.file.name);
    UnlockQuiet(fs.cfg, fs.Abs(), client, KeyOf(fs.cfg, msg.file.name));
    outFiles := [];
    if msg.kind == MSG_REQ_READ_FILE {
      var outFile;
      res, outFile := fs.Obtain(msg.file);
      if res == 0 { outFiles := [outFile.value]; }
    } else if msg.kind == MSG_REQ_LOCK_FILE {
      res := fs.LockFile(client, msg.file);
    } else {
      res := fs.Unlock(client, msg.file);
    }
  }

  /** The call of a request to write, append or remove. */
  method WriteCall(fs: FS.FileSystem, client: int, msg: Message) returns (res: int, outFiles: seq<File>)
    requires fs.Valid() && Inv(fs.cfg, fs.Abs()) && fs.cfg.tableSize > 0 && UsesFile(msg.kind) && !KeepsFiles(msg.kind)
    requires var o := Apply(fs.cfg, fs.Abs(), FsCall(fs.cfg, client, msg));
             |fs.gLockQueue.items| + |o.notes| <= fs.gLockQueue.data.Length
    modifies fs.gHashmap, fs.gCache, fs.gCache.list, FS.QueuesOf(fs.gCache.list), FS.BuffersOf(fs.gCache.list)
    modifies fs.gLockQueue, fs.gLockQueue.data
    ensures fs.Valid() && OnlyNew(old(fs.gCache.list), fs.gCache.list)
    ensures var o := Apply(fs.cfg, old(fs.Abs()), FsCall(fs.cfg, client, msg));
            && fs.Abs() == o.state && res == o.res && fs.gLockQueue.items == old(fs.gLockQueue.items) + o.notes
            && outFiles == Attached(fs.cfg, old(fs.Abs()), msg.kind, msg.file.name, o)
  {
    hide FS.FileSystem.Valid, FS.FileSystem.Abs, Remove, Modify, Append, Inv, KeyOf;
    RemoveQuiet(fs.cfg, fs.Abs(), client, msg.file.name);
    outFiles := [];
    if msg.kind == MSG_REQ_WRITE_FILE {
      res, outFiles := fs.ModifyFile(client, msg.file);
    } else if msg.kind == MSG_REQ_REMOVE_FILE {
      res := fs.RemoveFile(client, msg.file);
    } else {
      res, outFiles := fs.AppendFile(client, msg.file);
    }
  }

  method UseFile(fs: FS.FileSystem, session: ClientSession, client: int, msg: Message) returns (response: Response)
    requires fs.Valid() && session.Valid() && Inv(fs.cfg, fs.Abs()) && UsesFile(msg.kind)
    requires var h := HandleFile(fs.cfg, fs.Abs(), session.Abs(), client, msg);
             |fs.gLockQueue.items| + |h.notes| <= fs.gLockQueue.data.Length
    modifies fs.gHashmap, fs.gCache, fs.gCache.list, FS.QueuesOf(fs.gCache.list), FS.BuffersOf(fs.gCache.list)
    modifies fs.gLockQueue, fs.gLockQueue.data, session, session.filenames, session.flags
    ensures fs.Valid() && session.Valid() && OnlyNew(old(fs.gCache.list), fs.gCache.list)
    ensures var h := HandleFile(fs.cfg, old(fs.Abs()), old(session.Abs()), client, msg);
            && fs.Abs() == h.fs && session.Abs() == h.session && response == h.response
            && fs.gLockQueue.items == old(fs.gLockQueue.items) + h.notes
  {
    hide FS.FileSystem.Valid, FS.FileSystem.Abs, ClientSession.Valid;
    hide Apply, FsCall, RemOpened, Objection, Inv, Attached;
    var hash := fs.cfg.hash(msg.file.name);
    fs.ValidParts();
    var res := Consult(fs, session, msg.kind, hash);
    if res != 0 { return Answer(StatusOf(res), []); }
    Apart(fs, session);
    var outFiles;
    if KeepsFiles(msg.kind) {
      res, outFiles := KeepCall(fs, client, msg);
    } else {
      res, outFiles := WriteCall(fs, client, msg);
    }
    if res == FS_CLIENT_WAITING_ON_LOCK { return NO_RESPONSE; }
    if msg.kind == MSG_REQ_REMOVE_FILE {
      var closed := Forget(fs, session, hash);
      if closed != 0 { res := closed; }
    }
    response := Answer(StatusOf(res), outFiles);
  }

  /** createSession, seen from the file system. */
  method OpenSession(fs: FS.FileSystem, session: ClientSession) returns (res: int)
    requires fs.Valid() && session.Valid()
    modifies session, session.filenames, session.flags
    ensures fs.Valid() && session.Valid() && fs.Abs() == old(fs.Abs())
            && fs.gLockQueue.items == old(fs.gLockQueue.items)
    ensures Change(session.Abs(), res) == Create(old(session.Abs()))
  {
    hide FSCache.IsList, FS.AbsCache, FS.FileSystem.TableOk, CircQueue.Valid, FS.QueuesApart, ClientSession.Valid;
    Apart(fs, session);
    ghost var list, cache, table := fs.gCache.list, FS.AbsCache(fs.gCache.list), fs.gHashmap[..];
    res := session.CreateSession();
    forall e | e in list
      ensures e.waitingLockQueue.Valid()
    {
    }
    assert fs.gHashmap[..] == table && FS.AbsCache(list) == cache;
  }

  /** destroySession, seen from the file system. */
  method EndSession(fs: FS.FileSystem, session: ClientSession)
    requires fs.Valid() && session.Valid() && session.isValid
    modifies session
    ensures fs.Valid() && session.Valid() && fs.Abs() == old(fs.Abs())
            && fs.gLockQueue.items == old(fs.gLockQueue.items)
    ensures session.Abs() == NO_SESSION
  {
    hide FSCache.IsList, FS.AbsCache, FS.FileSystem.TableOk, CircQueue.Valid, FS.QueuesApart, ClientSession.Valid;
    ghost var list, cache, table := fs.gCache.list, FS.AbsCache(fs.gCache.list), fs.gHashmap[..];
    var res := session.DestroySession();
    forall e | e in list
      ensures e.waitingLockQueue.Valid()
    {
    }
    assert fs.gHashmap[..] == table && FS.AbsCache(list) == cache;
  }

  /** The hashes fs_clean goes through. */
  lemma ListedHashes(session: ClientSession)
    requires session.Valid()
    ensures 0 <= session.numFileOpened <= session.filenames.Length
    ensures session.filenames[..session.numFileOpened] == OpenedHashes(session.Abs().files)
    ensures session.isValid == session.Abs().valid
  {
    hide OpenedHashes, Pairs;
  }

  /** handleWork: the session and the file system change as Handler says, whatever rand returns. */
  method HandleWork(fs: FS.FileSystem, session: ClientSession, client: int, msg: Message, rand: nat -> nat)
    returns (response: Response, ghost sample: seq<File>)
    requires fs.Valid() && session.Valid() && Inv(fs.cfg, fs.Abs())
    requires msg.kind == MSG_REQ_READ_N_FILES ==> msg.flags >= 0
    requires var h := Handler.HandleWork(fs.cfg, fs.Abs(), session.Abs(), client, msg, []);
             |fs.gLockQueue.items| + |h.notes| <= fs.gLockQueue.data.Length
    modifies fs.gHashmap, fs.gCache, fs.gCache.list, FS.QueuesOf(fs.gCache.list), FS.BuffersOf(fs.gCache.list)
    modifies fs.gLockQueue, fs.gLockQueue.data, session, session.filenames, session.flags
    ensures fs.Valid() && session.Valid() && OnlyNew(old(fs.gCache.list), fs.gCache.list)
    ensures var h := Handler.HandleWork(fs.cfg, old(fs.Abs()), old(session.Abs()), client, msg, sample);
            && fs.Abs() == h.fs && session.Abs() == h.session && response == h.response
            && fs.gLockQueue.items == old(fs.gLockQueue.items) + h.notes
    ensures msg.kind == MSG_REQ_READ_N_FILES ==> IsSample(old(fs.Abs()), msg.flags, response.files)
  {
    hide FS.FileSystem.Valid, FS.FileSystem.Abs, ClientSession.Valid, HandleFile, Clean, Inv, OpenedHashes, IsSample;
    fs.ValidParts();
    sample := [];
    if msg.kind == MSG_REQ_OPEN_SESSION {
      var res := OpenSession(fs, session);
      response := Answer(StatusOf(res), []);
    } else if msg.kind == MSG_REQ_CLOSE_SESSION {
      ListedHashes(session);
      if session.isValid {
        fs.CleanSession(client, session.filenames[..session.numFileOpened]);
        EndSession(fs, session);
      }
      response := Answer(RESP_STATUS_OK, []);
    } else if msg.kind == MSG_REQ_READ_N_FILES {
      response, sample := ReadSome(fs, session, msg.flags, rand);
    } else if msg.kind == MSG_REQ_OPEN_FILE {
      response := OpenFile(fs, session, client, msg);
    } else if msg.kind == MSG_REQ_CLOSE_FILE {
      response := CloseFile(fs, session, client, msg);
    } else if UsesFile(msg.kind) {
      response := UseFile(fs, session, client, msg);
    } else {
      response := Answer(RESP_STATUS_INVALID_ARG, []);
    }
  }

  /** As many cached files as were asked for and are there; all of them for n = 0. */
  ghost predicate IsSample(st: State, n: nat, sample: seq<File>) {
    && |sample| == (if n == 0 then |st.cache| else FS.Min(n, |st.cache|))
    && exists picked: seq<int> ::
         && |picked| == |sample| && Sequences.Distinct(picked) && FS.Reservoir.Below(picked, |st.cache|)
         && forall k :: 0 <= k < |sample| ==> sample[k] == st.cache[picked[k]].file
  }

  /** MSG_REQ_READ_N_FILES */
  method ReadSome(fs: FS.FileSystem, session: ClientSession, n: nat, rand: nat -> nat)
    returns (response: Response, ghost sample: seq<File>)
    requires fs.Valid() && session.Valid() && Inv(fs.cfg, fs.Abs())
    ensures fs.Valid() && session.Valid() && fs.Abs() == old(fs.Abs()) && session.Abs() == old(session.Abs())
    ensures response == Answer(RESP_STATUS_OK, sample) && fs.gLockQueue.items == old(fs.gLockQueue.items)
    ensures IsSample(fs.Abs(), n, sample)
  {
    hide FS.FileSystem.Valid, FS.FileSystem.Abs, Inv;
    var outFiles, picked := fs.ObtainN(n, rand);
    sample := outFiles;
    assert Sequences.Distinct(picked);
    response := Answer(RESP_STATUS_OK, outFiles);
  }
}
