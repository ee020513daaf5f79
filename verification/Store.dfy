/** What each file-system operation does to the cache, as one atomic step (server/src/file_system.c).

    The cache is a sequence of entries from the least to the most recently used. Files are looked up by the
    hash of their name modulo the table size; names are never compared. */
module Store {

  const EMPTY_OWNER: int := -1
  const MAX_CLIENT_WAITING_ON_LOCK: nat := 32

  const FS_FILE_ALREADY_EXISTS: int := 101
  const FS_FILE_NOT_EXISTS: int := 102
  const FS_CLIENT_NOT_ALLOWED: int := 103
  const FS_CLIENT_WAITING_ON_LOCK: int := 104
  const FS_FILE_TOO_BIG: int := 105

  datatype File = File(name: string, content: string)

  datatype Entry = Entry(owner: int, file: File, waiting: seq<int>)

  datatype Notification = Notification(fd: int, status: int)

  datatype Config = Config(tableSize: nat, slotMax: int, bytesMax: int, hash: string -> nat)

  /** The configurations the program documents: at least one slot and fewer than a million. */
  ghost predicate ValidConfig(cfg: Config) {
    cfg.tableSize > 0 && 1 <= cfg.slotMax <= 1_000_000 && 0 <= cfg.bytesMax
  }

  /** `cache` runs from the oldest (tail) to the newest (head) entry. */
  datatype State = State(cache: seq<Entry>, slotUsed: int, bytesUsed: int)

  datatype Outcome = Outcome(state: State, res: int, ejected: seq<File>, notes: seq<Notification>)

  /** getKey */
  function KeyOf(cfg: Config, name: string): (key: nat)
    requires cfg.tableSize > 0
    ensures key < cfg.tableSize
  {
    cfg.hash(name) % cfg.tableSize
  }

  function EntryKey(cfg: Config, e: Entry): (key: nat)
    requires cfg.tableSize > 0
    ensures key < cfg.tableSize
  {
    KeyOf(cfg, e.file.name)
  }

  function Size(f: File): nat {
    |f.name| + |f.content|
  }

  /** The place of a key in the cache, -1 when it has none. */
  function Find(cfg: Config, cache: seq<Entry>, key: nat): (i: int)
    requires cfg.tableSize > 0
    ensures -1 <= i < |cache|
    ensures i >= 0 ==> EntryKey(cfg, cache[i]) == key
    ensures i == -1 ==> forall j :: 0 <= j < |cache| ==> EntryKey(cfg, cache[j]) != key
  {
    if cache == [] then -1
    else if EntryKey(cfg, cache[|cache| - 1]) == key then |cache| - 1
    else Find(cfg, cache[..|cache| - 1], key)
  }

  ghost predicate KeysDistinct(cfg: Config, cache: seq<Entry>)
    requires cfg.tableSize > 0
  {
    forall i, j :: 0 <= i < j < |cache| ==> EntryKey(cfg, cache[i]) != EntryKey(cfg, cache[j])
  }

  /** moveToTop, with the entry replaced by e on the way. */
  function MoveToTop(cache: seq<Entry>, i: nat, e: Entry): (next: seq<Entry>)
    requires i < |cache|
    ensures |next| == |cache| && next[|cache| - 1] == e
  {
    cache[..i] + cache[i + 1..] + [e]
  }

  /** "File gone", one for each waiting client, in arrival order. */
  function Gone(waiting: seq<int>): (notes: seq<Notification>)
    ensures |notes| == |waiting|
    ensures forall i :: 0 <= i < |waiting| ==> notes[i] == Notification(waiting[i], FS_FILE_NOT_EXISTS)
  {
    if waiting == [] then [] else [Notification(waiting[0], FS_FILE_NOT_EXISTS)] + Gone(waiting[1..])
  }

  function AllGone(entries: seq<Entry>): seq<Notification> {
    if entries == [] then [] else Gone(entries[0].waiting) + AllGone(entries[1..])
  }

  function Files(entries: seq<Entry>): (files: seq<File>)
    ensures |files| == |entries|
    ensures forall i :: 0 <= i < |entries| ==> files[i] == entries[i].file
  {
    if entries == [] then [] else [entries[0].file] + Files(entries[1..])
  }

  /** Sizes of all files, added up. */
  function Bytes(cache: seq<Entry>): (b: nat) {
    if cache == [] then 0 else Size(cache[0].file) + Bytes(cache[1..])
  }

  /** How many entries the byte limit drops: oldest first, until the counter fits or nothing is left. */
  function EjectCount(cfg: Config, cache: seq<Entry>, bytesUsed: int): (k: nat)
    ensures k <= |cache|
  {
    if bytesUsed > cfg.bytesMax && cache != [] then 1 + EjectCount(cfg, cache[1..], bytesUsed - Size(cache[0].file))
    else 0
  }

  /** Without the k oldest entries. */
  function Shed(st: State, k: nat): State
    requires k <= |st.cache|
  {
    State(st.cache[k..], st.slotUsed - k, st.bytesUsed - Bytes(st.cache[..k]))
  }

  datatype Balanced = Balanced(state: State, ejected: seq<Entry>)

  /** updateCacheSize after the counters have moved: first the byte limit, then the slot limit, which drops one
      entry and restarts the list of ejected files. */
  function Balance(cfg: Config, st: State): Balanced {
    var k := EjectCount(cfg, st.cache, st.bytesUsed);
    var fit := Shed(st, k);
    if fit.slotUsed > cfg.slotMax && fit.cache != [] then
      Balanced(State(fit.cache[1..], fit.slotUsed - 1, fit.bytesUsed - Size(fit.cache[0].file)), [fit.cache[0]])
    else
      Balanced(fit, st.cache[..k])
  }

  /** The limits are enforced and those waiting for a dropped file are told. */
  function Settle(cfg: Config, st: State): (o: Outcome)
    ensures o.res == 0
  {
    var b := Balance(cfg, st);
    Outcome(b.state, 0, Files(b.ejected), AllGone(b.ejected))
  }

  function Refused(st: State, res: int): Outcome {
    Outcome(st, res, [], [])
  }

  /** fs_insert */
  function Insert(cfg: Config, st: State, client: int, file: File, acquireLock: bool): Outcome
    requires cfg.tableSize > 0
  {
    if Find(cfg, st.cache, KeyOf(cfg, file.name)) >= 0 then Refused(st, FS_FILE_ALREADY_EXISTS)
    else
      var e := Entry(if acquireLock then client else EMPTY_OWNER, file, []);
      Settle(cfg, State(st.cache + [e], st.slotUsed + 1, st.bytesUsed + Size(file)))
  }

  /** fs_remove */
  function Remove(cfg: Config, st: State, client: int, name: string): Outcome
    requires cfg.tableSize > 0
  {
    var i := Find(cfg, st.cache, KeyOf(cfg, name));
    if i < 0 then Refused(st, FS_FILE_NOT_EXISTS)
    else if st.cache[i].owner != client then Refused(st, FS_CLIENT_NOT_ALLOWED)
    else
      var e := st.cache[i];
      var rest := State(st.cache[..i] + st.cache[i + 1..], st.slotUsed - 1, st.bytesUsed - Size(e.file));
      Outcome(rest, 0, [], Gone(e.waiting))
  }

  /** fs_obtain and fs_exists: the entry becomes the most recently used one. */
  function Touch(cfg: Config, st: State, name: string): Outcome
    requires cfg.tableSize > 0
  {
    var i := Find(cfg, st.cache, KeyOf(cfg, name));
    if i < 0 then Refused(st, FS_FILE_NOT_EXISTS)
    else Outcome(st.(cache := MoveToTop(st.cache, i, st.cache[i])), 0, [], [])
  }

  /** fs_modify: owners only; name and content are replaced. */
  function Modify(cfg: Config, st: State, client: int, file: File): Outcome
    requires cfg.tableSize > 0
  {
    var i := Find(cfg, st.cache, KeyOf(cfg, file.name));
    if i < 0 then Refused(st, FS_FILE_NOT_EXISTS)
    else if st.cache[i].owner != client then Refused(st, FS_CLIENT_NOT_ALLOWED)
    else if Size(file) > cfg.bytesMax then Refused(st, FS_FILE_TOO_BIG)
    else
      var e := st.cache[i];
      Settle(cfg, State(MoveToTop(st.cache, i, e.(file := file)), st.slotUsed,
                        st.bytesUsed + Size(file) - Size(e.file)))
  }

  /** fs_append: the owner, or anyone when the file is not locked. The byte counter moves as the code moves it:
      up by the size of the request, down by the whole new content. */
  function Append(cfg: Config, st: State, client: int, file: File): Outcome
    requires cfg.tableSize > 0
  {
    var i := Find(cfg, st.cache, KeyOf(cfg, file.name));
    if i < 0 then Refused(st, FS_FILE_NOT_EXISTS)
    else if st.cache[i].owner != client && st.cache[i].owner != EMPTY_OWNER then Refused(st, FS_CLIENT_NOT_ALLOWED)
    else if Size(file) + |st.cache[i].file.content| > cfg.bytesMax then Refused(st, FS_FILE_TOO_BIG)
    else
      var e := st.cache[i];
      var content := e.file.content + file.content;
      Settle(cfg, State(MoveToTop(st.cache, i, e.(file := File(e.file.name, content))), st.slotUsed,
                        st.bytesUsed + Size(file) - |content|))
  }

  /** fs_trylock */
  function TryLock(cfg: Config, st: State, client: int, name: string): Outcome
    requires cfg.tableSize > 0
  {
    var i := Find(cfg, st.cache, KeyOf(cfg, name));
    if i < 0 then Refused(st, FS_FILE_NOT_EXISTS)
    else
      var e := st.cache[i];
      if e.owner != EMPTY_OWNER && e.owner != client then
        if |e.waiting| < MAX_CLIENT_WAITING_ON_LOCK then
          Outcome(st.(cache := st.cache[i := e.(waiting := e.waiting + [client])]), FS_CLIENT_WAITING_ON_LOCK, [], [])
        else Refused(st, FS_CLIENT_NOT_ALLOWED)
      else Outcome(st.(cache := MoveToTop(st.cache, i, e.(owner := client))), 0, [], [])
  }

  /** _inner_unlock: the first waiting client becomes the owner and is told so. */
  function UnlockKey(cfg: Config, st: State, client: int, key: nat): Outcome
    requires cfg.tableSize > 0
  {
    var i := Find(cfg, st.cache, key);
    if i < 0 then Refused(st, FS_FILE_NOT_EXISTS)
    else
      var e := st.cache[i];
      if e.owner != client then Refused(st, FS_CLIENT_NOT_ALLOWED)
      else if e.waiting == [] then
        Outcome(st.(cache := MoveToTop(st.cache, i, e.(owner := EMPTY_OWNER))), 0, [], [])
      else
        Outcome(st.(cache := MoveToTop(st.cache, i, e.(owner := e.waiting[0], waiting := e.waiting[1..]))), 0, [],
                [Notification(e.waiting[0], 0)])
  }

  /** fs_clean: every file the session lists is unlocked, in list order, ignoring refusals. */
  function Clean(cfg: Config, st: State, client: int, hashes: seq<nat>): Outcome
    requires cfg.tableSize > 0
    decreases |hashes|
  {
    if hashes == [] then Refused(st, 0)
    else
      var o := UnlockKey(cfg, st, client, hashes[0] % cfg.tableSize);
      var p := Clean(cfg, o.state, client, hashes[1..]);
      Outcome(p.state, 0, [], o.notes + p.notes)
  }
}
