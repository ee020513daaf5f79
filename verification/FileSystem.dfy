/** The file system over its hash table, recency list and lock queues (server/src/file_system.c). Every public
    operation runs under one mutex, so each method here is one atomic step; its contract is the step of Store. */
module FileSystem {
  import opened CircQueue
  import opened Sequences
  import opened Store
  import opened StoreInvariant
  import opened Cache
  import Reservoir

  const DEPTH_LIMIT: int := 1024 * 1024

  /** What an entry stands for. */
  ghost function AbsEntry(e: CacheEntry): Entry
    reads e`owner, e`file, e.waitingLockQueue`items
  {
    Entry(e.owner, e.file, e.waitingLockQueue.items)
  }

  ghost function QueuesOf(list: seq<CacheEntry>): set<CircQueue<int>> {
    set e | e in list :: e.waitingLockQueue
  }

  ghost function BuffersOf(list: seq<CacheEntry>): set<array<int>> {
    set e | e in list :: e.waitingLockQueue.data
  }

  ghost function AbsCache(list: seq<CacheEntry>): (cache: seq<Entry>)
    reads list`owner, list`file, QueuesOf(list)`items
    ensures |cache| == |list|
    ensures forall i {:trigger cache[i]} {:trigger AbsEntry(list[i])} :: 0 <= i < |list| ==>
            cache[i] == AbsEntry(list[i])
  {
    if list == [] then [] else AbsCache(list[..|list| - 1]) + [AbsEntry(list[|list| - 1])]
  }

  /** Where the j-th entry stood before entry i of n moved to the top. */
  function Moved(n: int, i: int, j: int): int {
    if j == n - 1 then i else if j < i then j else j + 1
  }

  lemma AbsIs(list: seq<CacheEntry>, cache: seq<Entry>)
    requires |cache| == |list| && forall j :: 0 <= j < |list| ==> AbsEntry(list[j]) == cache[j]
    ensures AbsCache(list) == cache
  {
  }

  function Replaced(st: State, i: nat, e: Entry): State
    requires i < |st.cache|
  {
    st.(cache := st.cache[i := e])
  }

  function Lifted(st: State, i: nat): State
    requires i < |st.cache|
  {
    st.(cache := MoveToTop(st.cache, i, st.cache[i]))
  }

  /** The counters after a write of newFile over oldFile; without either, a file leaves or enters. */
  function Recounted(st: State, newFile: Option<File>, oldFile: Option<File>): State {
    State(st.cache,
          st.slotUsed - (if newFile.None? then 1 else 0) + (if oldFile.None? then 1 else 0),
          st.bytesUsed + (if newFile.Some? then Size(newFile.value) else 0)
          - (if oldFile.Some? then Size(oldFile.value) else 0))
  }

  function Min(a: int, b: int): int {
    if a < b then a else b
  }

  function Retitled(e: Entry, owner: int, file: File): Entry {
    e.(owner := owner, file := file)
  }

  /** An entry with one more waiting client, and with its first waiting client taken. */
  function Waits(e: Entry, client: int): Entry {
    e.(waiting := e.waiting + [client])
  }

  function Served(e: Entry): Entry
    requires e.waiting != []
  {
    e.(waiting := e.waiting[1..])
  }

  /** Every entry has its own queue with its own buffer. */
  ghost predicate QueuesApart(list: seq<CacheEntry>) {
    && (forall e :: e in list ==> e.waitingLockQueue.data.Length == MAX_CLIENT_WAITING_ON_LOCK)
    && (forall e, f :: e in list && f in list && e != f ==>
          e.waitingLockQueue != f.waitingLockQueue && e.waitingLockQueue.data != f.waitingLockQueue.data)
  }

  ghost predicate QueuesValid(list: seq<CacheEntry>)
    reads QueuesOf(list)`head, QueuesOf(list)`tail, QueuesOf(list)`size, QueuesOf(list)`items, BuffersOf(list)
  {
    forall e :: e in list ==> e.waitingLockQueue.Valid()
  }

  class FileSystem {
    const cfg: Config
    const gHashmap: array<CacheEntry?>
    const gCache: FSCache
    const gLockQueue: CircQueue<Notification>

    /** The table holds exactly the listed entries, each at the key of its file. */
    ghost predicate TableOk(table: seq<CacheEntry?>, list: seq<CacheEntry>, cache: seq<Entry>) {
      && |table| == cfg.tableSize > 0 && |list| == |cache|
      && (forall i :: 0 <= i < |list| ==> table[EntryKey(cfg, cache[i])] == list[i])
      && (forall k :: 0 <= k < |table| && table[k] != null ==>
            exists i :: 0 <= i < |list| && list[i] == table[k] && EntryKey(cfg, cache[i]) == k)
    }

    lemma TableAfterReplace(table: seq<CacheEntry?>, list: seq<CacheEntry>, cache: seq<Entry>, i: nat, e: Entry)
      requires TableOk(table, list, cache) && i < |cache| && EntryKey(cfg, e) == EntryKey(cfg, cache[i])
      ensures TableOk(table, list, cache[i := e])
    {
      hide EntryKey;
      var next := cache[i := e];
      forall k | 0 <= k < |table| && table[k] != null
        ensures exists j :: 0 <= j < |list| && list[j] == table[k] && EntryKey(cfg, next[j]) == k
      {
        var j :| 0 <= j < |list| && list[j] == table[k] && EntryKey(cfg, cache[j]) == k;
        assert EntryKey(cfg, next[j]) == k;
      }
    }

    lemma MovedParts(list: seq<CacheEntry>, cache: seq<Entry>, i: nat, j: nat)
      requires |list| == |cache| && i < |list| && j < |list|
      ensures 0 <= Moved(|list|, i, j) < |list|
      ensures (Without(list, i) + [list[i]])[j] == list[Moved(|list|, i, j)]
      ensures MoveToTop(cache, i, cache[i])[j] == cache[Moved(|list|, i, j)]
    {
    }

    /** Moving an entry to the top does not change the table's view. */
    lemma TableAfterMove(table: seq<CacheEntry?>, list: seq<CacheEntry>, cache: seq<Entry>, i: nat)
      requires TableOk(table, list, cache) && i < |cache|
      ensures TableOk(table, Without(list, i) + [list[i]], MoveToTop(cache, i, cache[i]))
    {
      hide EntryKey, Without, MoveToTop;
      var list', cache' := Without(list, i) + [list[i]], MoveToTop(cache, i, cache[i]);
      forall j | 0 <= j < |list'|
        ensures table[EntryKey(cfg, cache'[j])] == list'[j]
      {
        MovedParts(list, cache, i, j);
        assert table[EntryKey(cfg, cache[Moved(|list|, i, j)])] == list[Moved(|list|, i, j)];
      }
      forall k | 0 <= k < |table| && table[k] != null
        ensures exists j :: 0 <= j < |list'| && list'[j] == table[k] && EntryKey(cfg, cache'[j]) == k
      {
        var j :| 0 <= j < |list| && list[j] == table[k] && EntryKey(cfg, cache[j]) == k;
        var j' := if j == i then |list| - 1 else if j < i then j else j - 1;
        MovedParts(list, cache, i, j');
        assert Moved(|list|, i, j') == j;
        assert list'[j'] == table[k] && EntryKey(cfg, cache'[j']) == k;
      }
    }

    /** Everything but the state of the waiting queues. */
    ghost predicate Parts(cache: seq<Entry>)
      reads gCache`head, gCache`tail, gCache`list, gCache.list`pre, gCache.list`nex, gHashmap,
            gLockQueue, gLockQueue.data
    {
      && gCache.IsList() && QueuesApart(gCache.list) && TableOk(gHashmap[..], gCache.list, cache)
      && gLockQueue.Valid() && LockQueueApart(gCache.list) && ValidConfig(cfg)
    }

    ghost predicate Valid()
      reads gCache`head, gCache`tail, gCache`list, gCache.list, gHashmap, gLockQueue, gLockQueue.data,
            QueuesOf(gCache.list), BuffersOf(gCache.list)
    {
      Parts(AbsCache(gCache.list)) && QueuesValid(gCache.list)
    }

    /** The notification queue is none of the waiting queues. */
    ghost predicate LockQueueApart(list: seq<CacheEntry>) {
      forall e :: e in list ==>
        gLockQueue != e.waitingLockQueue as object && gLockQueue.data != e.waitingLockQueue.data as object
    }

    ghost function Abs(): State
      reads gCache, gCache.list`owner, gCache.list`file, QueuesOf(gCache.list)`items
    {
      State(AbsCache(gCache.list), gCache.slotUsed, gCache.bytesUsed)
    }

    /** initializeFileSystem */
    constructor (cfg: Config, lockQueue: CircQueue<Notification>)
      requires ValidConfig(cfg) && lockQueue.Valid()
      ensures this.cfg == cfg && gLockQueue == lockQueue
      ensures Valid() && Abs() == State([], 0, 0)
      ensures fresh(gHashmap) && fresh(gCache) && gCache.list == []
    {
      this.cfg := cfg;
      gLockQueue := lockQueue;
      gHashmap := new CacheEntry?[cfg.tableSize](_ => null);
      gCache := new FSCache();
    }

    /** getValueFromKey finds the entry the abstract lookup finds. */
    lemma Lookup(key: nat)
      requires Valid() && key < cfg.tableSize
      ensures gHashmap.Length == cfg.tableSize && |Abs().cache| == |gCache.list|
      ensures var i := Find(cfg, Abs().cache, key);
              gHashmap[key] == if i < 0 then null else gCache.list[i]
      ensures var i := Find(cfg, Abs().cache, key);
              i >= 0 ==> Abs().cache[i] == AbsEntry(gCache.list[i])
    {
      hide EntryKey;
      assert gHashmap[..][key] == gHashmap[key];
    }

    /** The table makes keys distinct. */
    lemma DistinctByTable()
      requires Valid()
      ensures KeysDistinct(cfg, Abs().cache)
    {
      hide EntryKey;
      forall i, j | 0 <= i < j < |gCache.list|
        ensures EntryKey(cfg, Abs().cache[i]) != EntryKey(cfg, Abs().cache[j])
      {
        assert gCache.list[i] != gCache.list[j];
      }
    }

    /** What is known of the queues does not depend on the order of the list. */
    lemma SameQueues(list: seq<CacheEntry>, next: seq<CacheEntry>)
      requires QueuesApart(list) && QueuesValid(list) && LockQueueApart(list) && forall e :: e in next ==> e in list
      ensures QueuesApart(next) && QueuesValid(next) && LockQueueApart(next)
    {
    }

    /** moveToTop keeps the structure and moves the abstract entry. */
    method MoveToTopOf(entry: CacheEntry, ghost i: nat)
      requires Valid() && i < |gCache.list| && gCache.list[i] == entry
      modifies gCache`head, gCache`tail, gCache`list, gCache.list`pre, gCache.list`nex
      ensures Valid() && gCache.list == old(Without(gCache.list, i)) + [entry]
      ensures Abs() == Lifted(old(Abs()), i)
    {
      hide Without, FSCache.IsList, AbsEntry, AbsCache, MoveToTop, TableOk, QueuesApart, LockQueueApart,
           CircQueue.Valid;
      ghost var list, cache := gCache.list, AbsCache(gCache.list);
      AbsOfMove(list, i);
      SameMembers(list, i);
      SameQueues(list, Without(list, i) + [entry]);
      TableAfterMove(gHashmap[..], list, cache, i);
      gCache.MoveToTop(entry, i);
      assert gCache.list == Without(list, i) + [entry];
      assert QueuesApart(gCache.list) && LockQueueApart(gCache.list);
      assert AbsCache(gCache.list) == MoveToTop(cache, i, cache[i]);
      assert TableOk(gHashmap[..], gCache.list, AbsCache(gCache.list));
      assert gLockQueue.Valid();
      assert gCache.IsList();
      forall e | e in gCache.list
        ensures e.waitingLockQueue.Valid()
      {
      }
    }

    lemma ValidSplits()
      requires Valid()
      ensures Parts(AbsCache(gCache.list)) && QueuesValid(gCache.list)
    {
    }

    lemma ValidAgain()
      requires Parts(AbsCache(gCache.list)) && QueuesValid(gCache.list)
      ensures Valid()
    {
    }

    /** The queue of entry i is no other entry's, nor that of notifications. */
    lemma OwnQueue(list: seq<CacheEntry>, i: nat)
      requires Distinct(list) && QueuesApart(list) && LockQueueApart(list) && i < |list|
      ensures gLockQueue != list[i].waitingLockQueue as object
      ensures gLockQueue.data != list[i].waitingLockQueue.data as object
      ensures list[i].waitingLockQueue.data.Length == MAX_CLIENT_WAITING_ON_LOCK
      ensures forall j :: 0 <= j < |list| && j != i ==>
                && list[j] != list[i] && list[j].waitingLockQueue != list[i].waitingLockQueue
                && list[j].waitingLockQueue.data != list[i].waitingLockQueue.data
    {
    }

    lemma PartsAfterReplace(list: seq<CacheEntry>, cache: seq<Entry>, i: nat, e: Entry)
      requires Parts(cache) && list == gCache.list && i < |list| == |cache|
      requires cfg.tableSize > 0 ==> EntryKey(cfg, e) == EntryKey(cfg, cache[i])
      ensures Parts(cache[i := e]) && gLockQueue != list[i].waitingLockQueue as object
      ensures gLockQueue.data != list[i].waitingLockQueue.data as object
      ensures list[i].waitingLockQueue.data.Length == MAX_CLIENT_WAITING_ON_LOCK
      ensures forall j :: 0 <= j < |list| && j != i ==>
                && list[j] != list[i] && list[j].waitingLockQueue != list[i].waitingLockQueue
                && list[j].waitingLockQueue.data != list[i].waitingLockQueue.data
    {
      assert Distinct(list);
      OwnQueue(list, i);
      hide FSCache.IsList, CircQueue.Valid, TableOk, EntryKey;
      TableAfterReplace(gHashmap[..], list, cache, i, e);
    }

    /** Replaces owner and file of an entry; the file must keep its key. */
    method Rewrite(entry: CacheEntry, owner: int, file: File, ghost i: nat)
      requires Valid() && i < |gCache.list| && gCache.list[i] == entry
      requires KeyOf(cfg, file.name) == KeyOf(cfg, entry.file.name)
      modifies entry`owner, entry`file
      ensures Valid() && gCache.list == old(gCache.list) && entry.file == file
      ensures Abs() == Replaced(old(Abs()), i, Retitled(old(Abs().cache)[i], owner, file))
    {
      hide Valid, Parts, FSCache.IsList, CircQueue.Valid, AbsCache, TableOk, Distinct, QueuesApart, LockQueueApart;
      ValidSplits();
      ghost var list, cache := gCache.list, Abs().cache;
      PartsAfterReplace(list, cache, i, Retitled(cache[i], owner, file));
      entry.owner := owner;
      entry.file := file;
      AbsIs(list, cache[i := Retitled(cache[i], owner, file)]);
      ValidAgain();
    }

    /** tryPush on the waiting queue of an entry. */
    method PushWaiting(entry: CacheEntry, client: int, ghost i: nat) returns (ok: bool)
      requires Valid() && i < |gCache.list| && gCache.list[i] == entry
      modifies entry.waitingLockQueue, entry.waitingLockQueue.data
      ensures Valid() && gCache.list == old(gCache.list)
      ensures ok <==> |old(Abs().cache[i]).waiting| < MAX_CLIENT_WAITING_ON_LOCK
      ensures Abs() == if ok then Replaced(old(Abs()), i, Waits(old(Abs().cache)[i], client)) else old(Abs())
    {
      hide Valid, Parts, FSCache.IsList, CircQueue.Valid, AbsCache, TableOk, Distinct, QueuesApart, LockQueueApart;
      ValidSplits();
      ghost var list, cache := gCache.list, Abs().cache;
      PartsAfterReplace(list, cache, i, Waits(cache[i], client));
      assert entry in list && entry.waitingLockQueue.Valid();
      ok := entry.waitingLockQueue.TryPush(client);
      AbsIs(list, if ok then cache[i := Waits(cache[i], client)] else cache);
      ValidAgain();
    }

    /** tryPop on the waiting queue of an entry. */
    method PopWaiting(entry: CacheEntry, ghost i: nat) returns (item: Option<int>)
      requires Valid() && i < |gCache.list| && gCache.list[i] == entry
      modifies entry.waitingLockQueue`tail, entry.waitingLockQueue`size, entry.waitingLockQueue`items
      ensures Valid() && gCache.list == old(gCache.list)
      ensures item == if old(Abs().cache)[i].waiting == [] then None else Some(old(Abs().cache)[i].waiting[0])
      ensures Abs() == if item.None? then old(Abs()) else Replaced(old(Abs()), i, Served(old(Abs().cache)[i]))
    {
      hide Valid, Parts, FSCache.IsList, CircQueue.Valid, AbsCache, TableOk, Distinct, QueuesApart, LockQueueApart;
      ValidSplits();
      ghost var list, cache := gCache.list, Abs().cache;
      ghost var rest := if cache[i].waiting == [] then [] else cache[i].waiting[1..];
      PartsAfterReplace(list, cache, i, cache[i].(waiting := rest));
      assert entry in list && entry.waitingLockQueue.Valid();
      item := entry.waitingLockQueue.TryPop();
      AbsIs(list, cache[i := cache[i].(waiting := rest)]);
      ValidAgain();
    }

    /** fs_obtain; fs_exists is the same without the copy. */
    method Obtain(file: File) returns (res: int, outFile: Option<File>)
      requires Valid()
      modifies gCache`head, gCache`tail, gCache`list, gCache.list`pre, gCache.list`nex
      ensures Valid()
      ensures forall j :: 0 <= j < |gCache.list| ==> gCache.list[j] in old(gCache.list)
      ensures var o := Touch(cfg, old(Abs()), file.name);
              Abs() == o.state && res == o.res
      ensures outFile == if res == 0 then Some(old(Abs().cache[Find(cfg, Abs().cache, KeyOf(cfg, file.name))].file))
              else None
      ensures gLockQueue.items == old(gLockQueue.items)
    {
      hide MoveToTop, Find, Valid, Abs;
      res, outFile := 0, None;
      ValidParts();
      var key := KeyOf(cfg, file.name);
      Lookup(key);
      ghost var i := Find(cfg, Abs().cache, key);
      var entry := gHashmap[key];
      if entry != null {
        outFile := Some(entry.file);
        MoveToTopOf(entry, i);
      } else {
        res := FS_FILE_NOT_EXISTS;
      }
    }

    /** Entries taken out of the cache whose queues still have to be emptied. */
    ghost predicate Parked(buf: seq<CacheEntry>, list: seq<CacheEntry>)
      reads QueuesOf(buf)`head, QueuesOf(buf)`tail, QueuesOf(buf)`size, QueuesOf(buf)`items, BuffersOf(buf)
    {
      && QueuesApart(buf + list) && QueuesValid(buf) && LockQueueApart(buf)
      && Distinct(buf) && (forall e :: e in buf ==> e !in list)
    }

    lemma TableAfterRemove(table: seq<CacheEntry?>, list: seq<CacheEntry>, cache: seq<Entry>, i: nat)
      requires TableOk(table, list, cache) && Distinct(list) && i < |cache|
      ensures TableOk(table[EntryKey(cfg, cache[i]) := null], Without(list, i), cache[..i] + cache[i + 1..])
    {
      hide EntryKey, Without, Distinct;
      var key := EntryKey(cfg, cache[i]);
      var table', list', cache' := table[key := null], Without(list, i), cache[..i] + cache[i + 1..];
      forall j | 0 <= j < |list'|
        ensures table'[EntryKey(cfg, cache'[j])] == list'[j]
      {
        var s := Skip(i, j);
        assert list'[j] == list[s] && cache'[j] == cache[s];
        OnePlace(list, s, i);
        assert table[EntryKey(cfg, cache[s])] == list[s];
      }
      forall k | 0 <= k < |table'| && table'[k] != null
        ensures exists j :: 0 <= j < |list'| && list'[j] == table'[k] && EntryKey(cfg, cache'[j]) == k
      {
        var j :| 0 <= j < |list| && list[j] == table[k] && EntryKey(cfg, cache[j]) == k;
        var j' := if j < i then j else j - 1;
        assert Skip(i, j') == j;
        assert list'[j'] == table'[k] && EntryKey(cfg, cache'[j']) == k;
      }
    }

    /** fs_remove takes an entry out of the table and of the list. */
    method Detach(entry: CacheEntry, key: nat, ghost i: nat)
      requires Valid() && i < |gCache.list| && gCache.list[i] == entry && key == KeyOf(cfg, entry.file.name)
      modifies gHashmap, gCache`head, gCache`tail, gCache`list, gCache.list`pre, gCache.list`nex
      ensures Valid() && gCache.list == old(Without(gCache.list, i)) && Parked([entry], gCache.list)
      ensures Abs() == old(Abs().(cache := Abs().cache[..i] + Abs().cache[i + 1..]))
      ensures AbsEntry(entry) == old(Abs().cache[i])
    {
      hide FSCache.IsList, AbsEntry, AbsCache, TableOk, LockQueueApart, CircQueue.Valid, Without;
      ghost var list, cache, table := gCache.list, AbsCache(gCache.list), gHashmap[..];
      OwnKey(i);
      ListHasNoRepeats();
      TableAfterRemove(table, list, cache, i);
      AbsOfWithout(list, i);
      SplitQueues(list, i);
      gHashmap[key] := null;
      assert gHashmap[..] == table[key := null];
      gCache.Unlink(entry, i);
      ghost var rest := gCache.list;
      forall e | e in list
        ensures e.waitingLockQueue.Valid()
      {
      }
      assert gHashmap[..] == table[key := null];
      assert rest == Without(list, i);
      assert AbsCache(rest) == cache[..i] + cache[i + 1..];
      assert key == EntryKey(cfg, cache[i]);
      assert TableOk(gHashmap[..], rest, AbsCache(rest));
    }

    /** The oldest entry leaves the table and the list and joins those already ejected. */
    method EjectTail(ghost buf: seq<CacheEntry>) returns (item: CacheEntry)
      requires Valid() && Parked(buf, gCache.list) && gCache.tail != null
      modifies gHashmap, gCache`head, gCache`tail, gCache`list, gCache.list`pre
      ensures old(gCache.list) != [] && item == old(gCache.list[0])
      ensures Valid() && gCache.list == old(gCache.list[1..]) && Parked(buf + [item], gCache.list)
      ensures old(Abs().cache) != [] && Abs() == old(Abs().(cache := Abs().cache[1..]))
      ensures AbsEntry(item) == old(Abs().cache[0])
      ensures AbsCache(buf + [item]) == old(AbsCache(buf)) + old(Abs().cache[..1])
    {
      hide FSCache.IsList, AbsEntry, AbsCache, TableOk, LockQueueApart, CircQueue.Valid, QueuesApart, Distinct,
           KeyOf, EntryKey;
      ghost var list, cache, table := gCache.list, AbsCache(gCache.list), gHashmap[..];
      EjectView(buf);
      item := gCache.tail;
      gHashmap[KeyOf(cfg, item.file.name)] := null;
      assert gHashmap[..] == table[KeyOf(cfg, item.file.name) := null];
      var dropped := gCache.DropTail();
      forall e | e in list || e in buf
        ensures e.waitingLockQueue.Valid()
      {
      }
      assert gHashmap[..] == table[KeyOf(cfg, item.file.name) := null] && AbsCache(gCache.list) == cache[1..];
    }

    /** What the state without the oldest entry will be. */
    lemma EjectView(buf: seq<CacheEntry>)
      requires Valid() && Parked(buf, gCache.list) && gCache.tail != null
      ensures gCache.list != [] && gCache.tail == gCache.list[0]
      ensures var list, cache, key := gCache.list, AbsCache(gCache.list), KeyOf(cfg, gCache.tail.file.name);
              && key < gHashmap.Length
              && TableOk(gHashmap[..][key := null], list[1..], cache[1..])
              && AbsCache(list[1..]) == cache[1..]
              && AbsCache(buf + [list[0]]) == AbsCache(buf) + cache[..1] && AbsEntry(list[0]) == cache[0]
      ensures var list := gCache.list;
              && QueuesApart(buf + [list[0]] + list[1..]) && QueuesApart(list[1..])
              && LockQueueApart(buf + [list[0]]) && LockQueueApart(list[1..]) && Distinct(buf + [list[0]])
              && (forall e :: e in buf + [list[0]] ==> e !in list[1..])
              && (forall e :: e in list[1..] || e in buf + [list[0]] ==> e in list || e in buf)
    {
      hide AbsEntry, AbsCache, TableOk, LockQueueApart, CircQueue.Valid, Without, QueuesApart, Distinct,
           FSCache.IsList, EntryKey;
      ghost var list, cache, table := gCache.list, AbsCache(gCache.list), gHashmap[..];
      ListHasNoRepeats();
      TailIsFirst();
      OwnKey(0);
      TableAfterRemove(table, list, cache, 0);
      WithoutPlace(list, 0);
      assert Without(list, 0) == list[1..] && cache[..0] + cache[1..] == cache[1..];
      AbsOfWithout(list, 0);
      AbsConcat(buf, [list[0]]);
      AbsOfOne(list[0]);
      ParkOldest(buf, list);
    }

    lemma ParkOldest(buf: seq<CacheEntry>, list: seq<CacheEntry>)
      requires list != [] && Distinct(list) && QueuesApart(list) && LockQueueApart(list) && Parked(buf, list)
      ensures QueuesApart(buf + [list[0]] + list[1..]) && QueuesApart(list[1..])
      ensures LockQueueApart(buf + [list[0]]) && LockQueueApart(list[1..]) && Distinct(buf + [list[0]])
      ensures forall e :: e in buf + [list[0]] ==> e !in list[1..]
      ensures forall e :: e in list[1..] || e in buf + [list[0]] ==> e in list || e in buf
    {
      hide QueuesValid;
      assert buf + [list[0]] + list[1..] == buf + list;
      assert list[0] in list;
    }

    lemma TailIsFirst()
      requires Valid() && gCache.tail != null
      ensures gCache.list != [] && gCache.tail == gCache.list[0]
    {
    }

    /** The push onto the notification queue. The program retries until there is room, here there is. */
    method Notify(notification: Notification, ghost buf: seq<CacheEntry>)
      requires Valid() && Parked(buf, gCache.list) && |gLockQueue.items| < gLockQueue.data.Length
      modifies gLockQueue`head, gLockQueue`size, gLockQueue`items, gLockQueue.data
      ensures Valid() && Parked(buf, gCache.list) && Abs() == old(Abs()) && AbsCache(buf) == old(AbsCache(buf))
      ensures gLockQueue.items == old(gLockQueue.items) + [notification]
    {
      hide FSCache.IsList, AbsEntry, AbsCache, TableOk, QueuesApart, CircQueue.Valid, Distinct;
      ghost var list, cache, table := gCache.list, AbsCache(gCache.list), gHashmap[..];
      var ok := gLockQueue.TryPush(notification);
      forall e | e in list || e in buf
        ensures e.waitingLockQueue.Valid()
      {
      }
      assert gHashmap[..] == table && AbsCache(list) == cache;
    }

    /** tryPop of the lock thread on the notification queue. */
    method TakeNotification() returns (item: Option<Notification>)
      requires Valid()
      modifies gLockQueue`tail, gLockQueue`size, gLockQueue`items
      ensures Valid() && Abs() == old(Abs())
      ensures item == if old(gLockQueue.items) == [] then None else Some(old(gLockQueue.items)[0])
      ensures gLockQueue.items == if old(gLockQueue.items) == [] then [] else old(gLockQueue.items)[1..]
    {
      hide FSCache.IsList, AbsEntry, AbsCache, TableOk, QueuesApart, CircQueue.Valid, Distinct;
      ghost var list, cache, table := gCache.list, AbsCache(gCache.list), gHashmap[..];
      item := gLockQueue.TryPop();
      forall e | e in list
        ensures e.waitingLockQueue.Valid()
      {
      }
      assert gHashmap[..] == table && AbsCache(list) == cache;
    }

    /** tryPop on the waiting queue of an ejected entry. */
    method PopParked(ghost buf: seq<CacheEntry>, entry: CacheEntry, ghost i: nat) returns (item: Option<int>)
      requires Valid() && Parked(buf, gCache.list) && i < |buf| && buf[i] == entry
      modifies entry.waitingLockQueue`tail, entry.waitingLockQueue`size, entry.waitingLockQueue`items
      ensures Valid() && Parked(buf, gCache.list) && Abs() == old(Abs())
      ensures item == if old(AbsCache(buf))[i].waiting == [] then None else Some(old(AbsCache(buf))[i].waiting[0])
      ensures AbsCache(buf) == if item.None? then old(AbsCache(buf))
              else old(AbsCache(buf))[i := Served(old(AbsCache(buf))[i])]
    {
      hide FSCache.IsList, AbsCache, TableOk, CircQueue.Valid;
      ghost var list, cache, parked, table := gCache.list, AbsCache(gCache.list), AbsCache(buf), gHashmap[..];
      ParkedApart(buf, entry);
      item := entry.waitingLockQueue.TryPop();
      forall e | e in list || e in buf
        ensures e.waitingLockQueue.Valid()
      {
      }
      assert gHashmap[..] == table;
      AbsIs(buf, if item.None? then parked else parked[i := Served(parked[i])]);
      AbsIs(list, cache);
    }

    /** The queue of a parked entry is none of the others. */
    lemma ParkedApart(buf: seq<CacheEntry>, entry: CacheEntry)
      requires Parked(buf, gCache.list) && entry in buf && LockQueueApart(buf)
      ensures entry.waitingLockQueue.Valid() && gLockQueue != entry.waitingLockQueue as object
      ensures forall e :: (e in gCache.list || e in buf) && e != entry ==>
                e.waitingLockQueue != entry.waitingLockQueue && e.waitingLockQueue.data != entry.waitingLockQueue.data
      ensures entry !in gCache.list
    {
      assert forall e :: e in gCache.list || e in buf ==> e in buf + gCache.list;
    }

    lemma GoneFirst(waiting: seq<int>)
      requires waiting != []
      ensures Gone(waiting) == [Notification(waiting[0], FS_FILE_NOT_EXISTS)] + Gone(waiting[1..])
    {
    }

    /** The client that waits first for a parked entry, if there is one, is told that the file is gone. */
    method TellFirst(ghost buf: seq<CacheEntry>, entry: CacheEntry, ghost i: nat) returns (told: bool)
      requires Valid() && Parked(buf, gCache.list) && i < |buf| && buf[i] == entry
      requires |gLockQueue.items| + |AbsCache(buf)[i].waiting| <= gLockQueue.data.Length
      modifies entry.waitingLockQueue`tail, entry.waitingLockQueue`size, entry.waitingLockQueue`items
      modifies gLockQueue`head, gLockQueue`size, gLockQueue`items, gLockQueue.data
      ensures Valid() && Parked(buf, gCache.list) && Abs() == old(Abs())
      ensures told <==> old(AbsCache(buf))[i].waiting != []
      ensures AbsCache(buf) == if told then old(AbsCache(buf))[i := Served(old(AbsCache(buf))[i])]
              else old(AbsCache(buf))
      ensures gLockQueue.items + Gone(AbsCache(buf)[i].waiting)
              == old(gLockQueue.items + Gone(AbsCache(buf)[i].waiting))
    {
      hide Valid, Parked, Abs, AbsCache, Gone;
      var item := PopParked(buf, entry, i);
      told := item.Some?;
      if told {
        GoneFirst(old(AbsCache(buf)[i].waiting));
        Notify(Notification(item.value, FS_FILE_NOT_EXISTS), buf);
      }
    }

    /** Every client waiting for a parked entry is told, in arrival order. */
    method DrainEntry(ghost buf: seq<CacheEntry>, entry: CacheEntry, ghost i: nat)
      requires Valid() && Parked(buf, gCache.list) && i < |buf| && buf[i] == entry
      requires |gLockQueue.items| + |AbsCache(buf)[i].waiting| <= gLockQueue.data.Length
      modifies entry.waitingLockQueue`tail, entry.waitingLockQueue`size, entry.waitingLockQueue`items
      modifies gLockQueue`head, gLockQueue`size, gLockQueue`items, gLockQueue.data
      ensures Valid() && Parked(buf, gCache.list) && Abs() == old(Abs())
      ensures gLockQueue.items == old(gLockQueue.items) + Gone(old(AbsCache(buf))[i].waiting)
      ensures AbsCache(buf) == old(AbsCache(buf))[i := old(AbsCache(buf))[i].(waiting := [])]
    {
      hide Valid, Parked, Abs, AbsCache, Gone;
      ghost var parked := AbsCache(buf);
      var more := true;
      while more
        invariant Valid() && Parked(buf, gCache.list) && Abs() == old(Abs())
        invariant AbsCache(buf) == parked[i := parked[i].(waiting := AbsCache(buf)[i].waiting)]
        invariant !more ==> AbsCache(buf)[i].waiting == []
        invariant gLockQueue.items + Gone(AbsCache(buf)[i].waiting) == old(gLockQueue.items) + Gone(parked[i].waiting)
        decreases more, |AbsCache(buf)[i].waiting|
      {
        more := TellFirst(buf, entry, i);
      }
    }

    /** The counters once a file has left. */
    method Uncount(file: File, ghost buf: seq<CacheEntry>)
      requires Valid() && Parked(buf, gCache.list)
      modifies gCache`slotUsed, gCache`bytesUsed
      ensures Valid() && Parked(buf, gCache.list) && AbsCache(buf) == old(AbsCache(buf))
      ensures Abs() == var st := old(Abs()); State(st.cache, st.slotUsed - 1, st.bytesUsed - Size(file))
    {
      hide FSCache.IsList, AbsCache, TableOk, QueuesApart, LockQueueApart, CircQueue.Valid, Distinct;
      ghost var list := gCache.list;
      gCache.bytesUsed := gCache.bytesUsed - Size(file);
      gCache.slotUsed := gCache.slotUsed - 1;
      forall e | e in list || e in buf
        ensures e.waitingLockQueue.Valid()
      {
      }
    }

    /** One ejection: the oldest entry goes and the counters follow. */
    method EjectOldest(ghost buf: seq<CacheEntry>) returns (item: CacheEntry)
      requires Valid() && Parked(buf, gCache.list) && gCache.tail != null
      modifies gHashmap, gCache, gCache.list`pre
      ensures old(gCache.list) != [] && item == old(gCache.list[0]) && gCache.list == old(gCache.list[1..])
      ensures Valid() && Parked(buf + [item], gCache.list)
      ensures old(Abs().cache) != []
      ensures Abs() == var st := old(Abs());
                       State(st.cache[1..], st.slotUsed - 1, st.bytesUsed - Size(st.cache[0].file))
      ensures AbsCache(buf + [item]) == old(AbsCache(buf)) + old(Abs().cache[..1])
    {
      hide Valid, Parked, AbsCache, Size;
      item := EjectTail(buf);
      Uncount(item.file, buf + [item]);
    }

    /** The loop of updateCacheSize that enforces the byte limit. */
    method EjectBytes() returns (buf: seq<CacheEntry>)
      requires Valid() && |Abs().cache| <= cfg.slotMax + 1
      modifies gHashmap, gCache, gCache.list`pre
      ensures Valid() && Parked(buf, gCache.list)
      ensures |buf| <= |old(gCache.list)| && gCache.list == old(gCache.list)[|buf|..]
              && buf == old(gCache.list)[..|buf|]
      ensures var k := EjectCount(cfg, old(Abs().cache), old(Abs().bytesUsed));
              AbsCache(buf) == old(Abs().cache)[..k] && Abs() == Shed(old(Abs()), k)
    {
      hide Valid, Parked, AbsCache, Size, Bytes, Shed, EjectCount;
      ghost var st, list := Abs(), gCache.list;
      Bounds();
      buf := [];
      var depth := 0;
      ShedNone(st);
      while gCache.bytesUsed > cfg.bytesMax && gCache.tail != null && depth < DEPTH_LIMIT
        invariant depth == |buf| <= |list| && gCache.list == list[depth..] && depth <= |st.cache|
        invariant buf == list[..depth]
        invariant Valid() && Parked(buf, gCache.list)
        invariant AbsCache(buf) == st.cache[..depth]
        invariant Abs() == Shed(st, depth)
        invariant depth + EjectCount(cfg, Abs().cache, Abs().bytesUsed) == EjectCount(cfg, st.cache, st.bytesUsed)
        decreases |list| - depth
      {
        Bounds();
        ShedStep(cfg, st, depth);
        var item := EjectOldest(buf);
        buf := buf + [item];
        depth := depth + 1;
      }
      Bounds();
      NoneLeft(cfg, Abs());
    }

    lemma Bounds()
      requires Valid()
      ensures Parked([], gCache.list) && (gCache.tail == null <==> Abs().cache == []) && 1 <= cfg.slotMax <= 1_000_000
    {
    }

    /** Entry i of the ejected ones gives its file and tells those waiting for it. */
    method Release(buf: seq<CacheEntry>, i: nat, ghost parked: seq<Entry>) returns (file: File)
      requires Valid() && Parked(buf, gCache.list) && i < |buf| == |parked| && AbsCache(buf)[i..] == parked[i..]
      requires |gLockQueue.items| + |parked[i].waiting| <= gLockQueue.data.Length
      modifies buf[i].waitingLockQueue`tail, buf[i].waitingLockQueue`size, buf[i].waitingLockQueue`items
      modifies gLockQueue`head, gLockQueue`size, gLockQueue`items, gLockQueue.data
      ensures Valid() && Parked(buf, gCache.list) && Abs() == old(Abs())
      ensures file == parked[i].file && AbsCache(buf)[i + 1..] == parked[i + 1..]
      ensures gLockQueue.items == old(gLockQueue.items) + Gone(parked[i].waiting)
    {
      hide Valid, Parked, Abs, AbsCache, Gone;
      assert AbsEntry(buf[i]) == AbsCache(buf)[i] == AbsCache(buf)[i..][0] == parked[i];
      assert AbsCache(buf)[i..][1..] == parked[i..][1..];
      file := buf[i].file;
      DrainEntry(buf, buf[i], i);
      assert AbsCache(buf)[i + 1..] == parked[i..][1..];
    }

    /** One round of handing out, in terms of what is still to be handed out and told. */
    method ReleaseNext(buf: seq<CacheEntry>, i: nat, files: seq<File>, ghost parked: seq<Entry>)
      returns (more: seq<File>)
      requires Valid() && Parked(buf, gCache.list) && i < |buf| == |parked| && AbsCache(buf)[i..] == parked[i..]
      requires |gLockQueue.items| + |AllGone(parked[i..])| <= gLockQueue.data.Length
      modifies buf[i].waitingLockQueue`tail, buf[i].waitingLockQueue`size, buf[i].waitingLockQueue`items
      modifies gLockQueue`head, gLockQueue`size, gLockQueue`items, gLockQueue.data
      ensures Valid() && Parked(buf, gCache.list) && Abs() == old(Abs())
      ensures AbsCache(buf)[i + 1..] == parked[i + 1..]
      ensures more + Files(parked[i + 1..]) == files + Files(parked[i..])
      ensures gLockQueue.items + AllGone(parked[i + 1..]) == old(gLockQueue.items) + AllGone(parked[i..])
    {
      hide Valid, Parked, Abs, AbsCache, AllGone, Gone, Files;
      TellStep(gLockQueue.items, files, parked, i);
      var file := Release(buf, i, parked);
      more := files + [file];
    }

    /** The files of the ejected entries are handed out and those waiting for them are told. */
    method TellAll(buf: seq<CacheEntry>) returns (files: seq<File>)
      requires Valid() && Parked(buf, gCache.list)
      requires |gLockQueue.items| + |AllGone(AbsCache(buf))| <= gLockQueue.data.Length
      modifies QueuesOf(buf)`tail, QueuesOf(buf)`size, QueuesOf(buf)`items
      modifies gLockQueue`head, gLockQueue`size, gLockQueue`items, gLockQueue.data
      ensures Valid() && Abs() == old(Abs())
      ensures files == Files(old(AbsCache(buf)))
      ensures gLockQueue.items == old(gLockQueue.items) + AllGone(old(AbsCache(buf)))
    {
      hide Valid, Parked, Abs, AbsCache, AllGone, Gone, Files;
      ghost var parked := AbsCache(buf);
      files := [];
      var i := 0;
      while i < |buf|
        invariant i <= |buf| && Valid() && Parked(buf, gCache.list) && Abs() == old(Abs())
        invariant AbsCache(buf)[i..] == parked[i..]
        invariant gLockQueue.items + AllGone(parked[i..]) == old(gLockQueue.items) + AllGone(parked)
        invariant files + Files(parked[i..]) == Files(parked)
      {
        files := ReleaseNext(buf, i, files, parked);
        i := i + 1;
      }
      TellNone(parked);
    }

    /** The ejecting part of updateCacheSize: the byte limit, then the slot limit. */
    method Eject() returns (buf: seq<CacheEntry>)
      requires Valid() && Abs().slotUsed == |Abs().cache| <= cfg.slotMax + 1
      modifies gHashmap, gCache, gCache.list`pre
      ensures Valid() && Parked(buf, gCache.list)
      ensures forall e :: e in buf ==> e in old(gCache.list)
      ensures forall j :: 0 <= j < |gCache.list| ==> gCache.list[j] in old(gCache.list)
      ensures AbsCache(buf) == Balance(cfg, old(Abs())).ejected && Abs() == Balance(cfg, old(Abs())).state
    {
      hide Valid, Parked, AbsCache, Size, Shed, EjectCount, Balance;
      ghost var st, list := Abs(), gCache.list;
      Bounds();
      SettleCases(cfg, st);
      buf := EjectBytes();
      Bounds();
      assert forall e :: e in buf || e in gCache.list ==> e in list;
      if gCache.slotUsed > cfg.slotMax {
        var item := EjectOldest(buf);
        ParkedLast(buf, item);
        buf := [item];
      }
    }

    /** updateCacheSize: the counters move by the new and the old file, then both limits are enforced. */
    method UpdateCacheSize(newFile: Option<File>, oldFile: Option<File>) returns (ejected: seq<File>)
      requires Valid() && Recounted(Abs(), newFile, oldFile).slotUsed == |Abs().cache| <= cfg.slotMax + 1
      requires var gone := Balance(cfg, Recounted(Abs(), newFile, oldFile)).ejected;
               |gLockQueue.items| + |AllGone(gone)| <= gLockQueue.data.Length
      modifies gHashmap, gCache, gCache.list, QueuesOf(gCache.list)
      modifies gLockQueue, gLockQueue.data
      ensures Valid()
      ensures forall j :: 0 <= j < |gCache.list| ==> gCache.list[j] in old(gCache.list)
      ensures var o := Settle(cfg, Recounted(old(Abs()), newFile, oldFile));
              Abs() == o.state && ejected == o.ejected && gLockQueue.items == old(gLockQueue.items) + o.notes
    {
      hide Valid, Parked, Abs, AbsCache, Balance, AllGone, Files;
      ghost var list := gCache.list;
      Recount(newFile, oldFile);
      var buf := Eject();
      ejected := [];
      if |buf| > 0 {
        ejected := TellAll(buf);
      } else {
        NoneToTell();
      }
    }

    method Recount(newFile: Option<File>, oldFile: Option<File>)
      requires Valid()
      modifies gCache`slotUsed, gCache`bytesUsed
      ensures Valid() && Abs() == Recounted(old(Abs()), newFile, oldFile)
    {
      hide FSCache.IsList, AbsCache, TableOk, QueuesApart, LockQueueApart, CircQueue.Valid, Distinct;
      ghost var list := gCache.list;
      if newFile.Some? { gCache.bytesUsed := gCache.bytesUsed + Size(newFile.value); }
      if oldFile.Some? { gCache.bytesUsed := gCache.bytesUsed - Size(oldFile.value); }
      if newFile.None? { gCache.slotUsed := gCache.slotUsed - 1; }
      if oldFile.None? { gCache.slotUsed := gCache.slotUsed + 1; }
      forall e | e in list
        ensures e.waitingLockQueue.Valid()
      {
      }
    }

    lemma ParkedLast(buf: seq<CacheEntry>, item: CacheEntry)
      requires Parked(buf + [item], gCache.list)
      ensures Parked([item], gCache.list) && AbsCache([item]) == AbsCache(buf + [item])[|buf|..]
    {
      hide AbsCache;
      AbsConcat(buf, [item]);
      assert item == (buf + [item])[|buf|] && item in buf + [item];
      assert forall e :: e in [item] + gCache.list ==> e in buf + [item] + gCache.list;
    }

    lemma ListHasNoRepeats()
      requires Valid()
      ensures Distinct(gCache.list) && (gCache.tail == null <==> gCache.list == [])
    {
    }

    /** What is known of the queues of a list, split into one entry and the rest. */
    lemma SplitQueues(list: seq<CacheEntry>, i: nat)
      requires i < |list| && Distinct(list) && QueuesApart(list) && LockQueueApart(list)
      ensures QueuesApart([list[i]] + Without(list, i)) && QueuesApart(Without(list, i))
      ensures LockQueueApart([list[i]]) && LockQueueApart(Without(list, i))
      ensures list[i] !in Without(list, i) && forall e :: e in Without(list, i) ==> e in list
    {
      hide Without;
      assert forall e :: e in Without(list, i) ==> e in list;
      assert forall e :: e in [list[i]] + Without(list, i) ==> e in list;
    }

    lemma OwnKey(i: nat)
      requires Valid() && i < |gCache.list|
      ensures KeyOf(cfg, gCache.list[i].file.name) == EntryKey(cfg, Abs().cache[i])
      ensures KeyOf(cfg, gCache.list[i].file.name) < gHashmap.Length
    {
    }

    /** fs_exists */
    method Exists(file: File) returns (res: int)
      requires Valid()
      modifies gCache`head, gCache`tail, gCache`list, gCache.list`pre, gCache.list`nex
      ensures Valid()
      ensures forall j :: 0 <= j < |gCache.list| ==> gCache.list[j] in old(gCache.list)
      ensures var o := Touch(cfg, old(Abs()), file.name);
              Abs() == o.state && res == o.res
    {
      hide MoveToTop, Find, Valid, Abs;
      res := 0;
      ValidParts();
      var key := KeyOf(cfg, file.name);
      Lookup(key);
      var entry := gHashmap[key];
      if entry != null {
        MoveToTopOf(entry, Find(cfg, Abs().cache, key));
      } else {
        res := FS_FILE_NOT_EXISTS;
      }
    }

    /** fs_trylock */
    method LockFile(client: int, file: File) returns (res: int)
      requires Valid()
      modifies gCache, gCache.list, QueuesOf(gCache.list), BuffersOf(gCache.list)
      ensures Valid()
      ensures forall j :: 0 <= j < |gCache.list| ==> gCache.list[j] in old(gCache.list)
      ensures var o := TryLock(cfg, old(Abs()), client, file.name);
              Abs() == o.state && res == o.res
    {
      hide MoveToTop, Find, Valid, Abs, AbsCache;
      res := 0;
      ValidParts();
      var key := KeyOf(cfg, file.name);
      Lookup(key);
      ghost var i, st := Find(cfg, Abs().cache, key), Abs();
      var entry := gHashmap[key];
      if entry != null {
        if entry.owner != EMPTY_OWNER && entry.owner != client {
          var ok := PushWaiting(entry, client, i);
          res := if ok then FS_CLIENT_WAITING_ON_LOCK else FS_CLIENT_NOT_ALLOWED;
        } else {
          Rewrite(entry, client, entry.file, i);
          MoveToTopOf(entry, i);
          LiftReplaced(st, i, Retitled(st.cache[i], client, st.cache[i].file));
        }
      } else {
        res := FS_FILE_NOT_EXISTS;
      }
    }

    /** The owner gives the file up; the client that waits first gets it and is told. */
    method PassOn(entry: CacheEntry, ghost i: nat)
      requires Valid() && i < |gCache.list| && gCache.list[i] == entry
      requires Abs().cache[i].waiting == [] || |gLockQueue.items| < gLockQueue.data.Length
      modifies entry`owner, entry`file, entry.waitingLockQueue, gLockQueue, gLockQueue.data
      ensures Valid() && gCache.list == old(gCache.list)
      ensures var e := old(Abs().cache)[i];
              var w := e.waiting;
              && Abs() == Replaced(old(Abs()), i, if w == [] then Retitled(e, EMPTY_OWNER, e.file)
                                   else Retitled(Served(e), w[0], e.file))
              && gLockQueue.items == old(gLockQueue.items) + (if w == [] then [] else [Notification(w[0], 0)])
    {
      hide Valid, Parked, Abs, AbsCache;
      Lengths();
      ghost var st := Abs();
      Rewrite(entry, EMPTY_OWNER, entry.file, i);
      var item := PopWaiting(entry, i);
      if item.Some? {
        Rewrite(entry, item.value, entry.file, i);
        Bounds();
        Notify(Notification(item.value, 0), []);
      }
    }

    lemma Lengths()
      requires Valid()
      ensures |Abs().cache| == |gCache.list|
      ensures forall i :: 0 <= i < |gCache.list| ==> Abs().cache[i] == AbsEntry(gCache.list[i])
      ensures LockQueueApart(gCache.list)
    {
    }

    /** _inner_unlock */
    method InnerUnlock(client: int, key: nat) returns (res: int)
      requires Valid() && key < cfg.tableSize
      requires |gLockQueue.items| + |UnlockKey(cfg, Abs(), client, key).notes| <= gLockQueue.data.Length
      modifies gCache, gCache.list, QueuesOf(gCache.list), gLockQueue, gLockQueue.data
      ensures Valid() && forall e :: e in gCache.list <==> e in old(gCache.list)
      ensures QueuesOf(gCache.list) == old(QueuesOf(gCache.list))
      ensures var o := UnlockKey(cfg, old(Abs()), client, key);
              Abs() == o.state && res == o.res && gLockQueue.items == old(gLockQueue.items) + o.notes
    {
      hide MoveToTop, Find, Valid, Abs, AbsCache;
      Lookup(key);
      ghost var i, st, list := Find(cfg, Abs().cache, key), Abs(), gCache.list;
      var entry := gHashmap[key];
      if entry != null {
        if entry.owner != client { return FS_CLIENT_NOT_ALLOWED; }
        PassOn(entry, i);
        ghost var e := Abs().cache[i];
        MoveToTopOf(entry, i);
        LiftReplaced(st, i, e);
        SameMembers(list, i);
      } else {
        return FS_FILE_NOT_EXISTS;
      }
      return 0;
    }

    /** fs_unlock */
    method Unlock(client: int, file: File) returns (res: int)
      requires Valid()
      requires |gLockQueue.items| + |UnlockKey(cfg, Abs(), client, KeyOf(cfg, file.name)).notes|
               <= gLockQueue.data.Length
      modifies gCache, gCache.list, QueuesOf(gCache.list), gLockQueue, gLockQueue.data
      ensures Valid()
      ensures forall j :: 0 <= j < |gCache.list| ==> gCache.list[j] in old(gCache.list)
      ensures var o := UnlockKey(cfg, old(Abs()), client, KeyOf(cfg, file.name));
              Abs() == o.state && res == o.res && gLockQueue.items == old(gLockQueue.items) + o.notes
    {
      hide Valid, Abs;
      ValidParts();
      res := InnerUnlock(client, KeyOf(cfg, file.name));
    }

    /** fs_clean: everything the session still lists is unlocked. */
    method CleanSession(client: int, filenames: seq<nat>)
      requires Valid()
      requires |gLockQueue.items| + |Clean(cfg, Abs(), client, filenames).notes| <= gLockQueue.data.Length
      modifies gCache, gCache.list, QueuesOf(gCache.list), gLockQueue, gLockQueue.data
      ensures Valid()
      ensures forall j :: 0 <= j < |gCache.list| ==> gCache.list[j] in old(gCache.list)
      ensures var o := Clean(cfg, old(Abs()), client, filenames);
              Abs() == o.state && gLockQueue.items == old(gLockQueue.items) + o.notes
    {
      hide Valid, Abs, Clean, UnlockKey;
      ValidParts();
      ghost var st, list := Abs(), gCache.list;
      var i := 0;
      assert filenames[0..] == filenames;
      while i < |filenames|
        invariant i <= |filenames| && Valid() && forall e :: e in gCache.list <==> e in list
        invariant QueuesOf(gCache.list) == QueuesOf(list)
        invariant Clean(cfg, Abs(), client, filenames[i..]).state == Clean(cfg, st, client, filenames).state
        invariant gLockQueue.items + Clean(cfg, Abs(), client, filenames[i..]).notes
               == old(gLockQueue.items) + Clean(cfg, st, client, filenames).notes
      {
        CleanStep(cfg, Abs(), client, filenames, i, gLockQueue.items);
        assert forall j :: 0 <= j < |gCache.list| ==> gCache.list[j] in list;
        var res := InnerUnlock(client, filenames[i] % cfg.tableSize);
        i := i + 1;
      }
      CleanNothing(cfg, Abs(), client, filenames);
    }

    /** The entry leaves the table and the list, and its waiting clients are told. */
    method TakeOut(entry: CacheEntry, key: nat, ghost i: nat)
      requires Valid() && i < |gCache.list| && gCache.list[i] == entry && key == KeyOf(cfg, entry.file.name)
      requires |gLockQueue.items| + |Abs().cache[i].waiting| <= gLockQueue.data.Length
      modifies gHashmap, gCache`head, gCache`tail, gCache`list, gCache.list`pre, gCache.list`nex
      modifies entry.waitingLockQueue, gLockQueue, gLockQueue.data
      ensures Valid() && gCache.list == old(Without(gCache.list, i)) && entry.file == old(entry.file)
      ensures Abs() == old(Abs().(cache := Abs().cache[..i] + Abs().cache[i + 1..]))
      ensures gLockQueue.items == old(gLockQueue.items) + Gone(old(Abs().cache[i]).waiting)
    {
      hide Valid, Parked, Abs, AbsCache, Gone, KeyOf, Without;
      Detach(entry, key, i);
      AbsOfOne(entry);
      DrainEntry([entry], entry, 0);
    }

    /** fs_remove for the owner of a file. Between two operations the limits hold, so nothing is ejected: the null
        output arguments of the call to updateCacheSize are never written. */
    method RemoveEntry(entry: CacheEntry, key: nat, ghost i: nat)
      requires Valid() && Inv(cfg, Abs()) && i < |gCache.list| && gCache.list[i] == entry && i < |Abs().cache|
      requires key == KeyOf(cfg, entry.file.name)
      requires |gLockQueue.items| + |Abs().cache[i].waiting| <= gLockQueue.data.Length
      modifies gHashmap, gCache, gCache.list, QueuesOf(gCache.list), gLockQueue, gLockQueue.data
      ensures Valid()
      ensures forall j :: 0 <= j < |gCache.list| ==> gCache.list[j] in old(gCache.list)
      ensures Abs() == LessOne(old(Abs()), i)
      ensures gLockQueue.items == old(gLockQueue.items) + Gone(old(Abs().cache[i]).waiting)
    {
      hide Valid, Parked, Fits, Abs, AbsCache, Find, Gone, Balance, AllGone, KeyOf, Inv, Size, Settle, Recounted,
           LessOne, Remove, Insert;
      ghost var st := Abs();
      FileOf(entry, i);
      AfterRemoval(cfg, st, i);
      TakeOut(entry, key, i);
      var ejected := UpdateCacheSize(None, Some(entry.file));
      assert ejected == [];
    }

    lemma FileOf(entry: CacheEntry, i: nat)
      requires Valid() && i < |gCache.list| && gCache.list[i] == entry
      ensures i < |Abs().cache| && entry.file == Abs().cache[i].file && entry.owner == Abs().cache[i].owner
      ensures forall e :: e in Without(gCache.list, i) ==> e in gCache.list
      ensures QueuesOf(Without(gCache.list, i)) <= QueuesOf(gCache.list)
    {
      hide Valid, Abs, Without;
      Lengths();
    }

    /** fs_remove */
    method RemoveFile(client: int, file: File) returns (res: int)
      requires Valid() && Inv(cfg, Abs())
      requires |gLockQueue.items| + |Remove(cfg, Abs(), client, file.name).notes| <= gLockQueue.data.Length
      modifies gHashmap, gCache, gCache.list, QueuesOf(gCache.list), gLockQueue, gLockQueue.data
      ensures Valid()
      ensures forall j :: 0 <= j < |gCache.list| ==> gCache.list[j] in old(gCache.list)
      ensures var o := Remove(cfg, old(Abs()), client, file.name);
              Abs() == o.state && res == o.res && gLockQueue.items == old(gLockQueue.items) + o.notes
    {
      hide *;
      ValidParts();
      ghost var st := Abs();
      RemoveSteps(cfg, st, client, file.name);
      var key := KeyOf(cfg, file.name);
      Lookup(key);
      ghost var i := Find(cfg, st.cache, key);
      var entry := gHashmap[key];
      res := 0;
      if entry != null {
        FileOf(entry, i);
        OwnKey(i);
        if entry.owner != client {
          res := FS_CLIENT_NOT_ALLOWED;
        } else {
          RemoveEntry(entry, key, i);
        }
      } else {
        res := FS_FILE_NOT_EXISTS;
      }
    }

    /** An entry about to enter the cache. */
    ghost predicate Fits(entry: CacheEntry, list: seq<CacheEntry>)
      reads entry, entry.waitingLockQueue, entry.waitingLockQueue.data
    {
      && entry.pre == null && entry.nex == null && entry !in list
      && entry.waitingLockQueue.Valid() && QueuesApart(list + [entry]) && LockQueueApart(list + [entry])
    }

    /** createEmptyCacheEntry, with its owner set. */
    method CreateEntry(file: File, owner: int) returns (entry: CacheEntry)
      requires Valid()
      ensures Valid() && fresh(entry) && fresh(entry.waitingLockQueue) && fresh(entry.waitingLockQueue.data)
      ensures Fits(entry, gCache.list) && AbsEntry(entry) == Entry(owner, file, []) && Abs() == old(Abs())
    {
      hide FSCache.IsList, AbsCache, TableOk, CircQueue.Valid;
      ghost var list, cache, table := gCache.list, AbsCache(gCache.list), gHashmap[..];
      entry := new CacheEntry(file);
      entry.owner := owner;
      forall e | e in list
        ensures e.waitingLockQueue.Valid()
      {
      }
      assert gHashmap[..] == table && AbsCache(list) == cache;
    }

    lemma TableAfterAdd(table: seq<CacheEntry?>, list: seq<CacheEntry>, cache: seq<Entry>, x: CacheEntry, e: Entry)
      requires TableOk(table, list, cache) && table[EntryKey(cfg, e)] == null
      ensures TableOk(table[EntryKey(cfg, e) := x], list + [x], cache + [e])
    {
      hide KeyOf;
      var key := EntryKey(cfg, e);
      var table', list', cache' := table[key := x], list + [x], cache + [e];
      assert forall j :: 0 <= j < |list| ==> list'[j] == list[j] && cache'[j] == cache[j];
      assert list'[|list|] == x && cache'[|list|] == e;
      forall k | 0 <= k < |table'| && table'[k] != null
        ensures exists j :: 0 <= j < |list'| && list'[j] == table'[k] && EntryKey(cfg, cache'[j]) == k
      {
        if k == key {
          assert list'[|list|] == table'[k];
        } else {
          var j :| 0 <= j < |list| && list[j] == table[k] && EntryKey(cfg, cache[j]) == k;
          assert list'[j] == table'[k];
        }
      }
    }

    /** setValueForKey and moveToTop for a new entry. */
    method AddEntry(entry: CacheEntry, key: nat)
      requires Valid() && Fits(entry, gCache.list) && key == KeyOf(cfg, entry.file.name)
      requires Find(cfg, Abs().cache, key) < 0
      modifies gHashmap, gCache`head, gCache`tail, gCache`list, gCache.list`pre, gCache.list`nex, entry`pre, entry`nex
      ensures Valid() && gCache.list == old(gCache.list) + [entry]
      ensures Abs() == old(Abs().(cache := Abs().cache + [AbsEntry(entry)]))
    {
      hide FSCache.IsList, AbsEntry, AbsCache, TableOk, QueuesApart, LockQueueApart, CircQueue.Valid, KeyOf, Find,
           Distinct;
      ghost var list, cache, table := gCache.list, AbsCache(gCache.list), gHashmap[..];
      Lookup(key);
      AddView(entry, key);
      gHashmap[key] := entry;
      assert gHashmap[..] == table[key := entry];
      assert Without(list, -1) == list;
      gCache.MoveToTop(entry, -1);
      forall e | e in list || e == entry
        ensures e.waitingLockQueue.Valid()
      {
      }
      assert gHashmap[..] == table[key := entry] && AbsCache(gCache.list) == cache + [AbsEntry(entry)];
    }

    lemma AddView(entry: CacheEntry, key: nat)
      requires Valid() && Fits(entry, gCache.list) && key == KeyOf(cfg, entry.file.name) && gHashmap[key] == null
      ensures TableOk(gHashmap[..][key := entry], gCache.list + [entry], AbsCache(gCache.list) + [AbsEntry(entry)])
      ensures AbsCache(gCache.list + [entry]) == AbsCache(gCache.list) + [AbsEntry(entry)]
    {
      hide TableOk;
      Lookup(key);
      assert gHashmap[..][key] == gHashmap[key];
      TableAfterAdd(gHashmap[..], gCache.list, AbsCache(gCache.list), entry, AbsEntry(entry));
      AbsConcat(gCache.list, [entry]);
      AbsOfOne(entry);
    }

    /** fs_insert */
    method InsertFile(client: int, file: File, acquireLock: bool) returns (res: int, ejected: seq<File>)
      requires Valid() && Inv(cfg, Abs())
      requires |gLockQueue.items| + |Insert(cfg, Abs(), client, file, acquireLock).notes| <= gLockQueue.data.Length
      modifies gHashmap, gCache, gCache.list, QueuesOf(gCache.list), gLockQueue, gLockQueue.data
      ensures Valid()
      ensures OnlyNew(old(gCache.list), gCache.list)
      ensures var o := Insert(cfg, old(Abs()), client, file, acquireLock);
              && Abs() == o.state && res == o.res && ejected == o.ejected
              && gLockQueue.items == old(gLockQueue.items) + o.notes
    {
      hide Valid, Parked, Fits, Abs, AbsCache, Find, Gone, Balance, AllGone, KeyOf, Inv, Size, Settle, Recounted,
           LessOne, Remove, Insert;
      res, ejected := 0, [];
      ValidParts();
      ghost var st := Abs();
      InsertSteps(cfg, st, client, file, acquireLock);
      var key := KeyOf(cfg, file.name);
      var newEntry := CreateEntry(file, if acquireLock then client else EMPTY_OWNER);
      Lookup(key);
      if gHashmap[key] == null {
        AddEntry(newEntry, key);
        ejected := UpdateCacheSize(Some(file), None);
      } else {
        res := FS_FILE_ALREADY_EXISTS;
      }
    }

    /** fs_modify */
    method ModifyFile(client: int, file: File) returns (res: int, ejected: seq<File>)
      requires Valid() && Inv(cfg, Abs())
      requires |gLockQueue.items| + |Modify(cfg, Abs(), client, file).notes| <= gLockQueue.data.Length
      modifies gHashmap, gCache, gCache.list, QueuesOf(gCache.list), gLockQueue, gLockQueue.data
      ensures Valid()
      ensures forall j :: 0 <= j < |gCache.list| ==> gCache.list[j] in old(gCache.list)
      ensures var o := Modify(cfg, old(Abs()), client, file);
              && Abs() == o.state && res == o.res && ejected == o.ejected
              && gLockQueue.items == old(gLockQueue.items) + o.notes
    {
      hide Valid, Parked, Abs, AbsCache, Find, Gone, Balance, AllGone, KeyOf, LocksOk, KeysDistinct, Size, MoveToTop;
      res, ejected := 0, [];
      ValidParts();
      var key := KeyOf(cfg, file.name);
      Lookup(key);
      var entry := gHashmap[key];
      if entry != null {
        if entry.owner != client {
          res := FS_CLIENT_NOT_ALLOWED;
        } else if Size(file) > cfg.bytesMax {
          res := FS_FILE_TOO_BIG;
        } else {
          var oldFile := entry.file;
          Rewritten(entry, file, Find(cfg, Abs().cache, key));
          ejected := UpdateCacheSize(Some(file), Some(oldFile));
        }
      } else {
        res := FS_FILE_NOT_EXISTS;
      }
    }

    /** The entry gets its new file and becomes the most recently used one. */
    method Rewritten(entry: CacheEntry, file: File, ghost i: nat)
      requires Valid() && i < |gCache.list| && gCache.list[i] == entry
      requires KeyOf(cfg, file.name) == KeyOf(cfg, entry.file.name)
      modifies gCache`head, gCache`tail, gCache`list, gCache.list`pre, gCache.list`nex, entry`owner, entry`file
      ensures Valid() && QueuesOf(gCache.list) == old(QueuesOf(gCache.list))
      ensures forall j :: 0 <= j < |gCache.list| ==> gCache.list[j] in old(gCache.list)
      ensures Abs() == old(Abs()).(cache := MoveToTop(old(Abs().cache), i, old(Abs().cache[i]).(file := file)))
    {
      hide Valid, Abs, AbsCache, KeyOf, MoveToTop;
      Lengths();
      ghost var st, list := Abs(), gCache.list;
      Rewrite(entry, entry.owner, file, i);
      MoveToTopOf(entry, i);
      LiftReplaced(st, i, st.cache[i].(file := file));
      SameMembers(list, i);
    }

    /** fs_append */
    method AppendFile(client: int, file: File) returns (res: int, ejected: seq<File>)
      requires Valid() && Inv(cfg, Abs())
      requires |gLockQueue.items| + |Append(cfg, Abs(), client, file).notes| <= gLockQueue.data.Length
      modifies gHashmap, gCache, gCache.list, QueuesOf(gCache.list), gLockQueue, gLockQueue.data
      ensures Valid()
      ensures forall j :: 0 <= j < |gCache.list| ==> gCache.list[j] in old(gCache.list)
      ensures var o := Append(cfg, old(Abs()), client, file);
              && Abs() == o.state && res == o.res && ejected == o.ejected
              && gLockQueue.items == old(gLockQueue.items) + o.notes
    {
      hide Valid, Parked, Abs, AbsCache, Find, Gone, Balance, AllGone, KeyOf, LocksOk, KeysDistinct, MoveToTop;
      res, ejected := 0, [];
      ValidParts();
      var key := KeyOf(cfg, file.name);
      Lookup(key);
      ghost var i := Find(cfg, Abs().cache, key);
      var entry := gHashmap[key];
      if entry != null {
        if entry.owner != client && entry.owner != EMPTY_OWNER {
          res := FS_CLIENT_NOT_ALLOWED;
        } else if Size(file) + |entry.file.content| > cfg.bytesMax {
          res := FS_FILE_TOO_BIG;
        } else {
          var grown := File(entry.file.name, entry.file.content + file.content);
          Rewritten(entry, grown, i);
          ejected := UpdateCacheSize(Some(file), Some(File("", grown.content)));
        }
      } else {
        res := FS_FILE_NOT_EXISTS;
      }
    }

    /** fs_obtain_n. n = 0 asks for everything, newest first; otherwise min(n, slotUsed) different files are chosen
        by the reservoir, oldest first. rand is any function of the call. Nothing changes. */
    method ObtainN(n: nat, rand: nat -> nat) returns (outFiles: seq<File>, ghost picked: seq<int>)
      requires Valid() && Inv(cfg, Abs())
      ensures Valid() && Abs() == old(Abs())
      ensures |picked| == |outFiles| == if n == 0 then |Abs().cache| else Min(n, |Abs().cache|)
      ensures n == 0 ==> forall k :: 0 <= k < |picked| ==> picked[k] == |Abs().cache| - 1 - k
      ensures n > 0 && Abs().cache != [] ==> Reservoir.Increasing(picked)
      ensures Reservoir.Below(picked, |Abs().cache|)
      ensures forall k :: 0 <= k < |picked| ==> outFiles[k] == Abs().cache[picked[k]].file
    {
      hide Valid, Abs, AbsCache, KeysDistinct, LocksOk, Reservoir.Increasing;
      ListFacts();
      var count := n;
      if count != 0 { count := Min(Min(count, gCache.slotUsed), Reservoir.MAX_EJECTED_FILES_AT_SAME_TIME); }
      if count == 0 {
        outFiles, picked := TakeAll();
      } else {
        var indexes := SampleCache(count, rand);
        outFiles := TakeAt(indexes);
        picked := indexes;
      }
    }

    lemma ListFacts()
      requires Valid()
      ensures gCache.tail == At(gCache.list, 0) && gCache.head == At(gCache.list, |gCache.list| - 1)
      ensures |Abs().cache| == |gCache.list| && cfg.slotMax <= 1_000_000 && Abs().slotUsed == gCache.slotUsed
    {
    }

    /** What one sees standing on entry i. */
    lemma Neighbours(i: nat)
      requires Valid() && i < |gCache.list|
      ensures gCache.list[i].pre == At(gCache.list, i - 1) && gCache.list[i].nex == At(gCache.list, i + 1)
      ensures |Abs().cache| == |gCache.list| && Abs().cache[i].file == gCache.list[i].file
    {
    }

    method SampleCache(n: nat, rand: nat -> nat) returns (indexes: seq<int>)
      requires Valid() && n <= gCache.slotUsed && n <= Reservoir.MAX_EJECTED_FILES_AT_SAME_TIME
      ensures Valid() && Abs() == old(Abs())
      ensures |indexes| == n && Reservoir.Increasing(indexes) && Reservoir.Below(indexes, gCache.slotUsed)
    {
      hide FSCache.IsList, AbsCache, TableOk, CircQueue.Valid, QueuesApart, LockQueueApart, Reservoir.Increasing,
           Reservoir.Below;
      ghost var list, cache, table := gCache.list, AbsCache(gCache.list), gHashmap[..];
      indexes := Reservoir.Sample(n, gCache.slotUsed, rand);
      forall e | e in list
        ensures e.waitingLockQueue.Valid()
      {
      }
      assert gHashmap[..] == table && AbsCache(list) == cache;
    }

    /** The walk from the newest entry. */
    method TakeAll() returns (files: seq<File>, ghost picked: seq<int>)
      requires Valid() && gCache.slotUsed == |gCache.list| <= Reservoir.MAX_EJECTED_FILES_AT_SAME_TIME
      ensures Valid() && Abs() == old(Abs())
      ensures |files| == |picked| == |Abs().cache|
      ensures forall k :: 0 <= k < |picked| ==> picked[k] == |picked| - 1 - k
      ensures forall k :: 0 <= k < |picked| ==> files[k] == Abs().cache[picked[k]].file
    {
      hide Valid, Abs, AbsCache, At;
      ListFacts();
      ghost var list, cache := gCache.list, Abs().cache;
      var n := gCache.slotUsed;
      files, picked := [], [];
      var item := gCache.head;
      while item != null && |files| < n
        invariant Valid() && Abs() == old(Abs()) && gCache.list == list
        invariant |files| == |picked| <= n && item == At(list, n - 1 - |files|)
        invariant forall k :: 0 <= k < |picked| ==> picked[k] == n - 1 - k && files[k] == cache[picked[k]].file
      {
        OnList(list, n - 1 - |files|);
        Neighbours(n - 1 - |files|);
        picked := picked + [n - 1 - |files|];
        files := files + [item.file];
        item := item.pre;
      }
      OnList(list, n - 1 - |files|);
    }

    /** The walk from the oldest entry, stopping at the chosen places. */
    method TakeAt(indexes: seq<int>) returns (files: seq<File>)
      requires Valid() && Reservoir.Increasing(indexes) && Reservoir.Below(indexes, |gCache.list|)
      ensures Valid() && Abs() == old(Abs())
      ensures |files| == |indexes| && |Abs().cache| == |gCache.list|
      ensures forall k :: 0 <= k < |indexes| ==> files[k] == Abs().cache[indexes[k]].file
    {
      hide Valid, Abs, AbsCache, At, Reservoir.Increasing;
      ListFacts();
      ghost var list, cache := gCache.list, Abs().cache;
      files := [];
      var cacheIndex, indexesIndex, item := 0, 0, gCache.tail;
      while item != null && |files| < |indexes|
        invariant Valid() && Abs() == old(Abs()) && gCache.list == list
        invariant 0 <= cacheIndex && item == At(list, cacheIndex)
        invariant indexesIndex == |files| <= |indexes|
        invariant indexesIndex < |indexes| ==> cacheIndex <= indexes[indexesIndex]
        invariant forall k :: 0 <= k < |files| ==> files[k] == cache[indexes[k]].file
        decreases |list| - cacheIndex
      {
        OnList(list, cacheIndex);
        Neighbours(cacheIndex);
        NextIndex(indexes, indexesIndex);
        if cacheIndex == indexes[indexesIndex] {
          files := files + [item.file];
          indexesIndex := indexesIndex + 1;
        }
        item := item.nex;
        cacheIndex := cacheIndex + 1;
      }
      OnList(list, cacheIndex);
    }

    lemma ValidParts()
      requires Valid()
      ensures ValidConfig(cfg) && gLockQueue.Valid()
    {
    }
  }

  lemma TellNone(entries: seq<Entry>)
    ensures AllGone(entries[|entries|..]) == [] && Files(entries[|entries|..]) == []
  {
  }

  lemma TellStep(notes: seq<Notification>, files: seq<File>, entries: seq<Entry>, i: nat)
    requires i < |entries|
    ensures notes + Gone(entries[i].waiting) + AllGone(entries[i + 1..]) == notes + AllGone(entries[i..])
    ensures files + [entries[i].file] + Files(entries[i + 1..]) == files + Files(entries[i..])
    ensures |AllGone(entries[i..])| >= |entries[i].waiting|
  {
    hide Gone;
    assert entries[i..][1..] == entries[i + 1..];
  }

  /** The state without the file at place i. */
  function LessOne(st: State, i: nat): State
    requires i < |st.cache|
  {
    State(st.cache[..i] + st.cache[i + 1..], st.slotUsed - 1, st.bytesUsed - Size(st.cache[i].file))
  }

  lemma AfterRemoval(cfg: Config, st: State, i: nat)
    requires Inv(cfg, st) && i < |st.cache|
    ensures var next := Recounted(st.(cache := st.cache[..i] + st.cache[i + 1..]), None, Some(st.cache[i].file));
            && next == LessOne(st, i) && next.slotUsed == |st.cache[..i] + st.cache[i + 1..]| <= cfg.slotMax + 1
            && Balance(cfg, next).ejected == [] && Settle(cfg, next) == Outcome(next, 0, [], [])
    ensures AllGone([]) == []
  {
    hide Size, Balance, KeysDistinct, LocksOk;
    NothingToEject(cfg, LessOne(st, i));
  }

  lemma RemoveSteps(cfg: Config, st: State, client: int, name: string)
    requires cfg.tableSize > 0
    ensures var i, o := Find(cfg, st.cache, KeyOf(cfg, name)), Remove(cfg, st, client, name);
            && (i < 0 ==> o.state == st && o.res == FS_FILE_NOT_EXISTS && o.notes == [])
            && (i >= 0 && st.cache[i].owner != client ==>
                  o.state == st && o.res == FS_CLIENT_NOT_ALLOWED && o.notes == [])
            && (i >= 0 && st.cache[i].owner == client ==>
                  o.state == LessOne(st, i) && o.res == 0 && o.notes == Gone(st.cache[i].waiting))
  {
    hide KeyOf, Find, Gone, Size;
  }

  lemma InsertSteps(cfg: Config, st: State, client: int, file: File, lock: bool)
    requires Inv(cfg, st)
    ensures var o := Insert(cfg, st, client, file, lock);
            var e := Entry(if lock then client else EMPTY_OWNER, file, []);
            var next := Recounted(st.(cache := st.cache + [e]), Some(file), None);
            && next.slotUsed == |st.cache + [e]| <= cfg.slotMax + 1
            && Settle(cfg, next).notes == AllGone(Balance(cfg, next).ejected)
            && if Find(cfg, st.cache, KeyOf(cfg, file.name)) >= 0 then o == Outcome(st, FS_FILE_ALREADY_EXISTS, [], [])
               else o == Settle(cfg, next)
    ensures var e := Entry(if lock then client else EMPTY_OWNER, file, []);
            Settle(cfg, Recounted(st.(cache := st.cache + [e]), Some(file), None)).res == 0
  {
    hide KeyOf, Find, Size, Balance, KeysDistinct, LocksOk, AllGone;
  }

  /** The two ways updateCacheSize can go on after the byte limit. */
  lemma SettleCases(cfg: Config, st: State)
    requires st.slotUsed == |st.cache| && cfg.slotMax >= 1
    ensures var k := EjectCount(cfg, st.cache, st.bytesUsed);
            var fit := Shed(st, k);
            if fit.slotUsed > cfg.slotMax then
              && fit.cache != [] && Balance(cfg, st).ejected == fit.cache[..1]
              && Balance(cfg, st).state == State(fit.cache[1..], fit.slotUsed - 1,
                                                 fit.bytesUsed - Size(fit.cache[0].file))
            else Balance(cfg, st) == Balanced(fit, st.cache[..k])
  {
  }

  lemma OnList(list: seq<CacheEntry>, i: int)
    ensures At(list, i) != null <==> 0 <= i < |list|
    ensures 0 <= i < |list| ==> At(list, i) == list[i]
  {
  }

  lemma NextIndex(indexes: seq<int>, i: nat)
    requires Reservoir.Increasing(indexes) && i < |indexes|
    ensures i + 1 < |indexes| ==> indexes[i] < indexes[i + 1]
  {
  }

  lemma LiftReplaced(st: State, i: nat, e: Entry)
    requires i < |st.cache|
    ensures Lifted(Replaced(st, i, e), i) == st.(cache := MoveToTop(st.cache, i, e))
  {
  }

  lemma CleanStep(cfg: Config, st: State, client: int, hashes: seq<nat>, i: nat, notes: seq<Notification>)
    requires cfg.tableSize > 0 && i < |hashes|
    ensures var o := UnlockKey(cfg, st, client, hashes[i] % cfg.tableSize);
            && Clean(cfg, st, client, hashes[i..]).state == Clean(cfg, o.state, client, hashes[i + 1..]).state
            && notes + Clean(cfg, st, client, hashes[i..]).notes
            == notes + o.notes + Clean(cfg, o.state, client, hashes[i + 1..]).notes
            && |o.notes| <= |Clean(cfg, st, client, hashes[i..]).notes|
  {
    hide UnlockKey;
    assert hashes[i..][1..] == hashes[i + 1..];
  }

  lemma CleanNothing(cfg: Config, st: State, client: int, hashes: seq<nat>)
    requires cfg.tableSize > 0
    ensures Clean(cfg, st, client, hashes[|hashes|..]) == Refused(st, 0)
  {
  }

  lemma NoneToTell()
    ensures AllGone([]) == [] && Files([]) == []
  {
  }

  lemma ShedNone(st: State)
    ensures Shed(st, 0) == st && st.cache[..0] == []
  {
  }

  lemma NoneLeft(cfg: Config, st: State)
    ensures EjectCount(cfg, st.cache, st.bytesUsed) > 0 <==> st.bytesUsed > cfg.bytesMax && st.cache != []
  {
  }

  /** One more ejection, when the byte limit asks for it. */
  lemma ShedStep(cfg: Config, st: State, k: nat)
    requires k <= |st.cache| && Shed(st, k).bytesUsed > cfg.bytesMax && Shed(st, k).cache != []
    ensures k < |st.cache|
    ensures var s, t := Shed(st, k), Shed(st, k + 1);
            && t == State(s.cache[1..], s.slotUsed - 1, s.bytesUsed - Size(s.cache[0].file))
            && EjectCount(cfg, s.cache, s.bytesUsed) == 1 + EjectCount(cfg, t.cache, t.bytesUsed)
    ensures st.cache[..k] + Shed(st, k).cache[..1] == st.cache[..k + 1]
  {
    assert st.cache[..k + 1] == st.cache[..k] + [st.cache[k]];
    BytesConcat(st.cache[..k], [st.cache[k]]);
  }

  /** Moving an entry to the top keeps the same entries. */
  lemma SameMembers(list: seq<CacheEntry>, i: nat)
    requires i < |list|
    ensures forall e :: e in Without(list, i) + [list[i]] <==> e in list
    ensures QueuesOf(Without(list, i) + [list[i]]) == QueuesOf(list)
  {
    hide Without;
    forall e | e in list
      ensures e in Without(list, i) + [list[i]]
    {
      var j :| 0 <= j < |list| && list[j] == e;
      if j != i {
        assert Without(list, i)[if j < i then j else j - 1] == e;
      } else {
        assert (Without(list, i) + [list[i]])[|list| - 1] == e;
      }
    }
  }

  lemma AbsConcat(a: seq<CacheEntry>, b: seq<CacheEntry>)
    ensures AbsCache(a + b) == AbsCache(a) + AbsCache(b)
  {
    hide AbsEntry, AbsCache;
    AbsIs(a + b, AbsCache(a) + AbsCache(b));
  }

  lemma AbsOfOne(x: CacheEntry)
    ensures AbsCache([x]) == [AbsEntry(x)]
  {
    AbsIs([x], [AbsEntry(x)]);
  }

  lemma AbsAround(a: seq<CacheEntry>, x: CacheEntry, b: seq<CacheEntry>)
    ensures AbsCache(a + b) == AbsCache(a) + AbsCache(b)
    ensures AbsCache(a + [x] + b) == AbsCache(a) + [AbsEntry(x)] + AbsCache(b)
  {
    hide AbsEntry, AbsCache;
    AbsConcat(a, b);
    AbsConcat(a + [x], b);
    AbsConcat(a, [x]);
    AbsOfOne(x);
  }

  lemma AbsOfWithout(list: seq<CacheEntry>, i: nat)
    requires i < |list|
    ensures AbsCache(Without(list, i)) == AbsCache(list)[..i] + AbsCache(list)[i + 1..]
  {
    hide *;
    var a, b := list[..i], list[i + 1..];
    WithoutPlace(list, i);
    AbsAround(a, list[i], b);
    var l, r := AbsCache(a), AbsCache(b);
    assert |l| == i;
    assert l + [AbsEntry(list[i])] + r == AbsCache(list);
    assert (l + [AbsEntry(list[i])] + r)[..i] == l && (l + [AbsEntry(list[i])] + r)[i + 1..] == r;
  }

  lemma AbsOfMove(list: seq<CacheEntry>, i: nat)
    requires i < |list|
    ensures AbsCache(Without(list, i) + [list[i]]) == MoveToTop(AbsCache(list), i, AbsEntry(list[i]))
  {
    hide AbsEntry, AbsCache, Without;
    AbsOfWithout(list, i);
    AbsConcat(Without(list, i), [list[i]]);
    AbsOfOne(list[i]);
  }
}
