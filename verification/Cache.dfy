/** The recency list of the file system: entries linked by `pre` (older) and `nex` (newer)
    (server/src/file_system.c:22-34, 195-203, 676-696, 719-768). */
module Cache {
  import opened CircQueue
  import opened Sequences
  import opened Store

  /** FSCacheEntry_t */
  class CacheEntry {
    var owner: int
    var file: File
    const waitingLockQueue: CircQueue<int>
    var pre: CacheEntry?
    var nex: CacheEntry?

    /** createEmptyCacheEntry */
    constructor (file: File)
      ensures this.file == file && owner == EMPTY_OWNER && pre == null && nex == null
      ensures fresh(waitingLockQueue) && fresh(waitingLockQueue.data) && waitingLockQueue.Valid()
      ensures waitingLockQueue.items == [] && waitingLockQueue.data.Length == MAX_CLIENT_WAITING_ON_LOCK
    {
      this.file := file;
      owner := EMPTY_OWNER;
      pre, nex := null, null;
      waitingLockQueue := new CircQueue(MAX_CLIENT_WAITING_ON_LOCK);
    }
  }

  /** The entry next to place i, on the newer or the older side. */
  function At(list: seq<CacheEntry>, i: int): CacheEntry? {
    if 0 <= i < |list| then list[i] else null
  }

  /** The entries are linked in this order, oldest first, and end in null on both sides. */
  ghost predicate Linked(list: seq<CacheEntry>)
    reads list`pre, list`nex
  {
    forall i :: 0 <= i < |list| ==> list[i].pre == At(list, i - 1) && list[i].nex == At(list, i + 1)
  }

  /** Whoever may change the entries of a list, and their queues, may change those of the next list: its other entries
      are new and have new queues. */
  twostate predicate OnlyNew(list: seq<CacheEntry>, new next: seq<CacheEntry>) {
    forall j :: 0 <= j < |next| && next[j] !in list ==>
      fresh(next[j]) && fresh(next[j].waitingLockQueue) && fresh(next[j].waitingLockQueue.data)
  }

  /** The list without its entry at place i; i is -1 for an entry that is not in it. */
  ghost function Without(list: seq<CacheEntry>, i: int): (rest: seq<CacheEntry>)
    requires -1 <= i < |list|
    ensures |rest| == if i < 0 then |list| else |list| - 1
    ensures forall j :: 0 <= j < |rest| ==> rest[j] == list[Skip(i, j)]
  {
    if i < 0 then list else list[..i] + list[i + 1..]
  }

  /** The place in the full list of the j-th entry of the list without place i. */
  function Skip(i: int, j: int): int {
    if i < 0 || j < i then j else j + 1
  }

  lemma WithoutPlace(list: seq<CacheEntry>, i: nat)
    requires i < |list|
    ensures Without(list, i) == list[..i] + list[i + 1..]
    ensures list == list[..i] + [list[i]] + list[i + 1..]
  {
  }

  ghost predicate IsAt(list: seq<CacheEntry>, i: int, entry: CacheEntry)
    reads entry
  {
    && -1 <= i < |list|
    && (i >= 0 ==> list[i] == entry)
    && (i < 0 ==> entry !in list && entry.pre == null && entry.nex == null)
  }

  lemma RestHasNoRepeats(list: seq<CacheEntry>, i: int, entry: CacheEntry)
    requires Distinct(list) && IsAt(list, i, entry)
    ensures -1 <= i < |list| && Distinct(Without(list, i)) && entry !in Without(list, i)
  {
    hide Without;
  }

  /** The newest entry of the rest, when the entry taken out is not the newest. */
  lemma HeadOfRest(list: seq<CacheEntry>, i: int, entry: CacheEntry, head: CacheEntry?)
    requires IsAt(list, i, entry) && head == At(list, |list| - 1) && head != entry
    ensures head == At(Without(list, i), |Without(list, i)| - 1)
  {
    hide Without;
  }

  /** The oldest entry after the move to the top, as moveToTop computes it. */
  lemma TailAfterMove(list: seq<CacheEntry>, i: int, entry: CacheEntry, head: CacheEntry?, tail: CacheEntry?)
    requires Distinct(list) && Linked(list) && IsAt(list, i, entry)
    requires head == At(list, |list| - 1) && tail == At(list, 0) && head != entry
    ensures At(Without(list, i) + [entry], 0)
            == if tail == null then entry else if tail == entry then entry.nex else tail
    ensures At(Without(list, i) + [entry], |Without(list, i)|) == entry
  {
    hide Without;
  }

  lemma AlreadyOnTop(list: seq<CacheEntry>, i: int, entry: CacheEntry)
    requires Distinct(list) && IsAt(list, i, entry) && entry == At(list, |list| - 1)
    ensures list == Without(list, i) + [entry]
  {
  }

  /** Both ends after taking an entry out, as fs_remove computes them. */
  lemma EndsAfterUnlink(list: seq<CacheEntry>, i: nat, entry: CacheEntry, head: CacheEntry?, tail: CacheEntry?)
    requires Distinct(list) && Linked(list) && IsAt(list, i, entry) && head == At(list, |list| - 1)
             && tail == At(list, 0)
    ensures At(Without(list, i), |Without(list, i)| - 1) == if head == entry then entry.pre else head
    ensures At(Without(list, i), 0) == if tail == entry then entry.nex else tail
  {
    hide Without;
  }

  /** The neighbours of the entry at place i, seen in the list without it. */
  lemma LinkedRest(list: seq<CacheEntry>, i: int, j: int)
    requires -1 <= i < |list| && 0 <= j < |Without(list, i)|
    ensures var rest := Without(list, i);
            && At(rest, j - 1) == (if i >= 0 && j == i then At(list, i - 1) else At(list, Skip(i, j) - 1))
            && At(rest, j + 1) == (if i >= 0 && j == i - 1 then At(list, i + 1) else At(list, Skip(i, j) + 1))
  {
    hide Without;
  }

  /** A list linked as seen from the list it came from is linked. */
  lemma RestIsLinked(list: seq<CacheEntry>, i: int)
    requires -1 <= i < |list|
    requires forall s :: 0 <= s < |list| && s != i ==>
      && list[s].pre == (if i >= 0 && s == i + 1 then At(list, i - 1) else At(list, s - 1))
      && list[s].nex == (if i >= 0 && s == i - 1 then At(list, i + 1) else At(list, s + 1))
    ensures Linked(Without(list, i))
  {
    hide Without, At;
    var rest := Without(list, i);
    forall j | 0 <= j < |rest|
      ensures rest[j].pre == At(rest, j - 1) && rest[j].nex == At(rest, j + 1)
    {
      LinkedRest(list, i, j);
      assert rest[j] == list[Skip(i, j)];
    }
  }

  /** An entry stands at one place only. */
  lemma OnePlace(list: seq<CacheEntry>, s: int, k: int)
    requires Distinct(list) && 0 <= s < |list|
    ensures At(list, s) == list[s] && (At(list, k) == list[s] <==> k == s)
  {
  }

  /** Links the two neighbours of an entry to each other. */
  method Bypass(ghost list: seq<CacheEntry>, ghost i: int, entry: CacheEntry)
    requires Distinct(list) && Linked(list) && IsAt(list, i, entry)
    modifies list`pre, list`nex
    ensures Linked(Without(list, i))
    ensures entry.pre == old(entry.pre) && entry.nex == old(entry.nex)
  {
    hide Without, At, Distinct;
    var tmp1, tmp2 := entry.pre, entry.nex;
    forall s | 0 <= s < |list|
      ensures i >= 0 ==> (tmp1 == list[s] <==> i - 1 == s) && (tmp2 == list[s] <==> i + 1 == s)
    {
      OnePlace(list, s, i - 1);
      OnePlace(list, s, i + 1);
    }
    assert (tmp1 == null || tmp1 in list) && (tmp2 == null || tmp2 in list) by { NeighboursInList(list, i, entry); }
    if tmp1 != null { entry.pre.nex := tmp2; }
    if tmp2 != null { entry.nex.pre := tmp1; }
    RestIsLinked(list, i);
  }

  lemma NeighboursInList(list: seq<CacheEntry>, i: int, entry: CacheEntry)
    requires Linked(list) && IsAt(list, i, entry)
    ensures (entry.pre == null || entry.pre in list) && (entry.nex == null || entry.nex in list)
  {
  }

  lemma OneLonger(list: seq<CacheEntry>, entry: CacheEntry)
    requires Distinct(list) && entry !in list
    ensures Distinct(list + [entry]) && At(list + [entry], |list| + 1) == null && At(list + [entry], |list|) == entry
    ensures forall j :: j < |list| ==> At(list + [entry], j) == At(list, j)
    ensures At(list, |list|) == null && At(list, -1) == null
    ensures forall j :: 0 <= j < |list| ==> (list[j] == At(list, |list| - 1) <==> j == |list| - 1)
  {
  }

  /** Links a new entry after the newest one. */
  method LinkOnTop(ghost list: seq<CacheEntry>, head: CacheEntry?, entry: CacheEntry)
    requires Distinct(list) && Linked(list) && entry !in list && head == At(list, |list| - 1)
    modifies list`nex, entry`pre, entry`nex
    ensures Linked(list + [entry]) && Distinct(list + [entry])
  {
    ghost var more := list + [entry];
    OneLonger(list, entry);
    assert head == null <==> list == [];
    hide At, Distinct;
    entry.pre := head;
    entry.nex := null;
    if head != null { head.nex := entry; }
  }

  /** Both ends of the list without its oldest entry. */
  lemma OldestEnds(list: seq<CacheEntry>, head: CacheEntry?, tail: CacheEntry)
    requires Distinct(list) && Linked(list) && head == At(list, |list| - 1) && tail == At(list, 0)
    ensures list != [] && list[0] == tail && Without(list, 0) == list[1..] && Distinct(list[1..])
    ensures tail.nex == At(list[1..], 0) && (tail.nex == null || tail.nex in list)
    ensures At(list[1..], |list| - 2) == if head == tail then null else head
  {
  }

  /** How the entries but the oldest are linked. */
  lemma OldestLinks(list: seq<CacheEntry>)
    requires Distinct(list) && Linked(list) && list != []
    ensures forall s :: 0 < s < |list| ==>
              && list[s].pre == At(list, s - 1) && list[s].nex == At(list, s + 1)
              && (list[0].nex == list[s] <==> s == 1)
    ensures At(list, -1) == null
  {
  }

  /** FSCache_t */
  class FSCache {
    var slotUsed: int
    var bytesUsed: int
    var head: CacheEntry?
    var tail: CacheEntry?
    ghost var list: seq<CacheEntry>

    /** `list` is what one sees following nex from the tail or pre from the head. */
    ghost predicate IsList()
      reads this`head, this`tail, this`list, list`pre, list`nex
    {
      Distinct(list) && Linked(list) && tail == At(list, 0) && head == At(list, |list| - 1)
    }

    constructor ()
      ensures IsList() && list == [] && slotUsed == 0 && bytesUsed == 0
    {
      slotUsed, bytesUsed := 0, 0;
      head, tail := null, null;
      list := [];
    }

    /** moveToTop: an entry at place i, or a new one, becomes the newest. */
    method MoveToTop(entry: CacheEntry, ghost i: int)
      requires IsList() && IsAt(list, i, entry)
      modifies this`head, this`tail, this`list, list`pre, list`nex, entry`pre, entry`nex
      ensures IsList() && list == old(Without(list, i)) + [entry]
    {
      hide Without, At, Linked, Distinct, IsAt;
      RestHasNoRepeats(list, i, entry);
      ghost var rest := Without(list, i);
      if head != entry {
        HeadOfRest(list, i, entry, head);
        TailAfterMove(list, i, entry, head, tail);
        if tail == null {
          tail := entry;
        } else if tail == entry {
          tail := entry.nex;
        }
        Bypass(list, i, entry);
        LinkOnTop(rest, head, entry);
        head := entry;
        list := rest + [entry];
      } else {
        AlreadyOnTop(list, i, entry);
      }
    }

    /** The unlinking in fs_remove. */
    method Unlink(entry: CacheEntry, ghost i: nat)
      requires IsList() && IsAt(list, i, entry)
      modifies this`head, this`tail, this`list, list`pre, list`nex
      ensures IsList() && list == old(Without(list, i))
    {
      hide Without, At, Linked, Distinct, IsAt;
      RestHasNoRepeats(list, i, entry);
      EndsAfterUnlink(list, i, entry, head, tail);
      Bypass(list, i, entry);
      if head == entry { head := entry.pre; }
      if tail == entry { tail := entry.nex; }
      list := Without(list, i);
    }

    lemma IsListIff()
      ensures IsList() <==> Distinct(list) && Linked(list) && tail == At(list, 0) && head == At(list, |list| - 1)
    {
    }

    /** The unlinking of the oldest entry when it is ejected. */
    method DropTail() returns (item: CacheEntry)
      requires IsList() && tail != null
      modifies this`head, this`tail, this`list, list`pre
      ensures old(list) != [] && item == old(list[0])
      ensures IsList() && list == old(list[1..])
    {
      hide *;
      IsListIff();
      item := tail;
      OldestEnds(list, head, tail);
      OldestLinks(list);
      ghost var rest := list[1..];
      if item.nex != null { item.nex.pre := null; }
      RestIsLinked(list, 0);
      if head == item { head := null; }
      tail := item.nex;
      list := rest;
      IsListIff();
    }
  }
}
