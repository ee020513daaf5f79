/** What cleaning up after a client leaves behind (server/src/file_system.c:533-620). */
module StoreClean {
  import opened CircQueue
  import opened Store
  import opened StoreInvariant
  import opened StoreSteps
  import opened StoreLocks

  /** The entry cached under a key. */
  function Lookup(cfg: Config, cache: seq<Entry>, key: nat): Option<Entry>
    requires cfg.tableSize > 0
  {
    var i := Find(cfg, cache, key);
    if i < 0 then None else Some(cache[i])
  }

  /** An entry its owner gave up: it belongs to the first waiting client, or to nobody when nobody waits. */
  function Released(e: Entry): Entry {
    if e.waiting == [] then e.(owner := EMPTY_OWNER) else e.(owner := e.waiting[0], waiting := e.waiting[1..])
  }

  /** Some opened file hashes to this key. */
  ghost predicate Listed(cfg: Config, hashes: seq<nat>, key: nat)
    requires cfg.tableSize > 0
  {
    exists j :: 0 <= j < |hashes| && hashes[j] % cfg.tableSize == key
  }

  /** With distinct keys, lookup is membership. */
  lemma LookupIff(cfg: Config, cache: seq<Entry>, key: nat, e: Entry)
    requires cfg.tableSize > 0 && KeysDistinct(cfg, cache)
    ensures Lookup(cfg, cache, key) == Some(e) <==> e in cache && EntryKey(cfg, e) == key
    ensures Lookup(cfg, cache, key).Some? ==>
              Lookup(cfg, cache, key).value in cache && EntryKey(cfg, Lookup(cfg, cache, key).value) == key
  {
    hide EntryKey, Find;
  }

  lemma LookupMove(cfg: Config, cache: seq<Entry>, i: nat, e: Entry, key: nat)
    requires cfg.tableSize > 0 && KeysDistinct(cfg, cache) && i < |cache| && EntryKey(cfg, e) == EntryKey(cfg, cache[i])
    ensures Lookup(cfg, MoveToTop(cache, i, e), key) == if key == EntryKey(cfg, e) then Some(e)
            else Lookup(cfg, cache, key)
  {
    hide EntryKey, KeysDistinct, Lookup;
    var next := MoveToTop(cache, i, e);
    DistinctReplace(cfg, cache, i, e);
    assert next[|next| - 1] == e;
    LookupIff(cfg, next, key, e);
    if key != EntryKey(cfg, e) {
      var l, l' := Lookup(cfg, cache, key), Lookup(cfg, next, key);
      LookupIff(cfg, cache, key, e);
      if l.Some? {
        assert l.value in next by { InMove(cache, i, e, l.value); }
        LookupIff(cfg, next, key, l.value);
      } else if l'.Some? {
        LookupIff(cfg, cache, key, l'.value);
        InMove(cache, i, e, l'.value);
      }
    }
  }

  lemma InMove(cache: seq<Entry>, i: nat, e: Entry, x: Entry)
    requires i < |cache|
    ensures x in MoveToTop(cache, i, e) ==> x == e || x in cache
    ensures x in cache && x != cache[i] ==> x in MoveToTop(cache, i, e)
  {
    assert cache == cache[..i] + [cache[i]] + cache[i + 1..];
  }

  /** Unlocking one key touches that key's entry only, and only when the client owns it. */
  lemma UnlockLookup(cfg: Config, st: State, client: int, at: nat, key: nat)
    requires Inv(cfg, st)
    ensures var l := Lookup(cfg, st.cache, key);
            Lookup(cfg, UnlockKey(cfg, st, client, at).state.cache, key)
            == if key == at && l.Some? && l.value.owner == client then Some(Released(l.value)) else l
  {
    hide EntryKey, KeysDistinct, LocksOk, MoveToTop;
    var i := Find(cfg, st.cache, at);
    if i >= 0 && st.cache[i].owner == client {
      LookupMove(cfg, st.cache, i, Released(st.cache[i]), key) by { SameKey(cfg, st.cache[i]); }
      SameKey(cfg, st.cache[i]);
    }
  }

  lemma SameKey(cfg: Config, e: Entry)
    requires cfg.tableSize > 0
    ensures EntryKey(cfg, Released(e)) == EntryKey(cfg, e)
  {
  }

  /** Unlocking lets nobody new wait. */
  lemma UnlockKeepsLawful(cfg: Config, st: State, client: int, at: nat, c: int)
    requires Inv(cfg, st) && Lawful(st, c)
    ensures Lawful(UnlockKey(cfg, st, client, at).state, c)
  {
    hide EntryKey, KeysDistinct, LocksOk;
    var i := Find(cfg, st.cache, at);
    if i >= 0 && st.cache[i].owner == client {
      var e' := Released(st.cache[i]);
      var next := MoveToTop(st.cache, i, e');
      assert c !in st.cache[i].waiting;
      assert c !in e'.waiting;
      forall j | 0 <= j < |next|
        ensures c !in next[j].waiting
      {
        InMove(st.cache, i, e', next[j]);
      }
    }
  }

  /** fs_clean, key by key: exactly the listed files the client owns are given up, everything else is as before. */
  lemma {:induction false} CleanLookup(cfg: Config, st: State, client: int, hashes: seq<nat>, key: nat)
    requires Inv(cfg, st) && Lawful(st, client)
    ensures var l := Lookup(cfg, st.cache, key);
            Lookup(cfg, Clean(cfg, st, client, hashes).state.cache, key)
            == if Listed(cfg, hashes, key) && l.Some? && l.value.owner == client then Some(Released(l.value)) else l
    decreases |hashes|
  {
    hide KeysDistinct, LocksOk, EntryKey, Lookup, UnlockKey, IsWaiting;
    if hashes != [] {
      var at := hashes[0] % cfg.tableSize;
      var mid := UnlockKey(cfg, st, client, at).state;
      ApplyKeepsInv(cfg, st, UnlockR(client, at));
      UnlockKeepsLawful(cfg, st, client, at, client);
      UnlockLookup(cfg, st, client, at, key);
      CleanLookup(cfg, mid, client, hashes[1..], key);
      assert Listed(cfg, hashes, key) <==> at == key || Listed(cfg, hashes[1..], key) by {
        ListedStep(cfg, hashes, key);
      }
      var l := Lookup(cfg, st.cache, key);
      if l.Some? && l.value.owner == client {
        ReleasedIsNot(cfg, st, client, key);
      }
    }
  }

  lemma ListedStep(cfg: Config, hashes: seq<nat>, key: nat)
    requires cfg.tableSize > 0 && hashes != []
    ensures Listed(cfg, hashes, key) <==> hashes[0] % cfg.tableSize == key || Listed(cfg, hashes[1..], key)
  {
    if Listed(cfg, hashes, key) {
      var j :| 0 <= j < |hashes| && hashes[j] % cfg.tableSize == key;
      assert j > 0 ==> hashes[1..][j - 1] == hashes[j];
    }
    if Listed(cfg, hashes[1..], key) {
      var j :| 0 <= j < |hashes[1..]| && hashes[1..][j] % cfg.tableSize == key;
      assert hashes[j + 1] == hashes[1..][j];
    }
  }

  lemma ReleasedIsNot(cfg: Config, st: State, client: int, key: nat)
    requires Inv(cfg, st) && Lawful(st, client) && Lookup(cfg, st.cache, key).Some?
    ensures Released(Lookup(cfg, st.cache, key).value).owner != client
  {
    hide EntryKey;
    var i := Find(cfg, st.cache, key);
    assert client !in st.cache[i].waiting;
  }

  /** The invariant survives, nobody new waits, and whoever stops waiting is notified. */
  lemma {:induction false} CleanKeepsInv(cfg: Config, st: State, client: int, hashes: seq<nat>)
    requires Inv(cfg, st) && Lawful(st, client)
    ensures Inv(cfg, Clean(cfg, st, client, hashes).state) && Lawful(Clean(cfg, st, client, hashes).state, client)
    ensures Queued(st.cache) == Queued(Clean(cfg, st, client, hashes).state.cache)
            + Fds(Clean(cfg, st, client, hashes).notes)
    decreases |hashes|
  {
    hide Inv, Queued, Fds, UnlockKey, IsWaiting;
    InvConfig(cfg, st);
    if hashes != [] {
      var at := hashes[0] % cfg.tableSize;
      var o := UnlockKey(cfg, st, client, at);
      ApplyKeepsInv(cfg, st, UnlockR(client, at));
      UnlockKeepsLawful(cfg, st, client, at, client);
      UnlockBalances(cfg, st, client, at);
      CleanKeepsInv(cfg, o.state, client, hashes[1..]);
      FdsConcat(o.notes, Clean(cfg, o.state, client, hashes[1..]).notes);
    } else {
      FdsNone();
    }
  }

  lemma InvConfig(cfg: Config, st: State)
    requires Inv(cfg, st)
    ensures ValidConfig(cfg) && KeysDistinct(cfg, st.cache)
  {
  }

  lemma UnlockBalances(cfg: Config, st: State, client: int, at: nat)
    requires cfg.tableSize > 0
    ensures var o := UnlockKey(cfg, st, client, at);
            Queued(st.cache) == Queued(o.state.cache) + Fds(o.notes)
  {
    hide Queued, Fds;
    UnlockConserves(cfg, st, client, at);
  }

  /** The client owns a cached file. */
  ghost predicate Owns(cfg: Config, cache: seq<Entry>, client: int, key: nat)
    requires cfg.tableSize > 0
  {
    Lookup(cfg, cache, key).Some? && Lookup(cfg, cache, key).value.owner == client
  }

  /** After the clean-up the client owns exactly what its session does not list; nothing, when the session lists
      all it owns. */
  lemma CleanFreesListed(cfg: Config, st: State, client: int, hashes: seq<nat>, key: nat)
    requires Inv(cfg, st) && Lawful(st, client)
    ensures Owns(cfg, Clean(cfg, st, client, hashes).state.cache, client, key)
            <==> Owns(cfg, st.cache, client, key) && !Listed(cfg, hashes, key)
  {
    hide Inv, Lookup, Clean, IsWaiting;
    InvConfig(cfg, st);
    CleanLookup(cfg, st, client, hashes, key);
    if Owns(cfg, st.cache, client, key) {
      ReleasedIsNot(cfg, st, client, key);
    }
  }
}
