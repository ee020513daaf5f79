/** The session of one client: at most sixteen opened files with the flags they were opened with
    (server/src/session.c). */
module Session {
  import opened Protocol

  const MAX_CLIENT_OPENED_FILES: nat := 16

  const SESSION_ALREADY_EXIST: int := 201
  const SESSION_NOT_EXIST: int := 202
  const SESSION_FILE_ALREADY_OPENED: int := 203
  const SESSION_FILE_NEVER_OPENED: int := 204
  const SESSION_OUT_OF_MEMORY: int := 205
  const SESSION_CANNOT_WRITE_FILE: int := 206

  /** A file is known by the hash of its name only. */
  datatype Opened = Opened(hash: nat, flags: int)

  datatype Session = Session(valid: bool, files: seq<Opened>)

  const NO_SESSION := Session(false, [])

  ghost predicate Distinct(files: seq<Opened>) {
    forall i, j :: 0 <= i < j < |files| ==> files[i].hash != files[j].hash
  }

  ghost predicate WellFormed(s: Session) {
    |s.files| <= MAX_CLIENT_OPENED_FILES && Distinct(s.files) && (!s.valid ==> s.files == [])
  }

  /** The first place of a hash, -1 when it has none. */
  function Place(files: seq<Opened>, hash: nat): (i: int)
    ensures -1 <= i < |files|
    ensures i >= 0 ==> files[i].hash == hash && forall j :: 0 <= j < i ==> files[j].hash != hash
    ensures i < 0 ==> forall j :: 0 <= j < |files| ==> files[j].hash != hash
  {
    if files == [] then -1
    else if files[0].hash == hash then 0
    else
      var i := Place(files[1..], hash);
      if i < 0 then -1 else i + 1
  }

  function Without(files: seq<Opened>, i: nat): seq<Opened>
    requires i < |files|
  {
    files[..i] + files[i + 1..]
  }

  datatype Change = Change(session: Session, res: int)

  function Create(s: Session): Change {
    if s.valid then Change(s, SESSION_ALREADY_EXIST) else Change(Session(true, []), 0)
  }

  function Destroy(s: Session): Change {
    if s.valid then Change(NO_SESSION, 0) else Change(s, SESSION_NOT_EXIST)
  }

  function HasOpened(s: Session, hash: nat): int {
    if !s.valid then SESSION_NOT_EXIST
    else if Place(s.files, hash) >= 0 then SESSION_FILE_ALREADY_OPENED
    else SESSION_FILE_NEVER_OPENED
  }

  function AddOpened(s: Session, hash: nat, flags: int): Change {
    if !s.valid then Change(s, SESSION_NOT_EXIST)
    else if Place(s.files, hash) >= 0 then Change(s, SESSION_FILE_ALREADY_OPENED)
    else if |s.files| >= MAX_CLIENT_OPENED_FILES then Change(s, SESSION_OUT_OF_MEMORY)
    else Change(s.(files := s.files + [Opened(hash, flags)]), 0)
  }

  function RemOpened(s: Session, hash: nat): Change {
    if !s.valid then Change(s, SESSION_NOT_EXIST)
    else
      var i := Place(s.files, hash);
      if i < 0 then Change(s, SESSION_FILE_NEVER_OPENED) else Change(s.(files := Without(s.files, i)), 0)
  }

  function CanWrite(s: Session, hash: nat): int {
    if !s.valid then SESSION_NOT_EXIST
    else
      var i := Place(s.files, hash);
      if i < 0 then SESSION_FILE_NEVER_OPENED
      else if s.files[i].flags == FLAG_CREATE + FLAG_LOCK then 0
      else SESSION_CANNOT_WRITE_FILE
  }

  // ---------------------------------------------------------------- a session is an ordered map

  /** Which files are open, with which flags. */
  ghost function FlagsOf(files: seq<Opened>): map<nat, int> {
    if files == [] then map[]
    else
      var n := |files| - 1;
      FlagsOf(files[..n])[files[n].hash := files[n].flags]
  }

  lemma {:induction false} FlagsAt(files: seq<Opened>, hash: nat)
    requires Distinct(files)
    ensures var i := Place(files, hash);
            && (hash in FlagsOf(files) <==> i >= 0)
            && (i >= 0 ==> FlagsOf(files)[hash] == files[i].flags)
  {
    if files != [] {
      hide Place;
      var n := |files| - 1;
      FlagsAt(files[..n], hash);
      var i, j := Place(files, hash), Place(files[..n], hash);
      assert forall k :: 0 <= k < n ==> files[..n][k] == files[k];
      assert files[n].hash == hash <==> i == n;
    }
  }

  /** Adding succeeds exactly for a new file while there is room, and is then one new pair, listed last. */
  lemma AddIsUpdate(s: Session, hash: nat, flags: int)
    requires WellFormed(s)
    ensures var c := AddOpened(s, hash, flags);
            && WellFormed(c.session)
            && (c.res == 0 <==> s.valid && hash !in FlagsOf(s.files) && |s.files| < MAX_CLIENT_OPENED_FILES)
            && FlagsOf(c.session.files) == (if c.res == 0 then FlagsOf(s.files)[hash := flags] else FlagsOf(s.files))
            && s.files <= c.session.files
  {
    hide Place;
    FlagsAt(s.files, hash);
    var files := s.files + [Opened(hash, flags)];
    assert files[..|s.files|] == s.files;
  }

  lemma RemovedFiles(files: seq<Opened>, i: nat)
    requires i < |files|
    ensures |Without(files, i)| == |files| - 1
    ensures forall j :: 0 <= j < |files| - 1 ==> Without(files, i)[j] == files[if j < i then j else j + 1]
  {
  }

  lemma PlaceWithout(files: seq<Opened>, i: nat, hash: nat)
    requires Distinct(files) && i < |files|
    ensures Distinct(Without(files, i))
    ensures var j, k := Place(files, hash), Place(Without(files, i), hash);
            k == if j < i then j else if j == i then -1 else j - 1
  {
    hide Place, Without;
    RemovedFiles(files, i);
    var rest := Without(files, i);
    var j, k := Place(files, hash), Place(rest, hash);
    if j >= 0 && j != i {
      assert rest[if j < i then j else j - 1].hash == hash;
    }
  }

  lemma StaysWellFormed(s: Session, i: nat)
    requires WellFormed(s) && i < |s.files|
    ensures WellFormed(s.(files := Without(s.files, i)))
  {
    hide Distinct, Without;
    PlaceWithout(s.files, i, 0);
    RemovedFiles(s.files, i);
  }

  /** Removing succeeds exactly for an opened file, forgets it and keeps the others in their order. */
  lemma RemIsDelete(s: Session, hash: nat)
    requires WellFormed(s)
    ensures var c := RemOpened(s, hash);
            && WellFormed(c.session)
            && (c.res == 0 <==> s.valid && hash in FlagsOf(s.files))
            && FlagsOf(c.session.files) == FlagsOf(s.files) - {hash}
            && (c.res == 0 ==>
                  exists i :: 0 <= i < |s.files| && s.files[i].hash == hash && c.session.files == Without(s.files, i))
  {
    hide Place, Without, Distinct;
    var c, i := RemOpened(s, hash), Place(s.files, hash);
    FlagsAt(s.files, hash);
    if c.res == 0 {
      RemovedFiles(s.files, i);
      PlaceWithout(s.files, i, hash);
      forall h
        ensures h in FlagsOf(c.session.files) <==> h in FlagsOf(s.files) && h != hash
        ensures h in FlagsOf(c.session.files) ==> FlagsOf(c.session.files)[h] == FlagsOf(s.files)[h]
      {
        PlaceWithout(s.files, i, h);
        FlagsAt(s.files, h);
        FlagsAt(c.session.files, h);
      }
      assert FlagsOf(c.session.files) == FlagsOf(s.files) - {hash};
    } else {
      assert c.session == s && FlagsOf(s.files) == FlagsOf(s.files) - {hash};
    }
  }

  lemma OnlyPlace(files: seq<Opened>, i: nat)
    requires Distinct(files) && i < |files|
    ensures Place(files, files[i].hash) == i
  {
    hide Place;
  }

  /** Closing the file just opened gives the session back. */
  lemma RemUndoesAdd(s: Session, hash: nat, flags: int)
    requires WellFormed(s) && AddOpened(s, hash, flags).res == 0
    ensures RemOpened(AddOpened(s, hash, flags).session, hash) == Change(s, 0)
  {
    var files := s.files + [Opened(hash, flags)];
    assert Place(files, hash) == |s.files| by {
      hide Place;
      var i := Place(files, hash);
      assert files[|s.files|].hash == hash;
    }
    assert Without(files, |s.files|) == s.files;
  }

  /** Writing is open exactly to files opened with both flags. */
  lemma WritableIff(s: Session, hash: nat)
    requires WellFormed(s)
    ensures CanWrite(s, hash) == 0 <==> hash in FlagsOf(s.files) && FlagsOf(s.files)[hash] == FLAG_CREATE + FLAG_LOCK
    ensures HasOpened(s, hash) == SESSION_FILE_ALREADY_OPENED <==> hash in FlagsOf(s.files)
  {
    hide Place;
    FlagsAt(s.files, hash);
  }

  // ---------------------------------------------------------------- the session in memory

  /** The first n files of two parallel arrays. */
  function Pairs(names: seq<nat>, flags: seq<int>, n: nat): (files: seq<Opened>)
    requires n <= |names| == |flags|
    ensures |files| == n && forall i :: 0 <= i < n ==> files[i] == Opened(names[i], flags[i])
  {
    seq(n, i requires 0 <= i < n => Opened(names[i], flags[i]))
  }

  /** The files behind place i are moved one place to the left, up to place j. */
  ghost predicate Shifted(names: seq<nat>, flags: seq<int>, was: seq<Opened>, i: nat, j: nat) {
    && i <= j < |was| <= |names| == |flags|
    && (forall k :: 0 <= k < j ==> Opened(names[k], flags[k]) == was[if k < i then k else k + 1])
    && forall k :: j <= k < |was| ==> Opened(names[k], flags[k]) == was[k]
  }

  lemma NothingShifted(names: seq<nat>, flags: seq<int>, n: nat, i: nat)
    requires i < n <= |names| == |flags|
    ensures Shifted(names, flags, Pairs(names, flags, n), i, i)
  {
  }

  lemma ShiftOne(names: seq<nat>, flags: seq<int>, was: seq<Opened>, i: nat, j: nat)
    requires Shifted(names, flags, was, i, j) && j < |was| - 1
    ensures Shifted(names[j := names[j + 1]], flags[j := flags[j + 1]], was, i, j + 1)
  {
    assert Opened(names[j + 1], flags[j + 1]) == was[j + 1];
  }

  /** Clearing the place behind the last file does not touch the others. */
  lemma ShiftedIsWithout(names: seq<nat>, flags: seq<int>, was: seq<Opened>, i: nat)
    requires was != [] && Shifted(names, flags, was, i, |was| - 1)
    ensures Pairs(names[|was| - 1 := 0], flags[|was| - 1 := 0], |was| - 1) == Without(was, i)
  {
    RemovedFiles(was, i);
  }

  /** ClientSession_t, an element of gSessionTable. */
  class ClientSession {
    var isValid: bool
    var numFileOpened: int
    const filenames: array<nat>
    const flags: array<int>

    constructor ()
      ensures Valid() && Abs() == NO_SESSION && fresh(filenames) && fresh(flags)
    {
      isValid, numFileOpened := false, 0;
      filenames := new nat[MAX_CLIENT_OPENED_FILES](_ => 0);
      flags := new int[MAX_CLIENT_OPENED_FILES](_ => 0);
    }

    ghost predicate Valid()
      reads this, filenames, flags
    {
      && filenames.Length == flags.Length == MAX_CLIENT_OPENED_FILES && 0 <= numFileOpened <= MAX_CLIENT_OPENED_FILES
      && WellFormed(Abs())
    }

    ghost function Abs(): Session
      reads this, filenames, flags
      requires filenames.Length == flags.Length == MAX_CLIENT_OPENED_FILES
               && 0 <= numFileOpened <= MAX_CLIENT_OPENED_FILES
    {
      Session(isValid, Pairs(filenames[..], flags[..], numFileOpened))
    }

    /** createSession */
    method CreateSession() returns (res: int)
      requires Valid()
      modifies this, filenames, flags
      ensures Valid() && Change(Abs(), res) == Create(old(Abs()))
    {
      res := 0;
      if isValid { return SESSION_ALREADY_EXIST; }
      isValid, numFileOpened := true, 0;
      for i := 0 to MAX_CLIENT_OPENED_FILES
        invariant isValid && numFileOpened == 0
      {
        filenames[i], flags[i] := 0, 0;
      }
    }

    /** destroySession */
    method DestroySession() returns (res: int)
      requires Valid()
      modifies this
      ensures Valid() && Change(Abs(), res) == Destroy(old(Abs()))
    {
      if !isValid { return SESSION_NOT_EXIST; }
      isValid, numFileOpened := false, 0;
      res := 0;
    }

    /** _intHasOpenedFile */
    method HasOpenedFile(file: nat) returns (res: int)
      requires Valid()
      ensures res == HasOpened(Abs(), file)
    {
      if !isValid { return SESSION_NOT_EXIST; }
      for i := 0 to numFileOpened
        invariant forall j :: 0 <= j < i ==> Abs().files[j].hash != file
      {
        if filenames[i] == file {
          assert Abs().files[i].hash == file;
          return SESSION_FILE_ALREADY_OPENED;
        }
      }
      return SESSION_FILE_NEVER_OPENED;
    }

    /** addFileOpened */
    method AddFileOpened(key: nat, newFlags: int) returns (res: int)
      requires Valid()
      modifies this, filenames, flags
      ensures Valid() && Change(Abs(), res) == AddOpened(old(Abs()), key, newFlags)
    {
      hide Pairs, Place, Distinct;
      ghost var was := Abs();
      AddIsUpdate(was, key, newFlags);
      if !isValid { return SESSION_NOT_EXIST; }
      res := HasOpenedFile(key);
      if res == SESSION_FILE_NEVER_OPENED { res := 0; }
      if res != SESSION_FILE_ALREADY_OPENED && numFileOpened >= MAX_CLIENT_OPENED_FILES {
        res := SESSION_OUT_OF_MEMORY;
      }
      if res != SESSION_FILE_ALREADY_OPENED && res != SESSION_OUT_OF_MEMORY {
        Record(key, newFlags);
      }
    }

    /** The new file is written after the last one. */
    method Record(key: nat, newFlags: int)
      requires Valid() && isValid && numFileOpened < MAX_CLIENT_OPENED_FILES
      requires WellFormed(Abs().(files := Abs().files + [Opened(key, newFlags)]))
      modifies this, filenames, flags
      ensures Valid() && Abs() == old(Abs()).(files := old(Abs()).files + [Opened(key, newFlags)])
    {
      hide Pairs, Distinct;
      ghost var files := Abs().files + [Opened(key, newFlags)];
      var index := numFileOpened;
      filenames[index] := key;
      flags[index] := newFlags;
      numFileOpened := numFileOpened + 1;
      assert Abs().files == files;
    }

    /** remFileOpened: everything after the file moves one place to the left. */
    method RemFileOpened(key: nat) returns (res: int)
      requires Valid()
      modifies this, filenames, flags
      ensures Valid() && Change(Abs(), res) == RemOpened(old(Abs()), key)
    {
      hide Place, Without;
      ghost var was := Abs();
      if !isValid { return SESSION_NOT_EXIST; }
      res := SESSION_FILE_NEVER_OPENED;
      var i := 0;
      while i < numFileOpened
        invariant 0 <= i <= numFileOpened && Valid() && Abs() == was
        invariant forall j :: 0 <= j < i ==> was.files[j].hash != key
      {
        if filenames[i] == key {
          OnlyPlace(was.files, i);
          RemoveAt(i);
          return 0;
        }
        i := i + 1;
      }
    }

    /** The shift in remFileOpened. */
    method RemoveAt(i: nat)
      requires Valid() && i < numFileOpened
      modifies this, filenames, flags
      ensures Valid() && Abs() == old(Abs()).(files := Without(old(Abs()).files, i))
    {
      hide WellFormed, Pairs, Without, Shifted;
      ghost var was, n := Abs().files, numFileOpened;
      StaysWellFormed(Abs(), i);
      NothingShifted(filenames[..], flags[..], n, i);
      var j := i;
      while j < numFileOpened - 1
        invariant i <= j <= n - 1 && numFileOpened == n == |was| && isValid == old(isValid)
        invariant Shifted(filenames[..], flags[..], was, i, j)
      {
        ShiftOne(filenames[..], flags[..], was, i, j);
        filenames[j] := filenames[j + 1];
        flags[j] := flags[j + 1];
        j := j + 1;
      }
      ShiftedIsWithout(filenames[..], flags[..], was, i);
      filenames[numFileOpened - 1] := 0;
      flags[numFileOpened - 1] := 0;
      numFileOpened := numFileOpened - 1;
    }

    /** canWriteIntoFile */
    method CanWriteIntoFile(key: nat) returns (res: int)
      requires Valid()
      ensures res == CanWrite(Abs(), key)
    {
      if !isValid { return SESSION_NOT_EXIST; }
      res := SESSION_FILE_NEVER_OPENED;
      for i := 0 to numFileOpened
        invariant res == if 0 <= Place(Abs().files, key) < i then CanWrite(Abs(), key) else SESSION_FILE_NEVER_OPENED
      {
        assert Abs().files[i].hash == filenames[i] && Abs().files[i].flags == flags[i];
        if filenames[i] == key {
          OnlyPlace(Abs().files, i);
          res := if flags[i] == FLAG_CREATE + FLAG_LOCK then 0 else SESSION_CANNOT_WRITE_FILE;
        }
      }
    }
  }
}
