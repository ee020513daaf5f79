/** Messages over a stream that may split every read and write (common/src/net.c:39-400, 426-512). */
module NetStream {
  import opened Bits
  import opened CircQueue
  import opened NetFormat
  import opened Protocol
  import HuffmanDictionary
  import HuffmanCompress
  import HuffmanDecompress
  import HuffmanCodec

  /** What one call of read or write does: it is interrupted by a signal, it fails, or it moves some bytes. */
  datatype Outcome = Interrupted | Failed | Moves(count: nat)

  /** No call fails and no write moves nothing. */
  ghost predicate NoFailure(script: seq<Outcome>) {
    forall i :: 0 <= i < |script| ==> !script[i].Failed? && script[i] != Moves(0)
  }

  /** One end of a connection. `incoming` is all that will still arrive, `outgoing` all that was sent. `script` says
      what the next calls do; when it is used up, calls move everything they can. */
  class Connection {
    var incoming: seq<Byte>
    var outgoing: seq<Byte>
    var script: seq<Outcome>

    constructor (incoming: seq<Byte>, script: seq<Outcome>)
      ensures this.incoming == incoming && this.script == script && outgoing == []
    {
      this.incoming, this.script, outgoing := incoming, script, [];
    }

    /** The next outcome for a call that could move from `least` to `most` bytes. */
    method NextOutcome(least: nat, most: nat) returns (o: Outcome)
      requires least <= 1 <= most
      modifies this`script
      ensures script == if old(script) == [] then [] else old(script[1..])
      ensures o.Moves? ==> least <= o.count <= most
      ensures o.Failed? || o == Moves(0) ==> old(script) != [] && old(script[0]) == o
      ensures o.Interrupted? ==> old(script) != []
    {
      o := Moves(most);
      if script != [] {
        if !script[0].Moves? || least <= script[0].count <= most { o := script[0]; }
        script := script[1..];
      }
    }

    /** read: -1 with errno, 0 at the end of the stream, or the number of bytes read. */
    method Read(buf: array<Byte>, at: nat, size: nat) returns (r: int, interrupted: bool)
      requires 0 < size && at + size <= buf.Length
      modifies this`script, this`incoming, buf
      ensures script == if old(script) == [] then [] else old(script[1..])
      ensures interrupted ==> r == -1 && old(script) != []
      ensures r == -1 && !interrupted ==> !NoFailure(old(script))
      ensures -1 <= r <= size && (r == 0 <==> r >= 0 && old(incoming) == [])
      ensures r >= 0 ==> r <= |old(incoming)| && incoming == old(incoming[r..])
                         && buf[..] == old(buf[..at]) + old(incoming[..r]) + old(buf[at + r..])
      ensures r == -1 ==> incoming == old(incoming) && buf[..] == old(buf[..])
    {
      interrupted := false;
      if incoming == [] {
        if script != [] {
          var next := script[0];
          script := script[1..];
          if !next.Moves? { return -1, next.Interrupted?; }
        }
        assert buf[..] == buf[..at] + [] + buf[at..];
        return 0, false;
      }
      var o := NextOutcome(1, if size < |incoming| then size else |incoming|);
      if !o.Moves? { return -1, o.Interrupted?; }
      r := o.count;
      ghost var was := buf[..];
      forall i | 0 <= i < r {
        buf[at + i] := incoming[i];
      }
      assert buf[..] == was[..at] + incoming[..r] + was[at + r..];
      incoming := incoming[r..];
    }

    /** write: -1 with errno, or the number of bytes written. */
    method Write(data: seq<Byte>) returns (w: int, interrupted: bool)
      requires data != []
      modifies this`script, this`outgoing
      ensures script == if old(script) == [] then [] else old(script[1..])
      ensures interrupted ==> w == -1 && old(script) != []
      ensures (w == -1 && !interrupted) || w == 0 ==> !NoFailure(old(script))
      ensures -1 <= w <= |data|
      ensures outgoing == if w == -1 then old(outgoing) else old(outgoing) + data[..w]
    {
      var o := NextOutcome(0, |data|);
      if !o.Moves? { return -1, o.Interrupted?; }
      w, interrupted := o.count, false;
      outgoing := outgoing + data[..w];
    }
  }

  /** readN: exactly `size` bytes, however the stream splits them. */
  method ReadN(fd: Connection, buf: array<Byte>, size: nat) returns (res: int)
    requires size <= buf.Length
    modifies fd`script, fd`incoming, buf
    ensures res == 1 || res == 0 || res == -1
    ensures res == 1 ==>
              && size <= |old(fd.incoming)| && buf[..size] == old(fd.incoming[..size])
              && fd.incoming == old(fd.incoming[size..])
    ensures res == 0 ==> |old(fd.incoming)| < size
    ensures NoFailure(old(fd.script)) ==> res != -1 && NoFailure(fd.script)
  {
    var got := 0;
    while got < size
      invariant got <= size <= buf.Length && got <= |old(fd.incoming)|
      invariant buf[..got] == old(fd.incoming)[..got] && fd.incoming == old(fd.incoming)[got..]
      invariant NoFailure(old(fd.script)) ==> NoFailure(fd.script)
      decreases size - got, |fd.script|
    {
      var r, interrupted := fd.Read(buf, got, size - got);
      if r == -1 {
        if !interrupted { return -1; }
      } else {
        if r == 0 { return 0; }
        got := got + r;
      }
    }
    return 1;
  }

  /** writeN: all the bytes, however the stream splits them. */
  method WriteN(fd: Connection, data: seq<Byte>) returns (res: int)
    modifies fd`script, fd`outgoing
    ensures res == 1 || res == 0 || res == -1
    ensures res == 1 ==> fd.outgoing == old(fd.outgoing) + data
    ensures res != 1 ==> exists k :: 0 <= k < |data| && fd.outgoing == old(fd.outgoing) + data[..k]
    ensures NoFailure(old(fd.script)) ==> res == 1 && NoFailure(fd.script)
  {
    var sent := 0;
    while sent < |data|
      invariant sent <= |data| && fd.outgoing == old(fd.outgoing) + data[..sent]
      invariant NoFailure(old(fd.script)) ==> NoFailure(fd.script)
      decreases |data| - sent, |fd.script|
    {
      var w, interrupted := fd.Write(data[sent..]);
      if w == -1 {
        if !interrupted { return -1; }
      } else {
        if w == 0 { return 0; }
        assert data[..sent] + data[sent..][..w] == data[..sent + w];
        sent := sent + w;
      }
    }
    assert data[..|data|] == data;
    return 1;
  }

  // ---------------------------------------------------------------- writing a message

  /** calcMsgSize: the bytes writing will produce. */
  method CalcMsgSize(msg: Message) returns (totalSize: nat)
    requires WellTyped(msg)
    ensures totalSize == |Encode(msg)|
  {
    totalSize := UID_SIZE + INT_SIZE;
    match msg {
      case Bare(_, _) =>
      case ReadNFiles(_, _) => totalSize := totalSize + INT_SIZE;
      case FileRequest(_, _, _, file) =>
        totalSize := totalSize + INT_SIZE + 4 * SIZE_T_SIZE + |BytesOf(file.filename)| + |BytesOf(file.content)|;
      case Simple(_, _) => totalSize := totalSize + INT_SIZE;
      case WithFiles(_, _, files) =>
        totalSize := totalSize + INT_SIZE + INT_SIZE + |files| * 4 * SIZE_T_SIZE;
        ghost var fixed := totalSize;
        var i := 0;
        assert files[0..] == files;
        while i < |files|
          invariant i <= |files| && totalSize + |AllRaw(files[i..])| == fixed + |AllRaw(files)|
        {
          assert files[i..][1..] == files[i + 1..];
          totalSize := totalSize + |BytesOf(files[i].filename)| + |BytesOf(files[i].content)|;
          i := i + 1;
        }
        assert files[|files|..] == [];
    }
  }

  /** writeToBuffer. `total` is what the buffer is to hold in the end, `rest` what comes after this piece. */
  method WriteToBuffer(buf: array<Byte>, at: nat, data: seq<Byte>, ghost total: seq<Byte>, ghost rest: seq<Byte>)
    returns (next: nat)
    requires at <= buf.Length == |total| && total == buf[..at] + (data + rest)
    modifies buf
    ensures next == at + |data| <= buf.Length && total == buf[..next] + rest
  {
    ghost var done := buf[..at];
    forall i | 0 <= i < |data| {
      buf[at + i] := data[i];
    }
    next := at + |data|;
    assert buf[..next] == done + data;
  }

  /** The four numbers of a table entry. */
  method WriteEntry(buf: array<Byte>, at: nat, f: MsgFile, rawBufferIndex: nat, ghost total: seq<Byte>,
                    ghost rest: seq<Byte>)
    returns (next: nat)
    requires at <= buf.Length == |total| && total == buf[..at] + (EntryBytes(f, rawBufferIndex) + rest)
    modifies buf
    ensures next <= buf.Length && total == buf[..next] + rest
  {
    hide SizeBytes;
    var a, b := SizeBytes(|BytesOf(f.filename)|), SizeBytes(rawBufferIndex);
    var c, d := SizeBytes(|BytesOf(f.content)|), SizeBytes(rawBufferIndex + |BytesOf(f.filename)|);
    assert EntryBytes(f, rawBufferIndex) + rest == a + (b + (c + (d + rest)));
    next := WriteToBuffer(buf, at, a, total, b + (c + (d + rest)));
    next := WriteToBuffer(buf, next, b, total, c + (d + rest));
    next := WriteToBuffer(buf, next, c, total, d + rest);
    next := WriteToBuffer(buf, next, d, total, rest);
  }

  /** Name, then content. */
  method WriteRaw(buf: array<Byte>, at: nat, f: MsgFile, ghost total: seq<Byte>, ghost rest: seq<Byte>)
    returns (next: nat)
    requires at <= buf.Length == |total| && total == buf[..at] + (Raw(f) + rest)
    modifies buf
    ensures next <= buf.Length && total == buf[..next] + rest
  {
    var name, content := BytesOf(f.filename), BytesOf(f.content);
    assert Raw(f) + rest == name + (content + rest);
    next := WriteToBuffer(buf, at, name, total, content + rest);
    next := WriteToBuffer(buf, next, content, total, rest);
  }

  /** The table, with the running offset into the raw region. */
  method WriteEntries(buf: array<Byte>, at: nat, files: seq<MsgFile>, ghost total: seq<Byte>, ghost rest: seq<Byte>)
    returns (next: nat)
    requires at <= buf.Length == |total| && total == buf[..at] + (Entries(files, 0) + rest)
    modifies buf
    ensures next <= buf.Length && total == buf[..next] + rest
  {
    hide EntryBytes, Raw;
    next := at;
    var rawBufferIndex: nat, i: nat := 0, 0;
    assert files[0..] == files;
    while i < |files|
      invariant i <= |files| && next <= buf.Length
      invariant total == buf[..next] + (Entries(files[i..], rawBufferIndex) + rest)
    {
      ghost var more := Entries(files[i + 1..], rawBufferIndex + |Raw(files[i])|);
      assert files[i..][1..] == files[i + 1..];
      assert Entries(files[i..], rawBufferIndex) + rest == EntryBytes(files[i], rawBufferIndex) + (more + rest);
      next := WriteEntry(buf, next, files[i], rawBufferIndex, total, more + rest);
      rawBufferIndex := rawBufferIndex + |BytesOf(files[i].filename)| + |BytesOf(files[i].content)|;
      RawLength(files[i]);
      i := i + 1;
    }
    assert Entries(files[|files|..], rawBufferIndex) + rest == rest;
  }

  lemma RawLength(f: MsgFile)
    ensures |Raw(f)| == |BytesOf(f.filename)| + |BytesOf(f.content)|
  {
  }

  method WriteAllRaw(buf: array<Byte>, at: nat, files: seq<MsgFile>, ghost total: seq<Byte>)
    requires at <= buf.Length == |total| && total == buf[..at] + AllRaw(files)
    modifies buf
    ensures total == buf[..]
  {
    hide Raw;
    var next: nat, i: nat := at, 0;
    assert files[0..] == files;
    while i < |files|
      invariant i <= |files| && next <= buf.Length && total == buf[..next] + AllRaw(files[i..])
    {
      assert files[i..][1..] == files[i + 1..];
      next := WriteRaw(buf, next, files[i], total, AllRaw(files[i + 1..]));
      i := i + 1;
    }
    assert AllRaw(files[|files|..]) == [];
    assert buf[..next] == total == buf[..];
  }

  /** The part of writeMessage that fills the buffer. */
  method Fill(msg: Message) returns (buf: array<Byte>)
    requires WellTyped(msg)
    ensures fresh(buf) && buf[..] == Encode(msg)
  {
    hide IntBytes, EntryBytes, Entries, Raw, AllRaw;
    var msgSize := CalcMsgSize(msg);
    buf := new Byte[msgSize];
    ghost var total := Encode(msg);
    KindIsInt(msg);
    assert total == buf[..0] + (msg.uid + (IntBytes(KindOf(msg)) + Body(msg)));
    var at := WriteToBuffer(buf, 0, msg.uid, total, IntBytes(KindOf(msg)) + Body(msg));
    at := WriteToBuffer(buf, at, IntBytes(KindOf(msg)), total, Body(msg));
    match msg {
      case Bare(_, _) => assert buf[..at] == buf[..];
      case ReadNFiles(_, flags) => WriteLast(buf, at, IntBytes(flags), total);
      case FileRequest(_, _, flags, file) => WriteRequest(buf, at, flags, file, total);
      case Simple(_, status) => WriteLast(buf, at, IntBytes(status), total);
      case WithFiles(_, status, files) => WriteFiles(buf, at, status, files, total);
    }
  }

  method WriteLast(buf: array<Byte>, at: nat, data: seq<Byte>, ghost total: seq<Byte>)
    requires at <= buf.Length == |total| && total == buf[..at] + data
    modifies buf
    ensures buf[..] == total
  {
    assert data == data + [];
    var next := WriteToBuffer(buf, at, data, total, []);
    assert buf[..next] + [] == buf[..];
  }

  method WriteRequest(buf: array<Byte>, at: nat, flags: int, file: MsgFile, ghost total: seq<Byte>)
    requires IsInt(flags) && at <= buf.Length == |total|
             && total == buf[..at] + (IntBytes(flags) + EntryBytes(file, 0) + Raw(file))
    modifies buf
    ensures buf[..] == total
  {
    hide IntBytes, EntryBytes, Raw;
    assert IntBytes(flags) + EntryBytes(file, 0) + Raw(file)
           == IntBytes(flags) + (EntryBytes(file, 0) + (Raw(file) + []));
    var next := WriteToBuffer(buf, at, IntBytes(flags), total, EntryBytes(file, 0) + (Raw(file) + []));
    next := WriteEntry(buf, next, file, 0, total, Raw(file) + []);
    next := WriteRaw(buf, next, file, total, []);
    assert buf[..next] + [] == buf[..];
  }

  method WriteFiles(buf: array<Byte>, at: nat, status: int, files: seq<MsgFile>, ghost total: seq<Byte>)
    requires IsInt(status) && |files| <= INT_MAX && at <= buf.Length == |total|
    requires total == buf[..at] + (IntBytes(status) + IntBytes(|files|) + Entries(files, 0) + AllRaw(files))
    modifies buf
    ensures buf[..] == total
  {
    hide IntBytes, Entries, AllRaw;
    ghost var tail := Entries(files, 0) + AllRaw(files);
    assert IntBytes(status) + IntBytes(|files|) + Entries(files, 0) + AllRaw(files)
           == IntBytes(status) + (IntBytes(|files|) + tail);
    var next := WriteToBuffer(buf, at, IntBytes(status), total, IntBytes(|files|) + tail);
    next := WriteToBuffer(buf, next, IntBytes(|files|), total, tail);
    next := WriteEntries(buf, next, files, total, AllRaw(files));
    WriteAllRaw(buf, next, files, total);
  }

  // ---------------------------------------------------------------- reading a message

  /** readFromBuffer */
  method ReadFromBuffer(buf: array<Byte>, at: nat, size: nat) returns (data: seq<Byte>, next: nat)
    requires at + size <= buf.Length
    ensures data == buf[at..at + size] && next == at + size
  {
    data, next := buf[at..at + size], at + size;
  }

  method ReadInt(buf: array<Byte>, at: nat, ghost payload: seq<Byte>) returns (v: int, next: nat)
    requires at + INT_SIZE <= |payload| <= buf.Length && payload == buf[..|payload|]
    ensures v == IntAt(payload, at) && next == at + INT_SIZE
  {
    var data;
    data, next := ReadFromBuffer(buf, at, INT_SIZE);
    assert data == payload[at..at + INT_SIZE];
    v := IntFrom(data);
  }

  method ReadSize(buf: array<Byte>, at: nat, ghost payload: seq<Byte>) returns (v: nat, next: nat)
    requires at + SIZE_T_SIZE <= |payload| <= buf.Length && payload == buf[..|payload|]
    ensures v == SizeAt(payload, at) && next == at + SIZE_T_SIZE
  {
    var data;
    data, next := ReadFromBuffer(buf, at, SIZE_T_SIZE);
    assert data == payload[at..at + SIZE_T_SIZE];
    v := SizeFrom(data);
  }

  /** A MsgFile_t before its offsets become pointers. */
  datatype Entry = Entry(nameLen: nat, name: nat, contentLen: nat, content: nat)

  function EntryAt(entry: seq<Byte>): Entry
    requires |entry| == ENTRY_SIZE
  {
    Entry(SizeAt(entry, 0), SizeAt(entry, 8), SizeAt(entry, 16), SizeAt(entry, 24))
  }

  lemma SizeInside(payload: seq<Byte>, at: nat, i: nat)
    requires at + ENTRY_SIZE <= |payload| && i + SIZE_T_SIZE <= ENTRY_SIZE
    ensures SizeAt(payload, at + i) == SizeAt(payload[at..at + ENTRY_SIZE], i)
  {
    var s, t := payload[at..at + ENTRY_SIZE][i..i + SIZE_T_SIZE], payload[at + i..at + i + SIZE_T_SIZE];
    assert |s| == |t| && forall k :: 0 <= k < |s| ==> s[k] == t[k];
    assert s == t;
  }

  method ReadEntry(buf: array<Byte>, at: nat, ghost payload: seq<Byte>) returns (e: Entry, next: nat)
    requires at + ENTRY_SIZE <= |payload| <= buf.Length && payload == buf[..|payload|]
    ensures e == EntryAt(payload[at..at + ENTRY_SIZE]) && next == at + ENTRY_SIZE
  {
    hide SizeAt;
    SizeInside(payload, at, 0);
    SizeInside(payload, at, 8);
    SizeInside(payload, at, 16);
    SizeInside(payload, at, 24);
    var a, b, c, d;
    a, next := ReadSize(buf, at, payload);
    b, next := ReadSize(buf, next, payload);
    c, next := ReadSize(buf, next, payload);
    d, next := ReadSize(buf, next, payload);
    e := Entry(a, b, c, d);
  }

  /** convertOffsetToPtr: null for an empty field, otherwise the bytes at the offset. */
  method ConvertOffsetToPtr(raw: seq<Byte>, offset: nat, len: nat) returns (field: Buf)
    requires Resolve(raw, len, offset).Some?
    ensures Some(field) == Resolve(raw, len, offset)
  {
    if len == 0 { field := Null; } else { field := Data(raw[offset..offset + len]); }
  }

  method ResolveEntry(raw: seq<Byte>, e: Entry, ghost entry: seq<Byte>) returns (f: MsgFile)
    requires |entry| == ENTRY_SIZE && e == EntryAt(entry) && DecodeFile(entry, raw).Some?
    ensures Some(f) == DecodeFile(entry, raw)
  {
    hide SizeAt;
    var name := ConvertOffsetToPtr(raw, e.name, e.nameLen);
    var content := ConvertOffsetToPtr(raw, e.content, e.contentLen);
    f := MsgFile(name, content);
  }

  lemma {:induction false} DecodeFilesAt(table: seq<Byte>, n: nat, raw: seq<Byte>, i: nat)
    requires |table| == ENTRY_SIZE * n && i < n && DecodeFiles(table, n, raw).Some?
    ensures DecodeFile(table[ENTRY_SIZE * i..ENTRY_SIZE * (i + 1)], raw) == Some(DecodeFiles(table, n, raw).value[i])
  {
    hide DecodeFile;
    if i > 0 {
      DecodeFilesAt(table[ENTRY_SIZE..], n - 1, raw, i - 1);
      assert table[ENTRY_SIZE..][ENTRY_SIZE * (i - 1)..ENTRY_SIZE * i] == table[ENTRY_SIZE * i..ENTRY_SIZE * (i + 1)];
    }
  }

  /** The table is read first; its offsets become pointers once the raw region has been read. */
  method ReadFiles(buf: array<Byte>, at: nat, n: nat, ghost payload: seq<Byte>, msgSize: nat)
    returns (files: seq<MsgFile>)
    requires at + ENTRY_SIZE * n <= |payload| == msgSize <= buf.Length && payload == buf[..|payload|]
    requires DecodeFiles(payload[at..at + ENTRY_SIZE * n], n, payload[at + ENTRY_SIZE * n..]).Some?
    ensures Some(files) == DecodeFiles(payload[at..at + ENTRY_SIZE * n], n, payload[at + ENTRY_SIZE * n..])
  {
    hide DecodeFile, DecodeFiles, EntryAt;
    ghost var table, rest := payload[at..at + ENTRY_SIZE * n], payload[at + ENTRY_SIZE * n..];
    var entries: seq<Entry> := [];
    var next, i := at, 0;
    while i < n
      invariant i <= n && |entries| == i && next == at + ENTRY_SIZE * i
      invariant forall j :: 0 <= j < i ==> entries[j] == EntryAt(table[ENTRY_SIZE * j..ENTRY_SIZE * (j + 1)])
    {
      assert payload[next..next + ENTRY_SIZE] == table[ENTRY_SIZE * i..ENTRY_SIZE * (i + 1)];
      var e;
      e, next := ReadEntry(buf, next, payload);
      entries := entries + [e];
      i := i + 1;
    }
    var raw;
    raw, next := ReadFromBuffer(buf, next, msgSize - next);
    assert raw == rest;
    files := [];
    i := 0;
    while i < n
      invariant i <= n && |files| == i
      invariant forall j :: 0 <= j < i ==> files[j] == DecodeFiles(table, n, rest).value[j]
    {
      DecodeFilesAt(table, n, rest, i);
      var f := ResolveEntry(raw, entries[i], table[ENTRY_SIZE * i..ENTRY_SIZE * (i + 1)]);
      files := files + [f];
      i := i + 1;
    }
    assert files == DecodeFiles(table, n, rest).value;
  }

  /** Whatever is found in the bytes of a message has arrived as it was sent. */
  lemma ArrivesDecoded(payload: seq<Byte>)
    ensures forall m :: WellTyped(m) && Encode(m) == payload && |payload| < 0x1_0000_0000_0000_0000 ==>
              Decode(payload).Some? && Arrives(m, Decode(payload).value)
  {
    hide Encode, Decode, Normalised, Arrives;
    forall m | WellTyped(m) && Encode(m) == payload && |payload| < 0x1_0000_0000_0000_0000
      ensures Decode(payload).Some? && Arrives(m, Decode(payload).value)
    {
      DecodeEncode(m);
    }
  }

  /** The part of readMessage after the payload has arrived. */
  method Parse(buf: array<Byte>, msgSize: nat) returns (msg: Message)
    requires msgSize <= buf.Length && Decode(buf[..msgSize]).Some?
    ensures Some(msg) == Decode(buf[..msgSize])
    ensures forall m :: WellTyped(m) && Encode(m) == buf[..msgSize] && msgSize < 0x1_0000_0000_0000_0000 ==>
              Arrives(m, msg)
  {
    hide IntAt, DecodeFile, DecodeFiles, EntryAt, Encode, Arrives;
    ghost var payload := buf[..msgSize];
    ArrivesDecoded(payload);
    var uid, at := ReadFromBuffer(buf, 0, UID_SIZE);
    assert uid == payload[..UID_SIZE];
    var kind;
    kind, at := ReadInt(buf, at, payload);
    if kind == MSG_REQ_READ_N_FILES {
      var flags;
      flags, at := ReadInt(buf, at, payload);
      msg := ReadNFiles(uid, flags);
    } else if IsFileRequest(kind) {
      var flags, e, raw;
      flags, at := ReadInt(buf, at, payload);
      e, at := ReadEntry(buf, at, payload);
      raw, at := ReadFromBuffer(buf, at, msgSize - at);
      assert raw == payload[56..];
      var file := ResolveEntry(raw, e, payload[24..56]);
      msg := FileRequest(uid, kind, flags, file);
    } else if kind == MSG_RESP_SIMPLE {
      var status;
      status, at := ReadInt(buf, at, payload);
      msg := Simple(uid, status);
    } else if kind == MSG_RESP_WITH_FILES {
      var status, numFiles;
      status, at := ReadInt(buf, at, payload);
      numFiles, at := ReadInt(buf, at, payload);
      var files := ReadFiles(buf, at, numFiles, payload, msgSize);
      msg := WithFiles(uid, status, files);
    } else {
      msg := Bare(uid, kind);
    }
  }

  // ---------------------------------------------------------------- frames

  /** What is sent for a payload: the payload itself, or a compressed stream of it. */
  ghost predicate IsWire(compress: bool, payload: seq<Byte>, wire: seq<Byte>) {
    if compress then HuffmanCodec.IsStream(wire, payload) else wire == payload
  }

  /** Messages that can be sent. Compression is limited to what the codec takes. */
  ghost predicate Sendable(compress: bool, m: Message) {
    && WellTyped(m) && |Encode(m)| < 0x8000_0000_0000_0000
    && (compress ==> |Encode(m)| <= INT_MAX)
  }

  function Frame(wire: seq<Byte>): seq<Byte> {
    SizeBytes(|wire|) + wire
  }

  /** The stream that carries these messages, one frame after the other. */
  ghost predicate Carries(compress: bool, stream: seq<Byte>, msgs: seq<Message>)
    decreases |msgs|
  {
    if msgs == [] then stream == []
    else exists wire, rest ::
      IsFrameOf(compress, msgs[0], wire) && stream == Frame(wire) + rest && Carries(compress, rest, msgs[1..])
  }

  ghost predicate IsFrameOf(compress: bool, m: Message, wire: seq<Byte>) {
    Sendable(compress, m) && IsWire(compress, Encode(m), wire) && |wire| < 0x1_0000_0000_0000_0000
  }

  lemma {:induction false} CarriesMore(compress: bool, stream: seq<Byte>, msgs: seq<Message>, m: Message,
                                       wire: seq<Byte>)
    requires Carries(compress, stream, msgs) && IsFrameOf(compress, m, wire)
    ensures Carries(compress, stream + Frame(wire), msgs + [m])
    decreases |msgs|
  {
    hide IsFrameOf, Frame;
    if msgs == [] {
      assert stream + Frame(wire) == Frame(wire) + [] && ([] + [m])[1..] == [];
      assert Carries(compress, [], ([] + [m])[1..]);
    } else {
      var first, rest :| IsFrameOf(compress, msgs[0], first) && stream == Frame(first) + rest
          && Carries(compress, rest, msgs[1..]);
      CarriesMore(compress, rest, msgs[1..], m, wire);
      assert (msgs + [m])[1..] == msgs[1..] + [m];
      assert stream + Frame(wire) == Frame(first) + (rest + Frame(wire));
    }
  }

  /** Frames cannot be confused: two readings of one stream agree on the first frame. */
  lemma FrameUnique(wire: seq<Byte>, rest: seq<Byte>, wire': seq<Byte>, rest': seq<Byte>)
    requires Frame(wire) + rest == Frame(wire') + rest'
    requires |wire| < 0x1_0000_0000_0000_0000 && |wire'| < 0x1_0000_0000_0000_0000
    ensures wire == wire' && rest == rest'
  {
    hide SizeBytes;
    var stream := Frame(wire) + rest;
    assert stream[..8] == SizeBytes(|wire|) && stream[..8] == SizeBytes(|wire'|);
    SizeRoundTrip(|wire|);
    SizeRoundTrip(|wire'|);
    assert stream[8..8 + |wire|] == wire && stream[8..8 + |wire'|] == wire';
    assert stream[8 + |wire|..] == rest && stream[8 + |wire|..] == rest';
  }

  /** A wire has one payload, and that payload one message up to its empty fields. */
  lemma WireUnique(compress: bool, m: Message, n: Message, wire: seq<Byte>)
    requires IsFrameOf(compress, m, wire) && IsFrameOf(compress, n, wire)
    ensures Normalised(m) == Normalised(n) && SameBytes(m, n)
  {
    hide Encode, Normalised, SameBytes;
    if compress {
      HuffmanCodec.StreamUnique(wire, Encode(m), Encode(n));
    }
    EncodingIsUnique(m, n);
  }

  function NormalisedAll(msgs: seq<Message>): (r: seq<Message>)
    ensures |r| == |msgs|
  {
    if msgs == [] then [] else [Normalised(msgs[0])] + NormalisedAll(msgs[1..])
  }

  /** A stream carries one sequence of messages: no byte is lost, repeated or shared between two of them. */
  lemma {:induction false} StreamCarriesOneSequence(compress: bool, stream: seq<Byte>, msgs: seq<Message>,
                                                    other: seq<Message>)
    requires Carries(compress, stream, msgs) && Carries(compress, stream, other)
    ensures NormalisedAll(msgs) == NormalisedAll(other)
    ensures |msgs| == |other| && forall i :: 0 <= i < |msgs| ==> SameBytes(msgs[i], other[i])
    decreases |msgs|
  {
    hide IsFrameOf, Normalised, SameBytes;
    if msgs != [] && other != [] {
      var w, r :| IsFrameOf(compress, msgs[0], w) && stream == Frame(w) + r && Carries(compress, r, msgs[1..]);
      var w', r' :| IsFrameOf(compress, other[0], w') && stream == Frame(w') + r' && Carries(compress, r', other[1..]);
      WireLength(compress, msgs[0], w);
      WireLength(compress, other[0], w');
      FrameUnique(w, r, w', r');
      WireUnique(compress, msgs[0], other[0], w);
      StreamCarriesOneSequence(compress, r, msgs[1..], other[1..]);
    }
  }

  lemma WireLength(compress: bool, m: Message, wire: seq<Byte>)
    requires IsFrameOf(compress, m, wire)
    ensures |wire| < 0x1_0000_0000_0000_0000
  {
  }

  /** writeMessage: the length, then the message. On success the stream carries one more message. */
  method WriteMessage(fd: Connection, msg: Message, compress: bool, ghost sent: seq<Message>) returns (res: int)
    requires Sendable(compress, msg) && Carries(compress, fd.outgoing, sent)
    modifies fd`script, fd`outgoing
    ensures res > 0 ==> Carries(compress, fd.outgoing, sent + [msg])
    ensures NoFailure(old(fd.script)) ==> res > 0 && NoFailure(fd.script)
  {
    hide Carries, Encode, SizeBytes, HuffmanCodec.IsStream;
    var buf := Fill(msg);
    var wire := buf[..];
    EncodeIsLong(msg);
    if compress {
      NoOverlongRun(msg);
      wire := CompressPayload(wire);
    }
    WireSize(compress, msg, wire);
    res := WriteN(fd, SizeBytes(|wire|));
    if res != 1 { return; }
    res := WriteN(fd, wire);
    if res != 1 { return; }
    assert fd.outgoing == old(fd.outgoing) + Frame(wire);
    CarriesMore(compress, old(fd.outgoing), sent, msg, wire);
    res := |wire|;
  }

  lemma WireSize(compress: bool, m: Message, wire: seq<Byte>)
    requires Sendable(compress, m) && IsWire(compress, Encode(m), wire) && |wire| <= |Encode(m)| + 1
    ensures IsFrameOf(compress, m, wire) && |wire| > 0
  {
    EncodeIsLong(m);
    if compress {
      HuffmanCodec.StreamAccepted(wire, Encode(m));
    }
  }

  lemma EncodeIsLong(m: Message)
    requires WellTyped(m)
    ensures |Encode(m)| >= 20
  {
  }

  /** The bytes of a long message are not all the same: its type is a number between 0 and 256, so the second of the
      four bytes of the type is 0 and the first is not. */
  lemma NoOverlongRun(m: Message)
    requires WellTyped(m)
    ensures !HuffmanDictionary.OverlongRun(Encode(m))
  {
    if |Encode(m)| == INT_MAX {
      assert m.FileRequest? || m.WithFiles? by { BodyOfFew(m); }
      assert 0 < KindOf(m) < 256;
      SecondByte(KindOf(m));
      hide Body, IntBytes;
      assert Encode(m)[16] == IntBytes(KindOf(m))[0] && Encode(m)[17] == IntBytes(KindOf(m))[1];
    }
  }

  lemma BodyOfFew(m: Message)
    requires WellTyped(m)
    ensures !m.FileRequest? && !m.WithFiles? ==> |Encode(m)| <= 24
  {
  }

  lemma SecondByte(v: int)
    requires 0 < v < 256
    ensures IntBytes(v)[0] != IntBytes(v)[1]
  {
    assert LittleEndian(v, 4) == [v] + LittleEndian(0, 3) && LittleEndian(0, 3)[0] == 0;
  }

  /** compress_data */
  method CompressPayload(payload: seq<Byte>) returns (wire: seq<Byte>)
    requires payload != [] && |payload| <= INT_MAX && !HuffmanDictionary.OverlongRun(payload)
    ensures HuffmanCodec.IsStream(wire, payload) && |wire| <= |payload| + 1
  {
    hide HuffmanCodec.IsStream;
    var result := HuffmanCompress.Compress(payload);
    wire := result[..];
    ghost var t :| HuffmanCompress.IsStreamFor(wire, t, payload);
    HuffmanCodec.AtMostOneByteMore(wire, t, payload);
  }

  /** decompress_data */
  method DecompressPayload(wire: seq<Byte>, ghost payload: seq<Byte>) returns (result: array<Byte>)
    requires HuffmanCodec.IsStream(wire, payload)
    ensures result[..] == payload
  {
    HuffmanCodec.StreamAccepted(wire, payload);
    var r := HuffmanDecompress.Decompress(wire);
    result := r;
  }

  /** readMessage, from a stream that carries `msgs`, of which only a part may have arrived before it ends. On success
      the result is the first message and what is left carries the others; without failures, the only other
      outcome is the end of the stream inside the first frame. */
  method ReadMessage(fd: Connection, compress: bool, ghost full: seq<Byte>, ghost msgs: seq<Message>)
    returns (res: int, msg: Option<Message>, ghost left: seq<Byte>)
    requires Carries(compress, full, msgs) && msgs != [] && fd.incoming <= full
    modifies fd`script, fd`incoming
    ensures res == -1 || res >= 0
    ensures res > 0 ==> msg == Some(Normalised(msgs[0])) && Carries(compress, left, msgs[1..]) && fd.incoming <= left
    ensures res > 0 ==> Arrives(msgs[0], msg.value)
    ensures res > 0 ==> |old(fd.incoming)| - |fd.incoming| == |full| - |left|
    ensures old(fd.incoming) == full && NoFailure(old(fd.script)) ==> res > 0
    ensures NoFailure(old(fd.script)) ==> res >= 0 && NoFailure(fd.script)
  {
    hide Carries, Encode, SizeBytes, SizeFrom, HuffmanCodec.IsStream, Decode, Normalised, IsFrameOf, Arrives;
    msg, left := None, [];
    ghost var wire, rest := FirstFrame(compress, full, msgs);
    var sizeBuf := new Byte[SIZE_T_SIZE];
    res := ReadN(fd, sizeBuf, SIZE_T_SIZE);
    if res != 1 { return; }
    assert sizeBuf[..] == full[..8] == SizeBytes(|wire|);
    SizeRoundTrip(|wire|);
    var msgSize := SizeFrom(sizeBuf[..]);
    var buffer := new Byte[msgSize];
    res := ReadN(fd, buffer, msgSize);
    if res != 1 { return; }
    ghost var arrived := old(fd.incoming);
    assert buffer[..] == arrived[8..][..|wire|] == arrived[8..8 + |wire|];
    assert arrived[8..8 + |wire|] == full[8..8 + |wire|] == wire;
    assert fd.incoming == arrived[8 + |wire|..] && full[8 + |wire|..] == rest;
    left := rest;
    var parsed := ParseWire(buffer, compress, msgs[0]);
    msg := Some(parsed);
    res := msgSize;
  }

  lemma FirstFrame(compress: bool, full: seq<Byte>, msgs: seq<Message>) returns (wire: seq<Byte>, rest: seq<Byte>)
    requires Carries(compress, full, msgs) && msgs != []
    ensures IsFrameOf(compress, msgs[0], wire) && 0 < |wire| < 0x1_0000_0000_0000_0000
    ensures full == SizeBytes(|wire|) + wire + rest && Carries(compress, rest, msgs[1..])
  {
    hide SizeBytes;
    wire, rest :| IsFrameOf(compress, msgs[0], wire) && full == Frame(wire) + rest
        && Carries(compress, rest, msgs[1..]);
    EncodeIsLong(msgs[0]);
    if compress {
      HuffmanCodec.StreamAccepted(wire, Encode(msgs[0]));
    }
  }

  /** The message in what has arrived. */
  method ParseWire(buffer: array<Byte>, compress: bool, ghost m: Message) returns (msg: Message)
    requires IsFrameOf(compress, m, buffer[..])
    ensures msg == Normalised(m) && Arrives(m, msg)
  {
    hide HuffmanCodec.IsStream, Encode, Decode, Normalised, Arrives;
    DecodeEncode(m);
    var payload := buffer;
    if compress {
      payload := DecompressPayload(buffer[..], Encode(m));
    }
    assert payload[..payload.Length] == payload[..];
    msg := Parse(payload, payload.Length);
  }

  // ---------------------------------------------------------------- sequences of messages

  /** Writes the messages one after the other, up to the first failure. */
  method WriteAll(fd: Connection, msgs: seq<Message>, compress: bool, ghost sent: seq<Message>) returns (count: nat)
    requires forall i :: 0 <= i < |msgs| ==> Sendable(compress, msgs[i])
    requires Carries(compress, fd.outgoing, sent)
    modifies fd`script, fd`outgoing
    ensures count <= |msgs|
    ensures count == |msgs| ==> Carries(compress, fd.outgoing, sent + msgs)
    ensures NoFailure(old(fd.script)) ==> count == |msgs|
  {
    hide Carries, Sendable;
    count := 0;
    assert sent + msgs[..0] == sent;
    while count < |msgs|
      invariant count <= |msgs| && Carries(compress, fd.outgoing, sent + msgs[..count])
      invariant NoFailure(old(fd.script)) ==> NoFailure(fd.script)
    {
      assert sent + msgs[..count] + [msgs[count]] == sent + msgs[..count + 1];
      var res := WriteMessage(fd, msgs[count], compress, sent + msgs[..count]);
      if res <= 0 { return; }
      count := count + 1;
    }
    assert msgs[..count] == msgs;
  }

  /** Reads up to n messages from a stream that carries exactly n, up to the first failure. */
  method ReadAll(fd: Connection, n: nat, compress: bool, ghost msgs: seq<Message>) returns (out: seq<Message>)
    requires Carries(compress, fd.incoming, msgs) && |msgs| == n
    modifies fd`script, fd`incoming
    ensures |out| <= n && forall i :: 0 <= i < |out| ==> out[i] == Normalised(msgs[i]) && Arrives(msgs[i], out[i])
    ensures |out| == n ==> fd.incoming == []
    ensures NoFailure(old(fd.script)) ==> |out| == n
  {
    hide Carries, Normalised, Arrives;
    out := [];
    assert msgs[0..] == msgs;
    while |out| < n
      invariant |out| <= n && Carries(compress, fd.incoming, msgs[|out|..])
      invariant forall i :: 0 <= i < |out| ==> out[i] == Normalised(msgs[i]) && Arrives(msgs[i], out[i])
      invariant NoFailure(old(fd.script)) ==> NoFailure(fd.script)
    {
      ghost var full := fd.incoming;
      var res, msg, left := ReadMessage(fd, compress, full, msgs[|out|..]);
      if res <= 0 { return; }
      assert fd.incoming == left && msgs[|out|..][1..] == msgs[|out| + 1..];
      out := out + [msg.value];
    }
    assert msgs[n..] == [];
    CarriesNothing(compress, fd.incoming);
  }

  lemma CarriesNothing(compress: bool, stream: seq<Byte>)
    requires Carries(compress, stream, [])
    ensures stream == []
  {
  }

  /** A list of messages goes through a connection: however writes and reads are split, when neither end fails the same
      list comes out, with its empty fields null, and no byte is left over. */
  method Exchange(msgs: seq<Message>, compress: bool, departures: seq<Outcome>, arrivals: seq<Outcome>)
    returns (out: seq<Message>, unread: seq<Byte>)
    requires forall i :: 0 <= i < |msgs| ==> Sendable(compress, msgs[i])
    ensures |out| <= |msgs| && forall i :: 0 <= i < |out| ==> Arrives(msgs[i], out[i])
    ensures forall i :: 0 <= i < |out| ==> out[i] == Normalised(msgs[i])
    ensures |out| == |msgs| ==> unread == []
    ensures NoFailure(departures) && NoFailure(arrivals) ==> |out| == |msgs|
  {
    hide Sendable, Normalised, Arrives;
    var sender := new Connection([], departures);
    var count := WriteAll(sender, msgs, compress, []);
    if count < |msgs| { return [], sender.outgoing; }
    assert [] + msgs == msgs;
    var receiver := new Connection(sender.outgoing, arrivals);
    out := ReadAll(receiver, |msgs|, compress, msgs);
    unread := receiver.incoming;
  }
}
