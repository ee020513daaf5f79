/** The layout of a message: fixed fields, then one table entry per file, then the raw bytes the entries point into by
    offset (common/src/net.c:39-400, 514-566). */
module NetFormat {
  import opened Bits
  import opened CircQueue
  import opened Protocol

  const UID_SIZE: nat := 16
  const INT_SIZE: nat := 4
  const SIZE_T_SIZE: nat := 8
  const ENTRY_SIZE: nat := 32

  // ---------------------------------------------------------------- numbers in memory

  function Pow256(n: nat): (p: nat)
    ensures p >= 1
  {
    if n == 0 then 1 else 256 * Pow256(n - 1)
  }

  /** The n low bytes of a number, lowest first. */
  function LittleEndian(v: nat, n: nat): (s: seq<Byte>)
    ensures |s| == n
  {
    if n == 0 then [] else [v % 256] + LittleEndian(v / 256, n - 1)
  }

  function FromLittleEndian(s: seq<Byte>): (v: nat)
    ensures v < Pow256(|s|)
  {
    if s == [] then 0 else s[0] + 256 * FromLittleEndian(s[1..])
  }

  lemma {:induction false} NumberRoundTrip(v: nat, n: nat)
    requires v < Pow256(n)
    ensures FromLittleEndian(LittleEndian(v, n)) == v
  {
    if n > 0 {
      NumberRoundTrip(v / 256, n - 1);
    }
  }

  /** The byte at place i counts 256^i: the lowest byte comes first. */
  lemma {:induction false} LowestFirst(v: nat, n: nat, i: nat)
    requires i < n
    ensures LittleEndian(v, n)[i] == v / Pow256(i) % 256
  {
    if i > 0 {
      LowestFirst(v / 256, n - 1, i - 1);
      DivideTwice(v, Pow256(i - 1));
    }
  }

  lemma DivideTwice(v: nat, p: nat)
    requires p >= 1
    ensures v / 256 / p == v / (256 * p)
  {
    var a, b := v / 256 / p, v / 256 % p;
    var c, d := v / (256 * p), v % (256 * p);
    assert v == 256 * (p * a + b) + v % 256 == (256 * p) * c + d;
    assert v == (256 * p) * a + (256 * b + v % 256) && 256 * b + v % 256 < 256 * p;
    SameQuotient(256 * p, a, 256 * b + v % 256, c, d);
  }

  lemma SameQuotient(m: nat, a: int, x: int, b: int, y: int)
    requires 0 <= x < m && 0 <= y < m && m * a + x == m * b + y
    ensures a == b
  {
    assert m * (a - b) == y - x;
    if a > b {
      Multiple(m, a - b);
    } else if a < b {
      Multiple(m, b - a);
    }
  }

  lemma Multiple(m: nat, n: nat)
    requires n >= 1
    ensures m * n >= m
  {
  }

  lemma Pow256Of8()
    ensures Pow256(8) == 0x1_0000_0000_0000_0000 && Pow256(4) == 0x1_0000_0000
  {
    assert Pow256(4) == 256 * (256 * (256 * (256 * Pow256(0))));
    assert Pow256(8) == 256 * (256 * (256 * (256 * Pow256(4))));
  }

  /** A size_t. */
  function SizeBytes(v: nat): (s: seq<Byte>)
    ensures |s| == SIZE_T_SIZE
  {
    LittleEndian(v, SIZE_T_SIZE)
  }

  /** An int, in two's complement. */
  function IntBytes(v: int): (s: seq<Byte>)
    requires INT_MIN <= v <= INT_MAX
    ensures |s| == INT_SIZE
  {
    LittleEndian(if v < 0 then v + 0x1_0000_0000 else v, INT_SIZE)
  }

  function SizeFrom(s: seq<Byte>): nat
    requires |s| == SIZE_T_SIZE
  {
    FromLittleEndian(s)
  }

  function IntFrom(s: seq<Byte>): (v: int)
    requires |s| == INT_SIZE
    ensures INT_MIN <= v <= INT_MAX
  {
    Pow256Of8();
    var w := FromLittleEndian(s);
    if w > INT_MAX then w - 0x1_0000_0000 else w
  }

  lemma SizeRoundTrip(v: nat)
    requires v < 0x1_0000_0000_0000_0000
    ensures SizeFrom(SizeBytes(v)) == v
  {
    Pow256Of8();
    NumberRoundTrip(v, 8);
  }

  lemma IntRoundTrip(v: int)
    requires INT_MIN <= v <= INT_MAX
    ensures IntFrom(IntBytes(v)) == v
  {
    Pow256Of8();
    NumberRoundTrip(if v < 0 then v + 0x1_0000_0000 else v, 4);
  }

  // ---------------------------------------------------------------- messages

  /** A pointer with a length: null, or some bytes. */
  datatype Buf = Null | Data(bytes: seq<Byte>)

  function BytesOf(b: Buf): seq<Byte> {
    if b.Null? then [] else b.bytes
  }

  /** What reading gives back for a field: null when it is empty. */
  function Normal(b: Buf): Buf {
    if BytesOf(b) == [] then Null else b
  }

  datatype MsgFile = MsgFile(filename: Buf, content: Buf)

  /** One constructor for each layout. `kind` is the type field where the layout does not fix it. */
  datatype Message =
    | Bare(uid: seq<Byte>, kind: int)
    | ReadNFiles(uid: seq<Byte>, flags: int)
    | FileRequest(uid: seq<Byte>, kind: int, flags: int, file: MsgFile)
    | Simple(uid: seq<Byte>, status: int)
    | WithFiles(uid: seq<Byte>, status: int, files: seq<MsgFile>)

  function KindOf(m: Message): int {
    match m
    case Bare(_, kind) => kind
    case ReadNFiles(_, _) => MSG_REQ_READ_N_FILES
    case FileRequest(_, kind, _, _) => kind
    case Simple(_, _) => MSG_RESP_SIMPLE
    case WithFiles(_, _, _) => MSG_RESP_WITH_FILES
  }

  predicate IsInt(v: int) {
    INT_MIN <= v <= INT_MAX
  }

  predicate IsBareKind(kind: int) {
    IsInt(kind) && !IsFileRequest(kind) && kind != MSG_REQ_READ_N_FILES && kind != MSG_RESP_SIMPLE
        && kind != MSG_RESP_WITH_FILES
  }

  /** Fields fit their C types and the type field fits the layout. */
  predicate WellTyped(m: Message) {
    && |m.uid| == UID_SIZE
    && match m
       case Bare(_, kind) => IsBareKind(kind)
       case ReadNFiles(_, flags) => IsInt(flags)
       case FileRequest(_, kind, flags, _) => IsFileRequest(kind) && IsInt(flags)
       case Simple(_, status) => IsInt(status)
       case WithFiles(_, status, files) => IsInt(status) && |files| <= INT_MAX
  }

  function NormalFile(f: MsgFile): MsgFile {
    MsgFile(Normal(f.filename), Normal(f.content))
  }

  function NormalFiles(files: seq<MsgFile>): (r: seq<MsgFile>)
    ensures |r| == |files|
  {
    if files == [] then [] else [NormalFile(files[0])] + NormalFiles(files[1..])
  }

  /** The message with its empty fields null. */
  function Normalised(m: Message): Message {
    match m
    case FileRequest(uid, kind, flags, file) => FileRequest(uid, kind, flags, NormalFile(file))
    case WithFiles(uid, status, files) => WithFiles(uid, status, NormalFiles(files))
    case _ => m
  }

  // ---------------------------------------------------------------- the same message

  /** The same name and the same content. */
  ghost predicate SameFile(f: MsgFile, g: MsgFile) {
    BytesOf(g.filename) == BytesOf(f.filename) && BytesOf(g.content) == BytesOf(f.content)
  }

  /** The same kind of message with the same numbers and, file by file, the same name and the same content. */
  ghost predicate SameBytes(m: Message, n: Message) {
    match m
    case Bare(uid, kind) => n == Bare(uid, kind)
    case ReadNFiles(uid, flags) => n == ReadNFiles(uid, flags)
    case FileRequest(uid, kind, flags, file) =>
      n.FileRequest? && n.uid == uid && n.kind == kind && n.flags == flags && SameFile(file, n.file)
    case Simple(uid, status) => n == Simple(uid, status)
    case WithFiles(uid, status, files) =>
      && n.WithFiles? && n.uid == uid && n.status == status && |n.files| == |files|
      && forall i :: 0 <= i < |files| ==> SameFile(files[i], n.files[i])
  }

  /** A field is null exactly when it has no bytes. */
  ghost predicate NullIfEmpty(f: MsgFile) {
    && (f.filename.Null? <==> BytesOf(f.filename) == [])
    && (f.content.Null? <==> BytesOf(f.content) == [])
  }

  ghost predicate EmptyAreNull(m: Message) {
    && (m.FileRequest? ==> NullIfEmpty(m.file))
    && (m.WithFiles? ==> forall i :: 0 <= i < |m.files| ==> NullIfEmpty(m.files[i]))
  }

  /** What arrives of a message: the same bytes in the same fields, and null for every field without bytes. */
  ghost predicate Arrives(sent: Message, got: Message) {
    SameBytes(sent, got) && EmptyAreNull(got)
  }

  lemma {:induction false} NormalFilesAt(files: seq<MsgFile>, i: nat)
    requires i < |files|
    ensures NormalFiles(files)[i] == NormalFile(files[i])
  {
    hide NormalFile;
    if i > 0 {
      NormalFilesAt(files[1..], i - 1);
    }
  }

  lemma NormalFileIsSame(f: MsgFile)
    ensures SameFile(f, NormalFile(f)) && NullIfEmpty(NormalFile(f))
  {
  }

  lemma NormalisedArrives(m: Message)
    ensures Arrives(m, Normalised(m))
  {
    hide NormalFile, SameFile, NullIfEmpty;
    match m {
      case FileRequest(_, _, _, file) => NormalFileIsSame(file);
      case WithFiles(_, _, files) =>
        forall i | 0 <= i < |files|
          ensures SameFile(files[i], NormalFiles(files)[i]) && NullIfEmpty(NormalFiles(files)[i])
        {
          NormalFilesAt(files, i);
          NormalFileIsSame(files[i]);
        }
      case _ =>
    }
  }

  /** Two messages that are one with their empty fields null have the same bytes. */
  lemma SameWhenNormalised(m: Message, n: Message)
    requires Normalised(m) == Normalised(n)
    ensures SameBytes(m, n)
  {
    NormalisedArrives(m);
    NormalisedArrives(n);
    hide NormalFile, NormalFiles;
  }

  lemma SameFields(f: MsgFile, g: MsgFile)
    requires SameFile(f, g) && NullIfEmpty(f) && NullIfEmpty(g)
    ensures f == g
  {
  }

  /** A message without empty fields that are not null arrives as it was sent. */
  lemma ArrivesWhole(sent: Message, got: Message)
    requires Arrives(sent, got) && EmptyAreNull(sent)
    ensures got == sent
  {
    hide SameFile, NullIfEmpty;
    match sent {
      case FileRequest(_, _, _, file) => SameFields(file, got.file);
      case WithFiles(_, _, files) =>
        forall i | 0 <= i < |files|
          ensures files[i] == got.files[i]
        {
          SameFields(files[i], got.files[i]);
        }
        assert files == got.files;
      case _ =>
    }
  }

  // ---------------------------------------------------------------- writing

  function Raw(f: MsgFile): seq<Byte> {
    BytesOf(f.filename) + BytesOf(f.content)
  }

  function AllRaw(files: seq<MsgFile>): seq<Byte> {
    if files == [] then [] else Raw(files[0]) + AllRaw(files[1..])
  }

  /** The table entry of a file whose bytes start at this offset of the raw region. */
  function EntryBytes(f: MsgFile, offset: nat): (s: seq<Byte>)
    ensures |s| == ENTRY_SIZE
  {
    SizeBytes(|BytesOf(f.filename)|) + SizeBytes(offset)
    + SizeBytes(|BytesOf(f.content)|) + SizeBytes(offset + |BytesOf(f.filename)|)
  }

  function Entries(files: seq<MsgFile>, offset: nat): (s: seq<Byte>)
    ensures |s| == ENTRY_SIZE * |files|
  {
    if files == [] then [] else EntryBytes(files[0], offset) + Entries(files[1..], offset + |Raw(files[0])|)
  }

  function Body(m: Message): seq<Byte>
    requires WellTyped(m)
  {
    match m
    case Bare(_, _) => []
    case ReadNFiles(_, flags) => IntBytes(flags)
    case FileRequest(_, _, flags, file) => IntBytes(flags) + EntryBytes(file, 0) + Raw(file)
    case Simple(_, status) => IntBytes(status)
    case WithFiles(_, status, files) => IntBytes(status) + IntBytes(|files|) + Entries(files, 0) + AllRaw(files)
  }

  lemma KindIsInt(m: Message)
    requires WellTyped(m)
    ensures IsInt(KindOf(m))
  {
  }

  function Encode(m: Message): seq<Byte>
    requires WellTyped(m)
  {
    KindIsInt(m);
    m.uid + IntBytes(KindOf(m)) + Body(m)
  }

  // ---------------------------------------------------------------- reading

  function SizeAt(s: seq<Byte>, p: nat): nat
    requires p + SIZE_T_SIZE <= |s|
  {
    SizeFrom(s[p..p + SIZE_T_SIZE])
  }

  function IntAt(s: seq<Byte>, p: nat): (v: int)
    requires p + INT_SIZE <= |s|
    ensures IsInt(v)
  {
    IntFrom(s[p..p + INT_SIZE])
  }

  /** convertOffsetToPtr, and the bytes found there; nothing when they are not inside the raw region. */
  function Resolve(raw: seq<Byte>, len: nat, offset: nat): Option<Buf> {
    if len == 0 then Some(Null)
    else if offset + len <= |raw| then Some(Data(raw[offset..offset + len]))
    else None
  }

  function DecodeFile(entry: seq<Byte>, raw: seq<Byte>): Option<MsgFile>
    requires |entry| == ENTRY_SIZE
  {
    var name := Resolve(raw, SizeAt(entry, 0), SizeAt(entry, 8));
    var content := Resolve(raw, SizeAt(entry, 16), SizeAt(entry, 24));
    if name.Some? && content.Some? then Some(MsgFile(name.value, content.value)) else None
  }

  function DecodeFiles(table: seq<Byte>, n: nat, raw: seq<Byte>): (r: Option<seq<MsgFile>>)
    requires |table| == ENTRY_SIZE * n
    ensures r.Some? ==> |r.value| == n
  {
    if n == 0 then Some([])
    else
      var first := DecodeFile(table[..ENTRY_SIZE], raw);
      var rest := DecodeFiles(table[ENTRY_SIZE..], n - 1, raw);
      if first.Some? && rest.Some? then Some([first.value] + rest.value) else None
  }

  /** The message in a payload, if it is laid out as writing lays it out. */
  function Decode(payload: seq<Byte>): Option<Message> {
    if |payload| < 20 then None
    else
      var uid, kind, size := payload[..UID_SIZE], IntAt(payload, 16), |payload|;
      if kind == MSG_REQ_READ_N_FILES then
        if size < 24 then None else Some(ReadNFiles(uid, IntAt(payload, 20)))
      else if IsFileRequest(kind) then
        if size < 56 then None
        else
          var file := DecodeFile(payload[24..56], payload[56..]);
          if file.Some? then Some(FileRequest(uid, kind, IntAt(payload, 20), file.value)) else None
      else if kind == MSG_RESP_SIMPLE then
        if size < 24 then None else Some(Simple(uid, IntAt(payload, 20)))
      else if kind == MSG_RESP_WITH_FILES then
        if size < 28 then None
        else
          var n := IntAt(payload, 24);
          if n < 0 || size < 28 + ENTRY_SIZE * n then None
          else
            var files := DecodeFiles(payload[28..28 + ENTRY_SIZE * n], n, payload[28 + ENTRY_SIZE * n..]);
            if files.Some? then Some(WithFiles(uid, IntAt(payload, 20), files.value)) else None
      else Some(Bare(uid, kind))
  }

  // ---------------------------------------------------------------- round trip

  lemma EntryFields(f: MsgFile, offset: nat)
    requires offset + |Raw(f)| < 0x1_0000_0000_0000_0000
    ensures var e := EntryBytes(f, offset);
            && SizeAt(e, 0) == |BytesOf(f.filename)| && SizeAt(e, 8) == offset
            && SizeAt(e, 16) == |BytesOf(f.content)| && SizeAt(e, 24) == offset + |BytesOf(f.filename)|
  {
    hide SizeBytes, SizeFrom;
    var e := EntryBytes(f, offset);
    var a, b := SizeBytes(|BytesOf(f.filename)|), SizeBytes(offset);
    var c, d := SizeBytes(|BytesOf(f.content)|), SizeBytes(offset + |BytesOf(f.filename)|);
    assert e == a + b + c + d;
    assert e[0..8] == a && e[8..16] == b && e[16..24] == c && e[24..32] == d;
    SizeRoundTrip(|BytesOf(f.filename)|);
    SizeRoundTrip(offset);
    SizeRoundTrip(|BytesOf(f.content)|);
    SizeRoundTrip(offset + |BytesOf(f.filename)|);
  }

  /** An entry finds its own bytes in the raw region. */
  lemma FileRoundTrip(f: MsgFile, before: seq<Byte>, after: seq<Byte>)
    requires |before| + |Raw(f)| < 0x1_0000_0000_0000_0000
    ensures DecodeFile(EntryBytes(f, |before|), before + Raw(f) + after) == Some(NormalFile(f))
    ensures SameFile(f, NormalFile(f)) && NullIfEmpty(NormalFile(f))
  {
    NormalFileIsSame(f);
    hide SizeAt, EntryBytes, SameFile, NullIfEmpty;
    EntryFields(f, |before|);
    var raw, name, content := before + Raw(f) + after, BytesOf(f.filename), BytesOf(f.content);
    assert raw[|before|..|before| + |name|] == name;
    assert raw[|before| + |name|..|before| + |name| + |content|] == content;
  }

  lemma {:induction false} FilesRoundTrip(files: seq<MsgFile>, before: seq<Byte>)
    requires |before| + |AllRaw(files)| < 0x1_0000_0000_0000_0000
    ensures DecodeFiles(Entries(files, |before|), |files|, before + AllRaw(files)) == Some(NormalFiles(files))
    ensures forall i :: 0 <= i < |files| ==>
              SameFile(files[i], NormalFiles(files)[i]) && NullIfEmpty(NormalFiles(files)[i])
  {
    hide DecodeFile, EntryBytes, NormalFile, Raw, SameFile, NullIfEmpty;
    if files != [] {
      var f, rest := files[0], files[1..];
      FileRoundTrip(f, before, AllRaw(rest));
      FilesRoundTrip(rest, before + Raw(f));
      var table := Entries(files, |before|);
      assert table[..ENTRY_SIZE] == EntryBytes(f, |before|);
      assert table[ENTRY_SIZE..] == Entries(rest, |before| + |Raw(f)|);
      assert before + AllRaw(files) == before + Raw(f) + AllRaw(rest);
    }
  }

  /** The fields every message starts with. */
  lemma Prefix(uid: seq<Byte>, kind: int, body: seq<Byte>, payload: seq<Byte>)
    requires |uid| == UID_SIZE && IsInt(kind) && payload == uid + IntBytes(kind) + body
    ensures |payload| == 20 + |body| && payload[..UID_SIZE] == uid && IntAt(payload, 16) == kind
            && payload[20..] == body
  {
    hide IntBytes, IntFrom;
    assert payload[16..20] == IntBytes(kind);
    IntRoundTrip(kind);
  }

  lemma IntInside(payload: seq<Byte>, p: nat, v: int)
    requires IsInt(v) && p + INT_SIZE <= |payload| && payload[p..p + INT_SIZE] == IntBytes(v)
    ensures IntAt(payload, p) == v
  {
    IntRoundTrip(v);
  }

  lemma SimpleRoundTrip(uid: seq<Byte>, kind: int, v: int)
    requires |uid| == UID_SIZE && IsInt(kind) && IsInt(v)
    ensures var payload := uid + IntBytes(kind) + IntBytes(v);
            |payload| == 24 && IntAt(payload, 16) == kind && IntAt(payload, 20) == v && payload[..UID_SIZE] == uid
  {
    hide IntBytes, IntAt;
    var payload := uid + IntBytes(kind) + IntBytes(v);
    Prefix(uid, kind, IntBytes(v), payload);
    assert payload[20..24] == payload[20..] == IntBytes(v);
    IntInside(payload, 20, v);
  }

  lemma PartsOfFour(a: seq<Byte>, b: seq<Byte>, c: seq<Byte>, d: seq<Byte>)
    ensures var s := a + b + c + d;
            && s[..|a|] == a && s[|a|..|a| + |b|] == b && s[|a| + |b|..|a| + |b| + |c|] == c
            && s[|a| + |b| + |c|..] == d
  {
  }

  lemma Behind(payload: seq<Byte>, body: seq<Byte>, i: nat, j: nat)
    requires |payload| == 20 + |body| && payload[20..] == body && i <= j <= |body|
    ensures payload[20 + i..20 + j] == body[i..j] && payload[20 + j..] == body[j..]
  {
  }

  /** Where a request's fields are. */
  lemma RequestLayout(uid: seq<Byte>, kind: int, flags: int, f: MsgFile)
    requires |uid| == UID_SIZE && IsFileRequest(kind) && IsInt(flags)
    ensures var payload := Encode(FileRequest(uid, kind, flags, f));
            && |payload| == 56 + |Raw(f)| && payload[..UID_SIZE] == uid
            && IntAt(payload, 16) == kind && IntAt(payload, 20) == flags
            && payload[24..56] == EntryBytes(f, 0) && payload[56..] == Raw(f)
  {
    var payload, body := Encode(FileRequest(uid, kind, flags, f)), IntBytes(flags) + EntryBytes(f, 0) + Raw(f);
    hide IntBytes, IntAt, EntryBytes, Raw;
    assert payload == uid + IntBytes(kind) + body && body == [] + IntBytes(flags) + EntryBytes(f, 0) + Raw(f);
    Prefix(uid, kind, body, payload);
    PartsOfFour([], IntBytes(flags), EntryBytes(f, 0), Raw(f));
    Behind(payload, body, 0, 4);
    Behind(payload, body, 4, 36);
    IntInside(payload, 20, flags);
  }

  lemma RequestRoundTrip(uid: seq<Byte>, kind: int, flags: int, f: MsgFile)
    requires |uid| == UID_SIZE && IsFileRequest(kind) && IsInt(flags) && |Raw(f)| < 0x1_0000_0000_0000_0000
    ensures var m := FileRequest(uid, kind, flags, f);
            WellTyped(m) && Decode(Encode(m)) == Some(Normalised(m))
  {
    hide Encode, IntAt, EntryBytes, DecodeFile, Raw, NormalFile;
    RequestLayout(uid, kind, flags, f);
    FileRoundTrip(f, [], []);
    assert [] + Raw(f) + [] == Raw(f);
  }

  lemma TableLayout(uid: seq<Byte>, kind: int, v: int, n: int, table: seq<Byte>, raw: seq<Byte>)
    requires |uid| == UID_SIZE && IsInt(kind) && IsInt(v) && IsInt(n)
    ensures var payload, t := uid + IntBytes(kind) + (IntBytes(v) + IntBytes(n) + table + raw), |table|;
            && |payload| == 28 + t + |raw| && payload[..UID_SIZE] == uid
            && IntAt(payload, 16) == kind && IntAt(payload, 20) == v && IntAt(payload, 24) == n
            && payload[28..28 + t] == table && payload[28 + t..] == raw
  {
    hide IntBytes, IntAt;
    var body := IntBytes(v) + IntBytes(n) + table + raw;
    var payload := uid + IntBytes(kind) + body;
    Prefix(uid, kind, body, payload);
    PartsOfFour(IntBytes(v), IntBytes(n), table, raw);
    Behind(payload, body, 0, 4);
    Behind(payload, body, 4, 8);
    Behind(payload, body, 8, 8 + |table|);
    IntInside(payload, 20, v);
    IntInside(payload, 24, n);
  }

  /** Where the fields of an answer with files are. */
  lemma WithFilesLayout(uid: seq<Byte>, status: int, files: seq<MsgFile>)
    requires |uid| == UID_SIZE && IsInt(status) && |files| <= INT_MAX
    ensures var payload, t := Encode(WithFiles(uid, status, files)), |Entries(files, 0)|;
            && |payload| == 28 + t + |AllRaw(files)| && payload[..UID_SIZE] == uid
            && IntAt(payload, 16) == MSG_RESP_WITH_FILES && IntAt(payload, 20) == status
            && IntAt(payload, 24) == |files|
            && payload[28..28 + t] == Entries(files, 0) && payload[28 + t..] == AllRaw(files)
  {
    hide IntBytes, IntAt, Entries, AllRaw;
    TableLayout(uid, MSG_RESP_WITH_FILES, status, |files|, Entries(files, 0), AllRaw(files));
  }

  lemma WithFilesRoundTrip(uid: seq<Byte>, status: int, files: seq<MsgFile>)
    requires |uid| == UID_SIZE && IsInt(status) && |files| <= INT_MAX && |AllRaw(files)| < 0x1_0000_0000_0000_0000
    ensures var m := WithFiles(uid, status, files);
            WellTyped(m) && Decode(Encode(m)) == Some(Normalised(m))
  {
    hide Encode, IntAt, Entries, DecodeFiles, AllRaw, NormalFiles;
    WithFilesLayout(uid, status, files);
    FilesRoundTrip(files, []);
    assert [] + AllRaw(files) == AllRaw(files);
  }

  /** Whatever is written is read back as the same message, with its empty fields null. */
  lemma DecodeEncode(m: Message)
    requires WellTyped(m) && |Encode(m)| < 0x1_0000_0000_0000_0000
    ensures Decode(Encode(m)) == Some(Normalised(m)) && Arrives(m, Normalised(m))
  {
    NormalisedArrives(m);
    hide Arrives;
    match m {
      case Bare(uid, kind) =>
        assert Encode(m) == uid + IntBytes(kind) + [];
        Prefix(uid, kind, [], Encode(m));
      case ReadNFiles(uid, flags) => SimpleRoundTrip(uid, MSG_REQ_READ_N_FILES, flags);
      case FileRequest(uid, kind, flags, f) => RequestRoundTrip(uid, kind, flags, f);
      case Simple(uid, status) => SimpleRoundTrip(uid, MSG_RESP_SIMPLE, status);
      case WithFiles(uid, status, files) => WithFilesRoundTrip(uid, status, files);
    }
  }

  /** So the bytes determine the message, up to whether empty fields are null. */
  lemma EncodingIsUnique(m: Message, n: Message)
    requires WellTyped(m) && WellTyped(n) && Encode(m) == Encode(n) && |Encode(m)| < 0x1_0000_0000_0000_0000
    ensures Normalised(m) == Normalised(n) && SameBytes(m, n)
  {
    hide Encode, Normalised, SameBytes;
    DecodeEncode(m);
    DecodeEncode(n);
    SameWhenNormalised(m, n);
  }

  // ---------------------------------------------------------------- offsets

  /** Where the bytes of file i start. */
  function Start(files: seq<MsgFile>, i: nat): nat
    requires i <= |files|
  {
    |AllRaw(files[..i])|
  }

  lemma {:induction false} AllRawConcat(a: seq<MsgFile>, b: seq<MsgFile>)
    ensures AllRaw(a + b) == AllRaw(a) + AllRaw(b)
  {
    if a == [] {
      assert a + b == b;
    } else {
      assert (a + b)[1..] == a[1..] + b;
      AllRawConcat(a[1..], b);
    }
  }

  lemma {:induction false} EntryOf(files: seq<MsgFile>, offset: nat, i: nat)
    requires i < |files|
    ensures Entries(files, offset)[ENTRY_SIZE * i..ENTRY_SIZE * (i + 1)]
            == EntryBytes(files[i], offset + Start(files, i))
  {
    hide EntryBytes, Raw;
    var table := Entries(files, offset);
    if i == 0 {
      assert files[..0] == [];
    } else {
      var rest := Entries(files[1..], offset + |Raw(files[0])|);
      EntryOf(files[1..], offset + |Raw(files[0])|, i - 1);
      assert table[ENTRY_SIZE * i..ENTRY_SIZE * (i + 1)] == rest[ENTRY_SIZE * (i - 1)..ENTRY_SIZE * i];
      assert files[..i][1..] == files[1..][..i - 1];
    }
  }

  lemma AllRawOfOne(f: MsgFile)
    ensures AllRaw([]) == [] && AllRaw([f]) == Raw(f)
  {
    assert [f][1..] == [];
  }

  lemma RawOf(files: seq<MsgFile>, i: nat)
    requires i < |files|
    ensures AllRaw(files) == AllRaw(files[..i]) + Raw(files[i]) + AllRaw(files[i + 1..])
    ensures Start(files, i + 1) == Start(files, i) + |Raw(files[i])| <= |AllRaw(files)|
    ensures Start(files, 0) == 0 && Start(files, |files|) == |AllRaw(files)|
  {
    hide Raw, AllRaw;
    var f := [files[i]];
    assert files == files[..i] + f + files[i + 1..] && files[..i + 1] == files[..i] + f;
    assert files[..0] == [] && files[..|files|] == files;
    AllRawConcat(files[..i] + f, files[i + 1..]);
    AllRawConcat(files[..i], f);
    AllRawOfOne(files[i]);
  }

  /** The offsets in the table tile the raw region: the first file starts at 0, each name ends where its content
      starts, each content ends where the next name starts, the last one ends with the region, and each stretch
      holds the bytes of its field. */
  lemma OffsetsTile(files: seq<MsgFile>, i: nat)
    requires i < |files| && |AllRaw(files)| < 0x1_0000_0000_0000_0000
    ensures var entry := Entries(files, 0)[ENTRY_SIZE * i..ENTRY_SIZE * (i + 1)];
            var name, content := BytesOf(files[i].filename), BytesOf(files[i].content);
            var p, q := SizeAt(entry, 8), SizeAt(entry, 24);
            && p == Start(files, i) && q == p + |name| && q + |content| == Start(files, i + 1) <= |AllRaw(files)|
            && AllRaw(files)[p..q] == name && AllRaw(files)[q..q + |content|] == content
    ensures Start(files, 0) == 0 && Start(files, |files|) == |AllRaw(files)|
  {
    hide EntryBytes, SizeAt, AllRaw, Start, Entries;
    RawOf(files, i);
    EntryOf(files, 0, i);
    EntryFields(files[i], Start(files, i));
    Slices(AllRaw(files[..i]), BytesOf(files[i].filename), BytesOf(files[i].content), AllRaw(files[i + 1..]));
    assert |AllRaw(files[..i])| == Start(files, i) by { StartIs(files, i); }
  }

  lemma StartIs(files: seq<MsgFile>, i: nat)
    requires i <= |files|
    ensures |AllRaw(files[..i])| == Start(files, i)
  {
  }

  lemma Slices(a: seq<Byte>, b: seq<Byte>, c: seq<Byte>, d: seq<Byte>)
    ensures var s := a + (b + c) + d;
            s[|a|..|a| + |b|] == b && s[|a| + |b|..|a| + |b| + |c|] == c
  {
  }
}
