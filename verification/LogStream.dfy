/** The structured log: entries encoded one after the other, and the reader that stops at the
    padding behind them. */
module LogStream {
  import opened Bincode
  import opened MachineInts

  type Value(==, !new)

  datatype Level = Debug | Info | Warning | Error | Critical

  datatype CuLogEntry = CuLogEntry(time: U64, level: Level, msgIndex: U32, names: seq<U32>, params: seq<Value>)

  datatype Formats = Formats(u8: Format<U8>, u32: Format<U32>, u64: Format<U64>, value: Format<Value>)

  ghost predicate Sound(fs: Formats) {
    PrefixCode(fs.u8) && PrefixCode(fs.u32) && PrefixCode(fs.u64) && PrefixCode(fs.value)
  }

  ghost predicate Padded(fs: Formats) {
    ReadsPadding(fs.u8, 0) && ReadsPadding(fs.u32, 0) && ReadsPadding(fs.u64, 0)
  }

  /** The lengths of both lists fit their prefix. */
  ghost predicate Writable(entry: CuLogEntry) {
    |entry.names| < U64_SIZE && |entry.params| < U64_SIZE
  }

  function LevelByte(level: Level): U8 {
    match level
    case Debug => 0
    case Info => 1
    case Warning => 2
    case Error => 3
    case Critical => 4
  }

  /** Anything above 4 counts as Debug. */
  function LevelOf(raw: U8): Level {
    match raw
    case 1 => Info
    case 2 => Warning
    case 3 => Error
    case 4 => Critical
    case _ => Debug
  }

  /** Every level has a byte of its own, from 0 in order of severity, and every other byte reads as
      the lowest level. */
  lemma LevelsReadBack(level: Level, raw: U8)
    ensures LevelOf(LevelByte(level)) == level
    ensures LevelByte(LevelOf(raw)) == if raw <= 4 then raw else 0
    ensures LevelByte(Debug) < LevelByte(Info) < LevelByte(Warning) < LevelByte(Error) < LevelByte(Critical) <= 4
  {
  }

  // ---------------------------------------------------------------- the format

  /** A list: its length, then its items. */
  function PutList<T>(fs: Formats, f: Format<T>, xs: seq<T>): Bytes
    requires |xs| < U64_SIZE
  {
    fs.u64.put(|xs|) + PutAll(f, xs)
  }

  function GetList<T>(fs: Formats, f: Format<T>, bytes: Bytes): Decoded<seq<T>> {
    match fs.u64.get(bytes)
    case Read(n, rest) => GetMany(f, n, rest)
    case UnexpectedEnd => UnexpectedEnd
    case Invalid => Invalid
  }

  function PutHead(fs: Formats, entry: CuLogEntry): Bytes {
    fs.u64.put(entry.time) + (fs.u8.put(LevelByte(entry.level)) + fs.u32.put(entry.msgIndex))
  }

  function PutEntry(fs: Formats, entry: CuLogEntry): Bytes
    requires Writable(entry)
  {
    PutHead(fs, entry) + (PutList(fs, fs.u32, entry.names) + PutList(fs, fs.value, entry.params))
  }

  function GetHead(fs: Formats, bytes: Bytes): Decoded<CuLogEntry> {
    match fs.u64.get(bytes)
    case UnexpectedEnd => UnexpectedEnd
    case Invalid => Invalid
    case Read(time, rest) =>
      match fs.u8.get(rest)
      case UnexpectedEnd => UnexpectedEnd
      case Invalid => Invalid
      case Read(level, rest) =>
        match fs.u32.get(rest)
        case UnexpectedEnd => UnexpectedEnd
        case Invalid => Invalid
        case Read(msgIndex, rest) => Read(CuLogEntry(time, LevelOf(level), msgIndex, [], []), rest)
  }

  function GetEntry(fs: Formats, bytes: Bytes): Decoded<CuLogEntry> {
    match GetHead(fs, bytes)
    case UnexpectedEnd => UnexpectedEnd
    case Invalid => Invalid
    case Read(head, rest) =>
      match GetList(fs, fs.u32, rest)
      case UnexpectedEnd => UnexpectedEnd
      case Invalid => Invalid
      case Read(names, rest) =>
        match GetList(fs, fs.value, rest)
        case UnexpectedEnd => UnexpectedEnd
        case Invalid => Invalid
        case Read(params, rest) => Read(head.(names := names, params := params), rest)
  }

  /** How a log ends: with padding or the end of the data, or at something unreadable. */
  datatype Ending = AtEnd | AtError

  datatype Log = Log(entries: seq<CuLogEntry>, ending: Ending)

  /** What the reader yields for these bytes. */
  function ReadLog(fs: Formats, bytes: Bytes): Log
    requires forall b :: EntryConsumes(fs, b)
    decreases |bytes|
  {
    assert EntryConsumes(fs, bytes);
    match GetEntry(fs, bytes)
    case UnexpectedEnd => Log([], AtEnd)
    case Invalid => Log([], AtError)
    case Read(entry, rest) =>
      if entry.msgIndex == 0 then Log([], AtEnd)
      else
        var log := ReadLog(fs, rest);
        Log([entry] + log.entries, log.ending)
  }

  predicate EntryConsumes(fs: Formats, bytes: Bytes) {
    match GetEntry(fs, bytes)
    case Read(_, rest) => |rest| < |bytes|
    case _ => true
  }

  // ---------------------------------------------------------------- round trips

  lemma HeadReadsBack(fs: Formats, entry: CuLogEntry, rest: Bytes)
    requires Sound(fs)
    ensures GetHead(fs, PutHead(fs, entry) + rest) ==
            Read(CuLogEntry(entry.time, entry.level, entry.msgIndex, [], []), rest)
  {
    var time, level, index := fs.u64.put(entry.time), fs.u8.put(LevelByte(entry.level)), fs.u32.put(entry.msgIndex);
    assert PutHead(fs, entry) + rest == time + (level + (index + rest));
    assert ReadsBack(fs.u64, entry.time, level + (index + rest));
    assert ReadsBack(fs.u8, LevelByte(entry.level), index + rest);
    assert ReadsBack(fs.u32, entry.msgIndex, rest);
  }

  lemma ListReadsBack<T(!new)>(fs: Formats, f: Format<T>, xs: seq<T>, rest: Bytes)
    requires Sound(fs) && PrefixCode(f) && |xs| < U64_SIZE
    ensures GetList(fs, f, PutList(fs, f, xs) + rest) == Read(xs, rest)
  {
    assert PutList(fs, f, xs) + rest == fs.u64.put(|xs|) + (PutAll(f, xs) + rest);
    assert ReadsBack(fs.u64, |xs|, PutAll(f, xs) + rest);
    ManyReadBack(f, xs, rest);
  }

  lemma EntryReadsBack(fs: Formats, entry: CuLogEntry, rest: Bytes)
    requires Sound(fs) && Writable(entry)
    ensures GetEntry(fs, PutEntry(fs, entry) + rest) == Read(entry, rest)
  {
    var head, names, params :=
      PutHead(fs, entry), PutList(fs, fs.u32, entry.names), PutList(fs, fs.value, entry.params);
    assert PutEntry(fs, entry) + rest == head + (names + (params + rest));
    HeadReadsBack(fs, entry, names + (params + rest));
    ListReadsBack(fs, fs.u32, entry.names, params + rest);
    ListReadsBack(fs, fs.value, entry.params, rest);
  }

  lemma EntriesConsume(fs: Formats, bytes: Bytes)
    requires Sound(fs)
    ensures EntryConsumes(fs, bytes)
  {
    assert Consumes(fs.u64, bytes);
    var head := GetHead(fs, bytes);
    if head.Read? {
      HeadConsumes(fs, bytes);
      ListConsumes(fs, fs.u32, head.rest);
      var names := GetList(fs, fs.u32, head.rest);
      if names.Read? { ListConsumes(fs, fs.value, names.rest); }
    }
  }

  lemma HeadConsumes(fs: Formats, bytes: Bytes)
    requires Sound(fs) && GetHead(fs, bytes).Read?
    ensures |GetHead(fs, bytes).rest| < |bytes|
  {
    assert Consumes(fs.u64, bytes);
    var time := fs.u64.get(bytes);
    assert Consumes(fs.u8, time.rest);
    assert Consumes(fs.u32, fs.u8.get(time.rest).rest);
  }

  lemma ListConsumes<T(!new)>(fs: Formats, f: Format<T>, bytes: Bytes)
    requires Sound(fs) && PrefixCode(f)
    ensures match GetList(fs, f, bytes)
            case Read(_, rest) => |rest| < |bytes|
            case _ => true
  {
    assert Consumes(fs.u64, bytes);
    var n := fs.u64.get(bytes);
    if n.Read? { ManyConsume(f, n.value, n.rest); }
  }

  function Zeros(n: nat): Bytes {
    if n == 0 then [] else [0] + Zeros(n - 1)
  }

  /** Padding holds no entry, however long it is. */
  lemma PaddingIsTheEnd(fs: Formats, n: nat)
    requires Sound(fs) && Padded(fs)
    ensures match GetEntry(fs, Zeros(n))
            case UnexpectedEnd => true
            case Invalid => false
            case Read(entry, _) => entry.msgIndex == 0
  {
    PaddedHead(fs, n);
    if n >= 4 {
      assert Zeros(n - 3) == [0] + Zeros(n - 4);
      assert GetList(fs, fs.u32, Zeros(n - 3)) == Read([], Zeros(n - 4));
      if n >= 5 { assert Zeros(n - 4) == [0] + Zeros(n - 5); }
    }
  }

  lemma PaddedHead(fs: Formats, n: nat)
    requires Padded(fs)
    ensures GetHead(fs, Zeros(n)) ==
            if n < 3 then UnexpectedEnd else Read(CuLogEntry(0, Debug, 0, [], []), Zeros(n - 3))
  {
    if n > 0 {
      assert fs.u64.get(Zeros(n)) == Read(0, Zeros(n - 1));
      if n > 1 {
        assert fs.u8.get(Zeros(n - 1)) == Read(0, Zeros(n - 2));
        if n > 2 { assert fs.u32.get(Zeros(n - 2)) == Read(0, Zeros(n - 3)); }
      }
    }
  }

  function PutLog(fs: Formats, entries: seq<CuLogEntry>): Bytes
    requires forall i :: 0 <= i < |entries| ==> Writable(entries[i])
  {
    if entries == [] then [] else PutEntry(fs, entries[0]) + PutLog(fs, entries[1..])
  }

  /** The entries before the first one whose message index is 0. */
  function BeforeZero(entries: seq<CuLogEntry>): seq<CuLogEntry> {
    if entries == [] || entries[0].msgIndex == 0 then [] else [entries[0]] + BeforeZero(entries[1..])
  }

  /** Reading a padded log yields its entries up to the first with message index 0. */
  lemma {:induction false} ReaderStopsAtIndexZero(fs: Formats, entries: seq<CuLogEntry>, padding: nat)
    requires Sound(fs) && Padded(fs) && forall b :: EntryConsumes(fs, b)
    requires forall i :: 0 <= i < |entries| ==> Writable(entries[i])
    ensures ReadLog(fs, PutLog(fs, entries) + Zeros(padding)) == Log(BeforeZero(entries), AtEnd)
  {
    if entries == [] {
      PaddingIsTheEnd(fs, padding);
      assert PutLog(fs, entries) + Zeros(padding) == Zeros(padding);
    } else {
      var rest := PutLog(fs, entries[1..]) + Zeros(padding);
      assert PutLog(fs, entries) + Zeros(padding) == PutEntry(fs, entries[0]) + rest;
      EntryReadsBack(fs, entries[0], rest);
      ReaderStopsAtIndexZero(fs, entries[1..], padding);
    }
  }

  lemma {:induction false} BeforeZeroIsAllIff(entries: seq<CuLogEntry>)
    ensures BeforeZero(entries) <= entries
    ensures BeforeZero(entries) == entries <==> forall i :: 0 <= i < |entries| ==> entries[i].msgIndex != 0
  {
    if entries != [] && entries[0].msgIndex != 0 {
      BeforeZeroIsAllIff(entries[1..]);
      assert entries == [entries[0]] + entries[1..];
      assert forall i :: 1 <= i < |entries| ==> entries[i] == entries[1..][i - 1];
    }
  }

  /** Encoding entries one after the other, padding with any number of zero bytes and reading the
      log gives the entries back, exactly if none of them has message index 0. */
  lemma LogRoundTrip(fs: Formats, entries: seq<CuLogEntry>, padding: nat)
    requires Sound(fs) && Padded(fs)
    requires forall i :: 0 <= i < |entries| ==> Writable(entries[i])
    ensures forall b :: EntryConsumes(fs, b)
    ensures ReadLog(fs, PutLog(fs, entries) + Zeros(padding)) == Log(entries, AtEnd) <==>
            forall i :: 0 <= i < |entries| ==> entries[i].msgIndex != 0
  {
    forall b
      ensures EntryConsumes(fs, b)
    {
      EntriesConsume(fs, b);
    }
    ReaderStopsAtIndexZero(fs, entries, padding);
    BeforeZeroIsAllIff(entries);
  }

  // ---------------------------------------------------------------- the code

  /** `Encode` for `CuLogEntry`. */
  method EncodeEntry(fs: Formats, entry: CuLogEntry) returns (bytes: Bytes)
    requires Writable(entry)
    ensures bytes == PutEntry(fs, entry)
  {
    bytes := fs.u64.put(entry.time);
    bytes := bytes + fs.u8.put(LevelByte(entry.level));
    bytes := bytes + fs.u32.put(entry.msgIndex);
    assert bytes == PutHead(fs, entry);
    bytes := bytes + fs.u64.put(|entry.names|);
    var names := WriteAll(fs.u32, entry.names);
    bytes := bytes + names;
    assert bytes == PutHead(fs, entry) + PutList(fs, fs.u32, entry.names);
    bytes := bytes + fs.u64.put(|entry.params|);
    var params := WriteAll(fs.value, entry.params);
    bytes := bytes + params;
  }

  /** The first three members, in order; the first that cannot be read ends it. */
  method ReadHead(fs: Formats, bytes: Bytes) returns (r: Decoded<CuLogEntry>)
    ensures r == GetHead(fs, bytes)
  {
    var time := fs.u64.get(bytes);
    if !time.Read? { return if time.Invalid? then Invalid else UnexpectedEnd; }
    var level := fs.u8.get(time.rest);
    if !level.Read? { return if level.Invalid? then Invalid else UnexpectedEnd; }
    var msgIndex := fs.u32.get(level.rest);
    if !msgIndex.Read? { return if msgIndex.Invalid? then Invalid else UnexpectedEnd; }
    return Read(CuLogEntry(time.value, LevelOf(level.value), msgIndex.value, [], []), msgIndex.rest);
  }

  /** `Decode` for `CuLogEntry`. */
  method DecodeEntry(fs: Formats, bytes: Bytes) returns (r: Decoded<CuLogEntry>)
    ensures r == GetEntry(fs, bytes)
  {
    var head := ReadHead(fs, bytes);
    if !head.Read? { return head; }
    var nameCount := fs.u64.get(head.rest);
    if !nameCount.Read? { return if nameCount.Invalid? then Invalid else UnexpectedEnd; }
    var names := ReadMany(fs.u32, nameCount.value, nameCount.rest);
    if !names.Read? { return if names.Invalid? then Invalid else UnexpectedEnd; }
    var paramCount := fs.u64.get(names.rest);
    if !paramCount.Read? { return if paramCount.Invalid? then Invalid else UnexpectedEnd; }
    var params := ReadMany(fs.value, paramCount.value, paramCount.rest);
    if !params.Read? { return if params.Invalid? then Invalid else UnexpectedEnd; }
    return Read(head.value.(names := names.value, params := params.value), params.rest);
  }

  /** `structlog_reader`, run to its end. */
  method StructlogReader(fs: Formats, bytes: Bytes) returns (entries: seq<CuLogEntry>, ending: Ending)
    requires Sound(fs) && forall b :: EntryConsumes(fs, b)
    ensures Log(entries, ending) == ReadLog(fs, bytes)
  {
    entries := [];
    var rest := bytes;
    while true
      invariant ReadLog(fs, bytes) == Log(entries + ReadLog(fs, rest).entries, ReadLog(fs, rest).ending)
      decreases |rest|
    {
      assert EntryConsumes(fs, rest);
      var next := DecodeEntry(fs, rest);
      if next.Invalid? { return entries, AtError; }
      if next.UnexpectedEnd? || next.value.msgIndex == 0 { return entries, AtEnd; }
      ghost var later := ReadLog(fs, next.rest).entries;
      assert entries + ([next.value] + later) == entries + [next.value] + later;
      entries, rest := entries + [next.value], next.rest;
    }
  }
}
