/**
  Request bodies kept in memory or in a temporary file, behind one interface,
  and the global counters of what is open.
*/
module BodyStorage {
  import opened Wrappers

  // ---- The interface, as a state machine over the body

  datatype Body = Body(data: seq<Byte>, pos: nat, closed: bool)

  datatype Op = Read(length: nat) | Seek(offset: int, whence: int) | Bytes | Size | Close

  datatype Reply = Data(bytes: seq<Byte>) | EndOfFile | Position(at: int) | Length(size: nat) | Invalid | StorageClosed | Done

  function Min(a: int, b: int): int {
    if a < b then a else b
  }

  /** The base that an offset counts from. */
  function Base(b: Body, whence: int): int {
    match whence
    case 0 => 0
    case 1 => b.pos
    case _ => |b.data|
  }

  function SeekStep(b: Body, offset: int, whence: int): (Body, Reply) {
    var at := Base(b, whence) + offset;
    if whence !in {0, 1, 2} || at < 0 then (b, Invalid) else (b.(pos := at), Position(at))
  }

  /** Seeking counts from the start, from the current position or from the end, and never to before the start. */
  predicate SeeksTo(b: Body, offset: int, whence: int, b': Body, r: Reply) {
    if b.closed then b' == b && r == StorageClosed
    else if whence == 0 && offset >= 0 then b' == b.(pos := offset) && r == Position(offset)
    else if whence == 1 && b.pos + offset >= 0 then b' == b.(pos := b.pos + offset) && r == Position(b.pos + offset)
    else if whence == 2 && |b.data| + offset >= 0 then b' == b.(pos := |b.data| + offset) && r == Position(|b.data| + offset)
    else b' == b && r == Invalid
  }

  /** Reading gives the next bytes, as many as asked for unless the data ends first, and moves on by them. */
  predicate ReadsOn(b: Body, n: nat, b': Body, r: Reply) {
    if b.closed then b' == b && r == StorageClosed
    else if r.Data? then
      && b' == b.(pos := b.pos + |r.bytes|) && |r.bytes| <= n && (r.bytes != [] ==> b'.pos <= |b.data| && r.bytes == b.data[b.pos..b'.pos])
      && (|r.bytes| < n ==> b'.pos == |b.data|)
    else r == EndOfFile && b' == b && b.pos >= |b.data|
  }

  /** An empty read at the end succeeds on a file and fails in memory. */
  function ReadStep(b: Body, n: nat, isDisk: bool): (Body, Reply) {
    if isDisk && n == 0 then (b, Data([]))
    else if b.pos >= |b.data| then (b, EndOfFile)
    else
      var end := Min(b.pos + n, |b.data|);
      (b.(pos := end), Data(b.data[b.pos..end]))
  }

  /** One call.  `isDisk` matters for empty buffers only. */
  function Step(b: Body, op: Op, isDisk: bool): (Body, Reply) {
    match op
    case Size => (b, Length(|b.data|))
    case Close => (b.(closed := true), Done)
    case Bytes => if b.closed then (b, StorageClosed) else (b, Data(b.data))
    case Seek(offset, whence) => if b.closed then (b, StorageClosed) else SeekStep(b, offset, whence)
    case Read(n) => if b.closed then (b, StorageClosed) else ReadStep(b, n, isDisk)
  }

  function Run(b: Body, ops: seq<Op>, isDisk: bool): seq<Reply>
    decreases |ops|
  {
    if ops == [] then []
    else [Step(b, ops[0], isDisk).1] + Run(Step(b, ops[0], isDisk).0, ops[1..], isDisk)
  }

  /** The one call that tells the two apart. */
  lemma TellsApart(b: Body, op: Op)
    ensures Step(b, op, true) != Step(b, op, false) <==> op == Read(0) && !b.closed && b.pos >= |b.data|
  {
    if op == Read(0) && b.pos < |b.data| {
      assert b.data[b.pos..b.pos] == [];
    }
  }

  /** No program that reads into non-empty buffers can tell memory from disk. */
  lemma {:induction false} RunsAgree(b: Body, ops: seq<Op>)
    requires forall i | 0 <= i < |ops| :: ops[i] != Read(0)
    ensures Run(b, ops, true) == Run(b, ops, false)
    decreases |ops|
  {
    if ops != [] {
      TellsApart(b, ops[0]);
      RunsAgree(Step(b, ops[0], true).0, ops[1..]);
    }
  }

  // ---- Counters

  ghost function Sum<K>(m: map<K, nat>): nat
    decreases |m|
  {
    if m == map[] then 0
    else
      var k :| k in m;
      m[k] + Sum(m - {k})
  }

  lemma {:induction false} SumWithout<K>(m: map<K, nat>, k: K)
    requires k in m
    ensures Sum(m) == m[k] + Sum(m - {k}) && |m| == |m - {k}| + 1
    decreases |m|
  {
    assert (m - {k}).Keys == m.Keys - {k};
    var j :| j in m && Sum(m) == m[j] + Sum(m - {j});
    if j != k {
      assert (m - {j}).Keys == m.Keys - {j};
      SumWithout(m - {j}, k);
      SumWithout(m - {k}, j);
      assert m - {j} - {k} == m - {k} - {j};
    }
  }

  lemma SumWith<K>(m: map<K, nat>, k: K, n: nat)
    requires k !in m
    ensures Sum(m[k := n]) == n + Sum(m) && |m[k := n]| == |m| + 1
  {
    SumWithout(m[k := n], k);
    assert m[k := n] - {k} == m;
  }

  function Floored(n: int): int {
    if n < 0 then 0 else n
  }

  class Stats {
    var activeDiskFiles: int
    var diskUsage: int
    var activeMemoryBuffers: int
    var memoryUsage: int
    ghost var disk: map<nat, nat>     // the sizes of the open files
    ghost var memory: map<nat, nat>   // the sizes of the open buffers

    /** The counters are exact. */
    ghost predicate Valid()
      reads this
    {
      && activeDiskFiles == |disk| && diskUsage == Sum(disk)
      && activeMemoryBuffers == |memory| && memoryUsage == Sum(memory)
    }

    constructor ()
      ensures Valid() && disk == map[] && memory == map[]
    {
      activeDiskFiles, diskUsage, activeMemoryBuffers, memoryUsage := 0, 0, 0, 0;
      disk, memory := map[], map[];
    }

    method IncrementDiskFiles(size: nat, ghost id: nat)
      requires Valid() && id !in disk
      modifies this
      ensures Valid() && disk == old(disk)[id := size] && memory == old(memory)
    {
      activeDiskFiles := activeDiskFiles + 1;
      diskUsage := diskUsage + size;
      disk := disk[id := size];
      SumWith(old(disk), id, size);
    }

    /** The floors at zero never take effect: the counters stay exact. */
    method DecrementDiskFiles(size: nat, ghost id: nat)
      requires Valid() && id in disk && disk[id] == size
      modifies this
      ensures Valid() && disk == old(disk) - {id} && memory == old(memory) && diskUsage == old(diskUsage) - size
    {
      SumWithout(disk, id);
      assert activeDiskFiles - 1 == |disk - {id}| && diskUsage - size == Sum(disk - {id});
      activeDiskFiles := Floored(activeDiskFiles - 1);
      diskUsage := Floored(diskUsage - size);
      disk := disk - {id};
    }

    method IncrementMemoryBuffers(size: nat, ghost id: nat)
      requires Valid() && id !in memory
      modifies this
      ensures Valid() && memory == old(memory)[id := size] && disk == old(disk)
    {
      activeMemoryBuffers := activeMemoryBuffers + 1;
      memoryUsage := memoryUsage + size;
      memory := memory[id := size];
      SumWith(old(memory), id, size);
    }

    method DecrementMemoryBuffers(size: nat, ghost id: nat)
      requires Valid() && id in memory && memory[id] == size
      modifies this
      ensures Valid() && memory == old(memory) - {id} && disk == old(disk)
    {
      SumWithout(memory, id);
      activeMemoryBuffers := activeMemoryBuffers - 1;
      memoryUsage := memoryUsage - size;
      memory := memory - {id};
    }
  }

  // ---- Memory

  class MemoryStorage {
    const data: seq<Byte>
    const stats: Stats
    ghost const id: nat
    var pos: nat
    var closed: bool

    /** An open storage is on the counters' books. */
    ghost predicate Valid()
      reads this, stats
    {
      stats.Valid() && (!closed ==> id in stats.memory && stats.memory[id] == |data|)
    }

    ghost predicate Is(e: Stored, stats: Stats, id: nat)
      reads `closed
    {
      e == Stored(|data|, closed) && this.stats == stats && this.id == id
    }

    function View(): Body
      reads this
    {
      Body(data, pos, closed)
    }

    constructor (data: seq<Byte>, stats: Stats, ghost id: nat)
      requires stats.Valid() && id !in stats.memory
      modifies stats
      ensures Valid() && this.stats == stats && this.id == id && View() == Body(data, 0, false)
      ensures stats.memory == old(stats.memory)[id := |data|] && stats.disk == old(stats.disk)
    {
      this.data, this.stats, this.id, pos, closed := data, stats, id, 0, false;
      new;
      stats.IncrementMemoryBuffers(|data|, id);
    }

    method Read(n: nat) returns (r: Reply)
      modifies `pos
      ensures (View(), r) == Step(old(View()), Op.Read(n), false)
      ensures ReadsOn(old(View()), n, View(), r)
    {
      if closed {
        return StorageClosed;
      }
      if pos >= |data| {
        return EndOfFile;
      }
      var end := Min(pos + n, |data|);
      r := Data(data[pos..end]);
      pos := end;
    }

    method Seek(offset: int, whence: int) returns (r: Reply)
      modifies `pos
      ensures (View(), r) == Step(old(View()), Op.Seek(offset, whence), false)
      ensures SeeksTo(old(View()), offset, whence, View(), r)
    {
      if closed {
        return StorageClosed;
      }
      var at;
      match whence {
        case 0 => at := offset;
        case 1 => at := pos + offset;
        case 2 => at := |data| + offset;
        case _ => return Invalid;
      }
      if at < 0 {
        return Invalid;
      }
      pos := at;
      r := Position(at);
    }

    method Bytes() returns (r: Reply)
      ensures (View(), r) == Step(View(), Op.Bytes, false)
    {
      r := if closed then StorageClosed else Data(data);
    }

    /** Answers even when closed. */
    method Size() returns (r: Reply)
      ensures r == Length(|data|) && (View(), r) == Step(View(), Op.Size, false)
    {
      r := Length(|data|);
    }

    /** Only the first call settles the books. */
    method Close()
      requires Valid()
      modifies `closed, stats
      ensures Valid() && View() == old(View()).(closed := true) == Step(old(View()), Op.Close, false).0
      ensures stats.memory == (if old(closed) then old(stats.memory) else old(stats.memory) - {id}) && stats.disk == old(stats.disk)
    {
      if !closed {
        closed := true;
        stats.DecrementMemoryBuffers(|data|, id);
      }
    }
  }

  // ---- Disk

  /** A file with its offset. */
  class File {
    var content: seq<Byte>
    var offset: nat

    constructor ()
      ensures content == [] && offset == 0
    {
      content, offset := [], 0;
    }

    method Write(data: seq<Byte>)
      requires offset == |content|
      modifies this
      ensures content == old(content) + data && offset == |content|
    {
      content := content + data;
      offset := |content|;
    }

    /** At most `n` bytes; no bytes of a non-empty request is the end of the file. */
    method Read(n: nat) returns (bytes: seq<Byte>, eof: bool)
      modifies `offset
      ensures eof <==> n > 0 && old(offset) >= |content|
      ensures eof || n == 0 ==> bytes == [] && offset == old(offset)
      ensures !eof && n > 0 ==> offset == Min(old(offset) + n, |content|) && bytes == content[old(offset)..offset]
    {
      if n == 0 || offset >= |content| {
        return [], n > 0;
      }
      var end := Min(offset + n, |content|);
      bytes, eof, offset := content[offset..end], false, end;
    }

    method Seek(delta: int, whence: int) returns (r: Option<nat>)
      modifies `offset
      ensures (Body(content, offset, false), if r.Some? then Position(r.value) else Invalid)
              == SeekStep(Body(content, old(offset), false), delta, whence)
    {
      var at := Base(Body(content, offset, false), whence) + delta;
      if whence !in {0, 1, 2} || at < 0 {
        return None;
      }
      offset := at;
      r := Some(at);
    }
  }

  /** io.ReadFull on a file */
  method ReadFull(file: File, n: nat) returns (r: Option<seq<Byte>>)
    requires file.offset == 0
    modifies file`offset
    ensures r.Some? <==> n <= |file.content|
    ensures r.Some? ==> r.value == file.content[..n]
  {
    var data: seq<Byte> := [];
    while |data| < n
      invariant file.offset == |data| <= n && |data| <= |file.content| && data == file.content[..|data|]
      decreases n - |data|
    {
      var bytes, eof := file.Read(n - |data|);
      if eof {
        return None;
      }
      data := data + bytes;
    }
    r := Some(data);
  }

  class DiskStorage {
    const file: File
    const size: nat
    const stats: Stats
    ghost const id: nat
    var closed: bool

    /** An open storage is on the counters' books. */
    ghost predicate OnBooks()
      reads this, stats
    {
      stats.Valid() && (!closed ==> id in stats.disk && stats.disk[id] == size)
    }

    ghost predicate Valid()
      reads this, file, stats
    {
      OnBooks() && size == |file.content|
    }

    ghost predicate Is(e: Stored, stats: Stats, id: nat)
      reads `closed
    {
      e == Stored(size, closed) && this.stats == stats && this.id == id
    }

    function View(): Body
      reads this, file
    {
      Body(file.content, file.offset, closed)
    }

    /** newDiskStorage, once the file has been created and written */
    constructor (data: seq<Byte>, stats: Stats, ghost id: nat)
      requires stats.Valid() && id !in stats.disk
      modifies stats
      ensures Valid() && fresh(file) && this.stats == stats && this.id == id && View() == Body(data, 0, false)
      ensures stats.disk == old(stats.disk)[id := |data|] && stats.memory == old(stats.memory)
    {
      var f := new File();
      f.Write(data);
      var _ := f.Seek(0, 0);
      file, size, this.stats, this.id, closed := f, |data|, stats, id, false;
      new;
      stats.IncrementDiskFiles(|data|, id);
    }

    method Read(n: nat) returns (r: Reply)
      modifies file`offset
      ensures (View(), r) == Step(old(View()), Op.Read(n), true)
      ensures ReadsOn(old(View()), n, View(), r)
    {
      if closed {
        return StorageClosed;
      }
      var bytes, eof := file.Read(n);
      r := if eof then EndOfFile else Data(bytes);
    }

    method Seek(offset: int, whence: int) returns (r: Reply)
      modifies file`offset
      ensures (View(), r) == Step(old(View()), Op.Seek(offset, whence), true)
      ensures SeeksTo(old(View()), offset, whence, View(), r)
    {
      if closed {
        return StorageClosed;
      }
      var at := file.Seek(offset, whence);
      r := if at.Some? then Position(at.value) else Invalid;
    }

    /** Reads the whole file and puts the offset back. */
    method Bytes() returns (r: Reply)
      requires Valid()
      modifies file`offset
      ensures (View(), r) == Step(old(View()), Op.Bytes, true)
    {
      if closed {
        return StorageClosed;
      }
      var current := file.Seek(0, 1);
      var start := file.Seek(0, 0);
      var data := ReadFull(file, size);
      var back := file.Seek(current.value, 0);
      assert file.content[..size] == file.content;
      r := Data(data.value);
    }

    /** Answers even when closed. */
    method Size() returns (r: Reply)
      requires Valid()
      ensures r == Length(|file.content|) && (View(), r) == Step(View(), Op.Size, true)
    {
      r := Length(size);
    }

    method Close()
      requires OnBooks()
      modifies `closed, stats
      ensures OnBooks() && View() == old(View()).(closed := true) == Step(old(View()), Op.Close, true).0
      ensures stats.disk == (if old(closed) then old(stats.disk) else old(stats.disk) - {id}) && stats.memory == old(stats.memory)
      ensures stats.diskUsage <= old(stats.diskUsage)
    {
      if !closed {
        closed := true;
        stats.DecrementDiskFiles(size, id);
      }
    }
  }

  // ---- Which one

  const MAX_INT64: int := 0x7FFF_FFFF_FFFF_FFFF
  const TWO_64: int := 0x1_0000_0000_0000_0000

  datatype Config = Config(enabled: bool, threshold: int, maxSize: int)

  datatype Storage = Memory(memory: MemoryStorage) | Disk(disk: DiskStorage)

  datatype Error = TooLarge | DiskFailed

  predicate IsInt64(n: int): (r: bool)
    ensures r <==> -0x8000_0000_0000_0000 <= n < 0x8000_0000_0000_0000
  {
    -MAX_INT64 - 1 <= n <= MAX_INT64
  }

  /** The limit `maxBytes + 1` as a 64-bit number. */
  function LimitFor(maxBytes: int): int {
    if maxBytes + 1 > MAX_INT64 then maxBytes + 1 - TWO_64 else maxBytes + 1
  }

  /** What io.LimitReader lets through. */
  function Limited(body: seq<Byte>, limit: int): seq<Byte> {
    if limit <= 0 then [] else if limit >= |body| then body else body[..limit]
  }

  /** The body is accepted exactly when it fits, and kept whole. */
  predicate LimitIsExact(body: seq<Byte>, maxBytes: int) {
    var kept := Limited(body, LimitFor(maxBytes));
    (|kept| <= maxBytes <==> |body| <= maxBytes) && (|body| <= maxBytes ==> kept == body)
  }

  /** The size limit works for every 64-bit maximum but the largest, which lets nothing through. */
  lemma LimitWorks(body: seq<Byte>, maxBytes: int)
    requires IsInt64(maxBytes)
    ensures LimitIsExact(body, maxBytes) <==> maxBytes < 0x7FFF_FFFF_FFFF_FFFF || body == []
    ensures maxBytes == 0x7FFF_FFFF_FFFF_FFFF ==> Limited(body, LimitFor(maxBytes)) == []
  {
  }

  /** The storage starts open, at the beginning, with this content, on the books under its number. */
  ghost predicate Holds(s: Storage, data: seq<Byte>, stats: Stats, diskId: nat, memoryId: nat)
    reads if s.Disk? then {s.disk, s.disk.file, s.disk.stats} else {s.memory, s.memory.stats}
  {
    match s
    case Memory(m) => m.Valid() && m.stats == stats && m.id == memoryId && m.View() == Body(data, 0, false)
    case Disk(d) => d.Valid() && d.stats == stats && d.id == diskId && d.View() == Body(data, 0, false)
  }

  /** Worth the disk, and within its quota. */
  predicate GoesToDisk(cfg: Config, size: int, usage: int) {
    cfg.enabled && size >= cfg.threshold && usage + size <= cfg.maxSize
  }

  /** CreateBodyStorage: on disk when it is worth it and fits, else in memory */
  method CreateBodyStorage(data: seq<Byte>, cfg: Config, stats: Stats, diskFails: bool,
                           ghost diskId: nat, ghost memoryId: nat) returns (s: Storage)
    requires stats.Valid() && diskId !in stats.disk && memoryId !in stats.memory
    modifies stats
    ensures stats.Valid() && Holds(s, data, stats, diskId, memoryId) && fresh(ObjectOf(s))
    ensures s.Disk? <==>
              cfg.enabled && |data| >= cfg.threshold && old(stats.diskUsage) + |data| <= cfg.maxSize && !diskFails
    ensures s.Disk? ==> stats.disk == old(stats.disk)[diskId := |data|] && stats.memory == old(stats.memory)
    ensures s.Memory? ==> stats.memory == old(stats.memory)[memoryId := |data|] && stats.disk == old(stats.disk)
    ensures stats.diskUsage == old(stats.diskUsage) + if s.Disk? then |data| else 0
  {
    if cfg.enabled && |data| >= cfg.threshold && stats.diskUsage + |data| <= cfg.maxSize && !diskFails {
      SumWith(stats.disk, diskId, |data|);
      var d := new DiskStorage(data, stats, diskId);
      return Disk(d);
    }
    var m := new MemoryStorage(data, stats, memoryId);
    s := Memory(m);
  }

  /** Where a body that is read from a request ends up. */
  datatype Place = InMemory | OnDisk | Refused(error: Error)

  /** The declared length alone decides that a body is streamed to disk. */
  predicate Streams(cfg: Config, contentLength: int, usage: int) {
    contentLength > 0 && GoesToDisk(cfg, contentLength, usage)
  }

  function PlaceOf(kept: nat, contentLength: int, maxBytes: int, cfg: Config, usage: int, diskFails: bool): Place {
    if Streams(cfg, contentLength, usage) then
      if diskFails then Refused(DiskFailed) else if kept > maxBytes then Refused(TooLarge) else OnDisk
    else if kept > maxBytes then Refused(TooLarge)
    else if GoesToDisk(cfg, kept, usage) && !diskFails then OnDisk
    else InMemory
  }

  function PlaceIn(r: Result<Storage, Error>): Place {
    match r
    case Err(error) => Refused(error)
    case Ok(s) => if s.Disk? then OnDisk else InMemory
  }

  /** A body with a declared length is not longer than declared; a length below one declares nothing. */
  predicate Declared(body: seq<Byte>, contentLength: int) {
    contentLength > 0 ==> |body| <= contentLength
  }

  /** A body that is not longer than declared stays within the quota. */
  lemma DeclaredBytesFit(body: seq<Byte>, contentLength: int, maxBytes: int, cfg: Config, usage: int, diskFails: bool)
    requires Declared(body, contentLength)
    ensures var kept := |Limited(body, LimitFor(maxBytes))|;
            PlaceOf(kept, contentLength, maxBytes, cfg, usage, diskFails) == OnDisk ==> usage + kept <= cfg.maxSize
  {
  }

  /** CreateBodyStorageFromReader */
  method CreateBodyStorageFromReader(body: seq<Byte>, contentLength: int, maxBytes: int, cfg: Config, stats: Stats,
                                     diskFails: bool, ghost diskId: nat, ghost memoryId: nat) returns (r: Result<Storage, Error>)
    requires IsInt64(maxBytes) && stats.Valid() && diskId !in stats.disk && memoryId !in stats.memory
    modifies stats
    ensures stats.Valid() && (r.Ok? ==> fresh(ObjectOf(r.value)))
    ensures var kept := Limited(body, LimitFor(maxBytes));
            && PlaceIn(r) == PlaceOf(|kept|, contentLength, maxBytes, cfg, old(stats.diskUsage), diskFails)
            && (r.Ok? ==> Holds(r.value, kept, stats, diskId, memoryId))
            && stats.disk == (if PlaceIn(r) == OnDisk then old(stats.disk)[diskId := |kept|] else old(stats.disk))
            && stats.memory == (if PlaceIn(r) == InMemory then old(stats.memory)[memoryId := |kept|] else old(stats.memory))
            && stats.diskUsage == old(stats.diskUsage) + (if PlaceIn(r) == OnDisk then |kept| else 0)
  {
    var data := Limited(body, LimitFor(maxBytes));
    if cfg.enabled && contentLength > 0 && contentLength >= cfg.threshold && stats.diskUsage + contentLength <= cfg.maxSize {
      if diskFails {
        return Err(DiskFailed);
      }
      if |data| > maxBytes {
        return Err(TooLarge);
      }
      SumWith(stats.disk, diskId, |data|);
      var d := new DiskStorage(data, stats, diskId);
      return Ok(Disk(d));
    }
    if |data| > maxBytes {
      return Err(TooLarge);
    }
    var s := CreateBodyStorage(data, cfg, stats, diskFails, diskId, memoryId);
    r := Ok(s);
  }

  /**
    Refused when the disk fails that the declared length calls for, or when more
    was kept than allowed; on disk when either length calls for it and fits.
   */
  lemma PlacedExactly(kept: nat, contentLength: int, maxBytes: int, cfg: Config, usage: int, diskFails: bool)
    ensures var declared := cfg.enabled && contentLength > 0 && contentLength >= cfg.threshold && usage + contentLength <= cfg.maxSize;
            var actual := cfg.enabled && kept >= cfg.threshold && usage + kept <= cfg.maxSize;
            PlaceOf(kept, contentLength, maxBytes, cfg, usage, diskFails)
            == if declared && diskFails then Refused(DiskFailed)
               else if kept > maxBytes then Refused(TooLarge)
               else if declared || (actual && !diskFails) then OnDisk
               else InMemory
  {
  }

  /** Reading this body takes the disk from within its quota to beyond it. */
  predicate Overruns(body: seq<Byte>, contentLength: int, maxBytes: int, cfg: Config, usage: int) {
    var kept := |Limited(body, LimitFor(maxBytes))|;
    usage <= cfg.maxSize && PlaceOf(kept, contentLength, maxBytes, cfg, usage, false) == OnDisk && usage + kept > cfg.maxSize
  }

  /** An accepted body can overrun some quota if and only if it is longer than declared. */
  lemma UndeclaredBytesExceed(body: seq<Byte>, contentLength: int, maxBytes: int)
    requires |body| <= maxBytes < MAX_INT64
    ensures (exists cfg, usage :: Overruns(body, contentLength, maxBytes, cfg, usage)) <==> 0 < contentLength < |body|
  {
    LimitWorks(body, maxBytes);
    if 0 < contentLength < |body| {
      assert Overruns(body, contentLength, maxBytes, Config(true, 0, contentLength), 0);
    }
  }

  // ---- Every storage of the process

  function ObjectOf(s: Storage): object {
    match s
    case Memory(m) => m
    case Disk(d) => d
  }

  /** What happens to storages; files and buffers are numbered as they are created, and may be closed again. */
  datatype Event =
    | Create(data: seq<Byte>, diskFails: bool)
    | Stream(body: seq<Byte>, contentLength: int, maxBytes: int, diskFails: bool)
    | CloseFile(i: nat)
    | CloseBuffer(i: nat)

  predicate IsEvent(e: Event) {
    e.Stream? ==> IsInt64(e.maxBytes)
  }

  datatype Stored = Stored(size: nat, closed: bool)

  /** Every file and every buffer that was ever created, by number. */
  datatype Books = Books(files: seq<Stored>, buffers: seq<Stored>)

  /** The sizes of the open ones, by number. */
  ghost function Open(entries: seq<Stored>): map<nat, nat> {
    map i: nat | i < |entries| && !entries[i].closed :: entries[i].size
  }

  ghost function Usage(entries: seq<Stored>): nat {
    Sum(Open(entries))
  }

  function Opened(entries: seq<Stored>, size: nat): seq<Stored> {
    entries + [Stored(size, false)]
  }

  function Closed(entries: seq<Stored>, i: nat): seq<Stored> {
    if i < |entries| then entries[i := entries[i].(closed := true)] else entries
  }

  function Placed(b: Books, place: Place, size: nat): Books {
    match place
    case OnDisk => b.(files := Opened(b.files, size))
    case InMemory => b.(buffers := Opened(b.buffers, size))
    case Refused(_) => b
  }

  /** Where data of a known length ends up. */
  function PlaceOfData(size: nat, cfg: Config, usage: int, diskFails: bool): Place {
    if GoesToDisk(cfg, size, usage) && !diskFails then OnDisk else InMemory
  }

  ghost function Next(cfg: Config, b: Books, e: Event): Books {
    match e
    case Create(data, diskFails) => Placed(b, PlaceOfData(|data|, cfg, Usage(b.files), diskFails), |data|)
    case Stream(body, contentLength, maxBytes, diskFails) =>
      var kept := |Limited(body, LimitFor(maxBytes))|;
      Placed(b, PlaceOf(kept, contentLength, maxBytes, cfg, Usage(b.files), diskFails), kept)
    case CloseFile(i) => b.(files := Closed(b.files, i))
    case CloseBuffer(i) => b.(buffers := Closed(b.buffers, i))
  }

  /** The books after these events, from none. */
  ghost function After(cfg: Config, events: seq<Event>): Books {
    if events == [] then Books([], [])
    else Next(cfg, After(cfg, events[..|events| - 1]), events[|events| - 1])
  }

  lemma OpenOpened(entries: seq<Stored>, size: nat)
    ensures Open(Opened(entries, size)) == Open(entries)[|entries| := size]
  {
  }

  lemma UsageOpened(entries: seq<Stored>, size: nat)
    ensures Usage(Opened(entries, size)) == Usage(entries) + size
  {
    OpenOpened(entries, size);
    SumWith<nat>(Open(entries), |entries|, size);
  }

  lemma OpenClosed(entries: seq<Stored>, i: nat)
    requires i < |entries|
    ensures Open(Closed(entries, i)) == if entries[i].closed then Open(entries) else Open(entries) - {i}
    ensures Usage(Closed(entries, i)) <= Usage(entries)
  {
    assert Open(Closed(entries, i)) == if entries[i].closed then Open(entries) else Open(entries) - {i};
    if !entries[i].closed {
      SumWithout(Open(entries), i);
    }
  }

  /** Every streamed body is at most as long as declared. */
  predicate AllDeclared(events: seq<Event>) {
    forall i | 0 <= i < |events| && events[i].Stream? :: Declared(events[i].body, events[i].contentLength)
  }

  function Max(a: int, b: int): int {
    if a < b then b else a
  }

  predicate WithinQuota(usage: int, cfg: Config) {
    usage <= Max(cfg.maxSize, 0)
  }

  lemma NextKeepsQuota(cfg: Config, b: Books, e: Event)
    requires WithinQuota(Usage(b.files), cfg)
    requires e.Stream? ==> Declared(e.body, e.contentLength)
    ensures WithinQuota(Usage(Next(cfg, b, e).files), cfg)
  {
    match e {
      case Create(data, _) =>
        UsageOpened(b.files, |data|);
      case Stream(body, contentLength, maxBytes, diskFails) =>
        DeclaredBytesFit(body, contentLength, maxBytes, cfg, Usage(b.files), diskFails);
        UsageOpened(b.files, |Limited(body, LimitFor(maxBytes))|);
      case CloseFile(i) =>
        if i < |b.files| {
          OpenClosed(b.files, i);
        }
      case CloseBuffer(_) =>
    }
  }

  /** Disk usage never exceeds the quota if every streamed body was declared. */
  lemma {:induction false} QuotaKept(cfg: Config, events: seq<Event>)
    requires AllDeclared(events)
    ensures WithinQuota(Usage(After(cfg, events).files), cfg)
    decreases |events|
  {
    if events == [] {
      assert Open([]) == map[];
    } else {
      var before := events[..|events| - 1];
      QuotaKept(cfg, before);
      NextKeepsQuota(cfg, After(cfg, before), events[|events| - 1]);
    }
  }

  /** One accepted body that is longer than declared is enough to exceed a quota. */
  lemma UndeclaredRunExceeds(body: seq<Byte>, contentLength: int, maxBytes: int)
    requires 0 < contentLength < |body| <= maxBytes < MAX_INT64
    ensures var cfg, e := Config(true, 0, contentLength), Stream(body, contentLength, maxBytes, false);
            !WithinQuota(Usage(After(cfg, [e]).files), cfg)
  {
    var cfg, e := Config(true, 0, contentLength), Stream(body, contentLength, maxBytes, false);
    LimitWorks(body, maxBytes);
    assert [e][..0] == [] && Open([]) == map[];
    UsageOpened([], |body|);
    assert After(cfg, [e]) == Next(cfg, Books([], []), e);
  }

  /** All the storages that were ever created, and the counters. */
  class Pool {
    const cfg: Config
    const stats: Stats
    var disks: seq<DiskStorage>
    var buffers: seq<MemoryStorage>
    ghost var books: Books

    /** These are the files. */
    ghost predicate FilesAre(files: seq<Stored>)
      reads `disks, disks
    {
      |disks| == |files| && forall i | 0 <= i < |disks| :: disks[i].Is(files[i], stats, i)
    }

    /** These are the buffers. */
    ghost predicate BuffersAre(entries: seq<Stored>)
      reads `buffers, buffers
    {
      |buffers| == |entries| && forall i | 0 <= i < |buffers| :: buffers[i].Is(entries[i], stats, i)
    }

    /** The counters are the number and the total size of the open files and of the open buffers. */
    ghost predicate CountersAre(b: Books)
      reads stats
    {
      && stats.activeDiskFiles == |Open(b.files)| && stats.diskUsage == Usage(b.files)
      && stats.activeMemoryBuffers == |Open(b.buffers)| && stats.memoryUsage == Usage(b.buffers)
    }

    /** What is counted are the open files and the open buffers of these books. */
    ghost predicate Counted(b: Books)
      reads stats
    {
      stats.Valid() && stats.disk == Open(b.files) && stats.memory == Open(b.buffers)
    }

    ghost predicate Valid()
      reads this, stats, disks, buffers
    {
      && FilesAre(books.files) && BuffersAre(books.buffers) && Counted(books)
    }

    constructor (cfg: Config)
      ensures Valid() && books == Books([], []) && fresh(stats) && this.cfg == cfg
    {
      this.cfg, disks, buffers, books := cfg, [], [], Books([], []);
      stats := new Stats();
    }

    method AddFile(d: DiskStorage)
      requires FilesAre(books.files) && d.Is(Stored(d.size, false), stats, |disks|)
      modifies `disks, `books
      ensures FilesAre(books.files) && books == old(books).(files := Opened(old(books.files), d.size)) && disks == old(disks) + [d]
    {
      disks := disks + [d];
      books := books.(files := Opened(books.files, d.size));
    }

    method AddBuffer(m: MemoryStorage)
      requires BuffersAre(books.buffers) && m.Is(Stored(|m.data|, false), stats, |buffers|)
      modifies `buffers, `books
      ensures BuffersAre(books.buffers) && books == old(books).(buffers := Opened(old(books.buffers), |m.data|)) && buffers == old(buffers) + [m]
    {
      buffers := buffers + [m];
      books := books.(buffers := Opened(books.buffers, |m.data|));
    }

    /** A storage that has just been created joins the others. */
    method Add(s: Storage, ghost data: seq<Byte>)
      requires FilesAre(books.files) && BuffersAre(books.buffers) && Counted(Placed(books, PlaceIn(Ok(s)), |data|))
      requires Holds(s, data, stats, |disks|, |buffers|)
      modifies `disks, `buffers, `books
      ensures Valid() && books == Placed(old(books), PlaceIn(Ok(s)), |data|)
      ensures disks == (if s.Disk? then old(disks) + [s.disk] else old(disks))
      ensures buffers == (if s.Memory? then old(buffers) + [s.memory] else old(buffers))
    {
      match s {
        case Disk(d) => AddFile(d);
        case Memory(m) => AddBuffer(m);
      }
    }

    method CreateStorage(data: seq<Byte>, diskFails: bool) returns (s: Storage)
      requires Valid()
      modifies this, stats
      ensures Valid() && books == Placed(old(books), PlaceIn(Ok(s)), |data|)
      ensures PlaceIn(Ok(s)) == PlaceOfData(|data|, cfg, Usage(old(books.files)), diskFails)
      ensures Holds(s, data, stats, |old(disks)|, |old(buffers)|) && fresh(ObjectOf(s))
      ensures disks == (if s.Disk? then old(disks) + [s.disk] else old(disks))
      ensures buffers == (if s.Memory? then old(buffers) + [s.memory] else old(buffers))
    {
      OpenOpened(books.files, |data|);
      OpenOpened(books.buffers, |data|);
      s := CreateBodyStorage(data, cfg, stats, diskFails, |disks|, |buffers|);
      Add(s, data);
    }

    method StreamStorage(body: seq<Byte>, contentLength: int, maxBytes: int, diskFails: bool) returns (r: Result<Storage, Error>)
      requires Valid() && IsInt64(maxBytes)
      modifies this, stats
      ensures var kept := Limited(body, LimitFor(maxBytes));
              && Valid() && books == Placed(old(books), PlaceIn(r), |kept|)
              && PlaceIn(r) == PlaceOf(|kept|, contentLength, maxBytes, cfg, Usage(old(books.files)), diskFails)
              && (r.Ok? ==> Holds(r.value, kept, stats, |old(disks)|, |old(buffers)|) && fresh(ObjectOf(r.value)))
      ensures disks == (if r.Ok? && r.value.Disk? then old(disks) + [r.value.disk] else old(disks))
      ensures buffers == (if r.Ok? && r.value.Memory? then old(buffers) + [r.value.memory] else old(buffers))
    {
      ghost var kept := Limited(body, LimitFor(maxBytes));
      OpenOpened(books.files, |kept|);
      OpenOpened(books.buffers, |kept|);
      r := CreateBodyStorageFromReader(body, contentLength, maxBytes, cfg, stats, diskFails, |disks|, |buffers|);
      assert Counted(Placed(books, PlaceIn(r), |kept|));
      if r.Ok? {
        assert PlaceIn(Ok(r.value)) == PlaceIn(r);
        Add(r.value, kept);
      }
    }

    /** The files' side of closing a file. */
    method SettleFile(i: nat)
      requires FilesAre(books.files) && Counted(books) && i < |disks|
      modifies stats, disks[i], `books
      ensures FilesAre(books.files) && Counted(books) && books == old(books).(files := Closed(old(books.files), i))
    {
      OpenClosed(books.files, i);
      var d := disks[i];
      assert d.Is(books.files[i], stats, i);
      assert forall k | 0 <= k < |disks| && k != i :: disks[k] != d by {
        assert forall k | 0 <= k < |disks| :: disks[k].Is(books.files[k], stats, k);
      }
      d.Close();
      books := books.(files := Closed(books.files, i));
    }

    /** Closing a file, for the first time or again. */
    method CloseFile(i: nat)
      requires Valid() && i < |disks|
      modifies stats, disks[i], `books
      ensures Valid() && books == old(books).(files := Closed(old(books.files), i))
    {
      SettleFile(i);
    }

    /** The buffers' side of closing a buffer. */
    method SettleBuffer(i: nat)
      requires BuffersAre(books.buffers) && Counted(books) && i < |buffers|
      modifies stats, buffers[i], `books
      ensures BuffersAre(books.buffers) && Counted(books) && books == old(books).(buffers := Closed(old(books.buffers), i))
    {
      OpenClosed(books.buffers, i);
      var m := buffers[i];
      assert m.Is(books.buffers[i], stats, i);
      assert forall k | 0 <= k < |buffers| && k != i :: buffers[k] != m by {
        assert forall k | 0 <= k < |buffers| :: buffers[k].Is(books.buffers[k], stats, k);
      }
      m.Close();
      books := books.(buffers := Closed(books.buffers, i));
    }

    /** Closing a buffer, for the first time or again. */
    method CloseBuffer(i: nat)
      requires Valid() && i < |buffers|
      modifies stats, buffers[i], `books
      ensures Valid() && books == old(books).(buffers := Closed(old(books.buffers), i))
    {
      SettleBuffer(i);
    }
  }

  /**
    Any sequence of creations and closes, with closes repeated at will.  The
    storages come out as the events say, the counters as the number and the total
    size of the open ones, and disk usage within the quota if every streamed body
    was declared.
   */
  method Process(cfg: Config, events: seq<Event>) returns (pool: Pool)
    requires forall i | 0 <= i < |events| :: IsEvent(events[i])
    ensures pool.FilesAre(After(cfg, events).files) && pool.BuffersAre(After(cfg, events).buffers)
    ensures pool.CountersAre(After(cfg, events))
    ensures AllDeclared(events) ==> WithinQuota(pool.stats.diskUsage, cfg)
  {
    pool := new Pool(cfg);
    for n := 0 to |events|
      invariant fresh(pool) && fresh(pool.stats) && pool.cfg == cfg
      invariant forall o | o in pool.disks :: fresh(o)
      invariant forall o | o in pool.buffers :: fresh(o)
      invariant pool.Valid() && pool.books == After(cfg, events[..n])
    {
      assert events[..n + 1][..n] == events[..n];
      Handle(pool, events[n]);
    }
    assert events[..|events|] == events;
    if AllDeclared(events) {
      QuotaKept(cfg, events);
    }
  }

  /** One event; what was created before stays in place. */
  method Handle(pool: Pool, e: Event)
    requires pool.Valid() && IsEvent(e)
    modifies pool, pool.stats, pool.disks, pool.buffers
    ensures pool.Valid() && pool.books == Next(pool.cfg, old(pool.books), e)
    ensures old(pool.disks) <= pool.disks && forall o | o in pool.disks :: o in old(pool.disks) || fresh(o)
    ensures old(pool.buffers) <= pool.buffers && forall o | o in pool.buffers :: o in old(pool.buffers) || fresh(o)
  {
    match e {
      case CloseFile(i) => HandleCloseFile(pool, i);
      case CloseBuffer(i) => HandleCloseBuffer(pool, i);
      case _ => HandleCreation(pool, e);
    }
  }

  method HandleCreation(pool: Pool, e: Event)
    requires pool.Valid() && IsEvent(e) && (e.Create? || e.Stream?)
    modifies pool, pool.stats
    ensures pool.Valid() && pool.books == Next(pool.cfg, old(pool.books), e)
    ensures old(pool.disks) <= pool.disks && forall o | o in pool.disks :: o in old(pool.disks) || fresh(o)
    ensures old(pool.buffers) <= pool.buffers && forall o | o in pool.buffers :: o in old(pool.buffers) || fresh(o)
  {
    match e {
      case Create(data, diskFails) =>
        var s := pool.CreateStorage(data, diskFails);
      case Stream(body, contentLength, maxBytes, diskFails) =>
        var r := pool.StreamStorage(body, contentLength, maxBytes, diskFails);
    }
  }

  /** There is nothing to close under a number that was not given out. */
  method HandleCloseFile(pool: Pool, i: nat)
    requires pool.Valid()
    modifies pool`books, pool.stats, pool.disks
    ensures pool.Valid() && pool.books == Next(pool.cfg, old(pool.books), CloseFile(i))
  {
    if i < |pool.disks| {
      pool.CloseFile(i);
    }
  }

  method HandleCloseBuffer(pool: Pool, i: nat)
    requires pool.Valid()
    modifies pool`books, pool.stats, pool.buffers
    ensures pool.Valid() && pool.books == Next(pool.cfg, old(pool.books), CloseBuffer(i))
  {
    if i < |pool.buffers| {
      pool.CloseBuffer(i);
    }
  }
}
