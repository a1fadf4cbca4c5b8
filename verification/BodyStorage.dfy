/**
 Stored request bodies (common/body_storage.go) and the usage counters that go with
 them (common/disk_cache_config.go). A body lives in memory or in a temporary file;
 both stores answer every call alike, and the global counters follow the open
 stores exactly.
 */
module BodyStorage {

  import opened Basics

  // ----- The behaviour both stores promise -------------------------------------

  datatype Whence = SeekStart | SeekCurrent | SeekEnd

  datatype Op = Read(length: nat) | Seek(offset: int, whence: Whence) | Bytes | Close

  datatype Answer = Data(bytes: seq<byte>) | EndOfFile | Position(at: nat) | InvalidSeek | StorageClosed | Done

  /** What a caller can observe of a store. */
  datatype View = View(data: seq<byte>, pos: nat, closed: bool)

  function Min(a: nat, b: nat): nat {
    if a < b then a else b
  }

  function Chunk(data: seq<byte>, pos: nat, length: nat): seq<byte>
    requires pos <= |data|
  {
    data[pos..pos + Min(length, |data| - pos)]
  }

  function Target(v: View, offset: int, whence: Whence): int {
    match whence
    case SeekStart => offset
    case SeekCurrent => v.pos + offset
    case SeekEnd => |v.data| + offset
  }

  function After(v: View, op: Op): View {
    if v.closed then v
    else
      match op
      case Read(length) => if v.pos >= |v.data| then v else v.(pos := v.pos + Min(length, |v.data| - v.pos))
      case Seek(offset, whence) => if Target(v, offset, whence) < 0 then v else v.(pos := Target(v, offset, whence))
      case Bytes => v
      case Close => v.(closed := true)
  }

  /** A file answers an empty read at its end with no bytes, a memory reader with end of file. */
  function Reply(v: View, op: Op, disk: bool): Answer {
    if v.closed then if op.Close? then Done else StorageClosed
    else
      match op
      case Read(length) =>
        if disk && length == 0 then Data([])
        else if v.pos >= |v.data| then EndOfFile
        else Data(Chunk(v.data, v.pos, length))
      case Seek(offset, whence) =>
        if Target(v, offset, whence) < 0 then InvalidSeek else Position(Target(v, offset, whence))
      case Bytes => Data(v.data)
      case Close => Done
  }

  function Replies(v: View, ops: seq<Op>, disk: bool): seq<Answer>
    decreases |ops|
  {
    if ops == [] then [] else [Reply(v, ops[0], disk)] + Replies(After(v, ops[0]), ops[1..], disk)
  }

  /** Somewhere in the run an open store is asked for no bytes at its end. */
  predicate EmptyReadAtEnd(v: View, ops: seq<Op>)
    decreases |ops|
  {
    ops != [] && (|| (ops[0] == Read(0) && !v.closed && v.pos >= |v.data|)
                  || EmptyReadAtEnd(After(v, ops[0]), ops[1..]))
  }

  /** A memory store and a disk store of the same data can be told apart only by an empty read at the end. */
  lemma {:induction false} SameReplies(v: View, ops: seq<Op>)
    ensures Replies(v, ops, true) == Replies(v, ops, false) <==> !EmptyReadAtEnd(v, ops)
    decreases |ops|
  {
    if ops != [] {
      var v' := After(v, ops[0]);
      SameReplies(v', ops[1..]);
      var d, m := Replies(v, ops, true), Replies(v, ops, false);
      assert d[0] == Reply(v, ops[0], true) && d[1..] == Replies(v', ops[1..], true);
      assert m[0] == Reply(v, ops[0], false) && m[1..] == Replies(v', ops[1..], false);
      assert d == m <==> d[0] == m[0] && d[1..] == m[1..];
    }
  }

  lemma {:induction false} NonEmptyReadsAgree(v: View, ops: seq<Op>)
    requires Read(0) !in ops
    ensures Replies(v, ops, true) == Replies(v, ops, false)
  {
    NoEmptyRead(v, ops);
    SameReplies(v, ops);
  }

  lemma {:induction false} NoEmptyRead(v: View, ops: seq<Op>)
    requires Read(0) !in ops
    ensures !EmptyReadAtEnd(v, ops)
    decreases |ops|
  {
    if ops != [] {
      NoEmptyRead(After(v, ops[0]), ops[1..]);
    }
  }

  /** The bytes delivered by a run of answers. */
  function Delivered(answers: seq<Answer>): seq<byte> {
    if answers == [] then []
    else (if answers[0].Data? then answers[0].bytes else []) + Delivered(answers[1..])
  }

  ghost predicate OnlyReads(ops: seq<Op>) {
    forall i :: 0 <= i < |ops| ==> ops[i].Read?
  }

  /** How much a run of reads asks for. */
  function Requested(ops: seq<Op>): nat
    requires OnlyReads(ops)
  {
    if ops == [] then 0 else ops[0].length + Requested(ops[1..])
  }

  lemma ChunkSplit(data: seq<byte>, pos: nat, a: nat, b: nat)
    requires pos <= |data|
    ensures var mid := pos + Min(a, |data| - pos); Chunk(data, pos, a) + Chunk(data, mid, b) == Chunk(data, pos, a + b)
  {
  }

  lemma OneRead(v: View, length: nat, disk: bool)
    requires !v.closed && v.pos <= |v.data|
    ensures var r := Reply(v, Read(length), disk); (if r.Data? then r.bytes else []) == Chunk(v.data, v.pos, length)
    ensures After(v, Read(length)) == v.(pos := v.pos + Min(length, |v.data| - v.pos))
  {
  }

  lemma DeliveredCons(a: Answer, rest: seq<Answer>)
    ensures Delivered([a] + rest) == (if a.Data? then a.bytes else []) + Delivered(rest)
  {
    assert ([a] + rest)[1..] == rest;
  }

  lemma ReadThenRest(v: View, length: nat, more: nat, disk: bool, later: seq<Answer>, all: seq<Answer>)
    requires !v.closed && v.pos <= |v.data| && all == [Reply(v, Read(length), disk)] + later
    requires Delivered(later) == Chunk(v.data, v.pos + Min(length, |v.data| - v.pos), more)
    ensures Delivered(all) == Chunk(v.data, v.pos, length + more)
  {
    DeliveredCons(Reply(v, Read(length), disk), later);
    OneRead(v, length, disk);
    ChunkSplit(v.data, v.pos, length, more);
  }

  lemma RepliesCons(v: View, op: Op, rest: seq<Op>, disk: bool)
    ensures Replies(v, [op] + rest, disk) == [Reply(v, op, disk)] + Replies(After(v, op), rest, disk)
  {
    assert ([op] + rest)[1..] == rest;
  }

  /** However a body is cut into reads, what arrives is the body from the current position on. */
  lemma {:induction false} ReadsDeliver(v: View, ops: seq<Op>, disk: bool)
    requires OnlyReads(ops) && !v.closed && v.pos <= |v.data|
    ensures Delivered(Replies(v, ops, disk)) == Chunk(v.data, v.pos, Requested(ops))
    decreases |ops|
  {
    if ops == [] {
      assert Chunk(v.data, v.pos, 0) == [];
    } else {
      var n, rest := ops[0].length, ops[1..];
      var v' := v.(pos := v.pos + Min(n, |v.data| - v.pos));
      assert After(v, ops[0]) == v' by {
        OneRead(v, n, disk);
      }
      ReadsDeliver(v', rest, disk);
      ReadThenRest(v, n, Requested(rest), disk, Replies(v', rest, disk), Replies(v, ops, disk));
    }
  }

  /** After a rewind, reading enough replays the whole body. */
  lemma Replay(v: View, ops: seq<Op>, disk: bool)
    requires !v.closed && OnlyReads(ops) && Requested(ops) >= |v.data|
    ensures Delivered(Replies(v, [Seek(0, SeekStart)] + ops, disk)) == v.data
  {
    SeekMoves(v, 0, SeekStart, ops, disk, 0);
  }

  /**
   After some reads, a further one for at least one byte is answered with end of file exactly when they have
   asked for all there is, and otherwise with what follows.
   */
  lemma {:induction false} EndIsReported(v: View, ops: seq<Op>, n: nat, disk: bool)
    requires OnlyReads(ops) && !v.closed && v.pos <= |v.data| && n > 0
    ensures var answers := Replies(v, ops + [Read(n)], disk);
            && |answers| == |ops| + 1
            && answers[|ops|] == if v.pos + Requested(ops) >= |v.data| then EndOfFile
                                 else Data(Chunk(v.data, v.pos + Requested(ops), n))
    decreases |ops|
  {
    if ops == [] {
      assert ops + [Read(n)] == [Read(n)];
    } else {
      var w := After(v, ops[0]);
      assert ops + [Read(n)] == [ops[0]] + (ops[1..] + [Read(n)]);
      RepliesCons(v, ops[0], ops[1..] + [Read(n)], disk);
      EndIsReported(w, ops[1..], n, disk);
    }
  }

  /** Every answer to Bytes before the store is closed is the whole data, wherever the reader stands. */
  lemma {:induction false} BytesAreWhole(v: View, ops: seq<Op>, disk: bool, i: nat)
    requires i < |ops| && ops[i] == Bytes && !v.closed && Close !in ops[..i]
    ensures |Replies(v, ops, disk)| == |ops| && Replies(v, ops, disk)[i] == Data(v.data)
    decreases |ops|
  {
    RepliesCount(v, ops, disk);
    if i > 0 {
      assert ops[..i] == [ops[0]] + ops[1..][..i - 1];
      BytesAreWhole(After(v, ops[0]), ops[1..], disk, i - 1);
    }
  }

  lemma {:induction false} RepliesCount(v: View, ops: seq<Op>, disk: bool)
    ensures |Replies(v, ops, disk)| == |ops|
    decreases |ops|
  {
    if ops != [] {
      RepliesCount(After(v, ops[0]), ops[1..], disk);
    }
  }

  /** Asking for the bytes changes no other answer: leaving the call out leaves out its answer only. */
  lemma {:induction false} BytesChangeNothing(v: View, ops: seq<Op>, disk: bool, i: nat)
    requires i < |ops| && ops[i] == Bytes
    ensures |Replies(v, ops, disk)| == |ops|
    ensures Replies(v, ops[..i] + ops[i + 1..], disk) == Replies(v, ops, disk)[..i] + Replies(v, ops, disk)[i + 1..]
    decreases |ops|
  {
    RepliesCount(v, ops, disk);
    if i == 0 {
      assert ops[..0] + ops[1..] == ops[1..];
    } else {
      var rest := ops[1..];
      BytesChangeNothing(After(v, ops[0]), rest, disk, i - 1);
      assert ops[..i] + ops[i + 1..] == [ops[0]] + (rest[..i - 1] + rest[i..]);
      RepliesCons(v, ops[0], rest[..i - 1] + rest[i..], disk);
    }
  }

  /** After the first Close nothing but another Close is answered. */
  lemma {:induction false} ClosedForGood(v: View, ops: seq<Op>, disk: bool, i: nat)
    requires i < |ops| && (v.closed || Close in ops[..i])
    ensures |Replies(v, ops, disk)| == |ops|
    ensures Replies(v, ops, disk)[i] == if ops[i].Close? then Done else StorageClosed
    decreases |ops|
  {
    RepliesCount(v, ops, disk);
    if i > 0 {
      assert ops[..i] == [ops[0]] + ops[1..][..i - 1];
      ClosedForGood(After(v, ops[0]), ops[1..], disk, i - 1);
    }
  }

  /** Where a seek goes: counted from the start, from the reader's position, or from the end of the data. */
  lemma SeekMoves(v: View, offset: int, whence: Whence, ops: seq<Op>, disk: bool, target: int)
    requires !v.closed && OnlyReads(ops)
    requires whence == SeekStart ==> target == offset
    requires whence == SeekCurrent ==> target == v.pos + offset
    requires whence == SeekEnd ==> target == |v.data| + offset
    ensures var answers := Replies(v, [Seek(offset, whence)] + ops, disk);
            && answers != [] && answers[0] == (if target < 0 then InvalidSeek else Position(target))
            && (0 <= target <= |v.data| ==> Delivered(answers) == Chunk(v.data, target, Requested(ops)))
            && (target < 0 && v.pos <= |v.data| ==> Delivered(answers) == Chunk(v.data, v.pos, Requested(ops)))
            && (target > |v.data| ==> Delivered(answers) == [])
  {
    var seek := Seek(offset, whence);
    var w := After(v, seek);
    RepliesCons(v, seek, ops, disk);
    DeliveredCons(Reply(v, seek, disk), Replies(w, ops, disk));
    if w.pos <= |v.data| {
      ReadsDeliver(w, ops, disk);
    } else {
      ReadsBeyond(w, ops, disk);
    }
  }

  /** Reading beyond the end delivers nothing. */
  lemma {:induction false} ReadsBeyond(v: View, ops: seq<Op>, disk: bool)
    requires OnlyReads(ops) && !v.closed && v.pos > |v.data|
    ensures Delivered(Replies(v, ops, disk)) == []
    decreases |ops|
  {
    if ops != [] {
      ReadsBeyond(v, ops[1..], disk);
      DeliveredCons(Reply(v, ops[0], disk), Replies(v, ops[1..], disk));
    }
  }

  // ----- The usage counters ----------------------------------------------------

  /** One store that was created: where, how large, and whether it is still open. */
  datatype Entry = Entry(disk: bool, size: nat, open: bool)

  datatype Totals = Totals(diskFiles: int, diskBytes: int, memoryBuffers: int, memoryBytes: int)

  function Add(t: Totals, e: Entry): Totals {
    if e.disk then t.(diskFiles := t.diskFiles + 1, diskBytes := t.diskBytes + e.size)
    else t.(memoryBuffers := t.memoryBuffers + 1, memoryBytes := t.memoryBytes + e.size)
  }

  /** The number and total size of the open stores of each kind. */
  function OpenTotals(ledger: seq<Entry>): (t: Totals)
    ensures t.diskFiles >= 0 && t.diskBytes >= 0 && t.memoryBuffers >= 0 && t.memoryBytes >= 0
  {
    if ledger == [] then Totals(0, 0, 0, 0)
    else
      var t, e := OpenTotals(ledger[..|ledger| - 1]), ledger[|ledger| - 1];
      if e.open then Add(t, e) else t
  }

  lemma OpenTotalsAppend(ledger: seq<Entry>, e: Entry)
    requires e.open
    ensures OpenTotals(ledger + [e]) == Add(OpenTotals(ledger), e)
  {
    assert (ledger + [e])[..|ledger|] == ledger;
  }

  lemma {:induction false} OpenTotalsClose(ledger: seq<Entry>, i: nat)
    requires i < |ledger| && ledger[i].open
    ensures OpenTotals(ledger) == Add(OpenTotals(ledger[i := ledger[i].(open := false)]), ledger[i])
  {
    var after, n := ledger[i := ledger[i].(open := false)], |ledger| - 1;
    if i == n {
      assert after[..n] == ledger[..n];
    } else {
      OpenTotalsClose(ledger[..n], i);
      assert after[..n] == ledger[..n][i := ledger[i].(open := false)];
    }
  }

  function AtLeastZero(n: int): nat {
    if n < 0 then 0 else n
  }

  /** The process-wide counters; `ledger` records every store created since the start. */
  class Stats {
    var activeDiskFiles: int
    var currentDiskUsageBytes: int
    var activeMemoryBuffers: int
    var currentMemoryUsageBytes: int
    var diskCacheHits: int
    var memoryCacheHits: int
    ghost var ledger: seq<Entry>

    constructor ()
      ensures Exact() && ledger == []
    {
      activeDiskFiles, currentDiskUsageBytes, activeMemoryBuffers, currentMemoryUsageBytes := 0, 0, 0, 0;
      diskCacheHits, memoryCacheHits, ledger := 0, 0, [];
    }

    function Counters(): Totals
      reads this`activeDiskFiles, this`currentDiskUsageBytes, this`activeMemoryBuffers, this`currentMemoryUsageBytes
    {
      Totals(activeDiskFiles, currentDiskUsageBytes, activeMemoryBuffers, currentMemoryUsageBytes)
    }

    /** The counters are the number and total size of the open stores of each kind. */
    ghost predicate Exact()
      reads this
    {
      Counters() == OpenTotals(ledger)
    }

    method IncrementDiskFiles(size: nat)
      modifies this`activeDiskFiles, this`currentDiskUsageBytes
      ensures activeDiskFiles == old(activeDiskFiles) + 1
      ensures currentDiskUsageBytes == old(currentDiskUsageBytes) + size
    {
      activeDiskFiles := activeDiskFiles + 1;
      currentDiskUsageBytes := currentDiskUsageBytes + size;
    }

    /** `clamped` tells whether a counter had to be set back to zero. */
    method DecrementDiskFiles(size: nat) returns (clamped: bool)
      modifies this`activeDiskFiles, this`currentDiskUsageBytes
      ensures activeDiskFiles == AtLeastZero(old(activeDiskFiles) - 1)
      ensures currentDiskUsageBytes == AtLeastZero(old(currentDiskUsageBytes) - size)
      ensures clamped <==> old(activeDiskFiles) < 1 || old(currentDiskUsageBytes) < size
    {
      clamped := false;
      activeDiskFiles := activeDiskFiles - 1;
      if activeDiskFiles < 0 {
        activeDiskFiles, clamped := 0, true;
      }
      currentDiskUsageBytes := currentDiskUsageBytes - size;
      if currentDiskUsageBytes < 0 {
        currentDiskUsageBytes, clamped := 0, true;
      }
    }

    method IncrementMemoryBuffers(size: nat)
      modifies this`activeMemoryBuffers, this`currentMemoryUsageBytes
      ensures activeMemoryBuffers == old(activeMemoryBuffers) + 1
      ensures currentMemoryUsageBytes == old(currentMemoryUsageBytes) + size
    {
      activeMemoryBuffers := activeMemoryBuffers + 1;
      currentMemoryUsageBytes := currentMemoryUsageBytes + size;
    }

    method DecrementMemoryBuffers(size: nat)
      modifies this`activeMemoryBuffers, this`currentMemoryUsageBytes
      ensures activeMemoryBuffers == old(activeMemoryBuffers) - 1
      ensures currentMemoryUsageBytes == old(currentMemoryUsageBytes) - size
    {
      activeMemoryBuffers := activeMemoryBuffers - 1;
      currentMemoryUsageBytes := currentMemoryUsageBytes - size;
    }
  }

  // ----- The two stores --------------------------------------------------------

  /** An open temporary file; nothing writes to it once the body is in. */
  class File {
    const contents: seq<byte>
    var offset: nat
    var removed: bool

    constructor (contents: seq<byte>)
      ensures this.contents == contents && offset == 0 && !removed
    {
      this.contents, offset, removed := contents, 0, false;
    }

    method Read(length: nat) returns (answer: Answer)
      modifies this`offset
      ensures var v := View(contents, old(offset), false);
              answer == Reply(v, Op.Read(length), true) && offset == After(v, Op.Read(length)).pos
    {
      if length == 0 {
        answer := Data([]);
      } else if offset >= |contents| {
        answer := EndOfFile;
      } else {
        var n := Min(length, |contents| - offset);
        answer := Data(contents[offset..offset + n]);
        offset := offset + n;
      }
    }

    method Seek(to: int, whence: Whence) returns (answer: Answer)
      modifies this`offset
      ensures var v := View(contents, old(offset), false);
              answer == Reply(v, Op.Seek(to, whence), true) && offset == After(v, Op.Seek(to, whence)).pos
    {
      var at := match whence { case SeekStart => to case SeekCurrent => offset + to case SeekEnd => |contents| + to };
      if at < 0 {
        return InvalidSeek;
      }
      offset := at;
      answer := Position(at);
    }
  }

  class DiskStorage {
    const file: File
    const size: nat
    var closed: bool
    const stats: Stats
    ghost const id: nat

    ghost predicate Valid()
      reads this`closed, stats`ledger
    {
      size == |file.contents| && id < |stats.ledger| && stats.ledger[id] == Entry(true, size, !closed)
    }

    function State(): View
      reads this, file
    {
      View(file.contents, file.offset, closed)
    }

    /** A file into which the whole body was written, counted. */
    constructor (data: seq<byte>, stats: Stats)
      modifies stats`activeDiskFiles, stats`currentDiskUsageBytes, stats`ledger
      ensures Valid() && this.stats == stats && fresh(file) && id == |old(stats.ledger)|
      ensures State() == View(data, 0, false)
      ensures stats.ledger == old(stats.ledger) + [Entry(true, |data|, true)]
      ensures stats.Counters() == Add(old(stats.Counters()), Entry(true, |data|, true))
    {
      file := new File(data);
      size, closed, this.stats, id := |data|, false, stats, |stats.ledger|;
      new;
      stats.IncrementDiskFiles(size);
      stats.ledger := stats.ledger + [Entry(true, size, true)];
    }

    method Read(length: nat) returns (answer: Answer)
      requires Valid()
      modifies file`offset
      ensures answer == Reply(old(State()), Op.Read(length), true) && State() == After(old(State()), Op.Read(length))
    {
      if closed {
        return StorageClosed;
      }
      answer := file.Read(length);
    }

    method Seek(offset: int, whence: Whence) returns (answer: Answer)
      requires Valid()
      modifies file`offset
      ensures answer == Reply(old(State()), Op.Seek(offset, whence), true)
      ensures State() == After(old(State()), Op.Seek(offset, whence))
      ensures !closed && whence == SeekCurrent && old(file.offset) + offset >= 0 ==>
                file.offset == old(file.offset) + offset
      ensures !closed && whence == SeekEnd && size + offset >= 0 ==> file.offset == size + offset
      ensures !closed && whence == SeekStart && offset >= 0 ==> file.offset == offset
    {
      if closed {
        return StorageClosed;
      }
      answer := file.Seek(offset, whence);
    }

    /** Reads from the start to the recorded size and goes back to where the reader was. */
    method Bytes() returns (answer: Answer)
      requires Valid()
      modifies file`offset
      ensures answer == Reply(old(State()), Op.Bytes, true) && State() == old(State())
      ensures answer == if closed then StorageClosed else Data(file.contents)
    {
      if closed {
        return StorageClosed;
      }
      var current := file.Seek(0, SeekCurrent);
      var start := file.Seek(0, SeekStart);
      var data := [];
      while |data| < size
        invariant |data| <= size && data == file.contents[..|data|] && file.offset == |data|
      {
        var part := file.Read(size - |data|);
        data := data + part.bytes;
      }
      var restored := file.Seek(current.at, SeekStart);
      answer := Data(data);
    }

    /** The first call removes the file and counts it out; the counters never need their floor of zero. */
    method Close() returns (answer: Answer, clamped: bool)
      requires Valid() && stats.Exact()
      modifies this`closed, file`removed, stats`activeDiskFiles, stats`currentDiskUsageBytes, stats`ledger
      ensures answer == Reply(old(State()), Op.Close, true) && State() == After(old(State()), Op.Close)
      ensures Valid() && stats.Exact() && stats.ledger == old(stats.ledger)[id := Entry(true, size, false)]
      ensures !clamped && stats.currentDiskUsageBytes <= old(stats.currentDiskUsageBytes)
    {
      clamped := false;
      if !closed {
        closed := true;
        file.removed := true;
        OpenTotalsClose(stats.ledger, id);
        stats.ledger := stats.ledger[id := Entry(true, size, false)];
        clamped := stats.DecrementDiskFiles(size);
      }
      answer := Done;
    }
  }

  class MemoryStorage {
    const data: seq<byte>
    const size: nat
    var index: nat
    var closed: bool
    const stats: Stats
    ghost const id: nat

    ghost predicate Valid()
      reads this`closed, stats`ledger
    {
      size == |data| && id < |stats.ledger| && stats.ledger[id] == Entry(false, size, !closed)
    }

    function State(): View
      reads this
    {
      View(data, index, closed)
    }

    constructor (data: seq<byte>, stats: Stats)
      modifies stats`activeMemoryBuffers, stats`currentMemoryUsageBytes, stats`ledger
      ensures Valid() && this.stats == stats && id == |old(stats.ledger)|
      ensures State() == View(data, 0, false)
      ensures stats.ledger == old(stats.ledger) + [Entry(false, |data|, true)]
      ensures stats.Counters() == Add(old(stats.Counters()), Entry(false, |data|, true))
    {
      this.data, size, index, closed, this.stats, id := data, |data|, 0, false, stats, |stats.ledger|;
      new;
      stats.IncrementMemoryBuffers(size);
      stats.ledger := stats.ledger + [Entry(false, size, true)];
    }

    method Read(length: nat) returns (answer: Answer)
      requires Valid()
      modifies this`index
      ensures answer == Reply(old(State()), Op.Read(length), false) && State() == After(old(State()), Op.Read(length))
    {
      if closed {
        return StorageClosed;
      }
      if index >= |data| {
        return EndOfFile;
      }
      var n := Min(length, |data| - index);
      answer := Data(data[index..index + n]);
      index := index + n;
    }

    method Seek(offset: int, whence: Whence) returns (answer: Answer)
      requires Valid()
      modifies this`index
      ensures answer == Reply(old(State()), Op.Seek(offset, whence), false)
      ensures State() == After(old(State()), Op.Seek(offset, whence))
      ensures !closed && whence == SeekCurrent && old(index) + offset >= 0 ==> index == old(index) + offset
      ensures !closed && whence == SeekEnd && size + offset >= 0 ==> index == size + offset
      ensures !closed && whence == SeekStart && offset >= 0 ==> index == offset
    {
      if closed {
        return StorageClosed;
      }
      var at := match whence {
        case SeekStart => offset
        case SeekCurrent => index + offset
        case SeekEnd => |data| + offset
      };
      if at < 0 {
        return InvalidSeek;
      }
      index := at;
      answer := Position(at);
    }

    method Bytes() returns (answer: Answer)
      requires Valid()
      ensures answer == Reply(State(), Op.Bytes, false)
      ensures answer == if closed then StorageClosed else Data(data)
    {
      answer := if closed then StorageClosed else Data(data);
    }

    method Close() returns (answer: Answer)
      requires Valid() && stats.Exact()
      modifies this`closed, stats`activeMemoryBuffers, stats`currentMemoryUsageBytes, stats`ledger
      ensures answer == Reply(old(State()), Op.Close, false) && State() == After(old(State()), Op.Close)
      ensures Valid() && stats.Exact() && stats.ledger == old(stats.ledger)[id := Entry(false, size, false)]
    {
      if !closed {
        closed := true;
        OpenTotalsClose(stats.ledger, id);
        stats.ledger := stats.ledger[id := Entry(false, size, false)];
        stats.DecrementMemoryBuffers(size);
      }
      answer := Done;
    }
  }

  // ----- Creating stores -------------------------------------------------------

  /** A value of the interface type. */
  datatype Storage = Memory(m: MemoryStorage) | Disk(d: DiskStorage)

  ghost function Footprint(s: Storage): set<object> {
    match s
    case Memory(m) => {m}
    case Disk(d) => {d, d.file}
  }

  ghost function StateOf(s: Storage): View
    reads Footprint(s)
  {
    match s
    case Memory(m) => m.State()
    case Disk(d) => d.State()
  }

  /** The store belongs to these counters and has this number in their ledger. */
  ghost predicate Counted(s: Storage, stats: Stats, id: nat)
    reads Footprint(s), stats`ledger
  {
    match s
    case Memory(m) => m.stats == stats && m.id == id && m.Valid()
    case Disk(d) => d.stats == stats && d.id == id && d.Valid()
  }

  datatype Config = Config(enabled: bool, threshold: int, maxBytes: int)

  /** A new store with the data, read from the start, and counted. */
  ghost predicate Opened(s: Storage, data: seq<byte>, stats: Stats, ledger: seq<Entry>, counters: Totals)
    reads Footprint(s), stats
  {
    && stats.ledger == ledger + [Entry(s.Disk?, |data|, true)]
    && stats.Counters() == Add(counters, Entry(s.Disk?, |data|, true))
    && Counted(s, stats, |ledger|) && StateOf(s) == View(data, 0, false)
  }

  method NewMemoryStorage(data: seq<byte>, stats: Stats) returns (s: Storage)
    modifies stats`activeMemoryBuffers, stats`currentMemoryUsageBytes, stats`ledger
    ensures s.Memory? && fresh(s.m) && Opened(s, data, stats, old(stats.ledger), old(stats.Counters()))
  {
    var m := new MemoryStorage(data, stats);
    s := Memory(m);
  }

  method NewDiskStorage(data: seq<byte>, stats: Stats) returns (s: Storage)
    modifies stats`activeDiskFiles, stats`currentDiskUsageBytes, stats`ledger
    ensures s.Disk? && fresh(s.d) && fresh(s.d.file) && Opened(s, data, stats, old(stats.ledger), old(stats.Counters()))
  {
    var d := new DiskStorage(data, stats);
    s := Disk(d);
  }

  /** `diskFails` tells whether the file system refuses the file; memory is then used instead. */
  method CreateBodyStorage(data: seq<byte>, config: Config, stats: Stats, diskFails: bool) returns (s: Storage)
    modifies stats`activeDiskFiles, stats`currentDiskUsageBytes, stats`activeMemoryBuffers,
             stats`currentMemoryUsageBytes, stats`ledger
    ensures if s.Memory? then fresh(s.m) else fresh(s.d) && fresh(s.d.file)
    ensures Opened(s, data, stats, old(stats.ledger), old(stats.Counters()))
    ensures s.Disk? <==>
            && config.enabled && |data| >= config.threshold
            && old(stats.currentDiskUsageBytes) + |data| <= config.maxBytes && !diskFails
  {
    if config.enabled && |data| >= config.threshold && stats.currentDiskUsageBytes + |data| <= config.maxBytes {
      if diskFails {
        s := NewMemoryStorage(data, stats);
      } else {
        s := NewDiskStorage(data, stats);
      }
      return;
    }
    s := NewMemoryStorage(data, stats);
  }

  datatype Result = Stored(s: Storage) | TooLarge | Failed

  /** io.LimitReader: at most `limit` bytes of what the client sends. */
  function Limited(body: seq<byte>, limit: int): (r: seq<byte>)
    ensures |r| < limit ==> r == body
    ensures |body| < limit ==> r == body
  {
    if limit <= 0 then [] else body[..Min(limit, |body|)]
  }

  method NewDiskStorageFromReader(body: seq<byte>, maxBytes: int, stats: Stats, readFails: bool, diskFails: bool)
    returns (r: Result)
    modifies stats`activeDiskFiles, stats`currentDiskUsageBytes, stats`ledger
    ensures r.Stored? ==>
              && r.s.Disk? && fresh(r.s.d) && fresh(r.s.d.file)
              && Opened(r.s, body, stats, old(stats.ledger), old(stats.Counters()))
    ensures !r.Stored? ==> unchanged(stats)
    ensures r.Failed? <==> readFails || diskFails
    ensures r.TooLarge? <==> !readFails && !diskFails && |body| > maxBytes
  {
    if readFails || diskFails {
      return Failed;
    }
    var written := Limited(body, maxBytes + 1);
    if |written| > maxBytes {
      return TooLarge;
    }
    var s := NewDiskStorage(written, stats);
    r := Stored(s);
  }

  /**
   `body` is everything the client sends, `contentLength` what it declared; `readFails` and
   `diskFails` are failures of the connection and of the file system. A body is stored whole or
   not at all, and a refused body leaves no trace in the counters.
   */
  method CreateBodyStorageFromReader(body: seq<byte>, contentLength: int, maxBytes: int, config: Config, stats: Stats,
                                     readFails: bool, diskFails: bool) returns (r: Result)
    modifies stats
    ensures r.Stored? ==> if r.s.Memory? then fresh(r.s.m) else fresh(r.s.d) && fresh(r.s.d.file)
    ensures r.Stored? ==> Opened(r.s, body, stats, old(stats.ledger), old(stats.Counters()))
    ensures !r.Stored? ==> unchanged(stats)
    ensures r.Stored? ==>
              && stats.diskCacheHits == old(stats.diskCacheHits) + (if r.s.Disk? then 1 else 0)
              && stats.memoryCacheHits == old(stats.memoryCacheHits) + (if r.s.Memory? then 1 else 0)
    ensures var usage := old(stats.currentDiskUsageBytes);
            var streams := config.enabled && contentLength > 0 && contentLength >= config.threshold
                && usage + contentLength <= config.maxBytes;
            && (r.Failed? <==> readFails || (streams && diskFails))
            && (r.TooLarge? <==> !r.Failed? && |body| > maxBytes)
            && (r.Stored? ==>
                  (r.s.Disk? <==>
                   || streams
                   || (config.enabled && |body| >= config.threshold && usage + |body| <= config.maxBytes
                       && !diskFails)))
  {
    if config.enabled && contentLength > 0 && contentLength >= config.threshold &&
       stats.currentDiskUsageBytes + contentLength <= config.maxBytes {
      r := NewDiskStorageFromReader(body, maxBytes, stats, readFails, diskFails);
      if r.Stored? {
        stats.diskCacheHits := stats.diskCacheHits + 1;
      }
      return;
    }
    if readFails {
      return Failed;
    }
    var data := Limited(body, maxBytes + 1);
    if |data| > maxBytes {
      return TooLarge;
    }
    var s := CreateBodyStorage(data, config, stats, diskFails);
    if s.Memory? {
      stats.memoryCacheHits := stats.memoryCacheHits + 1;
    } else {
      stats.diskCacheHits := stats.diskCacheHits + 1;
    }
    r := Stored(s);
  }

  // ----- Whole runs ------------------------------------------------------------

  datatype Event =
    | Create(data: seq<byte>, diskFails: bool)
    | FromReader(body: seq<byte>, contentLength: int, maxBytes: int, readFails: bool, diskFails: bool)
    | Use(store: nat, op: Op)

  /** The client sends no more than it declared, when it declared a length. */
  predicate Honest(e: Event) {
    e.FromReader? && e.contentLength > 0 ==> |e.body| <= e.contentLength
  }

  /** One call on a store. */
  method Call(s: Storage, op: Op, stats: Stats, ghost id: nat) returns (answer: Answer)
    requires Counted(s, stats, id) && stats.Exact()
    modifies stats, Footprint(s)
    ensures Counted(s, stats, id) && stats.Exact()
    ensures answer == Reply(old(StateOf(s)), op, s.Disk?) && StateOf(s) == After(old(StateOf(s)), op)
    ensures |stats.ledger| == |old(stats.ledger)| && forall i :: 0 <= i < |stats.ledger| && i != id ==>
              stats.ledger[i] == old(stats.ledger[i])
    ensures stats.currentDiskUsageBytes <= old(stats.currentDiskUsageBytes)
  {
    match s
    case Memory(m) =>
      match op {
        case Read(length) => answer := m.Read(length);
        case Seek(offset, whence) => answer := m.Seek(offset, whence);
        case Bytes => answer := m.Bytes();
        case Close => answer := m.Close();
      }
    case Disk(d) =>
      match op {
        case Read(length) => answer := d.Read(length);
        case Seek(offset, whence) => answer := d.Seek(offset, whence);
        case Bytes => answer := d.Bytes();
        case Close => var clamped; answer, clamped := d.Close();
      }
  }

  /** A run of calls on one store answers as its specification does. */
  method Calls(s: Storage, ops: seq<Op>, stats: Stats, ghost id: nat) returns (answers: seq<Answer>)
    requires Counted(s, stats, id) && stats.Exact()
    modifies stats, Footprint(s)
    ensures Counted(s, stats, id) && stats.Exact()
    ensures answers == Replies(old(StateOf(s)), ops, s.Disk?)
  {
    answers := [];
    ghost var start, v := StateOf(s), StateOf(s);
    for i := 0 to |ops|
      invariant Counted(s, stats, id) && stats.Exact() && StateOf(s) == v
      invariant Replies(start, ops, s.Disk?) == answers + Replies(v, ops[i..], s.Disk?)
    {
      var answer := Call(s, ops[i], stats, id);
      assert ops[i..] == [ops[i]] + ops[i + 1..];
      RepliesCons(v, ops[i], ops[i + 1..], s.Disk?);
      v := After(v, ops[i]);
      assert answers + ([answer] + Replies(v, ops[i + 1..], s.Disk?))
               == answers + [answer] + Replies(v, ops[i + 1..], s.Disk?);
      answers := answers + [answer];
    }
  }

  /** The same body kept in memory and on disk, used in the same way. */
  method Compare(data: seq<byte>, ops: seq<Op>) returns (fromMemory: seq<Answer>, fromDisk: seq<Answer>)
    ensures fromMemory == fromDisk <==> !EmptyReadAtEnd(View(data, 0, false), ops)
  {
    var stats := new Stats();
    var m := NewMemoryStorage(data, stats);
    OpenTotalsAppend([], Entry(false, |data|, true));
    fromMemory := Calls(m, ops, stats, 0);
    ghost var before := stats.ledger;
    var d := NewDiskStorage(data, stats);
    OpenTotalsAppend(before, Entry(true, |data|, true));
    fromDisk := Calls(d, ops, stats, |before|);
    SameReplies(View(data, 0, false), ops);
  }

  ghost function Objects(all: seq<Storage>): set<object> {
    set s, o | s in all && o in Footprint(s) :: o
  }

  /** Every store created so far is in the ledger under its number. */
  ghost predicate AllCounted(all: seq<Storage>, stats: Stats)
    reads Objects(all), stats
  {
    |stats.ledger| == |all| && forall i :: 0 <= i < |all| ==> Counted(all[i], stats, i)
  }

  /** A call on one store leaves the others as they were counted. */
  method UseStore(all: seq<Storage>, i: nat, op: Op, stats: Stats) returns (answer: Answer)
    requires stats.Exact() && AllCounted(all, stats) && i < |all|
    modifies stats, Objects(all)
    ensures stats.Exact() && AllCounted(all, stats)
    ensures answer == Reply(old(StateOf(all[i])), op, all[i].Disk?)
    ensures stats.currentDiskUsageBytes <= old(stats.currentDiskUsageBytes)
  {
    answer := Call(all[i], op, stats, i);
  }

  /** One event; disk usage does not rise above the maximum unless a client sends more than it declared. */
  method Step(config: Config, e: Event, stats: Stats, all0: seq<Storage>) returns (all: seq<Storage>)
    requires stats.Exact() && AllCounted(all0, stats)
    modifies stats, Objects(all0)
    ensures stats.Exact() && AllCounted(all, stats)
    ensures all0 <= all && forall i :: |all0| <= i < |all| ==> fresh(Footprint(all[i]))
    ensures Honest(e) ==>
              || stats.currentDiskUsageBytes <= config.maxBytes
              || stats.currentDiskUsageBytes <= old(stats.currentDiskUsageBytes)
  {
    all := all0;
    ghost var before := stats.ledger;
    match e
    case Create(data, diskFails) =>
      var s := CreateBodyStorage(data, config, stats, diskFails);
      OpenTotalsAppend(before, Entry(s.Disk?, |data|, true));
      all := all + [s];
    case FromReader(body, contentLength, maxBytes, readFails, diskFails) =>
      var r := CreateBodyStorageFromReader(body, contentLength, maxBytes, config, stats, readFails, diskFails);
      if r.Stored? {
        OpenTotalsAppend(before, Entry(r.s.Disk?, |body|, true));
        all := all + [r.s];
      }
    case Use(store, op) =>
      if store < |all| {
        var answer := UseStore(all, store, op, stats);
      }
  }

  /**
   Every sequence of creations and calls, closing a store any number of times included: the counters
   are exact, and the disk usage stays within the maximum when clients send what they declare.
   */
  method Run(config: Config, events: seq<Event>) returns (stats: Stats, all: seq<Storage>)
    ensures stats.Exact() && AllCounted(all, stats)
    ensures config.maxBytes >= 0 && (forall i :: 0 <= i < |events| ==> Honest(events[i])) ==>
              stats.currentDiskUsageBytes <= config.maxBytes
  {
    stats := new Stats();
    all := [];
    for k := 0 to |events|
      invariant fresh(stats) && forall i :: 0 <= i < |all| ==> fresh(Footprint(all[i]))
      invariant stats.Exact() && AllCounted(all, stats)
      invariant config.maxBytes >= 0 && (forall i :: 0 <= i < |events| ==> Honest(events[i])) ==>
                  stats.currentDiskUsageBytes <= config.maxBytes
    {
      all := Step(config, events[k], stats, all);
    }
  }

  /** Without that proviso the maximum does not hold: only the declared length is compared with it. */
  method Overrun(config: Config, body: seq<byte>) returns (stats: Stats)
    requires config.enabled && config.threshold <= 1 <= config.maxBytes < |body|
    ensures stats.Exact() && stats.currentDiskUsageBytes > config.maxBytes
  {
    stats := new Stats();
    var r := CreateBodyStorageFromReader(body, 1, |body|, config, stats, false, false);
    OpenTotalsAppend([], Entry(true, |body|, true));
  }
}
