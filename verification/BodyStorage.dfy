/**
 Request bodies are kept either in memory or in a temporary file, behind one
 interface.  The two implementations sit on different primitives (`bytes.Reader`
 and a file descriptor), so that they answer alike is something to prove.
 Offsets and sizes are 64-bit integers.
 */
module BodyStorage {
  import opened Basics
  import opened DiskCache

  type Bytes = seq<Byte>

  datatype Whence = Start | Current | End

  datatype Op = Read(n: nat) | Seek(offset: int, whence: Whence) | GetBytes | GetSize | Reopen | Close

  /** `BadSeek` stands for every refusal of a seek, whatever its error text. */
  datatype Answer = Data(bytes: Bytes) | EndOfFile | Position(pos: int) | Size(size: int) | Done | BadSeek | IsClosed

  // ----------------------------------------------------- bytes.Reader and files

  function Window(data: Bytes, pos: nat, n: nat): Bytes {
    if pos >= |data| then [] else if |data| - pos < n then data[pos..] else data[pos..pos + n]
  }

  /** `bytes.Reader.Read` reports the end even for an empty buffer. */
  function ReaderRead(data: Bytes, pos: nat, n: nat): (nat, Answer) {
    if pos >= |data| then (pos, EndOfFile)
    else (pos + |Window(data, pos, n)|, Data(Window(data, pos, n)))
  }

  /** `os.File.Read` answers an empty buffer at once. */
  function FileRead(data: Bytes, pos: nat, n: nat): (nat, Answer) {
    if n == 0 then (pos, Data([]))
    else if pos >= |data| then (pos, EndOfFile)
    else (pos + |Window(data, pos, n)|, Data(Window(data, pos, n)))
  }

  function Base(length: nat, pos: nat, whence: Whence): nat {
    match whence case Start => 0 case Current => pos case End => length
  }

  /** `bytes.Reader.Seek` adds in 64 bits and refuses a negative sum. */
  function ReaderSeek(length: nat, pos: nat, offset: int, whence: Whence): (nat, Answer) {
    var abs := Wrap(Base(length, pos, whence) + offset);
    if abs < 0 then (pos, BadSeek) else (abs, Position(abs))
  }

  /** A file seek refuses positions that are negative or do not fit an offset. */
  function FileSeek(length: nat, pos: nat, offset: int, whence: Whence): (nat, Answer) {
    var abs := Base(length, pos, whence) + offset;
    if abs < 0 || abs > MAX_INT64 then (pos, BadSeek) else (abs, Position(abs))
  }

  // ----------------------------------------------------------- memory storage

  datatype Memory = Memory(data: Bytes, pos: nat, closed: bool)

  function MemoryStep(m: Memory, op: Op): (Memory, Answer) {
    match op
    case GetSize => (m, Size(|m.data|))
    case Close => (m.(closed := true), Done)
    case Read(n) =>
      var (pos, a) := ReaderRead(m.data, m.pos, n);
      if m.closed then (m, IsClosed) else (m.(pos := pos), a)
    case Seek(offset, whence) =>
      var (pos, a) := ReaderSeek(|m.data|, m.pos, offset, whence);
      if m.closed then (m, IsClosed) else (m.(pos := pos), a)
    case GetBytes | Reopen => (m, if m.closed then IsClosed else Data(m.data))
  }

  class MemoryStorage {
    const data: Bytes
    const size: nat
    var pos: nat
    var closed: bool

    ghost function Model(): Memory
      reads this
    {
      Memory(data, pos, closed)
    }

    constructor (data: Bytes)
      ensures Model() == Memory(data, 0, false) && size == |data|
    {
      this.data := data;
      size := |data|;
      pos := 0;
      closed := false;
    }

    method Read(n: nat) returns (answer: Answer)
      modifies this
      ensures (Model(), answer) == MemoryStep(old(Model()), Op.Read(n))
    {
      if closed {
        return IsClosed;
      }
      if pos >= |data| {
        return EndOfFile;
      }
      var chunk := Window(data, pos, n);
      pos := pos + |chunk|;
      return Data(chunk);
    }

    method Seek(offset: int, whence: Whence) returns (answer: Answer)
      modifies this
      ensures (Model(), answer) == MemoryStep(old(Model()), Op.Seek(offset, whence))
    {
      if closed {
        return IsClosed;
      }
      var abs := Wrap(Base(|data|, pos, whence) + offset);
      if abs < 0 {
        return BadSeek;
      }
      pos := abs;
      return Position(abs);
    }

    method GetBytes() returns (answer: Answer)
      ensures (Model(), answer) == MemoryStep(Model(), Op.GetBytes)
    {
      return if closed then IsClosed else Data(data);
    }

    /** Only the first close is counted. */
    method Close(usage: Usage) returns (answer: Answer)
      modifies this, usage
      ensures (Model(), answer) == MemoryStep(old(Model()), Op.Close)
      ensures usage.counts == if old(closed) then old(usage.counts) else Uncounted(old(usage.counts), false, size)
    {
      if !closed {
        closed := true;
        usage.DecrementMemoryBuffers(size);
      }
      return Done;
    }
  }

  // ------------------------------------------------------------- disk storage

  /** An open file: contents and offset. */
  class File {
    const content: Bytes
    var offset: nat

    constructor (content: Bytes)
      ensures this.content == content && offset == 0
    {
      this.content := content;
      offset := 0;
    }

    method Read(n: nat) returns (answer: Answer)
      modifies this
      ensures (offset, answer) == FileRead(content, old(offset), n)
    {
      if n == 0 {
        return Data([]);
      }
      if offset >= |content| {
        return EndOfFile;
      }
      var chunk := Window(content, offset, n);
      offset := offset + |chunk|;
      return Data(chunk);
    }

    method Seek(delta: int, whence: Whence) returns (answer: Answer)
      modifies this
      ensures (offset, answer) == FileSeek(|content|, old(offset), delta, whence)
    {
      var abs := Base(|content|, offset, whence) + delta;
      if abs < 0 || abs > MAX_INT64 {
        return BadSeek;
      }
      offset := abs;
      return Position(abs);
    }
  }

  datatype Disk = Disk(content: Bytes, offset: nat, size: nat, closed: bool)

  /** `Bytes` seeks to the start, reads `size` bytes and seeks back. */
  function DiskStep(d: Disk, op: Op): (Disk, Answer) {
    match op
    case GetSize => (d, Size(d.size))
    case Close => (d.(closed := true), Done)
    case Read(n) =>
      var (offset, a) := FileRead(d.content, d.offset, n);
      if d.closed then (d, IsClosed) else (d.(offset := offset), a)
    case Seek(delta, whence) =>
      var (offset, a) := FileSeek(|d.content|, d.offset, delta, whence);
      if d.closed then (d, IsClosed) else (d.(offset := offset), a)
    case GetBytes =>
      if d.closed then (d, IsClosed)
      else if d.size > |d.content| then (d.(offset := |d.content|), EndOfFile)
      else (d, Data(d.content[..d.size]))
    case Reopen => (d, if d.closed then IsClosed else Data(d.content))
  }

  class DiskStorage {
    const file: File
    const size: nat
    var closed: bool

    ghost predicate Valid()
      reads this, file
    {
      size == |file.content| <= MAX_INT64 && file.offset <= MAX_INT64
    }

    ghost function Model(): Disk
      reads this, file
    {
      Disk(file.content, file.offset, size, closed)
    }

    constructor (data: Bytes)
      requires |data| <= MAX_INT64
      ensures Valid() && Model() == Disk(data, 0, |data|, false) && fresh(file)
    {
      file := new File(data);
      size := |data|;
      closed := false;
    }

    method Read(n: nat) returns (answer: Answer)
      requires Valid()
      modifies file
      ensures (Model(), answer) == DiskStep(old(Model()), Op.Read(n))
    {
      if closed {
        return IsClosed;
      }
      answer := file.Read(n);
    }

    method Seek(delta: int, whence: Whence) returns (answer: Answer)
      requires Valid()
      modifies file
      ensures Valid() && (Model(), answer) == DiskStep(old(Model()), Op.Seek(delta, whence))
    {
      if closed {
        return IsClosed;
      }
      answer := file.Seek(delta, whence);
    }

    method GetBytes() returns (answer: Answer)
      requires Valid()
      modifies file
      ensures Valid() && (Model(), answer) == DiskStep(old(Model()), Op.GetBytes)
    {
      if closed {
        return IsClosed;
      }
      var currentPos := file.Seek(0, Current);
      if !currentPos.Position? {
        return currentPos;
      }
      var start := file.Seek(0, Start);
      var data := ReadFull(file, size);
      var restored := file.Seek(currentPos.pos, Start);
      return Data(data);
    }

    /** Only the first close is counted. */
    method Close(usage: Usage) returns (answer: Answer)
      modifies this, usage
      ensures (Model(), answer) == DiskStep(old(Model()), Op.Close)
      ensures usage.counts == if old(closed) then old(usage.counts) else Uncounted(old(usage.counts), true, size)
    {
      if !closed {
        closed := true;
        usage.DecrementDiskFiles(size);
      }
      return Done;
    }
  }

  /** `io.ReadFull`: reads until the buffer is full. */
  method ReadFull(file: File, n: nat) returns (data: Bytes)
    requires file.offset + n <= |file.content|
    modifies file
    ensures data == file.content[old(file.offset)..old(file.offset) + n] && file.offset == old(file.offset) + n
  {
    data := [];
    while |data| < n
      invariant |data| <= n && file.offset == old(file.offset) + |data|
      invariant data == file.content[old(file.offset)..file.offset]
    {
      var answer := file.Read(n - |data|);
      data := data + answer.bytes;
    }
  }

  // ---------------------------------------------------- they cannot be told apart

  predicate Same(m: Memory, d: Disk) {
    m.data == d.content && |m.data| == d.size && m.pos == d.offset <= MAX_INT64 && |m.data| <= MAX_INT64 && m.closed == d.closed
  }

  /** The two seeks agree: a 64-bit overflow turns negative exactly where a file refuses. */
  lemma SeeksAgree(length: nat, pos: nat, offset: int, whence: Whence)
    requires length <= MAX_INT64 && pos <= MAX_INT64 && IsInt64(offset)
    ensures ReaderSeek(length, pos, offset, whence) == FileSeek(length, pos, offset, whence)
  {
  }

  /** One operation: same answer and matching states, unless an empty read meets the end. */
  lemma StepsAgreeIff(m: Memory, d: Disk, op: Op)
    requires Same(m, d) && (op.Seek? ==> IsInt64(op.offset))
    ensures MemoryStep(m, op).1 == DiskStep(d, op).1 <==> !(op == Op.Read(0) && !m.closed && m.pos >= |m.data|)
    ensures Same(MemoryStep(m, op).0, DiskStep(d, op).0)
  {
    if op.Seek? {
      SeeksAgree(|m.data|, m.pos, op.offset, op.whence);
    } else if op.GetBytes? {
      assert d.content[..d.size] == m.data;
    }
  }

  predicate Allowed(op: Op) {
    (op.Read? ==> op.n > 0) && (op.Seek? ==> IsInt64(op.offset))
  }

  function MemoryRun(m: Memory, ops: seq<Op>): seq<Answer>
    decreases ops
  {
    if ops == [] then []
    else var (m', a) := MemoryStep(m, ops[0]); [a] + MemoryRun(m', ops[1..])
  }

  function DiskRun(d: Disk, ops: seq<Op>): seq<Answer>
    decreases ops
  {
    if ops == [] then []
    else var (d', a) := DiskStep(d, ops[0]); [a] + DiskRun(d', ops[1..])
  }

  lemma {:induction false} RunsAgree(m: Memory, d: Disk, ops: seq<Op>)
    requires Same(m, d) && forall i | 0 <= i < |ops| :: Allowed(ops[i])
    ensures MemoryRun(m, ops) == DiskRun(d, ops)
    decreases ops
  {
    if ops != [] {
      assert Allowed(ops[0]);
      StepsAgreeIff(m, d, ops[0]);
      RunsAgree(MemoryStep(m, ops[0]).0, DiskStep(d, ops[0]).0, ops[1..]);
    }
  }

  /** Any sequence of non-empty reads, seeks, `Bytes`, re-opens and closes answers the
      same from memory and from disk. */
  lemma StoragesAreIndistinguishable(data: Bytes, ops: seq<Op>)
    requires |data| <= MAX_INT64 && forall i | 0 <= i < |ops| :: Allowed(ops[i])
    ensures MemoryRun(Memory(data, 0, false), ops) == DiskRun(Disk(data, 0, |data|, false), ops)
  {
    RunsAgree(Memory(data, 0, false), Disk(data, 0, |data|, false), ops);
  }

  // ------------------------------------------------------ what is answered

  /** The body from a position on; nothing, once past the end. */
  function Rest(data: Bytes, pos: nat): Bytes {
    if pos <= |data| then data[pos..] else []
  }

  function Min(a: nat, b: nat): nat {
    if a < b then a else b
  }

  /** One non-empty read: as many of the bytes at the position as there are, up to `n`. */
  lemma ReadDelivers(m: Memory, n: nat)
    requires !m.closed && n > 0
    ensures var (m', a) := MemoryStep(m, Op.Read(n));
            var left := Rest(m.data, m.pos);
            var size := Min(n, |left|);
            && m' == Memory(m.data, m.pos + size, false) && Rest(m'.data, m'.pos) == left[size..]
            && a == if left == [] then EndOfFile else Data(left[..size])
  {
  }

  /** A seek lands at the start, the position or the end, plus the offset, and is refused
      exactly where that is negative or no 64-bit integer. */
  lemma SeekLands(m: Memory, offset: int, whence: Whence)
    requires !m.closed && m.pos <= MAX_INT64 && |m.data| <= MAX_INT64 && IsInt64(offset)
    ensures var (m', a) := MemoryStep(m, Op.Seek(offset, whence));
            var target := offset + (if whence.Start? then 0 else if whence.Current? then m.pos else |m.data|);
            if 0 <= target <= MAX_INT64 then m' == Memory(m.data, target, false) && a == Position(target)
            else m' == m && a == BadSeek
  {
    WrapFacts(Base(|m.data|, m.pos, whence) + offset);
  }

  function Reading(ns: seq<nat>): seq<Op> {
    if ns == [] then [] else [Op.Read(ns[0])] + Reading(ns[1..])
  }

  function Total(ns: seq<nat>): nat {
    if ns == [] then 0 else ns[0] + Total(ns[1..])
  }

  function Delivered(answers: seq<Answer>): Bytes {
    if answers == [] then [] else (if answers[0].Data? then answers[0].bytes else []) + Delivered(answers[1..])
  }

  lemma RunOfReads(m: Memory, ns: seq<nat>)
    requires ns != []
    ensures MemoryRun(m, Reading(ns)) == [MemoryStep(m, Op.Read(ns[0])).1] + MemoryRun(MemoryStep(m, Op.Read(ns[0])).0, Reading(ns[1..]))
  {
    assert Reading(ns)[1..] == Reading(ns[1..]);
  }

  /** The bytes that reads of a total size `n` deliver from `left`. */
  function Share(left: Bytes, n: nat): Bytes {
    left[..Min(n, |left|)]
  }

  lemma ShareTwice(left: Bytes, a: nat, b: nat)
    ensures Share(left, a) + Share(left[Min(a, |left|)..], b) == Share(left, a + b)
  {
    var first := Min(a, |left|);
    TakeTwice(left, first, Min(b, |left| - first));
  }

  /** Reading on delivers the body in order, without gap or repetition, from the position on. */
  lemma {:induction false} ReadsDeliver(m: Memory, ns: seq<nat>)
    requires !m.closed && forall n | n in ns :: n > 0
    ensures |MemoryRun(m, Reading(ns))| == |ns|
    ensures Delivered(MemoryRun(m, Reading(ns))) == Share(Rest(m.data, m.pos), Total(ns))
    decreases ns
  {
    if ns != [] {
      var (m', a) := MemoryStep(m, Op.Read(ns[0]));
      assert ns[0] in ns && forall n | n in ns[1..] :: n in ns;
      ReadDelivers(m, ns[0]);
      ReadsDeliver(m', ns[1..]);
      RunOfReads(m, ns);
      DeliveredCons(a, MemoryRun(m', Reading(ns[1..])));
      ShareTwice(Rest(m.data, m.pos), ns[0], Total(ns[1..]));
    }
  }

  lemma TakeTwice(s: Bytes, a: nat, b: nat)
    requires a + b <= |s|
    ensures s[..a] + s[a..][..b] == s[..a + b]
  {
  }

  lemma DeliveredCons(a: Answer, answers: seq<Answer>)
    ensures Delivered([a] + answers) == (if a.Data? then a.bytes else []) + Delivered(answers)
  {
    assert ([a] + answers)[1..] == answers;
  }

  lemma DeliveredLater(m: Memory, ns: seq<nat>, i: nat)
    requires !m.closed && (forall n | n in ns :: n > 0) && 0 < i <= |ns|
    requires |MemoryRun(m, Reading(ns))| == |ns|
    ensures var m' := MemoryStep(m, Op.Read(ns[0])).0;
            && |MemoryRun(m', Reading(ns[1..]))| == |ns| - 1
            && (Delivered(MemoryRun(m, Reading(ns))[..i]) == Rest(m.data, m.pos)
                <==> Delivered(MemoryRun(m', Reading(ns[1..]))[..i - 1]) == Rest(m'.data, m'.pos))
  {
    var (m', a) := MemoryStep(m, Op.Read(ns[0]));
    var later := MemoryRun(m', Reading(ns[1..]));
    assert ns[0] in ns;
    ReadDelivers(m, ns[0]);
    RunOfReads(m, ns);
    assert MemoryRun(m, Reading(ns))[..i] == [a] + later[..i - 1];
    DeliveredCons(a, later[..i - 1]);
    var chunk := if a.Data? then a.bytes else [];
    assert Rest(m.data, m.pos) == chunk + Rest(m'.data, m'.pos);
    CancelLeft(chunk, Delivered(later[..i - 1]), Rest(m'.data, m'.pos));
  }

  /** Each answer is a non-empty chunk that fits the buffer, or the end, and the end comes
      exactly when everything has been delivered. */
  lemma {:induction false} EndIsExact(m: Memory, ns: seq<nat>, i: nat)
    requires !m.closed && (forall n | n in ns :: n > 0) && i < |ns|
    ensures |MemoryRun(m, Reading(ns))| == |ns|
    ensures var a := MemoryRun(m, Reading(ns))[i];
            if Delivered(MemoryRun(m, Reading(ns))[..i]) == Rest(m.data, m.pos) then a == EndOfFile
            else a.Data? && 0 < |a.bytes| <= ns[i]
    decreases ns
  {
    assert ns[0] in ns && forall n | n in ns[1..] :: n in ns;
    ReadsDeliver(m, ns);
    RunOfReads(m, ns);
    if i == 0 {
      ReadDelivers(m, ns[0]);
    } else {
      var m' := MemoryStep(m, Op.Read(ns[0])).0;
      assert !m'.closed;
      EndIsExact(m', ns[1..], i - 1);
      DeliveredLater(m, ns, i);
      assert MemoryRun(m, Reading(ns))[i] == MemoryRun(m', Reading(ns[1..]))[i - 1] && ns[1..][i - 1] == ns[i];
    }
  }

  lemma CancelLeft(a: Bytes, b: Bytes, c: Bytes)
    ensures a + b == a + c <==> b == c
  {
    assert (a + b)[|a|..] == b && (a + c)[|a|..] == c;
  }

  predicate ClosedBy(closed: bool, ops: seq<Op>) {
    closed || exists i | 0 <= i < |ops| :: ops[i].Close?
  }

  /** Over every run: size and close always succeed, every other operation is refused
      exactly after a close, and until then the whole body can be had, whatever has been
      read, sought or had before. */
  lemma {:induction false} RunServesBody(m: Memory, ops: seq<Op>, i: nat)
    requires i < |ops|
    ensures |MemoryRun(m, ops)| == |ops|
    ensures var a := MemoryRun(m, ops)[i];
            match ops[i]
            case GetSize => a == Size(|m.data|)
            case Close => a == Done
            case GetBytes => a == if ClosedBy(m.closed, ops[..i]) then IsClosed else Data(m.data)
            case Reopen => a == if ClosedBy(m.closed, ops[..i]) then IsClosed else Data(m.data)
            case Read(_) => a == IsClosed <==> ClosedBy(m.closed, ops[..i])
            case Seek(_, _) => a == IsClosed <==> ClosedBy(m.closed, ops[..i])
    decreases ops
  {
    var m' := MemoryStep(m, ops[0]).0;
    if i > 0 {
      RunServesBody(m', ops[1..], i - 1);
      ClosedCons(m.closed, ops[..i]);
      assert ops[..i][1..] == ops[1..][..i - 1] && ops[1..][i - 1] == ops[i];
    } else {
      RunLength(m', ops[1..]);
    }
  }

  lemma ClosedCons(closed: bool, ops: seq<Op>)
    requires ops != []
    ensures ClosedBy(closed, ops) <==> ClosedBy(closed || ops[0].Close?, ops[1..])
  {
    if i :| 0 < i < |ops| && ops[i].Close? {
      assert ops[1..][i - 1].Close?;
    }
  }

  lemma {:induction false} RunLength(m: Memory, ops: seq<Op>)
    ensures |MemoryRun(m, ops)| == |ops|
    decreases ops
  {
    if ops != [] {
      RunLength(MemoryStep(m, ops[0]).0, ops[1..]);
    }
  }

  /** So a fresh storage of either kind, read on in chunks of any size, gives back its body. */
  lemma EitherDeliversItsBody(data: Bytes, ns: seq<nat>)
    requires |data| <= MAX_INT64 && (forall n | n in ns :: n > 0) && Total(ns) >= |data|
    ensures Delivered(MemoryRun(Memory(data, 0, false), Reading(ns))) == data
    ensures Delivered(DiskRun(Disk(data, 0, |data|, false), Reading(ns))) == data
  {
    ReadsDeliver(Memory(data, 0, false), ns);
    ReadingIsAllowed(ns);
    StoragesAreIndistinguishable(data, Reading(ns));
  }

  lemma {:induction false} ReadingIsAllowed(ns: seq<nat>)
    requires forall n | n in ns :: n > 0
    ensures forall i | 0 <= i < |Reading(ns)| :: Allowed(Reading(ns)[i])
    decreases ns
  {
    if ns != [] {
      assert ns[0] in ns && forall n | n in ns[1..] :: n in ns;
      ReadingIsAllowed(ns[1..]);
      assert Allowed(Op.Read(ns[0]));
    }
  }

  // ------------------------------------------------------ creation from a reader

  datatype Created = Body(data: Bytes) | TooLarge

  /** `io.LimitReader(reader, maxBytes + 1)`, drained: the limit is a 64-bit sum. */
  function Limited(stream: Bytes, maxBytes: int): Bytes {
    var limit := Wrap(maxBytes + 1);
    if limit <= 0 then [] else if limit < |stream| then stream[..limit] else stream
  }

  /** What either path of `CreateBodyStorageFromReader` stores. */
  function FromReader(stream: Bytes, maxBytes: int): Created {
    var data := Limited(stream, maxBytes);
    if |data| > maxBytes then TooLarge else Body(data)
  }

  /** Creation stores exactly the whole stream when it is short enough and refuses it
      otherwise, except under the largest possible limit, where `maxBytes + 1` overflows. */
  lemma FromReaderIsExactIff(stream: Bytes, maxBytes: int)
    requires IsInt64(maxBytes)
    ensures FromReader(stream, maxBytes) == (if |stream| <= maxBytes then Body(stream) else TooLarge)
            <==> !(maxBytes == MAX_INT64 && stream != [])
    ensures maxBytes == MAX_INT64 ==> FromReader(stream, maxBytes) == Body([])
    ensures Limited(stream, maxBytes) <= stream && (maxBytes >= 0 ==> |Limited(stream, maxBytes)| <= maxBytes + 1)
  {
  }
}
