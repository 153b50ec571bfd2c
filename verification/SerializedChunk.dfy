/**
 One chunk of a serialized log: a fixed-size byte buffer that is appended to, then compressed, and
 decompressed again for as long as some reader is attached.

 `Chunk` is the abstract value of a chunk; `SerializedLogChunk` is the byte-level object, whose every
 method is proved to move the abstract value exactly as the matching function on `Chunk` says.
 */
module SerializedChunk {
  import opened Bytes
  import opened EntryLayout

  const CHUNK_STRUCT_SIZE := 80   // sizeof(SerializedLogChunk) with 8-byte pointers

  /** A compressor and its inverse; the daemon uses zstd. */
  datatype Engine = Engine(compress: seq<byte> -> seq<byte>, decompress: seq<byte> -> seq<byte>) {
    ghost predicate Lossless() {
      forall x :: decompress(compress(x)) == x && compress(x) != []
    }
  }

  /**
   `compressedLen` is 0 until writing finishes; `readers` lists attached readers in attach order.
   */
  datatype Chunk<R> = Chunk(entries: seq<Entry>, capacity: nat, writable: bool, compressedLen: nat,
                            highest: nat, refCount: nat, readers: seq<R>)

  function NewChunk<R>(size: nat): Chunk<R> { Chunk([], size, true, 0, 1, 0, []) }

  /** Entries may be looked at: CHECK(writer_active_ || reader_ref_count_ > 0). */
  predicate Accessible<R>(c: Chunk<R>) { c.writable || c.refCount > 0 }

  function WriteOffset<R>(c: Chunk<R>): nat { Size(c.entries) }

  /** SerializedLogChunk::PruneSize on the abstract chunk. */
  function ChunkSize<R>(c: Chunk<R>): nat {
    CHUNK_STRUCT_SIZE + if c.compressedLen != 0 then c.compressedLen else c.capacity
  }

  /** Nothing is compressed while the chunk is written to, and exactly its entries are once it is finished. */
  ghost predicate Packed<R>(c: Chunk<R>, engine: Engine)
  {
    c.compressedLen == if c.writable then 0 else |engine.compress(EncodeAll(c.entries))|
  }

  function Finish<R>(c: Chunk<R>, engine: Engine): Chunk<R> {
    c.(writable := false, compressedLen := |engine.compress(EncodeAll(c.entries))|)
  }

  function AddEntry<R>(c: Chunk<R>, e: Entry): Chunk<R> {
    c.(entries := c.entries + [e], highest := e.sequence)
  }

  function Attach<R>(c: Chunk<R>, r: R): Chunk<R> {
    c.(readers := c.readers + [r], refCount := c.refCount + 1)
  }

  function Detach<R(==)>(c: Chunk<R>, r: R): Chunk<R>
    requires r in c.readers && c.refCount > 0
  {
    c.(readers := RemoveFirst(c.readers, r), refCount := c.refCount - 1)
  }

  /** std::find followed by erase. */
  function RemoveFirst<R(==)>(s: seq<R>, r: R): (t: seq<R>)
    requires r in s
    ensures |t| == |s| - 1
    ensures multiset(t) == multiset(s) - multiset{r}
  {
    if s[0] == r then
      assert s == [r] + s[1..];
      s[1..]
    else
      assert s == [s[0]] + s[1..];
      [s[0]] + RemoveFirst(s[1..], r)
  }

  /** SerializedData::Resize: keep the common prefix, reuse the buffer when the size is unchanged. */
  method Resize(data: array<byte>, newSize: nat) returns (resized: array<byte>)
    ensures resized.Length == newSize
    ensures forall i :: 0 <= i < newSize && i < data.Length ==> resized[i] == data[i]
    ensures resized == data || fresh(resized)
  {
    if data.Length == newSize {
      return data;
    }
    resized := new byte[newSize];
    var copySize := if data.Length < newSize then data.Length else newSize;
    for i := 0 to copySize
      invariant forall j :: 0 <= j < i ==> resized[j] == data[j]
    {
      resized[i] := data[i];
    }
  }

  class SerializedLogChunk<R(==)> {
    const engine: Engine
    ghost const capacity: nat
    var contents: array<byte>
    var writeOffset: nat
    var readerRefCount: nat
    var writerActive: bool
    var highestSequenceNumber: nat
    var compressedLog: seq<byte>
    var readers: seq<R>
    ghost var logged: seq<Entry>    // every entry ever written here, in order

    /** Whenever the bytes may be looked at they are the logged entries; otherwise they are freed. */
    ghost predicate Valid()
      reads this, contents
    {
      && engine.Lossless()
      && writeOffset == Size(logged)
      && (writerActive ==> compressedLog == [] && contents.Length == capacity)
      && (!writerActive ==> compressedLog == engine.compress(EncodeAll(logged)))
      && (writerActive || readerRefCount > 0 ==>
            writeOffset <= contents.Length && contents[..writeOffset] == EncodeAll(logged))
      && (!writerActive && readerRefCount == 0 ==> contents.Length == 0)
    }

    ghost function View(): Chunk<R>
      reads this
    {
      Chunk(logged, capacity, writerActive, |compressedLog|, highestSequenceNumber, readerRefCount, readers)
    }

    constructor (engine: Engine, size: nat)
      requires engine.Lossless()
      ensures Valid() && fresh(contents) && View() == NewChunk(size) && this.engine == engine
    {
      this.engine := engine;
      capacity := size;
      contents := new byte[size];
      writeOffset, readerRefCount, writerActive, highestSequenceNumber := 0, 0, true, 1;
      compressedLog, readers, logged := [], [], [];
    }

    method FinishWriting()
      requires Valid() && writerActive
      modifies this
      ensures Valid() && (contents == old(contents) || fresh(contents))
      ensures View() == Finish(old(View()), engine)
    {
      writerActive := false;
      assert |compressedLog| == 0;   // CHECK_EQ(compressed_log_.size(), 0U)
      compressedLog := engine.compress(contents[..writeOffset]);
      if readerRefCount == 0 {
        contents := Resize(contents, 0);
      }
    }

    method IncReaderRefCount()
      requires Valid()
      modifies this
      ensures Valid() && (contents == old(contents) || fresh(contents))
      ensures View() == old(View()).(refCount := old(View()).refCount + 1)
    {
      readerRefCount := readerRefCount + 1;
      if readerRefCount != 1 || writerActive {
        return;
      }
      EncodeAllLen(logged);
      var bytes := engine.decompress(compressedLog);
      contents := new byte[writeOffset](i requires 0 <= i < |bytes| => bytes[i]);
      assert contents[..writeOffset] == bytes;
    }

    method DecReaderRefCount()
      requires Valid() && readerRefCount != 0   // CHECK_NE(reader_ref_count_, 0U)
      modifies this
      ensures Valid() && (contents == old(contents) || fresh(contents))
      ensures View() == old(View()).(refCount := old(View()).refCount - 1)
    {
      readerRefCount := readerRefCount - 1;
      if readerRefCount != 0 {
        return;
      }
      if !writerActive {
        contents := Resize(contents, 0);
      }
    }

    method AttachReader(reader: R)
      requires Valid()
      modifies this
      ensures Valid() && (contents == old(contents) || fresh(contents))
      ensures View() == Attach(old(View()), reader)
    {
      readers := readers + [reader];
      IncReaderRefCount();
    }

    method DetachReader(reader: R)
      requires Valid() && reader in readers && readerRefCount > 0   // CHECK(readers_.end() != it)
      modifies this
      ensures Valid() && (contents == old(contents) || fresh(contents))
      ensures View() == Detach(old(View()), reader)
    {
      readers := RemoveFirst(readers, reader);
      DecReaderRefCount();
    }

    method CanLog(len: nat) returns (ok: bool)
      requires Valid() && writerActive
      ensures ok <==> WriteOffset(View()) + len <= View().capacity
    {
      ok := writeOffset + len <= contents.Length;
    }

    /** Overlays the entry at the write offset, byte by byte. */
    method Log(e: Entry)
      requires Valid() && writerActive && writeOffset + TotalLen(e) <= contents.Length
      modifies this, contents
      ensures Valid() && contents == old(contents)
      ensures View() == AddEntry(old(View()), e)
    {
      hide Encode, EncodeAll, Size;
      var bytes := Encode(e);
      for i := 0 to |bytes|
        modifies contents
        invariant contents[..writeOffset] == old(contents[..writeOffset])
        invariant contents[writeOffset..writeOffset + i] == bytes[..i]
      {
        contents[writeOffset + i] := bytes[i];
        assert bytes[..i + 1] == bytes[..i] + [bytes[i]];
      }
      EncodeAllSnoc(logged, e);
      SizeSnoc(logged, e);
      logged := logged + [e];
      writeOffset := writeOffset + |bytes|;
      assert contents[..writeOffset] == old(contents[..writeOffset]) + bytes;
      highestSequenceNumber := e.sequence;
    }

    /** What the chunk takes up: its struct and its compressed bytes, or the whole buffer while nothing is compressed. */
    method PruneSize() returns (size: nat)
      requires Valid()
      ensures size == CHUNK_STRUCT_SIZE + if writerActive then contents.Length else |engine.compress(EncodeAll(logged))|
      ensures size == ChunkSize(View())
    {
      size := CHUNK_STRUCT_SIZE + if |compressedLog| != 0 then |compressedLog| else contents.Length;
    }

    /** The entry at a byte offset. */
    method LogEntry(offset: nat) returns (e: Entry)
      requires Valid() && Accessible(View())   // CHECK(writer_active_ || reader_ref_count_ > 0)
      requires OnBoundary(logged, offset) && offset < writeOffset
      ensures IndexAt(logged, offset) < |logged| && e == logged[IndexAt(logged, offset)]
    {
      var bytes := contents[..];
      assert bytes == EncodeAll(logged) + contents[writeOffset..] by {
        assert bytes == contents[..writeOffset] + contents[writeOffset..];
      }
      DecodeAtBoundary(logged, offset, contents[writeOffset..]);
      e := DecodeAt(bytes, offset).value;
    }

    /** Range-for over the chunk: whatever its life so far, it yields exactly the logged entries. */
    method Iterate() returns (es: seq<Entry>)
      requires Valid() && Accessible(View())
      ensures es == View().entries
    {
      hide OnBoundary, Size, EncodeAll, DecodeAt;
      es := [];
      var offset := 0;
      assert OnBoundary(logged, 0) && IndexAt(logged, 0) == 0 by { BoundaryStart(logged); }
      while offset != writeOffset
        invariant OnBoundary(logged, offset) && offset <= writeOffset
        invariant es == logged[..IndexAt(logged, offset)]
        decreases writeOffset - offset
      {
        BoundaryStep(logged, offset);
        var e := LogEntry(offset);
        es := es + [e];
        offset := offset + TotalLen(e);
        BoundaryStep(logged, offset);
      }
      BoundaryStep(logged, offset);
    }
  }

  // ---- The life of a chunk ----

  datatype ChunkStep = LogIt(e: Entry) | FinishIt | Hold | LetGo

  /** What a step does to the abstract chunk; one that its caller may not take does nothing. */
  function Stepped<R>(c: Chunk<R>, step: ChunkStep, engine: Engine): Chunk<R>
  {
    match step
    case LogIt(e) => if c.writable && WriteOffset(c) + TotalLen(e) <= c.capacity then AddEntry(c, e) else c
    case FinishIt => if c.writable then Finish(c, engine) else c
    case Hold => c.(refCount := c.refCount + 1)
    case LetGo => if c.refCount > 0 then c.(refCount := c.refCount - 1) else c
  }

  function LivedThrough<R>(c: Chunk<R>, steps: seq<ChunkStep>, engine: Engine): Chunk<R>
  {
    if steps == [] then c else Stepped(LivedThrough(c, steps[..|steps| - 1], engine), steps[|steps| - 1], engine)
  }

  /** The entries that found room before writing finished, in order. */
  function Taken(steps: seq<ChunkStep>, size: nat): (es: seq<Entry>)
  {
    if steps == [] then []
    else
      var before, last := Taken(steps[..|steps| - 1], size), steps[|steps| - 1];
      if last.LogIt? && FinishIt !in steps[..|steps| - 1] && Size(before) + TotalLen(last.e) <= size then before + [last.e] else before
  }

  lemma {:induction false} EntriesTaken<R>(steps: seq<ChunkStep>, size: nat, engine: Engine)
    ensures var c := LivedThrough(NewChunk<R>(size), steps, engine);
      c.entries == Taken(steps, size) && c.capacity == size && (c.writable <==> FinishIt !in steps)
  {
    if steps != [] {
      EntriesTaken<R>(steps[..|steps| - 1], size, engine);
      assert steps == steps[..|steps| - 1] + [steps[|steps| - 1]];
    }
  }

  /**
   Any life of a chunk, byte for byte: whenever its entries may be looked at, iterating over them yields
   exactly those that were logged, whatever was compressed, freed and brought back in between.
   */
  method LiveThrough(engine: Engine, size: nat, steps: seq<ChunkStep>) returns (accessible: bool, es: seq<Entry>)
    requires engine.Lossless()
    ensures accessible ==> es == Taken(steps, size)
    ensures accessible <==> Accessible(LivedThrough(NewChunk<int>(size), steps, engine))
  {
    var c := new SerializedLogChunk<int>(engine, size);
    for k := 0 to |steps|
      invariant fresh(c) && fresh(c.contents) && c.Valid() && c.engine == engine
      invariant c.View() == LivedThrough(NewChunk<int>(size), steps[..k], engine)
    {
      assert steps[..k + 1][..k] == steps[..k];
      TakeStep(c, steps[k]);
    }
    assert steps[..|steps|] == steps;
    EntriesTaken<int>(steps, size, engine);
    accessible, es := c.writerActive || c.readerRefCount > 0, [];
    if accessible {
      es := c.Iterate();
    }
  }

  method TakeStep(c: SerializedLogChunk<int>, step: ChunkStep)
    requires c.Valid()
    modifies c, c.contents
    ensures c.Valid() && (c.contents == old(c.contents) || fresh(c.contents))
    ensures c.View() == Stepped(old(c.View()), step, c.engine)
  {
    hide EncodeAll, Size;
    match step {
      case LogIt(e) =>
        if c.writerActive {
          var ok := c.CanLog(TotalLen(e));
          if ok {
            c.Log(e);
          }
        }
      case FinishIt =>
        if c.writerActive {
          c.FinishWriting();
        }
      case Hold => c.IncReaderRefCount();
      case LetGo =>
        if c.readerRefCount > 0 {
          c.DecReaderRefCount();
        }
    }
  }
}
