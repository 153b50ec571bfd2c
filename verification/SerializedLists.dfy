/**
 The chunk list of one log id as a value: its flat entry sequence, cursors into it, and the link
 between the cursors readers hold and the readers each chunk lists.
 */
module SerializedLists {
  import opened Bytes
  import opened EntryLayout
  import opened SerializedChunk

  const CHUNK_SIZE_DIVISOR := 4
  const MIN_BUFFER := 65536               // kLogBufferMinSize
  const MAX_BUFFER := 268435456           // kLogBufferMaxSize

  /** `base` counts the chunks erased from the front, so `base + j` names chunk j for its whole life, as a list iterator does. */
  datatype LogList<R> = LogList(base: nat, chunks: seq<Chunk<R>>)

  /** A list iterator and a byte offset into the chunk it refers to. */
  datatype Position = Position(chunk: nat, offset: nat)

  /** The entries of a chunk list, oldest first. */
  function Flat<R>(cs: seq<Chunk<R>>): seq<Entry>
  {
    if cs == [] then [] else cs[0].entries + Flat(cs[1..])
  }

  predicate Sorted(es: seq<Entry>)
  {
    forall i, j :: 0 <= i < j < |es| ==> es[i].sequence < es[j].sequence
  }

  predicate Live<R>(l: LogList<R>, p: Position)
  {
    l.base <= p.chunk < l.base + |l.chunks|
  }

  function ChunkAt<R>(l: LogList<R>, p: Position): Chunk<R>
    requires Live(l, p)
  {
    l.chunks[p.chunk - l.base]
  }

  /** The cursor points between two entries of a live chunk. */
  predicate ValidPos<R>(l: LogList<R>, p: Position)
  {
    Live(l, p) && OnBoundary(ChunkAt(l, p).entries, p.offset)
  }

  /** How many entries of the flat sequence lie before the cursor. */
  function At<R>(l: LogList<R>, p: Position): nat
    requires ValidPos(l, p)
  {
    |Flat(l.chunks[..p.chunk - l.base])| + IndexAt(ChunkAt(l, p).entries, p.offset)
  }

  /** Only the back chunk is writable; the others are compressed and hold something. */
  predicate Shaped<R>(cs: seq<Chunk<R>>)
  {
    && (forall j :: 0 <= j < |cs| - 1 ==> !cs[j].writable && cs[j].compressedLen > 0 && cs[j].entries != [])
    && (cs != [] ==> Writable(cs[|cs| - 1]))
    && (forall j :: 0 <= j < |cs| ==> HighestOk(cs[j]))
  }

  predicate Writable<R>(c: Chunk<R>)
  {
    && c.writable && c.compressedLen == 0
    && Size(c.entries) <= c.capacity && MIN_BUFFER / CHUNK_SIZE_DIVISOR <= c.capacity
  }

  predicate HighestOk<R>(c: Chunk<R>)
  {
    c.entries != [] ==> c.highest == c.entries[|c.entries| - 1].sequence
  }

  ghost predicate Distinct<R>(s: seq<R>)
  {
    forall x :: x in s ==> multiset(s)[x] == 1
  }

  /**
   Every cursor is valid and its chunk lists its reader exactly once; every listed reader has its
   cursor there; the reference count is the number of listed readers.
   */
  ghost predicate Linked<R>(l: LogList<R>, cur: map<R, Position>)
  {
    && (forall r :: r in cur ==> Holds(l, cur[r], r))
    && (forall j :: 0 <= j < |l.chunks| ==> Counted(l.chunks[j]))
    && (forall j, r :: 0 <= j < |l.chunks| && r in l.chunks[j].readers ==> r in cur && cur[r].chunk == l.base + j)
  }

  ghost predicate Holds<R>(l: LogList<R>, p: Position, r: R)
  {
    ValidPos(l, p) && r in ChunkAt(l, p).readers
  }

  ghost predicate Counted<R>(c: Chunk<R>)
  {
    Distinct(c.readers) && c.refCount == |c.readers|
  }

  // ---- The flat sequence ----

  lemma {:induction false} FlatConcat<R>(a: seq<Chunk<R>>, b: seq<Chunk<R>>)
    ensures Flat(a + b) == Flat(a) + Flat(b)
  {
    if a == [] {
      assert a + b == b;
    } else {
      assert (a + b)[1..] == a[1..] + b;
      FlatConcat(a[1..], b);
    }
  }

  lemma FlatOne<R>(c: Chunk<R>)
    ensures Flat([c]) == c.entries
  {
    assert [c][1..] == [];
  }

  lemma FlatSplit<R>(cs: seq<Chunk<R>>, j: nat)
    requires j < |cs|
    ensures Flat(cs) == Flat(cs[..j]) + cs[j].entries + Flat(cs[j + 1..])
  {
    hide Flat;
    var rest := cs[j..];
    assert cs == cs[..j] + rest && rest[0] == cs[j] && rest[1..] == cs[j + 1..];
    FlatConcat(cs[..j], rest);
    FrontOfFlat(rest);
    Associates(Flat(cs[..j]), cs[j].entries, Flat(cs[j + 1..]));
  }

  lemma Associates<T>(a: seq<T>, b: seq<T>, c: seq<T>)
    ensures a + (b + c) == a + b + c
  {
  }

  lemma FrontOfFlat<R>(cs: seq<Chunk<R>>)
    requires cs != []
    ensures Flat(cs) == cs[0].entries + Flat(cs[1..])
  {
  }

  lemma FlatNext<R>(cs: seq<Chunk<R>>, j: nat)
    requires j < |cs|
    ensures Flat(cs[..j + 1]) == Flat(cs[..j]) + cs[j].entries
  {
    assert cs[..j + 1] == cs[..j] + [cs[j]];
    FlatConcat(cs[..j], [cs[j]]);
    FlatOne(cs[j]);
  }

  /** A cursor with bytes left in its chunk is at the entry the flat sequence has at that index. */
  lemma AtEntry<R>(l: LogList<R>, p: Position)
    requires ValidPos(l, p)
    ensures var c, k := ChunkAt(l, p), IndexAt(ChunkAt(l, p).entries, p.offset);
      && p.offset <= WriteOffset(c) && At(l, p) <= |Flat(l.chunks)|
      && (p.offset < WriteOffset(c) ==>
            && k < |c.entries| && At(l, p) < |Flat(l.chunks)|
            && Flat(l.chunks)[At(l, p)] == c.entries[k]
            && ValidPos(l, Position(p.chunk, p.offset + TotalLen(c.entries[k])))
            && At(l, Position(p.chunk, p.offset + TotalLen(c.entries[k]))) == At(l, p) + 1)
  {
    var j := p.chunk - l.base;
    FlatSplit(l.chunks, j);
    BoundaryStep(ChunkAt(l, p).entries, p.offset);
  }

  lemma AtBound<R>(l: LogList<R>, p: Position)
    requires ValidPos(l, p)
    ensures At(l, p) <= |Flat(l.chunks)|
  {
    AtEntry(l, p);
  }

  /** The end of one chunk and the start of the next are the same place. */
  lemma AtNextChunk<R>(l: LogList<R>, p: Position)
    requires ValidPos(l, p) && p.offset == WriteOffset(ChunkAt(l, p)) && p.chunk + 1 < l.base + |l.chunks|
    ensures ValidPos(l, Position(p.chunk + 1, 0)) && At(l, Position(p.chunk + 1, 0)) == At(l, p)
  {
    FlatNext(l.chunks, p.chunk - l.base);
    BoundaryStep(ChunkAt(l, p).entries, p.offset);
  }

  /** In the back chunk, the end of the chunk is the end of the log. */
  lemma AtBack<R>(l: LogList<R>, p: Position)
    requires ValidPos(l, p) && p.chunk + 1 == l.base + |l.chunks|
    ensures At(l, p) == |Flat(l.chunks)| <==> p.offset == WriteOffset(ChunkAt(l, p))
  {
    FlatSplit(l.chunks, p.chunk - l.base);
    assert l.chunks[p.chunk - l.base + 1..] == [];
    BoundaryStep(ChunkAt(l, p).entries, p.offset);
  }

  // ---- Changing who is attached leaves contents alone ----

  /** Equal but for who is attached. */
  predicate SameChunk<R>(c: Chunk<R>, d: Chunk<R>)
  {
    && c.entries == d.entries && c.capacity == d.capacity && c.writable == d.writable
    && c.compressedLen == d.compressedLen && c.highest == d.highest
  }

  predicate SameEntries<R>(l: LogList<R>, m: LogList<R>)
  {
    l.base == m.base && |l.chunks| == |m.chunks| &&
    forall j :: 0 <= j < |l.chunks| ==> SameChunk(l.chunks[j], m.chunks[j])
  }

  lemma SameBack<R>(l: LogList<R>, m: LogList<R>)
    requires SameEntries(l, m) && l.chunks != []
    ensures ChunkSize(l.chunks[|l.chunks| - 1]) == ChunkSize(m.chunks[|m.chunks| - 1])
  {
    assert SameChunk(l.chunks[|l.chunks| - 1], m.chunks[|m.chunks| - 1]);
  }

  lemma {:induction false} SameFlat<R>(a: seq<Chunk<R>>, b: seq<Chunk<R>>)
    requires |a| == |b| && forall j :: 0 <= j < |a| ==> a[j].entries == b[j].entries
    ensures Flat(a) == Flat(b)
  {
    if a != [] { SameFlat(a[1..], b[1..]); }
  }

  lemma SameAt<R>(l: LogList<R>, m: LogList<R>, p: Position)
    requires SameEntries(l, m)
    ensures Flat(l.chunks) == Flat(m.chunks)
    ensures ValidPos(l, p) <==> ValidPos(m, p)
    ensures ValidPos(l, p) ==> At(l, p) == At(m, p)
  {
    assert forall j :: 0 <= j < |l.chunks| ==> SameChunk(l.chunks[j], m.chunks[j]);
    SameFlat(l.chunks, m.chunks);
    if ValidPos(l, p) {
      var j := p.chunk - l.base;
      SameFlat(l.chunks[..j], m.chunks[..j]);
    }
  }

  function WithChunk<R>(l: LogList<R>, p: Position, c: Chunk<R>): LogList<R>
    requires Live(l, p)
  {
    l.(chunks := l.chunks[p.chunk - l.base := c])
  }

  /** Chunk j with exactly the given readers attached. */
  function WithReaders<R>(l: LogList<R>, j: nat, rest: seq<R>): LogList<R>
    requires j < |l.chunks|
  {
    l.(chunks := l.chunks[j := l.chunks[j].(readers := rest, refCount := |rest|)])
  }

  lemma WithOwnReaders<R>(l: LogList<R>, j: nat)
    requires j < |l.chunks| && Counted(l.chunks[j])
    ensures WithReaders(l, j, l.chunks[j].readers) == l
  {
    assert l.chunks[j := l.chunks[j]] == l.chunks;
  }

  lemma DetachFirst<R>(l: LogList<R>, j: nat, rest: seq<R>, p: Position)
    requires j < |l.chunks| && rest != [] && p.chunk == l.base + j
    ensures var m := WithReaders(l, j, rest);
      && Live(m, p) && rest[0] in ChunkAt(m, p).readers && ChunkAt(m, p).refCount > 0
      && WithChunk(m, p, Detach(ChunkAt(m, p), rest[0])) == WithReaders(l, j, rest[1..])
  {
  }

  /** A chunk with everybody detached. */
  function Deserted<R>(c: Chunk<R>): Chunk<R> { c.(readers := [], refCount := 0) }

  lemma DesertedReaders<R>(l: LogList<R>, j: nat)
    requires j < |l.chunks|
    ensures WithReaders(l, j, []) == l.(chunks := l.chunks[j := Deserted(l.chunks[j])])
  {
  }

  lemma LinkedChunk<R>(l: LogList<R>, cur: map<R, Position>, j: nat)
    requires Linked(l, cur) && j < |l.chunks|
    ensures Counted(l.chunks[j])
  {
  }

  lemma LinkedReader<R>(l: LogList<R>, cur: map<R, Position>, j: nat, r: R)
    requires Linked(l, cur) && j < |l.chunks| && r in l.chunks[j].readers
    ensures r in cur && cur[r].chunk == l.base + j
  {
  }

  lemma AttachSame<R>(l: LogList<R>, p: Position, r: R)
    requires Live(l, p)
    ensures SameEntries(l, WithChunk(l, p, Attach(ChunkAt(l, p), r)))
    ensures forall j :: 0 <= j < |l.chunks| && j != p.chunk - l.base ==> WithChunk(l, p, Attach(ChunkAt(l, p), r)).chunks[j] == l.chunks[j]
    ensures WithChunk(l, p, Attach(ChunkAt(l, p), r)).chunks[p.chunk - l.base].readers == ChunkAt(l, p).readers + [r]
  {
  }

  lemma HoldsKept<R>(l: LogList<R>, m: LogList<R>, p: Position, q: R)
    requires SameEntries(l, m) && ValidPos(l, p) && q in m.chunks[p.chunk - l.base].readers
    ensures Holds(m, p, q)
  {
    SameAt(l, m, p);
  }

  lemma AttachLinked<R>(l: LogList<R>, cur: map<R, Position>, r: R, p: Position)
    requires Linked(l, cur) && r !in cur && ValidPos(l, p)
    ensures Linked(WithChunk(l, p, Attach(ChunkAt(l, p), r)), cur[r := p])
  {
    var m, j, next := WithChunk(l, p, Attach(ChunkAt(l, p), r)), p.chunk - l.base, cur[r := p];
    assert Counted(m.chunks[j]) by {
      var s := l.chunks[j].readers;
      assert r !in s && Counted(l.chunks[j]);
      assert multiset(s + [r]) == multiset(s) + multiset{r};
    }
    hide Counted, ValidPos, Attach, WithChunk;
    AttachSame(l, p, r);
    forall q | q in next
      ensures Holds(m, next[q], q)
    {
      assert q != r ==> Holds(l, cur[q], q);
      HoldsKept(l, m, next[q], q);
    }
  }

  lemma DetachSame<R>(l: LogList<R>, p: Position, r: R)
    requires Live(l, p) && r in ChunkAt(l, p).readers && Counted(ChunkAt(l, p)) && ChunkAt(l, p).refCount > 0
    ensures var m, j := WithChunk(l, p, Detach(ChunkAt(l, p), r)), p.chunk - l.base;
      && SameEntries(l, m) && Counted(m.chunks[j])
      && (forall i :: 0 <= i < |l.chunks| && i != j ==> m.chunks[i] == l.chunks[i])
  {
    RemovedReader(ChunkAt(l, p).readers, r);
  }

  lemma DetachedReader<R>(l: LogList<R>, p: Position, r: R, q: R)
    requires Live(l, p) && r in ChunkAt(l, p).readers && Counted(ChunkAt(l, p)) && ChunkAt(l, p).refCount > 0
    ensures var m, j := WithChunk(l, p, Detach(ChunkAt(l, p), r)), p.chunk - l.base;
      j < |m.chunks| && (q in m.chunks[j].readers <==> q in l.chunks[j].readers && q != r)
  {
    RemovedReader(ChunkAt(l, p).readers, r);
  }

  lemma LinkedHolder<R>(l: LogList<R>, cur: map<R, Position>, r: R)
    requires Linked(l, cur) && r in cur
    ensures Holds(l, cur[r], r) && Live(l, cur[r]) && Counted(ChunkAt(l, cur[r])) && ChunkAt(l, cur[r]).refCount > 0
    ensures r in ChunkAt(l, cur[r]).readers
  {
    hide ValidPos;
    assert Holds(l, cur[r], r);
    assert Live(l, cur[r]) by { HolderLive(l, cur[r], r); }
    assert Counted(l.chunks[cur[r].chunk - l.base]);
  }

  lemma HolderLive<R>(l: LogList<R>, p: Position, r: R)
    requires Holds(l, p, r)
    ensures Live(l, p) && r in ChunkAt(l, p).readers
  {
  }

  lemma DetachLinked<R>(l: LogList<R>, cur: map<R, Position>, r: R)
    requires Linked(l, cur) && r in cur
    ensures Live(l, cur[r]) && r in ChunkAt(l, cur[r]).readers && ChunkAt(l, cur[r]).refCount > 0
    ensures Linked(WithChunk(l, cur[r], Detach(ChunkAt(l, cur[r]), r)), cur - {r})
  {
    hide Counted, ValidPos, RemoveFirst, SameEntries, Detach, WithChunk;
    LinkedHolder(l, cur, r);
    var p := cur[r];
    DetachSame(l, p, r);
    var m, next, j := WithChunk(l, p, Detach(ChunkAt(l, p), r)), cur - {r}, p.chunk - l.base;
    SameShape(l, m);
    forall q | q in next
      ensures Holds(m, next[q], q)
    {
      LinkedHolder(l, cur, q);
      DetachedReader(l, p, r, q);
      HoldsKept(l, m, next[q], q);
    }
    forall i, q | 0 <= i < |m.chunks| && q in m.chunks[i].readers
      ensures q in next && next[q].chunk == m.base + i
    {
      if i == j { DetachedReader(l, p, r, q); } else { assert m.chunks[i] == l.chunks[i]; }
      LinkedReader(l, cur, i, q);
    }
  }

  lemma SameShape<R>(l: LogList<R>, m: LogList<R>)
    requires SameEntries(l, m)
    ensures l.base == m.base && |l.chunks| == |m.chunks|
  {
  }

  lemma RemovedReader<R>(s: seq<R>, r: R)
    requires r in s && Distinct(s)
    ensures Distinct(RemoveFirst(s, r))
    ensures forall x :: x in RemoveFirst(s, r) <==> x in s && x != r
  {
    var t := RemoveFirst(s, r);
    forall x
      ensures x in t <==> x in s && x != r
      ensures x in t ==> multiset(t)[x] == 1
    {
      assert x in t <==> multiset(t)[x] > 0;
      assert x in s <==> multiset(s)[x] > 0;
    }
  }

  /** Moving a cursor inside its chunk. */
  lemma MoveLinked<R>(l: LogList<R>, cur: map<R, Position>, r: R, p: Position)
    requires Linked(l, cur) && r in cur && ValidPos(l, p) && p.chunk == cur[r].chunk
    ensures Linked(l, cur[r := p])
  {
  }

  // ---- Searching for the first entry at or after a sequence number ----

  predicate AllBelow(es: seq<Entry>, s: nat) { forall i :: 0 <= i < |es| ==> es[i].sequence < s }

  /** The cursor splits the flat sequence at `s`: everything before is below it, nothing after is. */
  predicate SplitsAt<R>(l: LogList<R>, p: Position, s: nat)
    requires ValidPos(l, p)
  {
    && At(l, p) <= |Flat(l.chunks)|
    && AllBelow(Flat(l.chunks)[..At(l, p)], s)
    && (forall i :: At(l, p) <= i < |Flat(l.chunks)| ==> Flat(l.chunks)[i].sequence >= s)
  }

  lemma SplitsSame<R>(l: LogList<R>, m: LogList<R>, p: Position, s: nat)
    requires SameEntries(l, m) && ValidPos(l, p) && SplitsAt(l, p, s)
    ensures ValidPos(m, p) && SplitsAt(m, p, s)
  {
    SameAt(l, m, p);
  }

  lemma SortedPart(a: seq<Entry>, b: seq<Entry>, c: seq<Entry>)
    requires Sorted(a + b + c)
    ensures Sorted(a) && Sorted(b) && Sorted(c)
    ensures forall i, j :: 0 <= i < |a| && 0 <= j < |b| ==> a[i].sequence < b[j].sequence
  {
    var s := a + b + c;
    forall i, j | 0 <= i < j < |a| ensures a[i].sequence < a[j].sequence { assert s[i] == a[i] && s[j] == a[j]; }
    forall i, j | 0 <= i < j < |b| ensures b[i].sequence < b[j].sequence { assert s[|a| + i] == b[i] && s[|a| + j] == b[j]; }
    var n := |a| + |b|;
    forall i, j | 0 <= i < j < |c| ensures c[i].sequence < c[j].sequence { assert s[n + i] == c[i] && s[n + j] == c[j]; }
    forall i, j | 0 <= i < |a| && 0 <= j < |b| ensures a[i].sequence < b[j].sequence { assert s[i] == a[i] && s[|a| + j] == b[j]; }
  }

  /** A chunk whose highest number is below `s` adds nothing at or above it. */
  lemma SkipChunk<R>(cs: seq<Chunk<R>>, j: nat, s: nat)
    requires j < |cs| && HighestOk(cs[j]) && Sorted(Flat(cs)) && AllBelow(Flat(cs[..j]), s) && s > cs[j].highest
    ensures AllBelow(Flat(cs[..j + 1]), s)
  {
    FlatNext(cs, j);
    FlatSplit(cs, j);
    SortedPart(Flat(cs[..j]), cs[j].entries, Flat(cs[j + 1..]));
    LastBounds(cs[j].entries, s);
    hide Sorted;
  }

  lemma LastBounds(es: seq<Entry>, s: nat)
    requires Sorted(es) && (es != [] ==> es[|es| - 1].sequence < s)
    ensures AllBelow(es, s)
  {
    forall i | 0 <= i < |es| ensures es[i].sequence < s {
      if i < |es| - 1 { assert es[i].sequence < es[|es| - 1].sequence; }
    }
  }

  /** Where the chunk search and then the offset search stop is the first entry at or after `s`. */
  lemma SearchLands<R>(l: LogList<R>, p: Position, s: nat)
    requires ValidPos(l, p) && Shaped(l.chunks) && Sorted(Flat(l.chunks))
    requires var c, k, j := ChunkAt(l, p), IndexAt(ChunkAt(l, p).entries, p.offset), p.chunk - l.base;
      && AllBelow(Flat(l.chunks[..j]), s)
      && (s <= c.highest || j == |l.chunks| - 1)
      && (forall i :: 0 <= i < k ==> c.entries[i].sequence < s)
      && (k < |c.entries| ==> c.entries[k].sequence >= s)
    ensures SplitsAt(l, p, s)
  {
    hide Shaped, Sorted, OnBoundary, Size, Flat, AllBelow;
    var cs, j := l.chunks, p.chunk - l.base;
    var c, k, f := ChunkAt(l, p), IndexAt(ChunkAt(l, p).entries, p.offset), Flat(cs);
    FlatSplit(cs, j);
    if k == |c.entries| {
      FewBelow(c.entries, s);
      FullChunkIsLast(cs, j, s);
    }
    SplitFound(Flat(cs[..j]), c.entries, Flat(cs[j + 1..]), k, s, f);
  }

  lemma FewBelow(es: seq<Entry>, s: nat)
    requires forall i :: 0 <= i < |es| ==> es[i].sequence < s
    ensures AllBelow(es, s)
  {
  }

  lemma SplitFound(a: seq<Entry>, es: seq<Entry>, b: seq<Entry>, k: nat, s: nat, f: seq<Entry>)
    requires Sorted(f) && f == a + es + b && k <= |es| && AllBelow(a, s)
    requires (forall i :: 0 <= i < k ==> es[i].sequence < s) && (if k < |es| then es[k].sequence >= s else b == [])
    ensures |a| + k <= |f| && AllBelow(f[..|a| + k], s) && forall i :: |a| + k <= i < |f| ==> f[i].sequence >= s
  {
    hide Sorted;
    assert f[..|a| + k] == a + es[..k];
    if k < |es| {
      assert f[|a| + k] == es[k];
      SortedFrom(f, |a| + k, s);
    }
  }

  lemma SortedFrom(f: seq<Entry>, n: nat, s: nat)
    requires Sorted(f) && n < |f| && f[n].sequence >= s
    ensures forall i :: n <= i < |f| ==> f[i].sequence >= s
  {
  }

  /** The search leaves a chunk none of whose entries reach `s` only if it is the last one. */
  lemma FullChunkIsLast<R>(cs: seq<Chunk<R>>, j: nat, s: nat)
    requires Shaped(cs) && j < |cs| && AllBelow(cs[j].entries, s) && (s <= cs[j].highest || j == |cs| - 1)
    ensures Flat(cs[j + 1..]) == []
  {
    assert HighestOk(cs[j]);
    assert j == |cs| - 1;
  }

  // ---- Appending one entry ----

  /** A chunk is opened when there is none, and when the back one has no room for the entry. */
  function MakeRoom<R>(cs: seq<Chunk<R>>, maxSize: nat, e: Entry, engine: Engine): (r: seq<Chunk<R>>)
    ensures r != []
  {
    var blank := NewChunk(maxSize / CHUNK_SIZE_DIVISOR);
    var n := |cs| - 1;
    if cs == [] then [blank]
    else if WriteOffset(cs[n]) + TotalLen(e) <= cs[n].capacity then cs
    else cs[n := Finish(cs[n], engine)] + [blank]
  }

  /** LogToLogBuffer: make room, then write into the back chunk. */
  function Append<R>(cs: seq<Chunk<R>>, maxSize: nat, e: Entry, engine: Engine): (r: seq<Chunk<R>>)
    ensures r != []
  {
    var room := MakeRoom(cs, maxSize, e, engine);
    room[|room| - 1 := AddEntry(room[|room| - 1], e)]
  }

  /**
   LogToLogBuffer, case by case: the back chunk takes the entry if it has room; otherwise it is finished and
   a chunk of a quarter of the limit is opened for it.
   */
  lemma AppendCases<R>(cs: seq<Chunk<R>>, maxSize: nat, e: Entry, engine: Engine)
    ensures var r, n := Append(cs, maxSize, e, engine), |cs| - 1;
      if cs != [] && Size(cs[n].entries) + ENTRY_HEADER + |e.msg| <= cs[n].capacity then
        |r| == |cs| && r[..n] == cs[..n] && r[n] == cs[n].(entries := cs[n].entries + [e], highest := e.sequence)
      else
        && |r| == |cs| + 1 && (cs != [] ==> r[..n] == cs[..n])
        && r[n + 1].entries == [e] && r[n + 1].writable && r[n + 1].capacity == maxSize / 4 && r[n + 1].highest == e.sequence
        && r[n + 1].compressedLen == r[n + 1].refCount == 0 && r[n + 1].readers == []
        && (cs != [] ==> !r[n].writable && Packed(r[n], engine) && r[n].entries == cs[n].entries && r[n].capacity == cs[n].capacity && r[n].readers == cs[n].readers)
  {
  }

  lemma AppendPacked<R>(cs: seq<Chunk<R>>, maxSize: nat, e: Entry, engine: Engine)
    requires Shaped(cs) && AllPacked(cs, engine)
    ensures AllPacked(Append(cs, maxSize, e, engine), engine)
  {
    AppendCases(cs, maxSize, e, engine);
    hide Append;
    var r := Append(cs, maxSize, e, engine);
    forall j | 0 <= j < |r| ensures Packed(r[j], engine) {
      if j < |cs| - 1 { assert r[j] == r[..|cs| - 1][j] == cs[j]; }
    }
  }

  predicate ValidSize(maxSize: nat) { MIN_BUFFER <= maxSize <= MAX_BUFFER }

  lemma FlatBack<R>(cs: seq<Chunk<R>>, c: Chunk<R>)
    requires cs != []
    ensures Flat(cs) == Flat(cs[..|cs| - 1]) + cs[|cs| - 1].entries
    ensures Flat(cs[|cs| - 1 := c]) == Flat(cs[..|cs| - 1]) + c.entries
  {
    var n := |cs| - 1;
    assert cs == cs[..n + 1];
    FlatNext(cs, n);
    var ds := cs[n := c];
    assert ds == ds[..n + 1] && ds[..n] == cs[..n];
    FlatNext(ds, n);
  }

  /** Writing into a back chunk with room. */
  lemma WriteBack<R>(cs: seq<Chunk<R>>, e: Entry)
    requires Shaped(cs) && cs != []
    requires WriteOffset(cs[|cs| - 1]) + TotalLen(e) <= cs[|cs| - 1].capacity
    ensures var r := cs[|cs| - 1 := AddEntry(cs[|cs| - 1], e)];
      Shaped(r) && Flat(r) == Flat(cs) + [e]
  {
    var n := |cs| - 1;
    SizeSnoc(cs[n].entries, e);
    FlatBack(cs, AddEntry(cs[n], e));
    var r := cs[n := AddEntry(cs[n], e)];
    assert HighestOk(r[n]);
    assert forall j :: 0 <= j < n ==> HighestOk(cs[j]);
  }

  /** Closing a non-empty back chunk and opening another. */
  lemma Roll<R>(cs: seq<Chunk<R>>, maxSize: nat, engine: Engine)
    requires Shaped(cs) && cs != [] && cs[|cs| - 1].entries != [] && ValidSize(maxSize) && engine.Lossless()
    ensures var r := cs[|cs| - 1 := Finish(cs[|cs| - 1], engine)] + [NewChunk(maxSize / CHUNK_SIZE_DIVISOR)];
      Shaped(r) && Flat(r) == Flat(cs)
  {
    var n := |cs| - 1;
    var blank: Chunk<R> := NewChunk(maxSize / CHUNK_SIZE_DIVISOR);
    var done := cs[n := Finish(cs[n], engine)];
    SameFlat(done, cs);
    FlatConcat(done, [blank]);
    FlatOne(blank);
    assert |engine.compress(EncodeAll(cs[n].entries))| > 0;
    assert forall j :: 0 <= j < |cs| ==> HighestOk(cs[j]);
    assert Writable(blank) && HighestOk(done[n]) && HighestOk(blank);
  }

  lemma MakeRoomFlat<R>(cs: seq<Chunk<R>>, maxSize: nat, e: Entry, engine: Engine)
    requires Shaped(cs) && ValidSize(maxSize) && engine.Lossless()
    ensures var r := MakeRoom(cs, maxSize, e, engine);
      Shaped(r) && Flat(r) == Flat(cs) && WriteOffset(r[|r| - 1]) + TotalLen(e) <= r[|r| - 1].capacity
  {
    if cs == [] {
      FlatOne<R>(NewChunk(maxSize / CHUNK_SIZE_DIVISOR));
    } else if WriteOffset(cs[|cs| - 1]) + TotalLen(e) > cs[|cs| - 1].capacity {
      Roll(cs, maxSize, engine);
    }
  }

  /** The new entry goes last, no other entry moves, and the list keeps its shape. */
  lemma AppendFlat<R>(cs: seq<Chunk<R>>, maxSize: nat, e: Entry, engine: Engine)
    requires Shaped(cs) && ValidSize(maxSize) && engine.Lossless()
    ensures Flat(Append(cs, maxSize, e, engine)) == Flat(cs) + [e]
    ensures Shaped(Append(cs, maxSize, e, engine))
  {
    MakeRoomFlat(cs, maxSize, e, engine);
    WriteBack(MakeRoom(cs, maxSize, e, engine), e);
    hide MakeRoom, Shaped;
  }

  /** Appending keeps every cursor where it was. */
  lemma AppendKeepsCursor<R>(l: LogList<R>, m: LogList<R>, p: Position)
    requires m.base == l.base && |l.chunks| <= |m.chunks| && ValidPos(l, p)
    requires forall j :: 0 <= j < |l.chunks| - 1 ==> m.chunks[j].entries == l.chunks[j].entries
    requires l.chunks != [] ==> l.chunks[|l.chunks| - 1].entries <= m.chunks[|l.chunks| - 1].entries
    ensures ValidPos(m, p) && At(m, p) == At(l, p)
  {
    var j := p.chunk - l.base;
    SameFlat(l.chunks[..j], m.chunks[..j]);
    var es, fs := l.chunks[j].entries, m.chunks[j].entries;
    assert fs == es + fs[|es|..];
    BoundaryAppend(es, fs[|es|..], p.offset);
  }

  lemma AppendLinked<R>(l: LogList<R>, cur: map<R, Position>, maxSize: nat, e: Entry, engine: Engine)
    requires Linked(l, cur)
    ensures Linked(l.(chunks := Append(l.chunks, maxSize, e, engine)), cur)
    ensures forall r :: r in cur ==>
      && ValidPos(l, cur[r])
      && ValidPos(l.(chunks := Append(l.chunks, maxSize, e, engine)), cur[r])
      && At(l.(chunks := Append(l.chunks, maxSize, e, engine)), cur[r]) == At(l, cur[r])
  {
    hide Append, At, Flat, OnBoundary;
    var m := l.(chunks := Append(l.chunks, maxSize, e, engine));
    AppendReaders(l.chunks, maxSize, e, engine);
    forall r | r in cur
      ensures ValidPos(l, cur[r]) && ValidPos(m, cur[r]) && At(m, cur[r]) == At(l, cur[r])
      ensures Holds(m, cur[r], r)
    {
      assert Holds(l, cur[r], r);
      AppendKeepsCursor(l, m, cur[r]);
    }
    forall j | 0 <= j < |m.chunks|
      ensures Counted(m.chunks[j])
    {
      if j < |l.chunks| { assert Counted(l.chunks[j]); }
    }
  }

  /** Appending attaches and detaches nobody. */
  lemma AppendReaders<R>(cs: seq<Chunk<R>>, maxSize: nat, e: Entry, engine: Engine)
    ensures var r := Append(cs, maxSize, e, engine);
      && |cs| <= |r|
      && (forall j :: 0 <= j < |cs| ==> r[j].readers == cs[j].readers && r[j].refCount == cs[j].refCount)
      && (forall j :: |cs| <= j < |r| ==> r[j].readers == [] && r[j].refCount == 0)
      && (forall j :: 0 <= j < |cs| - 1 ==> r[j] == cs[j])
      && (cs != [] ==> cs[|cs| - 1].entries <= r[|cs| - 1].entries)
  {
  }

  // ---- Erasing from the front ----

  lemma PopLinked<R>(l: LogList<R>, cur: map<R, Position>)
    requires Linked(l, cur) && l.chunks != [] && l.chunks[0].readers == []
    ensures Linked(LogList(l.base + 1, l.chunks[1..]), cur)
    ensures forall r :: r in cur ==>
      && ValidPos(l, cur[r]) && ValidPos(LogList(l.base + 1, l.chunks[1..]), cur[r])
      && At(l, cur[r]) == At(LogList(l.base + 1, l.chunks[1..]), cur[r]) + |l.chunks[0].entries|
  {
    var m := LogList(l.base + 1, l.chunks[1..]);
    forall r | r in cur
      ensures ValidPos(l, cur[r]) && ValidPos(m, cur[r]) && At(l, cur[r]) == At(m, cur[r]) + |l.chunks[0].entries|
      ensures Holds(m, cur[r], r)
    {
      assert Holds(l, cur[r], r);
      var j := cur[r].chunk - l.base;
      assert j > 0;
      assert l.chunks[..j][1..] == m.chunks[..j - 1];
    }
  }

  // ---- Memory accounting ----

  function SizeUsed<R>(cs: seq<Chunk<R>>): nat
  {
    if cs == [] then 0 else ChunkSize(cs[0]) + SizeUsed(cs[1..])
  }

  lemma {:induction false} SizeUsedConcat<R>(a: seq<Chunk<R>>, b: seq<Chunk<R>>)
    ensures SizeUsed(a + b) == SizeUsed(a) + SizeUsed(b)
  {
    if a == [] {
      assert a + b == b;
    } else {
      assert (a + b)[1..] == a[1..] + b;
      SizeUsedConcat(a[1..], b);
    }
  }

  ghost predicate AllPacked<R>(cs: seq<Chunk<R>>, engine: Engine) { forall j :: 0 <= j < |cs| ==> Packed(cs[j], engine) }

  /** Bytes in use: a struct per chunk, the whole buffer of one that is written to, the compressed entries of any other. */
  ghost function UsedBytes<R>(cs: seq<Chunk<R>>, engine: Engine): nat
  {
    if cs == [] then 0
    else CHUNK_STRUCT_SIZE + (if cs[0].writable then cs[0].capacity else |engine.compress(EncodeAll(cs[0].entries))|) + UsedBytes(cs[1..], engine)
  }

  lemma {:induction false} SizeIsBytes<R>(cs: seq<Chunk<R>>, engine: Engine)
    requires AllPacked(cs, engine) && engine.Lossless()
    ensures SizeUsed(cs) == UsedBytes(cs, engine)
  {
    if cs != [] {
      assert Packed(cs[0], engine) && engine.compress(EncodeAll(cs[0].entries)) != [];
      assert AllPacked(cs[1..], engine) by { assert forall j :: 0 <= j < |cs| - 1 ==> cs[1..][j] == cs[j + 1] && Packed(cs[j + 1], engine); }
      SizeIsBytes(cs[1..], engine);
    }
  }

  /** The first n chunks are the shortest non-empty prefix holding `bytes`, or the whole list. */
  ghost predicate ShortestPrefix<R>(cs: seq<Chunk<R>>, n: nat, bytes: nat)
  {
    && n <= |cs| && (cs != [] ==> n > 0)
    && (n == |cs| || SizeUsed(cs[..n]) >= bytes)
    && (forall m :: 1 <= m < n ==> SizeUsed(cs[..m]) < bytes)
  }

  /** Bringing the list within a limit erases its first n chunks: none if it fits, the shortest prefix otherwise. */
  ghost predicate PrunedTo<R>(cs: seq<Chunk<R>>, n: nat, limit: nat)
  {
    n <= |cs| && if SizeUsed(cs) <= limit then n == 0 else ShortestPrefix(cs, n, SizeUsed(cs) - limit)
  }

  /** Freeing the excess that way leaves at most the limit, and keeps a back chunk within the limit. */
  lemma PrefixLeavesEnough<R>(cs: seq<Chunk<R>>, n: nat, bytes: nat)
    requires ShortestPrefix(cs, n, bytes) && bytes <= SizeUsed(cs)
    ensures SizeUsed(cs[n..]) <= SizeUsed(cs) - bytes
    ensures bytes > 0 && cs != [] && ChunkSize(cs[|cs| - 1]) <= SizeUsed(cs) - bytes ==> n < |cs|
  {
    assert cs == cs[..n] + cs[n..];
    SizeUsedConcat(cs[..n], cs[n..]);
    if n == |cs| && n > 0 {
      assert cs == cs[..n - 1] + [cs[n - 1]] && [cs[n - 1]][1..] == [];
      SizeUsedConcat(cs[..n - 1], [cs[n - 1]]);
    }
  }

  /** The back chunk after appending is the old one or a new one of a quarter of the limit. */
  lemma BackAfterAppend<R>(cs: seq<Chunk<R>>, maxSize: nat, e: Entry, engine: Engine)
    requires Shaped(cs) && ValidSize(maxSize) && (cs != [] ==> ChunkSize(cs[|cs| - 1]) <= maxSize)
    ensures var r := Append(cs, maxSize, e, engine); ChunkSize(r[|r| - 1]) <= maxSize && r[|r| - 1].entries != []
  {
  }

  /** Erasing chunks from the front of a list whose last chunk stays drops a prefix of the flat sequence only. */
  lemma DroppedPrefix<R>(cs: seq<Chunk<R>>, n: nat, flat: seq<Entry>, e: Entry)
    requires n < |cs| && Flat(cs) == flat + [e] && cs[|cs| - 1].entries != []
    ensures |Flat(cs[..n])| <= |flat| && Flat(cs[n..]) == flat[|Flat(cs[..n])|..] + [e]
  {
    assert cs == cs[..n] + cs[n..];
    FlatConcat(cs[..n], cs[n..]);
    var k := |Flat(cs[..n])|;
    FlatBack(cs[n..], cs[|cs| - 1]);
    assert Flat(cs[n..]) == (flat + [e])[k..];
  }

  lemma BackWithin<R>(cs: seq<Chunk<R>>)
    requires cs != []
    ensures ChunkSize(cs[|cs| - 1]) <= SizeUsed(cs)
  {
    var n := |cs| - 1;
    assert cs == cs[..n] + [cs[n]] && [cs[n]][1..] == [];
    SizeUsedConcat(cs[..n], [cs[n]]);
  }

  ghost predicate NobodyAttached<R>(cs: seq<Chunk<R>>)
  {
    forall j :: 0 <= j < |cs| ==> cs[j].readers == [] && cs[j].refCount == 0
  }

  /** Appending to a list nobody is attached to, without touching the chunks before its back one. */
  lemma AppendDeserted<R>(cs: seq<Chunk<R>>, maxSize: nat, e: Entry, engine: Engine)
    requires NobodyAttached(cs) && cs != []
    ensures var r := Append(cs, maxSize, e, engine);
      NobodyAttached(r) && |cs| <= |r| && r[..|cs| - 1] == cs[..|cs| - 1]
  {
    AppendReaders(cs, maxSize, e, engine);
  }

  function DesertedAll<R>(cs: seq<Chunk<R>>): (r: seq<Chunk<R>>)
    ensures |r| == |cs| && forall j :: 0 <= j < |cs| ==> r[j] == Deserted(cs[j])
  {
    seq(|cs|, j requires 0 <= j < |cs| => Deserted(cs[j]))
  }

  /** The first j chunks have been let go of. */
  function DesertedUpTo<R>(l: LogList<R>, j: nat): LogList<R>
    requires j <= |l.chunks|
  {
    l.(chunks := DesertedAll(l.chunks[..j]) + l.chunks[j..])
  }

  lemma DesertedEnds<R>(l: LogList<R>)
    ensures DesertedUpTo(l, 0) == l && DesertedUpTo(l, |l.chunks|) == l.(chunks := DesertedAll(l.chunks))
  {
    assert l.chunks[..|l.chunks|] == l.chunks;
  }

  lemma DesertedStep<R>(l: LogList<R>, j: nat)
    requires j < |l.chunks|
    ensures var m := DesertedUpTo(l, j);
      && |m.chunks| == |l.chunks| && m.chunks[j] == l.chunks[j]
      && m.(chunks := m.chunks[j := Deserted(m.chunks[j])]) == DesertedUpTo(l, j + 1)
      && DesertedUpTo(l, j + 1).chunks[j] == Deserted(l.chunks[j])
  {
  }

  lemma DesertedNext<R>(cs: seq<Chunk<R>>, j: nat)
    requires j < |cs|
    ensures DesertedAll(cs[..j + 1]) == DesertedAll(cs[..j]) + [Deserted(cs[j])]
  {
  }

  lemma DesertedFacts<R>(cs: seq<Chunk<R>>)
    ensures Flat(DesertedAll(cs)) == Flat(cs) && NobodyAttached(DesertedAll(cs))
    ensures Shaped(cs) ==> Shaped(DesertedAll(cs))
    ensures cs != [] ==> ChunkSize(DesertedAll(cs)[|cs| - 1]) == ChunkSize(cs[|cs| - 1])
  {
    hide Shaped, DesertedAll;
    SameFlat(DesertedAll(cs), cs);
    if Shaped(cs) { DesertedShaped(cs, DesertedAll(cs)); }
  }

  lemma DesertedPacked<R>(cs: seq<Chunk<R>>, engine: Engine)
    requires AllPacked(cs, engine)
    ensures AllPacked(DesertedAll(cs), engine)
  {
    forall j | 0 <= j < |cs| ensures Packed(DesertedAll(cs)[j], engine) { assert Packed(cs[j], engine); }
  }

  lemma DesertedShaped<R>(cs: seq<Chunk<R>>, ds: seq<Chunk<R>>)
    requires Shaped(cs) && |ds| == |cs| && forall j :: 0 <= j < |cs| ==> ds[j] == Deserted(cs[j])
    ensures Shaped(ds)
  {
    forall j | 0 <= j < |ds| ensures HighestOk(ds[j]) { assert HighestOk(cs[j]); }
  }

  lemma OpenPacked<R>(cs: seq<Chunk<R>>, j: nat, maxSize: nat, engine: Engine)
    requires AllPacked(cs, engine) && j <= |cs|
    ensures AllPacked(DesertedAll(cs[..j]) + [NewChunk(maxSize / CHUNK_SIZE_DIVISOR)], engine)
  {
    DesertedPacked(cs[..j], engine);
  }

  lemma PackedSuffix<R>(cs: seq<Chunk<R>>, n: nat, engine: Engine)
    requires AllPacked(cs, engine) && n <= |cs|
    ensures AllPacked(cs[n..], engine)
  {
  }

  /** Finished chunks followed by a blank writable one. */
  lemma OpenChunk<R>(cs: seq<Chunk<R>>, j: nat, maxSize: nat)
    requires Shaped(cs) && j < |cs| && ValidSize(maxSize)
    ensures var r := DesertedAll(cs[..j]) + [NewChunk(maxSize / CHUNK_SIZE_DIVISOR)];
      Shaped(r) && NobodyAttached(r) && Flat(r) == Flat(cs[..j]) && ChunkSize(r[j]) <= maxSize && r[j].capacity == maxSize / 4
  {
    var blank: Chunk<R> := NewChunk(maxSize / CHUNK_SIZE_DIVISOR);
    var r := DesertedAll(cs[..j]) + [blank];
    SameFlat(DesertedAll(cs[..j]), cs[..j]);
    FlatConcat(DesertedAll(cs[..j]), [blank]);
    FlatOne(blank);
    assert Writable(blank);
    forall i | 0 <= i < |r| ensures HighestOk(r[i]) { assert i < j ==> HighestOk(cs[i]); }
  }
}
